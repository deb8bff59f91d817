/** An abstract page: the elements the content script looks at, addressed
    by index, with the attributes and the lookup results the script reads.
    Selector matching itself is not modelled: `lookup` holds, for a scope
    element and a selector piece, the element `scope.querySelector('& ' +
    piece)` returns, and has no entry where it returns null. */
module Dom {

  import opened Wrappers

  /** An element, as its index in `Document.nodes`. */
  type Ref = nat

  /** What `element.shadowRoot` gives: an open shadow root, with its
      `firstElementChild`, or null. An element with a closed shadow root
      reads as `NoShadowRoot`, since `.shadowRoot` is null for it. */
  datatype Shadow = NoShadowRoot | ShadowRoot(firstElementChild: Option<Ref>)

  /** The element's interface, with the data each one contributes. */
  datatype Kind =
    | InputEl(inputType: string, pattern: string, firstLabel: Option<string>)
      // `type` and `pattern` as the element's properties report them ("" when
      // the attribute is absent); `labels[0]?.textContent`
    | TextAreaEl
    | SelectEl
    | FieldSetEl(legend: Option<string>, members: seq<Ref>)
      // `querySelector('legend')?.textContent`; `querySelectorAll('input[name]')`
    | FormEl(fields: seq<Ref>, labelFor: map<string, string>)
      // every descendant element in document order; for each id, the
      // `textContent` of the first `label[for=id]` inside the form
    | OtherEl

  datatype Node = Node(
    kind: Kind,
    name: Option<string>,   // the `name` attribute
    id: string,             // the `id` property ("" when absent)
    readonly: bool,         // the `readonly` attribute is present
    disabled: bool,         // the `disabled` attribute is present
    inFieldset: bool,       // some ancestor is a `fieldset`
    shadow: Shadow)

  predicate IsInput(n: Node) {
    n.kind.InputEl?
  }

  /** `input.type === 'file'` */
  predicate IsFileInput(n: Node) {
    n.kind.InputEl? && n.kind.inputType == "file"
  }

  /** `input.type === 'checkbox'` */
  predicate IsCheckbox(n: Node) {
    n.kind.InputEl? && n.kind.inputType == "checkbox"
  }

  datatype Document = Document(nodes: seq<Node>, body: Ref, lookup: map<(Ref, string), Ref>) {

    predicate Has(r: Ref) {
      r < |nodes|
    }

    predicate AllIn(refs: seq<Ref>) {
      forall r :: r in refs ==> Has(r)
    }

    /** Every reference in the document points at one of its elements; the
        inputs a fieldset reports are named inputs inside a fieldset. */
    ghost predicate Valid() {
      && Has(body)
      && (forall key :: key in lookup ==> Has(lookup[key]))
      && (forall r :: 0 <= r < |nodes| ==> NodeValid(nodes[r]))
    }

    ghost predicate NodeValid(n: Node) {
      && (n.shadow.ShadowRoot? && n.shadow.firstElementChild.Some? ==> Has(n.shadow.firstElementChild.value))
      && (n.kind.FormEl? ==> AllIn(n.kind.fields))
      && (n.kind.FieldSetEl? ==> forall m :: m in n.kind.members ==> MemberValid(m))
    }

    ghost predicate MemberValid(m: Ref) {
      Has(m) && IsInput(nodes[m]) && nodes[m].name.Some? && nodes[m].inFieldset
    }

    /** `inputs[0]?.type === 'checkbox'` */
    predicate FirstIsCheckbox(inputs: seq<Ref>) {
      |inputs| > 0 && Has(inputs[0]) && IsCheckbox(nodes[inputs[0]])
    }

    predicate IsForm(r: Ref) {
      Has(r) && nodes[r].kind.FormEl?
    }
  }
}
