/** `getTopLevelFieldElements` and `getFieldDefinitions`: the description of
    a form that is sent to the completion service, built as a map/filter
    pipeline over the form's elements. */
module Extraction {

  import opened Wrappers
  import opened Dom
  import opened Strings

  /** The two shapes of a field definition (scripts/types.ts). */
  datatype FieldDefinition =
    | TextField(name: string, labelText: string, pattern: Option<string>)
    | PicklistField(name: string, labelText: string, isMultiSelect: bool, values: seq<string>)

  /** The element's `name` property: the attribute's value, "" without one. */
  function NameOf(n: Node): string {
    n.name.GetOr("")
  }

  /** `String(x?.textContent)`: the text, or "undefined" when the element
      looked up is missing. */
  function LabelString(text: Option<string>): string {
    match text
    case Some(t) => t
    case None => "undefined"
  }

  /** `form.querySelector('label[for="' + id + '"]')?.textContent` */
  function LabelFor(labelFor: map<string, string>, id: string): Option<string> {
    if id in labelFor then Some(labelFor[id]) else None
  }

  /** The selector `[name]:not([readonly]):not([disabled]):not(fieldset [name]), fieldset`. */
  predicate IsTopLevel(n: Node) {
    n.kind.FieldSetEl? || (n.name.Some? && !n.readonly && !n.disabled && !n.inFieldset)
  }

  /** The elements among `elements` that the selector above matches, in
      their order. */
  function TopLevel(doc: Document, elements: seq<Ref>): (top: seq<Ref>)
    requires doc.AllIn(elements)
    ensures doc.AllIn(top)
    ensures forall e :: e in top <==> e in elements && IsTopLevel(doc.nodes[e])
    ensures |top| <= |elements|
    decreases |elements|
  {
    if elements == [] then []
    else
      assert elements[0] in elements;
      var rest := TopLevel(doc, elements[1..]);
      if IsTopLevel(doc.nodes[elements[0]]) then [elements[0]] + rest else rest
  }

  /** The filter keeps document order: it distributes over concatenation. */
  lemma {:induction false} TopLevelConcat(doc: Document, a: seq<Ref>, b: seq<Ref>)
    requires doc.AllIn(a) && doc.AllIn(b)
    ensures TopLevel(doc, a + b) == TopLevel(doc, a) + TopLevel(doc, b)
    decreases |a|
  {
    if a == [] {
      assert a + b == b;
    } else {
      assert (a + b)[1..] == a[1..] + b;
      TopLevelConcat(doc, a[1..], b);
    }
  }

  /** `getTopLevelFieldElements(form)` */
  function GetTopLevelFieldElements(doc: Document, form: Ref): (top: seq<Ref>)
    requires doc.Valid() && doc.IsForm(form)
    ensures doc.AllIn(top)
    ensures forall e :: e in top <==> e in doc.nodes[form].kind.fields && IsTopLevel(doc.nodes[e])
  {
    TopLevel(doc, doc.nodes[form].kind.fields)
  }

  /** The inputs a fieldset reports are never candidates themselves: a
      fieldset yields one picklist and its inputs no text definitions. */
  lemma FieldsetMembersAreNotCandidates(doc: Document, form: Ref, fieldset: Ref, m: Ref)
    requires doc.Valid() && doc.IsForm(form) && doc.Has(fieldset)
    requires doc.nodes[fieldset].kind.FieldSetEl? && m in doc.nodes[fieldset].kind.members
    ensures m !in GetTopLevelFieldElements(doc, form)
  {
    assert doc.NodeValid(doc.nodes[fieldset]);
    assert doc.MemberValid(m);
  }

  /** The `values` of a picklist: the `label[for=id]` texts of its inputs, in
      order, without the missing and the empty ones, untrimmed. */
  function MemberLabels(doc: Document, labelFor: map<string, string>, members: seq<Ref>): (values: seq<string>)
    requires doc.AllIn(members)
    ensures |values| <= |members|
    ensures forall v :: v in values ==> v != ""
    ensures forall v :: v in values ==> exists m :: m in members && LabelFor(labelFor, doc.nodes[m].id) == Some(v)
    ensures forall m :: m in members && LabelFor(labelFor, doc.nodes[m].id).Some? && LabelFor(labelFor, doc.nodes[m].id).value != ""
              ==> LabelFor(labelFor, doc.nodes[m].id).value in values
    decreases |members|
  {
    if members == [] then []
    else
      assert members[0] in members;
      var rest := MemberLabels(doc, labelFor, members[1..]);
      match LabelFor(labelFor, doc.nodes[members[0]].id)
      case Some(t) => if t != "" then [t] + rest else rest
      case None => rest
  }

  /** The labels keep the inputs' order, repeats included: the map/filter
      distributes over concatenation. */
  lemma {:induction false} MemberLabelsConcat(doc: Document, labelFor: map<string, string>, a: seq<Ref>, b: seq<Ref>)
    requires doc.AllIn(a) && doc.AllIn(b)
    ensures MemberLabels(doc, labelFor, a + b) == MemberLabels(doc, labelFor, a) + MemberLabels(doc, labelFor, b)
    decreases |a|
  {
    if a == [] {
      assert a + b == b;
    } else {
      assert (a + b)[1..] == a[1..] + b;
      assert (a + b)[0] == a[0];
      MemberLabelsConcat(doc, labelFor, a[1..], b);
    }
  }

  /** The definition one candidate element maps to. */
  function DefinitionOf(doc: Document, labelFor: map<string, string>, e: Ref): (d: FieldDefinition)
    requires doc.Valid() && doc.Has(e)
    ensures d.name == NameOf(doc.nodes[e])
    ensures d.PicklistField? <==> doc.nodes[e].kind.FieldSetEl?
    ensures d.TextField? ==> d.labelText == LabelString(LabelFor(labelFor, doc.nodes[e].id))
    ensures d.TextField? ==> (d.pattern.Some? <==> doc.nodes[e].kind.InputEl? && doc.nodes[e].kind.pattern != "")
    ensures d.TextField? && d.pattern.Some? ==> d.pattern.value == doc.nodes[e].kind.pattern
    ensures d.PicklistField? ==> d.labelText == LabelString(doc.nodes[e].kind.legend)
    ensures d.PicklistField? ==> var inputs := doc.nodes[e].kind.members;
      (d.isMultiSelect <==> |inputs| > 1 && doc.FirstIsCheckbox(inputs))
    ensures d.PicklistField? ==> d.values == MemberLabels(doc, labelFor, doc.nodes[e].kind.members)
  {
    var node := doc.nodes[e];
    assert doc.NodeValid(node);
    match node.kind
    case FieldSetEl(legend, inputs) =>
      PicklistField(
        NameOf(node),
        LabelString(legend),
        doc.FirstIsCheckbox(inputs) && |inputs| > 1,
        MemberLabels(doc, labelFor, inputs))
    case InputEl(_, pattern, _) =>
      TextField(NameOf(node), LabelString(LabelFor(labelFor, node.id)), if pattern != "" then Some(pattern) else None)
    case _ =>
      TextField(NameOf(node), LabelString(LabelFor(labelFor, node.id)), None)
  }

  /** Map every element to its definition and drop those whose label is the
      empty string, keeping the order. */
  function Definitions(doc: Document, labelFor: map<string, string>, elements: seq<Ref>): (defs: seq<FieldDefinition>)
    requires doc.Valid() && doc.AllIn(elements)
    ensures |defs| <= |elements|
    ensures forall d :: d in defs ==> d.labelText != ""
    ensures forall d :: d in defs ==> exists e :: e in elements && d == DefinitionOf(doc, labelFor, e)
    ensures forall e :: e in elements && DefinitionOf(doc, labelFor, e).labelText != "" ==> DefinitionOf(doc, labelFor, e) in defs
    decreases |elements|
  {
    if elements == [] then []
    else
      var d := DefinitionOf(doc, labelFor, elements[0]);
      var rest := Definitions(doc, labelFor, elements[1..]);
      if d.labelText != "" then [d] + rest else rest
  }

  /** Dropping blank labels keeps document order. */
  lemma {:induction false} DefinitionsConcat(doc: Document, labelFor: map<string, string>, a: seq<Ref>, b: seq<Ref>)
    requires doc.Valid() && doc.AllIn(a) && doc.AllIn(b)
    ensures Definitions(doc, labelFor, a + b) == Definitions(doc, labelFor, a) + Definitions(doc, labelFor, b)
    decreases |a|
  {
    if a == [] {
      assert a + b == b;
    } else {
      assert (a + b)[1..] == a[1..] + b;
      DefinitionsConcat(doc, labelFor, a[1..], b);
    }
  }

  /** `getFieldDefinitions(form)` */
  function GetFieldDefinitions(doc: Document, form: Ref): (defs: seq<FieldDefinition>)
    requires doc.Valid() && doc.IsForm(form)
    ensures forall d :: d in defs ==> d.labelText != ""
  {
    Definitions(doc, doc.nodes[form].kind.labelFor, GetTopLevelFieldElements(doc, form))
  }

  /** A scalar candidate with no `label[for=id]` in the form is described with
      the label "undefined", which is not blank and so is sent. */
  lemma MissingLabelIsSentAsUndefined(doc: Document, form: Ref, e: Ref)
    requires doc.Valid() && doc.IsForm(form)
    requires e in GetTopLevelFieldElements(doc, form) && !doc.nodes[e].kind.FieldSetEl?
    requires doc.nodes[e].id !in doc.nodes[form].kind.labelFor
    ensures DefinitionOf(doc, doc.nodes[form].kind.labelFor, e).labelText == "undefined"
    ensures DefinitionOf(doc, doc.nodes[form].kind.labelFor, e) in GetFieldDefinitions(doc, form)
  {
  }

  /** A label that is only whitespace is not blank: the definition is sent,
      with the label untrimmed. */
  lemma WhitespaceLabelIsKept(doc: Document, form: Ref, e: Ref, t: string)
    requires doc.Valid() && doc.IsForm(form)
    requires e in GetTopLevelFieldElements(doc, form) && !doc.nodes[e].kind.FieldSetEl?
    requires t != [] && AllWs(t)
    requires LabelFor(doc.nodes[form].kind.labelFor, doc.nodes[e].id) == Some(t)
    ensures TextField(NameOf(doc.nodes[e]), t, DefinitionOf(doc, doc.nodes[form].kind.labelFor, e).pattern)
              in GetFieldDefinitions(doc, form)
  {
  }

  /** A definition is dropped exactly when its label is empty: a fieldset
      whose legend is empty text contributes nothing. */
  lemma EmptyLegendDropsFieldset(doc: Document, form: Ref, e: Ref)
    requires doc.Valid() && doc.IsForm(form)
    requires e in GetTopLevelFieldElements(doc, form) && doc.nodes[e].kind.FieldSetEl?
    requires doc.nodes[e].kind.legend == Some("")
    ensures DefinitionOf(doc, doc.nodes[form].kind.labelFor, e) !in GetFieldDefinitions(doc, form)
  {
  }
}
