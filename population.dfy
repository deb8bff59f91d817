/** `populateInput` and `populateFieldsIntoForm`: writing the completion
    service's values into the live form. The page's control state (each
    control's `checked` and `value`) and the events dispatched on the
    controls live in a `Page` object that the two methods update in place.

    Their specification has three layers. `Calls` lists, in order, the
    `populateInput(target, value)` calls the loop makes; which calls are made
    depends only on the form and the values, never on the controls' state.
    `Effects` runs those calls up to the first one that throws and gives the
    writes they perform. `ApplyWrites` applies writes to a control state. */
module Population {

  import opened Wrappers
  import opened Strings
  import opened Dom
  import opened Extraction

  /** The value of a `fieldValues` entry (scripts/types.ts): a string or an
      array of strings. */
  datatype FieldValue = Single(text: string) | Multiple(items: seq<string>)

  type FieldValues = map<string, FieldValue>

  /** The `value` argument of `populateInput`. */
  datatype Scalar = BoolValue(b: bool) | StringValue(s: string)

  /** `Boolean(value)` */
  function Truthy(v: Scalar): bool {
    match v
    case BoolValue(b) => b
    case StringValue(s) => s != ""
  }

  /** `String(value)` */
  function Stringify(v: Scalar): string {
    match v
    case BoolValue(b) => if b then "true" else "false"
    case StringValue(s) => s
  }

  datatype Action = SetChecked(on: bool) | SetValue(text: string)

  /** One assignment to a control property. */
  datatype Write = Write(target: Ref, action: Action)

  datatype EventKind = InputEvent | ChangeEvent

  /** A dispatched event, as the log records it. */
  datatype Event = Event(target: Ref, kind: EventKind)

  /** The state `populateInput` touches: `checked` and `value` per control,
      and the log of dispatched events. */
  datatype Controls = Controls(checked: map<Ref, bool>, value: map<Ref, string>, events: seq<Event>)

  /** A call `populateInput(target, arg)`. */
  datatype Call = Call(target: Ref, arg: Scalar)

  /** What a run of calls does: the writes performed, and the message of the
      error that stopped it, if one did. */
  datatype Effect = Effect(writes: seq<Write>, error: Option<string>)

  const CouldNotFindInput := "Could not find input"

  /** The name of the `DOMException` a file input's `value` setter throws
      for any string but the empty one. */
  const InvalidStateError := "InvalidStateError"

  /** `input instanceof HTMLInputElement || input instanceof HTMLTextAreaElement` */
  predicate IsTextControl(n: Node) {
    n.kind.InputEl? || n.kind.TextAreaEl?
  }

  /** `input.type === 'checkbox' || input.type === 'radio'` */
  predicate IsToggle(n: Node) {
    n.kind.InputEl? && (n.kind.inputType == "checkbox" || n.kind.inputType == "radio")
  }

  /** What `populateInput(input, value)` writes, or the error it throws.
      Inputs and textareas are written; anything else (a select, a button,
      null) makes it throw "Could not find input". A file input accepts
      only the empty string as its `value`, and its setter throws an
      `InvalidStateError` for any other string. */
  function InputWrite(doc: Document, input: Option<Ref>, v: Scalar): (r: Result<Write, string>)
    ensures r.Success? <==> && input.Some? && doc.Has(input.value) && IsTextControl(doc.nodes[input.value])
                            && !(IsFileInput(doc.nodes[input.value]) && Stringify(v) != "")
    ensures r.Failure? ==>
      r.error == if input.Some? && doc.Has(input.value) && IsTextControl(doc.nodes[input.value])
                 then InvalidStateError else CouldNotFindInput
    ensures r.Success? ==> && r.value.target == input.value
                           && r.value.action == if IsToggle(doc.nodes[input.value]) then SetChecked(Truthy(v))
                                                else SetValue(Stringify(v))
  {
    match input
    case None => Failure(CouldNotFindInput)
    case Some(r) =>
      if !doc.Has(r) then Failure(CouldNotFindInput)
      else match doc.nodes[r].kind
      case InputEl(inputType, _, _) =>
        if inputType == "checkbox" || inputType == "radio" then Success(Write(r, SetChecked(Truthy(v))))
        else if inputType == "file" && Stringify(v) != "" then Failure(InvalidStateError)
        else Success(Write(r, SetValue(Stringify(v))))
      case TextAreaEl => Success(Write(r, SetValue(Stringify(v))))
      case _ => Failure(CouldNotFindInput)
  }

  /** The two events each write dispatches, `input` first. */
  function EventsOf(w: Write): seq<Event> {
    [Event(w.target, InputEvent), Event(w.target, ChangeEvent)]
  }

  function ApplyWrite(c: Controls, w: Write): Controls {
    match w.action
    case SetChecked(on) => Controls(c.checked[w.target := on], c.value, c.events + EventsOf(w))
    case SetValue(text) => Controls(c.checked, c.value[w.target := text], c.events + EventsOf(w))
  }

  function ApplyWrites(c: Controls, ws: seq<Write>): Controls
    decreases |ws|
  {
    if ws == [] then c else ApplyWrite(ApplyWrites(c, ws[..|ws| - 1]), ws[|ws| - 1])
  }

  // ---------------------------------------------------------------------
  // Which calls `populateFieldsIntoForm` makes

  /** `fieldValues[name]`; `None` stands for `undefined`. */
  function Lookup(fieldValues: FieldValues, name: string): Option<FieldValue> {
    if name in fieldValues then Some(fieldValues[name]) else None
  }

  /** A trimmed label is selected when it equals the selected string, or
      when the selected value is an array that contains it. */
  predicate Selects(selected: Option<FieldValue>, trimmedLabel: string) {
    match selected
    case None => false
    case Some(Single(text)) => text == trimmedLabel
    case Some(Multiple(items)) => trimmedLabel in items
  }

  /** A fieldset input is populated when its first label has non-empty text
      whose trimmed form is selected. */
  predicate MemberSelected(doc: Document, m: Ref, selected: Option<FieldValue>) {
    && doc.Has(m)
    && match doc.nodes[m].kind
       case InputEl(_, _, Some(text)) => text != "" && Selects(selected, Trim(text))
       case _ => false
  }

  /** The test the fieldset loop applies to one input: read the text of its
      first label, skip it when that is missing or empty, else compare its
      trimmed form with the selected values. */
  method IsLabelSelected(doc: Document, input: Ref, selectedValues: Option<FieldValue>) returns (chosen: bool)
    requires doc.Has(input) && doc.nodes[input].kind.InputEl?
    ensures chosen == MemberSelected(doc, input, selectedValues)
  {
    var labelText := doc.nodes[input].kind.firstLabel;
    chosen := false;
    if labelText.Some? && labelText.value != "" {
      var trimmedLabel := Trim(labelText.value);
      chosen := Selects(selectedValues, trimmedLabel);
    }
  }

  predicate AllTruthy(calls: seq<Call>) {
    forall c :: c in calls ==> Truthy(c.arg)
  }

  /** The calls made for a fieldset's inputs: `populateInput(input, true)` for
      each selected one, in order. */
  function MemberCalls(doc: Document, inputs: seq<Ref>, selected: Option<FieldValue>): (calls: seq<Call>)
    ensures |calls| <= |inputs|
    decreases |inputs|
  {
    if inputs == [] then []
    else
      var init := inputs[..|inputs| - 1];
      var m := inputs[|inputs| - 1];
      MemberCalls(doc, init, selected) + (if MemberSelected(doc, m, selected) then [Call(m, BoolValue(true))] else [])
  }

  /** A fieldset's calls are exactly `populateInput(m, true)` for its
      selected inputs `m`. */
  lemma {:induction false} MemberCallsSpec(doc: Document, inputs: seq<Ref>, selected: Option<FieldValue>)
    ensures var calls := MemberCalls(doc, inputs, selected);
      && (forall c :: c in calls ==> c.target in inputs && MemberSelected(doc, c.target, selected) && c.arg == BoolValue(true))
      && (forall m :: m in inputs && MemberSelected(doc, m, selected) ==> Call(m, BoolValue(true)) in calls)
    decreases |inputs|
  {
    if inputs != [] {
      var init := inputs[..|inputs| - 1];
      MemberCallsSpec(doc, init, selected);
      assert inputs == init + [inputs[|inputs| - 1]];
    }
  }

  /** One more input adds at most its own call, at the end. */
  lemma MemberCallsStep(doc: Document, inputs: seq<Ref>, j: nat, selected: Option<FieldValue>)
    requires j < |inputs|
    ensures var prior := MemberCalls(doc, inputs[..j], selected);
      var m := inputs[j];
      MemberCalls(doc, inputs[..j + 1], selected)
        == if MemberSelected(doc, m, selected) then prior + [Call(m, BoolValue(true))] else prior
  {
    assert inputs[..j + 1][..j] == inputs[..j];
  }

  /** The calls made for one candidate element. */
  function ElementCalls(doc: Document, fieldValues: FieldValues, e: Ref): (calls: seq<Call>)
    ensures |calls| <= if doc.Has(e) && doc.nodes[e].kind.FieldSetEl? then |doc.nodes[e].kind.members| else 1
  {
    if !doc.Has(e) then [] else
    var node := doc.nodes[e];
    var selectedValues := Lookup(fieldValues, NameOf(node));
    match node.kind
    case FieldSetEl(_, inputs) =>
      MemberCalls(doc, inputs, selectedValues)
    case _ =>
      match selectedValues
      case Some(Single(text)) => if text != "" then [Call(e, StringValue(text))] else []
      case _ => []
  }

  /** The calls made for the candidates, in order. */
  function Calls(doc: Document, fieldValues: FieldValues, elements: seq<Ref>): (calls: seq<Call>)
    ensures AllTruthy(calls)
    decreases |elements|
  {
    if elements == [] then []
    else
      ElementCallsTruthy(doc, fieldValues, elements[|elements| - 1]);
      Calls(doc, fieldValues, elements[..|elements| - 1]) + ElementCalls(doc, fieldValues, elements[|elements| - 1])
  }

  /** A candidate's calls pass `true` to fieldset inputs and a non-empty
      string to a scalar control: every value is truthy. */
  lemma ElementCallsTruthy(doc: Document, fieldValues: FieldValues, e: Ref)
    ensures AllTruthy(ElementCalls(doc, fieldValues, e))
  {
    if doc.Has(e) && doc.nodes[e].kind.FieldSetEl? {
      MemberCallsSpec(doc, doc.nodes[e].kind.members, Lookup(fieldValues, NameOf(doc.nodes[e])));
    }
  }

  lemma {:induction false} CallsConcat(doc: Document, fieldValues: FieldValues, a: seq<Ref>, b: seq<Ref>)
    ensures Calls(doc, fieldValues, a + b) == Calls(doc, fieldValues, a) + Calls(doc, fieldValues, b)
    decreases |b|
  {
    if b == [] {
      assert a + b == a;
    } else {
      var init, last := b[..|b| - 1], b[|b| - 1];
      assert (a + b)[..|a + b| - 1] == a + init;
      assert (a + b)[|a + b| - 1] == last;
      CallsConcat(doc, fieldValues, a, init);
      var tail := ElementCalls(doc, fieldValues, last);
      assert Calls(doc, fieldValues, a + b) == Calls(doc, fieldValues, a + init) + tail;
      assert Calls(doc, fieldValues, b) == Calls(doc, fieldValues, init) + tail;
      assert Calls(doc, fieldValues, a) + Calls(doc, fieldValues, init) + tail
          == Calls(doc, fieldValues, a) + (Calls(doc, fieldValues, init) + tail);
    }
  }

  // ---------------------------------------------------------------------
  // Running the calls

  /** Run `calls` in order. The first call `populateInput` refuses throws and
      ends the run; the writes of the calls before it stay. */
  function Effects(doc: Document, calls: seq<Call>): (e: Effect)
    ensures |e.writes| <= |calls|
    decreases |calls|
  {
    if calls == [] then Effect([], None)
    else
      var init := calls[..|calls| - 1];
      var last := calls[|calls| - 1];
      var before := Effects(doc, init);
      if before.error.Some? then before
      else
        match InputWrite(doc, Some(last.target), last.arg)
        case Success(w) => Effect(before.writes + [w], None)
        case Failure(message) => Effect(before.writes, Some(message))
  }

  /** The run performs the writes of a prefix of the calls, each the write
      its call asks for; when it stops early, the call it stops at is one
      `populateInput` refuses, and the error is the one that call throws. */
  lemma {:induction false} EffectsSpec(doc: Document, calls: seq<Call>)
    ensures var e := Effects(doc, calls);
      && (forall k :: 0 <= k < |e.writes| ==> InputWrite(doc, Some(calls[k].target), calls[k].arg) == Success(e.writes[k]))
      && (e.error.None? ==> |e.writes| == |calls|)
      && (e.error.Some? ==> && |e.writes| < |calls|
                            && InputWrite(doc, Some(calls[|e.writes|].target), calls[|e.writes|].arg) == Failure(e.error.value))
    decreases |calls|
  {
    if calls != [] {
      var init := calls[..|calls| - 1];
      EffectsSpec(doc, init);
      var before := Effects(doc, init);
      forall k | 0 <= k < |before.writes|
        ensures calls[k] == init[k]
      {
      }
    }
  }

  /** Once a call has thrown, later calls change nothing. */
  lemma {:induction false} EffectsStopAtError(doc: Document, a: seq<Call>, b: seq<Call>)
    requires Effects(doc, a).error.Some?
    ensures Effects(doc, a + b) == Effects(doc, a)
    decreases |b|
  {
    if b == [] {
      assert a + b == a;
    } else {
      var init := b[..|b| - 1];
      assert (a + b)[..|a + b| - 1] == a + init;
      EffectsStopAtError(doc, a, init);
    }
  }

  /** What `populateFieldsIntoForm` does to the form. */
  function FormPopulation(doc: Document, form: Ref, fieldValues: FieldValues): (e: Effect)
    requires doc.Valid() && doc.IsForm(form)
    ensures e.error.Some? ==> e.error == Some(CouldNotFindInput) || e.error == Some(InvalidStateError)
  {
    var calls := Calls(doc, fieldValues, GetTopLevelFieldElements(doc, form));
    EffectsSpec(doc, calls);
    Effects(doc, calls)
  }

  // ---------------------------------------------------------------------
  // Properties of the writes

  /** The `checked` values a write sequence leaves behind, per target: the
      last one written. */
  function CheckedWrites(ws: seq<Write>): map<Ref, bool>
    decreases |ws|
  {
    if ws == [] then map[]
    else
      var w := ws[|ws| - 1];
      var before := CheckedWrites(ws[..|ws| - 1]);
      if w.action.SetChecked? then before[w.target := w.action.on] else before
  }

  /** The `value` strings a write sequence leaves behind, per target. */
  function ValueWrites(ws: seq<Write>): map<Ref, string>
    decreases |ws|
  {
    if ws == [] then map[]
    else
      var w := ws[|ws| - 1];
      var before := ValueWrites(ws[..|ws| - 1]);
      if w.action.SetValue? then before[w.target := w.action.text] else before
  }

  function AllEvents(ws: seq<Write>): seq<Event>
    decreases |ws|
  {
    if ws == [] then [] else AllEvents(ws[..|ws| - 1]) + EventsOf(ws[|ws| - 1])
  }

  /** Applying writes overrides each written property with the last value
      written to it, leaves every other one alone, and logs `input` then
      `change` for each write in order. */
  lemma ApplyWritesOverrides(c: Controls, ws: seq<Write>)
    ensures ApplyWrites(c, ws).checked == c.checked + CheckedWrites(ws)
    ensures ApplyWrites(c, ws).value == c.value + ValueWrites(ws)
    ensures ApplyWrites(c, ws).events == c.events + AllEvents(ws)
  {
    ApplyWritesChecked(c, ws);
    ApplyWritesValue(c, ws);
    ApplyWritesEvents(c, ws);
  }

  lemma {:induction false} ApplyWritesChecked(c: Controls, ws: seq<Write>)
    ensures ApplyWrites(c, ws).checked == c.checked + CheckedWrites(ws)
    decreases |ws|
  {
    if ws != [] {
      ApplyWritesChecked(c, ws[..|ws| - 1]);
    }
  }

  lemma {:induction false} ApplyWritesValue(c: Controls, ws: seq<Write>)
    ensures ApplyWrites(c, ws).value == c.value + ValueWrites(ws)
    decreases |ws|
  {
    if ws != [] {
      ApplyWritesValue(c, ws[..|ws| - 1]);
    }
  }

  lemma {:induction false} ApplyWritesEvents(c: Controls, ws: seq<Write>)
    ensures ApplyWrites(c, ws).events == c.events + AllEvents(ws)
    decreases |ws|
  {
    if ws != [] {
      var init := ws[..|ws| - 1];
      ApplyWritesEvents(c, init);
      assert c.events + AllEvents(init) + EventsOf(ws[|ws| - 1]) == c.events + (AllEvents(init) + EventsOf(ws[|ws| - 1]));
    }
  }

  /** Applying the same writes a second time leaves every control as the
      first time did (only the event log grows). */
  lemma ApplyWritesTwice(c: Controls, ws: seq<Write>)
    ensures ApplyWrites(ApplyWrites(c, ws), ws).checked == ApplyWrites(c, ws).checked
    ensures ApplyWrites(ApplyWrites(c, ws), ws).value == ApplyWrites(c, ws).value
  {
    var once := ApplyWrites(c, ws);
    ApplyWritesOverrides(c, ws);
    ApplyWritesOverrides(once, ws);
    assert once.checked + CheckedWrites(ws) == c.checked + CheckedWrites(ws) + CheckedWrites(ws);
    assert once.value + ValueWrites(ws) == c.value + ValueWrites(ws) + ValueWrites(ws);
  }

  /** Calls with truthy values never write `checked := false`. */
  lemma {:induction false} TruthyCallsNeverClear(doc: Document, calls: seq<Call>)
    requires AllTruthy(calls)
    ensures forall r :: r in CheckedWrites(Effects(doc, calls).writes) ==> CheckedWrites(Effects(doc, calls).writes)[r]
  {
    var ws := Effects(doc, calls).writes;
    EffectsSpec(doc, calls);
    forall k | 0 <= k < |ws|
      ensures ws[k].action.SetChecked? ==> ws[k].action.on
    {
      assert calls[k] in calls;
    }
    OnlySetsChecked(ws);
  }

  lemma {:induction false} OnlySetsChecked(ws: seq<Write>)
    requires forall k :: 0 <= k < |ws| ==> ws[k].action.SetChecked? ==> ws[k].action.on
    ensures forall r :: r in CheckedWrites(ws) ==> CheckedWrites(ws)[r]
    decreases |ws|
  {
    if ws != [] {
      OnlySetsChecked(ws[..|ws| - 1]);
    }
  }

  /** Populating never unchecks a control: a checkbox that was checked is
      still checked afterwards. */
  lemma PopulationNeverUnchecks(doc: Document, form: Ref, fieldValues: FieldValues, c: Controls, r: Ref)
    requires doc.Valid() && doc.IsForm(form)
    requires r in c.checked && c.checked[r]
    ensures var after := ApplyWrites(c, FormPopulation(doc, form, fieldValues).writes);
      r in after.checked && after.checked[r]
  {
    var elements := GetTopLevelFieldElements(doc, form);
    var calls := Calls(doc, fieldValues, elements);
    TruthyCallsNeverClear(doc, calls);
    ApplyWritesOverrides(c, FormPopulation(doc, form, fieldValues).writes);
  }

  /** Populating twice with the same values gives the same control state
      as populating once, and the second run stops where the first did. */
  lemma PopulationIdempotent(doc: Document, form: Ref, fieldValues: FieldValues, c: Controls)
    requires doc.Valid() && doc.IsForm(form)
    ensures var once := ApplyWrites(c, FormPopulation(doc, form, fieldValues).writes);
      var twice := ApplyWrites(once, FormPopulation(doc, form, fieldValues).writes);
      twice.checked == once.checked && twice.value == once.value
  {
    ApplyWritesTwice(c, FormPopulation(doc, form, fieldValues).writes);
  }

  /** A candidate whose name has no entry in `fieldValues` gets no call. */
  lemma {:induction false} AbsentNameUntouched(doc: Document, fieldValues: FieldValues, e: Ref)
    requires doc.Valid() && doc.Has(e)
    requires NameOf(doc.nodes[e]) !in fieldValues
    ensures ElementCalls(doc, fieldValues, e) == []
  {
    var node := doc.nodes[e];
    if node.kind.FieldSetEl? {
      NothingSelectedNoCalls(doc, node.kind.members);
    }
  }

  lemma {:induction false} NothingSelectedNoCalls(doc: Document, inputs: seq<Ref>)
    ensures MemberCalls(doc, inputs, None) == []
    decreases |inputs|
  {
    if inputs != [] {
      NothingSelectedNoCalls(doc, inputs[..|inputs| - 1]);
    }
  }

  /** A scalar candidate gets a call exactly when its value is a non-empty
      string; an empty string or an array leaves it alone. */
  lemma ScalarCandidateCalls(doc: Document, fieldValues: FieldValues, e: Ref)
    requires doc.Valid() && doc.Has(e) && !doc.nodes[e].kind.FieldSetEl?
    ensures var selected := Lookup(fieldValues, NameOf(doc.nodes[e]));
      ElementCalls(doc, fieldValues, e) ==
        if selected.Some? && selected.value.Single? && selected.value.text != ""
        then [Call(e, StringValue(selected.value.text))] else []
  {
  }

  /** The calls made for an element that is among the candidates are among
      all the calls made. */
  lemma {:induction false} ElementCallsIncluded(doc: Document, fieldValues: FieldValues, elements: seq<Ref>, i: nat)
    requires i < |elements|
    ensures forall c :: c in ElementCalls(doc, fieldValues, elements[i]) ==> c in Calls(doc, fieldValues, elements)
  {
    assert elements == elements[..i] + [elements[i]] + elements[i + 1..];
    assert elements[..i + 1] == elements[..i] + [elements[i]];
    CallsConcat(doc, fieldValues, elements[..i + 1], elements[i + 1..]);
    assert elements[..i + 1][..i] == elements[..i];
  }

  /** A non-fieldset candidate whose non-empty string value `populateInput`
      refuses makes the pass end with an error: the pass stops at that
      candidate's call or at an earlier one. */
  lemma RefusedCandidateEndsPass(doc: Document, form: Ref, fieldValues: FieldValues, e: Ref)
    requires doc.Valid() && doc.IsForm(form)
    requires e in GetTopLevelFieldElements(doc, form) && !doc.nodes[e].kind.FieldSetEl?
    requires var selected := Lookup(fieldValues, NameOf(doc.nodes[e]));
      && selected.Some? && selected.value.Single? && selected.value.text != ""
      && InputWrite(doc, Some(e), StringValue(selected.value.text)).Failure?
    ensures FormPopulation(doc, form, fieldValues).error.Some?
  {
    var elements := GetTopLevelFieldElements(doc, form);
    var i :| 0 <= i < |elements| && elements[i] == e;
    var calls := Calls(doc, fieldValues, elements);
    var call := Call(e, StringValue(Lookup(fieldValues, NameOf(doc.nodes[e])).value.text));
    assert ElementCalls(doc, fieldValues, e) == [call];
    ElementCallsIncluded(doc, fieldValues, elements, i);
    assert call in calls;
    var k :| 0 <= k < |calls| && calls[k] == call;
    EffectsSpec(doc, calls);
  }

  /** A `select` candidate with a non-empty value makes the pass throw, and
      no write ever reaches the select. */
  lemma SelectWithValueThrows(doc: Document, form: Ref, fieldValues: FieldValues, e: Ref)
    requires doc.Valid() && doc.IsForm(form)
    requires e in GetTopLevelFieldElements(doc, form) && doc.nodes[e].kind.SelectEl?
    requires Lookup(fieldValues, NameOf(doc.nodes[e])).Some?
    requires Lookup(fieldValues, NameOf(doc.nodes[e])).value.Single?
    requires Lookup(fieldValues, NameOf(doc.nodes[e])).value.text != ""
    ensures FormPopulation(doc, form, fieldValues).error.Some?
    ensures forall w :: w in FormPopulation(doc, form, fieldValues).writes ==> w.target != e
  {
    RefusedCandidateEndsPass(doc, form, fieldValues, e);
    var calls := Calls(doc, fieldValues, GetTopLevelFieldElements(doc, form));
    var ws := FormPopulation(doc, form, fieldValues).writes;
    EffectsSpec(doc, calls);
    forall w | w in ws
      ensures w.target != e
    {
      var k :| 0 <= k < |ws| && ws[k] == w;
      assert InputWrite(doc, Some(calls[k].target), calls[k].arg) == Success(w);
    }
  }

  /** A file input candidate given a non-empty value makes the pass throw:
      its `value` setter refuses any string but the empty one. */
  lemma FileInputWithValueThrows(doc: Document, form: Ref, fieldValues: FieldValues, e: Ref)
    requires doc.Valid() && doc.IsForm(form)
    requires e in GetTopLevelFieldElements(doc, form) && IsFileInput(doc.nodes[e])
    requires Lookup(fieldValues, NameOf(doc.nodes[e])).Some?
    requires Lookup(fieldValues, NameOf(doc.nodes[e])).value.Single?
    requires Lookup(fieldValues, NameOf(doc.nodes[e])).value.text != ""
    ensures FormPopulation(doc, form, fieldValues).error.Some?
  {
    RefusedCandidateEndsPass(doc, form, fieldValues, e);
  }

  /** Every input a fieldset reports is an `input`, and each chosen one is
      given `true`, whose string form "true" only a file input refuses. So
      a fieldset's calls throw exactly when one of its chosen inputs is a
      file input, and then with `InvalidStateError`. */
  lemma FieldsetThrowsOnlyOnFileInputs(doc: Document, inputs: seq<Ref>, selected: Option<FieldValue>)
    requires forall m :: m in inputs ==> doc.MemberValid(m)
    ensures var e := Effects(doc, MemberCalls(doc, inputs, selected));
      && (e.error.None? <==> forall m :: m in inputs && MemberSelected(doc, m, selected) ==> !IsFileInput(doc.nodes[m]))
      && (e.error.Some? ==> e.error == Some(InvalidStateError))
  {
    var calls := MemberCalls(doc, inputs, selected);
    var eff := Effects(doc, calls);
    EffectsSpec(doc, calls);
    MemberCallsSpec(doc, inputs, selected);
    if eff.error.Some? {
      var c := calls[|eff.writes|];
      assert c in calls;
      assert doc.MemberValid(c.target);
    } else {
      forall m | m in inputs && MemberSelected(doc, m, selected)
        ensures !IsFileInput(doc.nodes[m])
      {
        assert Call(m, BoolValue(true)) in calls;
        var k :| 0 <= k < |calls| && calls[k] == Call(m, BoolValue(true));
        assert InputWrite(doc, Some(m), BoolValue(true)).Success?;
      }
    }
  }

  /** Running two call lists one after the other, when the first does not
      throw. */
  lemma {:induction false} EffectsConcat(doc: Document, a: seq<Call>, b: seq<Call>)
    requires Effects(doc, a).error.None?
    ensures Effects(doc, a + b) == Effect(Effects(doc, a).writes + Effects(doc, b).writes, Effects(doc, b).error)
    decreases |b|
  {
    if b == [] {
      assert a + b == a;
      assert Effects(doc, a).writes + [] == Effects(doc, a).writes;
    } else {
      var init, last := b[..|b| - 1], b[|b| - 1];
      assert (a + b)[..|a + b| - 1] == a + init;
      assert (a + b)[|a + b| - 1] == last;
      EffectsConcat(doc, a, init);
      var wa, wi := Effects(doc, a).writes, Effects(doc, init).writes;
      if Effects(doc, init).error.None? {
        match InputWrite(doc, Some(last.target), last.arg)
        case Success(w) =>
          assert wa + wi + [w] == wa + (wi + [w]);
        case Failure(_) =>
      }
    }
  }

  lemma ApplyWritesSnoc(c: Controls, ws: seq<Write>, w: Write)
    ensures ApplyWrites(c, ws + [w]) == ApplyWrite(ApplyWrites(c, ws), w)
  {
    assert (ws + [w])[..|ws|] == ws;
  }

  /** Applying two write lists one after the other. */
  lemma {:induction false} ApplyWritesConcat(c: Controls, a: seq<Write>, b: seq<Write>)
    ensures ApplyWrites(c, a + b) == ApplyWrites(ApplyWrites(c, a), b)
    decreases |b|
  {
    if b == [] {
      assert a + b == a;
    } else {
      var init := b[..|b| - 1];
      assert (a + b)[..|a + b| - 1] == a + init;
      assert (a + b)[|a + b| - 1] == b[|b| - 1];
      ApplyWritesConcat(c, a, init);
    }
  }

  /** One more candidate, after a prefix of the pass that did not throw:
      its calls run after those of the prefix, and their writes apply after
      the prefix's writes. */
  lemma PassStep(doc: Document, fieldValues: FieldValues, c: Controls, elements: seq<Ref>, i: nat)
    requires i < |elements|
    requires Effects(doc, Calls(doc, fieldValues, elements[..i])).error.None?
    ensures var prior := Effects(doc, Calls(doc, fieldValues, elements[..i]));
      var these := Effects(doc, ElementCalls(doc, fieldValues, elements[i]));
      && Effects(doc, Calls(doc, fieldValues, elements[..i + 1])) == Effect(prior.writes + these.writes, these.error)
      && ApplyWrites(c, Effects(doc, Calls(doc, fieldValues, elements[..i + 1])).writes)
           == ApplyWrites(ApplyWrites(c, prior.writes), these.writes)
  {
    var done := Calls(doc, fieldValues, elements[..i]);
    var these := ElementCalls(doc, fieldValues, elements[i]);
    assert Calls(doc, fieldValues, elements[..i + 1]) == done + these by {
      assert elements[..i + 1][..i] == elements[..i];
    }
    EffectsConcat(doc, done, these);
    ApplyWritesConcat(c, Effects(doc, done).writes, Effects(doc, these).writes);
  }

  /** A candidate whose calls throw ends the pass: the pass has the effect
      of the candidates up to and including it. */
  lemma PassStopsAt(doc: Document, fieldValues: FieldValues, elements: seq<Ref>, i: nat)
    requires i < |elements|
    requires Effects(doc, Calls(doc, fieldValues, elements[..i + 1])).error.Some?
    ensures Effects(doc, Calls(doc, fieldValues, elements)) == Effects(doc, Calls(doc, fieldValues, elements[..i + 1]))
  {
    CallsConcat(doc, fieldValues, elements[..i + 1], elements[i + 1..]);
    assert elements[..i + 1] + elements[i + 1..] == elements;
    EffectsStopAtError(doc, Calls(doc, fieldValues, elements[..i + 1]), Calls(doc, fieldValues, elements[i + 1..]));
  }

  lemma {:induction false} MemberCallsConcat(doc: Document, a: seq<Ref>, b: seq<Ref>, selected: Option<FieldValue>)
    ensures MemberCalls(doc, a + b, selected) == MemberCalls(doc, a, selected) + MemberCalls(doc, b, selected)
    decreases |b|
  {
    if b == [] {
      assert a + b == a;
    } else {
      var init, last := b[..|b| - 1], b[|b| - 1];
      assert (a + b)[..|a + b| - 1] == a + init;
      assert (a + b)[|a + b| - 1] == last;
      MemberCallsConcat(doc, a, init, selected);
      var tail := if MemberSelected(doc, last, selected) then [Call(last, BoolValue(true))] else [];
      assert MemberCalls(doc, a, selected) + MemberCalls(doc, init, selected) + tail
          == MemberCalls(doc, a, selected) + (MemberCalls(doc, init, selected) + tail);
    }
  }

  /** One more fieldset input, after inputs whose calls did not throw: a
      selected one runs its call after those of the inputs before it, either
      adding its write or ending the run with its error; any other input
      changes nothing. */
  lemma FieldsetStep(doc: Document, inputs: seq<Ref>, j: nat, selected: Option<FieldValue>)
    requires j < |inputs|
    requires Effects(doc, MemberCalls(doc, inputs[..j], selected)).error.None?
    ensures var prior := Effects(doc, MemberCalls(doc, inputs[..j], selected));
      var next := Effects(doc, MemberCalls(doc, inputs[..j + 1], selected));
      var r := InputWrite(doc, Some(inputs[j]), BoolValue(true));
      if !MemberSelected(doc, inputs[j], selected) then next == prior
      else if r.Success? then next == Effect(prior.writes + [r.value], None)
      else next == Effect(prior.writes, Some(r.error))
  {
    var prior := MemberCalls(doc, inputs[..j], selected);
    var m := inputs[j];
    MemberCallsStep(doc, inputs, j, selected);
    if MemberSelected(doc, m, selected) {
      EffectsSnoc(doc, prior, Call(m, BoolValue(true)));
    }
  }

  /** One more call, after calls that did not throw. */
  lemma EffectsSnoc(doc: Document, calls: seq<Call>, call: Call)
    requires Effects(doc, calls).error.None?
    ensures Effects(doc, calls + [call]) ==
      match InputWrite(doc, Some(call.target), call.arg)
      case Success(w) => Effect(Effects(doc, calls).writes + [w], None)
      case Failure(message) => Effect(Effects(doc, calls).writes, Some(message))
  {
    assert (calls + [call])[..|calls|] == calls;
  }

  /** A fieldset input whose call throws ends the fieldset's loop: the
      fieldset has the effect of the inputs up to and including it. */
  lemma FieldsetStopsAt(doc: Document, inputs: seq<Ref>, j: nat, selected: Option<FieldValue>)
    requires j < |inputs|
    requires Effects(doc, MemberCalls(doc, inputs[..j + 1], selected)).error.Some?
    ensures Effects(doc, MemberCalls(doc, inputs, selected)) == Effects(doc, MemberCalls(doc, inputs[..j + 1], selected))
  {
    MemberCallsConcat(doc, inputs[..j + 1], inputs[j + 1..], selected);
    assert inputs[..j + 1] + inputs[j + 1..] == inputs;
    EffectsStopAtError(doc, MemberCalls(doc, inputs[..j + 1], selected), MemberCalls(doc, inputs[j + 1..], selected));
  }

  // ---------------------------------------------------------------------
  // The live page

  /** The page the content script runs in: the document's fixed structure,
      and the control state that population changes in place. */
  class Page {
    const doc: Document
    var checked: map<Ref, bool>
    var value: map<Ref, string>
    var events: seq<Event>

    ghost predicate Valid()
      reads this
    {
      doc.Valid()
    }

    function State(): Controls
      reads this
    {
      Controls(checked, value, events)
    }

    constructor (doc: Document, checked: map<Ref, bool>, value: map<Ref, string>)
      requires doc.Valid()
      ensures Valid() && this.doc == doc
      ensures State() == Controls(checked, value, [])
    {
      this.doc := doc;
      this.checked := checked;
      this.value := value;
      this.events := [];
    }

    /** `populateInput(input, value)`: sets `checked` on a checkbox or radio
        and `value` on any other input or a textarea, then dispatches `input`
        and `change`; for anything else it throws and changes nothing. A
        file input's `value` setter throws for a non-empty string, before
        any event is dispatched. */
    method PopulateInput(input: Option<Ref>, v: Scalar) returns (error: Option<string>)
      requires Valid() && (input.Some? ==> doc.Has(input.value))
      modifies this
      ensures Valid()
      ensures match InputWrite(doc, input, v)
        case Success(w) => error.None? && State() == ApplyWrite(old(State()), w)
        case Failure(message) => error == Some(message) && State() == old(State())
    {
      if input.Some? && (doc.nodes[input.value].kind.InputEl? || doc.nodes[input.value].kind.TextAreaEl?) {
        var element := input.value;
        var kind := doc.nodes[element].kind;
        if kind.InputEl? && (kind.inputType == "checkbox" || kind.inputType == "radio") {
          checked := checked[element := Truthy(v)];
        } else if kind.InputEl? && kind.inputType == "file" && Stringify(v) != "" {
          return Some(InvalidStateError);
        } else {
          value := value[element := Stringify(v)];
        }
        events := events + [Event(element, InputEvent)];
        events := events + [Event(element, ChangeEvent)];
        error := None;
      } else {
        error := Some(CouldNotFindInput);
      }
    }

    /** The `forEach` over a fieldset's inputs: each input whose trimmed
        first label is selected is populated with `true`; a call that
        throws ends the loop. */
    method PopulateFieldset(inputs: seq<Ref>, selectedValues: Option<FieldValue>) returns (error: Option<string>)
      requires Valid() && forall m :: m in inputs ==> doc.MemberValid(m)
      modifies this
      ensures Valid()
      ensures State() == ApplyWrites(old(State()), Effects(doc, MemberCalls(doc, inputs, selectedValues)).writes)
      ensures error == Effects(doc, MemberCalls(doc, inputs, selectedValues)).error
    {
      ghost var start := State();
      var j := 0;
      while j < |inputs|
        invariant 0 <= j <= |inputs|
        invariant Valid()
        invariant Effects(doc, MemberCalls(doc, inputs[..j], selectedValues)).error.None?
        invariant State() == ApplyWrites(start, Effects(doc, MemberCalls(doc, inputs[..j], selectedValues)).writes)
      {
        var input := inputs[j];
        assert doc.MemberValid(input) by {
          assert input in inputs;
        }
        FieldsetStep(doc, inputs, j, selectedValues);
        var chosen := IsLabelSelected(doc, input, selectedValues);
        if chosen {
          ghost var r := InputWrite(doc, Some(input), BoolValue(true));
          if r.Success? {
            ApplyWritesSnoc(start, Effects(doc, MemberCalls(doc, inputs[..j], selectedValues)).writes, r.value);
          }
          var err := PopulateInput(Some(input), BoolValue(true));
          if err.Some? {
            FieldsetStopsAt(doc, inputs, j, selectedValues);
            return err;
          }
        }
        j := j + 1;
      }
      assert inputs[..j] == inputs;
      return None;
    }

    /** The `forEach` callback for one candidate: a fieldset has its
        selected inputs populated with `true`; any other element is
        populated with its value when that is a non-empty string. */
    method PopulateElement(element: Ref, fieldValues: FieldValues) returns (error: Option<string>)
      requires Valid() && doc.Has(element)
      modifies this
      ensures Valid()
      ensures State() == ApplyWrites(old(State()), Effects(doc, ElementCalls(doc, fieldValues, element)).writes)
      ensures error == Effects(doc, ElementCalls(doc, fieldValues, element)).error
    {
      ghost var these := ElementCalls(doc, fieldValues, element);
      var selectedValues := Lookup(fieldValues, NameOf(doc.nodes[element]));
      if doc.nodes[element].kind.FieldSetEl? {
        var inputs := doc.nodes[element].kind.members;
        assert doc.NodeValid(doc.nodes[element]);
        error := PopulateFieldset(inputs, selectedValues);
      } else if selectedValues.Some? && selectedValues.value.Single? && selectedValues.value.text != "" {
        ghost var call := Call(element, StringValue(selectedValues.value.text));
        assert these == [] + [call];
        EffectsSnoc(doc, [], call);
        ghost var r := InputWrite(doc, Some(element), call.arg);
        if r.Success? {
          ApplyWritesSnoc(old(State()), [], r.value);
        }
        error := PopulateInput(Some(element), StringValue(selectedValues.value.text));
      } else {
        assert these == [];
        error := None;
      }
    }

    /** `populateFieldsIntoForm({form, fieldValues})`: one pass over the
        candidates; the first `populateInput` that throws ends it. */
    method PopulateFieldsIntoForm(form: Ref, fieldValues: FieldValues) returns (error: Option<string>)
      requires Valid() && doc.IsForm(form)
      modifies this
      ensures Valid()
      ensures State() == ApplyWrites(old(State()), FormPopulation(doc, form, fieldValues).writes)
      ensures error == FormPopulation(doc, form, fieldValues).error
    {
      var topLevelFieldElements := GetTopLevelFieldElements(doc, form);
      ghost var start := State();
      var i := 0;
      while i < |topLevelFieldElements|
        invariant 0 <= i <= |topLevelFieldElements|
        invariant Valid()
        invariant Effects(doc, Calls(doc, fieldValues, topLevelFieldElements[..i])).error.None?
        invariant State() == ApplyWrites(start, Effects(doc, Calls(doc, fieldValues, topLevelFieldElements[..i])).writes)
      {
        var element := topLevelFieldElements[i];
        assert doc.Has(element) by {
          assert element in topLevelFieldElements;
        }
        PassStep(doc, fieldValues, start, topLevelFieldElements, i);
        var err := PopulateElement(element, fieldValues);
        if err.Some? {
          PassStopsAt(doc, fieldValues, topLevelFieldElements, i);
          return err;
        }
        i := i + 1;
      }
      assert topLevelFieldElements[..i] == topLevelFieldElements;
      return None;
    }
  }
}
