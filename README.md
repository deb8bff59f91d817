# Smart Fake Form Fill — a Dafny model of the form-filling core

Smart Fake Form Fill is a browser extension that fills a web form with
plausible fake data. The popup asks the content script to describe a form
chosen by a CSS selector. The service worker sends that description to a
completion service and forwards the answer to the popup chunk by chunk. It
also defines `unwrapJSONStringFromMarkdown`, which strips a Markdown json code
fence from a string, but never calls it. The content script then writes the
values the popup sends back into the form.

This project models that core and proves properties of it:

- `strings.dfy` (module `Strings`): the JavaScript string operations the core uses.
  - `String.prototype.trim` uses the ECMAScript whitespace and line-terminator set.
  - `split` is modelled for a non-empty separator, with `join` as its inverse.
- `markdown.dfy` (module `Markdown`): `unwrapJSONStringFromMarkdown`. This is the two anchored, non-global replacements `/^```json\n/` and `/\s*```$/`, with the leftmost-match semantics of a regular-expression search.
- `dom.dfy` (module `Dom`): the part of the page the core reads.
  - Elements are indices into a node table.
  - `querySelector("& piece")` is a lookup table from (scope, selector piece) to the element it finds.
  - A form carries all its descendant elements in document order, from which the top-level candidates are selected, and its `label[for=id]` texts.
- `selection.dfy` (module `Selection`): `getForm`, the walk over the `::shadow-root`-separated selector pieces. It is a loop proved against the recursive reference `Resolve`.
- `extraction.dfy` (module `Extraction`): `getTopLevelFieldElements` and `getFieldDefinitions`, as the map/filter pipeline the source writes.
- `population.dfy` (module `Population`): `populateInput` and `populateFieldsIntoForm`.
  - These are methods of a `Page` object whose `checked` and `value` maps and event log they update in place.
  - They are proved against a three-layer specification:
    - `Calls`: the `populateInput` calls made;
    - `Effects`: the writes performed up to the first throw;
    - `ApplyWrites`: those writes applied to the controls.
- `listener.dfy` (module `Listener`): the `chrome.runtime.onMessage` listener. It is a `ContentScript` object holding `lastSelectedForm`.

Some behaviours of the code are easy to miss; the model follows the code:

- A text field with no `label[for=id]` is sent with the label "undefined". `String(undefined)` is not blank, so the filter keeps it.
- A fieldset's inputs are matched against the trimmed text of their first label, not against their `value` attribute.
- A `select` given a value is not written. `populateInput` throws "Could not find input" for it, and that throw ends the population pass. Names without a value are skipped.
- A named file input is described as a text field. If it is given a non-empty value, `input.value = String(value)` throws an `InvalidStateError`, and that throw also ends the pass. The same happens to a chosen file input inside a fieldset, which is given `true`.
- `populateFieldsIntoForm` is `async` and is not awaited. So an error it throws never reaches the listener's `catch`: the request is still answered with success, and the writes made before the throw stay.

## Model

| member | source | states |
|---|---|---|
| Strings.Trim | content-script.ts:108 | `trim` never lengthens the text, and a non-empty result neither starts nor ends with whitespace |
| Strings.TrimProperties | content-script.ts:108 | `trim` keeps a contiguous piece of the text, cutting only whitespace on each side |
| Strings.TrimEmpty | content-script.ts:105-108 | trimming leaves nothing exactly when the text is all whitespace |
| Strings.TrimIdempotent | content-script.ts:108 | trimming a trimmed label changes nothing |
| Strings.Find | content-script.ts:15 | the separator search finds the first occurrence, and finds none only when there is none |
| Strings.Split | content-script.ts:15 | `split('::shadow-root')` yields at least one piece and no piece contains the separator |
| Strings.JoinSplit | content-script.ts:15 | splitting loses nothing: joining the pieces with the separator gives back the selector |
| Strings.SplitWithoutSeparator | content-script.ts:15 | a selector without `::shadow-root` is a single piece |
| Markdown.StripOpeningFence | service-worker.ts:16 | the first replacement removes "```json\n" once, and only from the very start |
| Markdown.ClosingMatchStart | service-worker.ts:16 | the search for `\s*```$` finds the leftmost start position of a whitespace run followed by a final fence, or reports that none exists |
| Markdown.StripClosingFence | service-worker.ts:16 | the second replacement leaves text without a trailing fence alone; text ending in "```" is cut at the leftmost match, so the fence goes together with the maximal whitespace run before it |
| Markdown.Unwrap | service-worker.ts:15-17 | the unwrapped text is a contiguous piece of the input, starting right after the opening fence if there is one |
| Markdown.UnwrapWithoutFences | service-worker.ts:15-17 | text without either fence comes back unchanged |
| Markdown.UnwrapRoundTrip | service-worker.ts:13-17 | wrapping a payload that does not end in whitespace in a json code block and unwrapping it gives the payload back |
| Markdown.EmptyBlockUnwrapsToEmpty | service-worker.ts:15-17 | a code block holding only whitespace unwraps to the empty string |
| Markdown.ClosingFenceOfEmptyBlock | service-worker.ts:16 | in "```json\n```" the closing match starts at the newline, so stripping it alone leaves "```json" |
| Markdown.OrderOfReplacementsMatters | service-worker.ts:16 | the opening fence is removed first: "```json\n```" unwraps to "", while the reverse order would leave "```json" |
| Selection.Step | content-script.ts:18-21 | one piece: a null scope stays null, and an element is reached only through a lookup in the current scope |
| Selection.ResolvePieces | content-script.ts:17-22 | the scope reached after the pieces is null or an element of the document |
| Selection.Resolve | content-script.ts:15-22 | the element the whole selector designates, starting from the body, is null or an element of the document |
| Selection.GetForm | content-script.ts:14-30 | the loop over the pieces returns the form the selector designates; otherwise it fails with "No element found with the provided selector" when the selector designates nothing, and with "Selected element is not a form element" when it designates a non-form |
| Selection.NullScopeStaysNull | content-script.ts:18 | once the current element is null, every later piece leaves it null |
| Selection.ResolveConcat | content-script.ts:17-22 | the walk is left to right: the pieces after a prefix continue from where the prefix led |
| Selection.NoMatchIsFinal | content-script.ts:17-24 | a piece that finds nothing makes the whole selector designate nothing |
| Selection.PlainSelector | content-script.ts:15-22 | a selector without `::shadow-root` is one scoped lookup from the body, plus at most one step into a shadow root |
| Selection.OneShadowLevelPerPiece | content-script.ts:19-21 | a piece crosses at most one shadow boundary: the scope stops at the shadow root's first element child |
| Extraction.TopLevel | content-script.ts:36-39 | the selector keeps exactly the fieldsets and the named, non-readonly, non-disabled elements outside fieldsets, in document order |
| Extraction.TopLevelConcat | content-script.ts:36-39 | the selection preserves order: it distributes over concatenation |
| Extraction.GetTopLevelFieldElements | content-script.ts:35-41 | the candidates are exactly the form's elements that the top-level selector matches |
| Extraction.FieldsetMembersAreNotCandidates | content-script.ts:38 | an input inside a fieldset is never a candidate of its own |
| Extraction.MemberLabels | content-script.ts:54-59 | a picklist's values are the non-empty `label[for=id]` texts of its inputs, each one some input's label, and every non-empty label is included |
| Extraction.MemberLabelsConcat | content-script.ts:55-59 | the picklist values keep the inputs' order and their repeats: the map/filter distributes over concatenation |
| Extraction.DefinitionOf | content-script.ts:47-68 | a fieldset becomes a picklist (legend as label, multi-select exactly when its first input is a checkbox and it has more than one input, values from the labels); any other element becomes a text field with its `label[for=id]` text (or "undefined") and its pattern exactly when it is an input with a non-empty pattern |
| Extraction.Definitions | content-script.ts:45-71 | the definitions sent are those of the candidates whose label is not empty, and all of them |
| Extraction.DefinitionsConcat | content-script.ts:46-70 | the map/filter pipeline preserves order |
| Extraction.GetFieldDefinitions | content-script.ts:44-72 | no definition sent has an empty label |
| Extraction.MissingLabelIsSentAsUndefined | content-script.ts:65 | a text field without a label is sent with the label "undefined" |
| Extraction.WhitespaceLabelIsKept | content-script.ts:65-70 | a non-empty label made only of whitespace is not blank: it is sent, untrimmed |
| Extraction.EmptyLegendDropsFieldset | content-script.ts:52-70 | a fieldset whose legend is empty is not sent |
| Population.InputWrite | content-script.ts:75-90 | `populateInput` writes to inputs and textareas only: `checked := Boolean(value)` on a checkbox or radio, `value := String(value)` otherwise. Anything else throws "Could not find input"; a file input given a non-empty string throws `InvalidStateError` and is not written |
| Population.IsLabelSelected | content-script.ts:104-112 | an input is chosen exactly when its first label has non-empty text whose trimmed form equals the selected string or is in the selected array |
| Population.MemberCalls | content-script.ts:103-114 | a fieldset makes at most one call per input |
| Population.MemberCallsSpec | content-script.ts:103-114 | a fieldset's calls are exactly `populateInput(input, true)` for each of its chosen inputs |
| Population.MemberCallsStep | content-script.ts:103-114 | each input adds at most its own call, after those of the inputs before it |
| Population.ElementCalls | content-script.ts:101-118 | a candidate gets at most one call per fieldset input, and at most one call when it is not a fieldset |
| Population.ElementCallsTruthy | content-script.ts:113-117 | every value passed for a candidate is truthy: `true` or a non-empty string |
| Population.Calls | content-script.ts:100-119 | the calls of the pass, candidate after candidate; every value passed is truthy |
| Population.Effects | content-script.ts:99-119 | a run never performs more writes than it has calls |
| Population.FormPopulation | content-script.ts:92-120 | a pass can end only with "Could not find input" or with a file input's `InvalidStateError` |
| Population.CallsConcat | content-script.ts:100-119 | the calls of the pass follow the order of the candidates: they distribute over concatenation |
| Population.EffectsSpec | content-script.ts:99-119 | a run performs the write of each call in order, up to the first call `populateInput` refuses; that call ends the run with the error it throws |
| Population.EffectsStopAtError | content-script.ts:99-119 | once a call has thrown, later calls change nothing |
| Population.EffectsConcat | content-script.ts:99-119 | running two call lists in sequence, when the first does not throw, performs the writes of both |
| Population.PassStep | content-script.ts:100-119 | after a prefix of the candidates that did not throw, the next candidate's writes follow the prefix's |
| Population.PassStopsAt | content-script.ts:100-119 | a candidate whose calls throw ends the pass |
| Population.FieldsetStep | content-script.ts:103-115 | after inputs that did not throw, a selected fieldset input either adds its write after theirs or ends the loop with its error; any other input changes nothing |
| Population.FieldsetStopsAt | content-script.ts:103-115 | an input whose call throws ends the fieldset's loop: later inputs change nothing |
| Population.MemberCallsConcat | content-script.ts:103-114 | a fieldset's calls follow the order of its inputs: they distribute over concatenation |
| Population.EffectsSnoc | content-script.ts:75-90 | after calls that did not throw, one more call either adds its write or ends the run with its error |
| Population.ApplyWritesOverrides | content-script.ts:76-86 | after the writes, every written property holds the last value written to it, every other property is unchanged, and the log gains `input` then `change` for each write |
| Population.ApplyWritesConcat | content-script.ts:76-86 | applying two write lists in turn is applying their concatenation |
| Population.ApplyWritesTwice | content-script.ts:76-86 | applying the same writes again leaves every control's `checked` and `value` as they were |
| Population.TruthyCallsNeverClear | content-script.ts:81 | calls with truthy values never set `checked` to false |
| Population.PopulationNeverUnchecks | content-script.ts:99-119 | population never writes `checked := false`, so no control it writes is unchecked by it (sibling radios are the browser's doing; see "## Left out") |
| Population.PopulationIdempotent | content-script.ts:92-120 | populating twice with the same values leaves the controls as populating once |
| Population.AbsentNameUntouched | content-script.ts:101-118 | a candidate whose name has no value gets no call |
| Population.NothingSelectedNoCalls | content-script.ts:109-113 | with no selected value, no fieldset input is populated |
| Population.ScalarCandidateCalls | content-script.ts:116-118 | a non-fieldset candidate is populated exactly when its value is a non-empty string (not an array) |
| Population.ElementCallsIncluded | content-script.ts:100-119 | every candidate's calls are among the calls of the whole pass |
| Population.RefusedCandidateEndsPass | content-script.ts:116-117 | a candidate whose non-empty value `populateInput` refuses makes the pass end with an error |
| Population.SelectWithValueThrows | content-script.ts:116-117 | a `select` candidate given a non-empty value makes the pass end with an error, and no write ever reaches the select |
| Population.FileInputWithValueThrows | content-script.ts:83 | a file input candidate given a non-empty value makes the pass end with an error |
| Population.FieldsetThrowsOnlyOnFileInputs | content-script.ts:103-113 | a fieldset's calls throw exactly when one of its chosen inputs is a file input, and then with `InvalidStateError` |
| Population.Page.PopulateInput | content-script.ts:75-90 | the controls change by exactly the write `populateInput` performs, followed by its two events; a refused element throws "Could not find input" and a file input given a non-empty string throws `InvalidStateError`, and neither changes anything |
| Population.Page.PopulateFieldset | content-script.ts:103-115 | the controls change by exactly the writes of the fieldset's calls up to the first throw, and the error returned is the one that stopped them |
| Population.Page.PopulateElement | content-script.ts:100-118 | the `forEach` callback changes the controls by exactly the writes of the candidate's calls and returns the error that stopped them |
| Population.Page.PopulateFieldsIntoForm | content-script.ts:92-120 | the controls change by exactly the writes of the pass up to its first throw, and the error returned is the one that stopped it |
| Listener.ContentScript.constructor | content-script.ts:12 | a freshly injected script has no selected form |
| Listener.ContentScript.OnGetFieldDefinitions | content-script.ts:125-129 | on success the form is remembered and its definitions are sent; when `getForm` fails the error message is sent and the remembered form is kept (a `SyntaxError` thrown later by `getFieldDefinitions` is left out) |
| Listener.ContentScript.OnPopulateFieldsIntoForm | content-script.ts:130-138 | with no remembered form nothing changes and nothing is sent; otherwise the form is populated and success is reported, even when population stopped on an error |
| Listener.ContentScript.OnMessage | content-script.ts:122-147 | dispatches on the action and keeps both handlers' contracts; other actions change nothing and get no response |

## Left out

- The chrome messaging transport, the popup, the options page and storage are left out. The model takes a request and returns the response `sendResponse` would receive.
- The completion-service call in the service worker is left out: network I/O and streaming. Only `unwrapJSONStringFromMarkdown` is modelled; the worker defines it but does not call it.
- `JSON.stringify` and `JSON.parse` of definitions and values are left out. Those values are Dafny datatypes here.
- The streaming decoder and the job lifecycle controller are not part of this model. No source for them is included.
- The CSS selector engine is a lookup table.
  - A selector piece that `querySelector` rejects with a `SyntaxError` is not modelled. So is an id that needs CSS escaping (a quote, a backslash or a newline in it), which makes the `label[for="…"]` selector fail or find a label for a different id. When that selector throws a `SyntaxError` inside `getFieldDefinitions`, the listener has already remembered the form, so the error message is sent while the remembered form has changed; `OnGetFieldDefinitions` does not cover that case.
  - Whatever such a piece finds is part of the table.
- Label texts are given per form and per element as `textContent` values, not computed from the DOM tree.
- Browser value sanitization is left out: e.g. a number input refusing "abc". The one setter that throws, a file input's, is modelled; its error is named `InvalidStateError`, not by the browser's message text.
- The unchecking of the other radios in a group when a radio is checked is also left out (the model's `checked` map does not change for them), and so is whatever the page's own `input`/`change` listeners do. The model records the property written and the events dispatched.
- `populateInput` also accepts a `number` (`Boolean(0)` is false, `String(1e21)` is "1e+21"); number values are not modelled, because the declared type of `fieldValues` (`Record<string, string | string[]>`, scripts/types.ts) allows only strings and string arrays. Nothing checks that type at run time: a parsed value such as `{"age": 42}` would reach `populateInput(element, 42)`.
- A null `document.body` is not modelled: the body is always an element, so the case where `getForm` throws "No element found with the provided selector" because there is no body cannot arise in the model.
- Elements whose `name` property does not reflect the attribute are not modelled. `fieldValues` keys inherited from `Object.prototype` are not modelled either.
- Strings are sequences of characters, not UTF-16 code units. Supplementary-plane characters are treated as single characters by `trim` and `split`.
- Population.SelectWithValueThrows: states that the pass ends with an error, not which one. The error is "Could not find input" unless a file input before the select threw `InvalidStateError` first.
- Population.Page.PopulateFieldsIntoForm: the throw is modelled as a returned error. The promise rejection it causes, left unhandled because the listener does not await it, is not modelled.
