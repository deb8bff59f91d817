/** `getForm`: resolve a selector that may cross shadow-DOM boundaries. The
    selector is split on `::shadow-root`; each piece is looked up in the
    current scope, and a match that hosts a shadow root hands the scope on to
    that root's first element child. */
module Selection {

  import opened Wrappers
  import opened Strings
  import opened Dom

  const ShadowRootSeparator := "::shadow-root"
  const NoElementFound := "No element found with the provided selector"
  const NotAFormElement := "Selected element is not a form element"

  predicate InDocument(doc: Document, scope: Option<Ref>) {
    scope.Some? ==> doc.Has(scope.value)
  }

  /** One piece of the selector: a scoped lookup, then one step into a shadow
      root. A null scope stays null without any lookup. */
  function Step(doc: Document, scope: Option<Ref>, piece: string): (next: Option<Ref>)
    requires doc.Valid() && InDocument(doc, scope)
    ensures InDocument(doc, next)
    ensures scope.None? ==> next.None?
    ensures next.Some? ==> scope.Some? && (scope.value, piece) in doc.lookup
  {
    match scope
    case None => None
    case Some(e) =>
      if (e, piece) !in doc.lookup then None
      else
        var found := doc.lookup[(e, piece)];
        match doc.nodes[found].shadow
        case NoShadowRoot => Some(found)
        case ShadowRoot(first) => first
  }

  /** The scope reached from `start` after the given pieces, in order. */
  function ResolvePieces(doc: Document, start: Option<Ref>, pieces: seq<string>): (r: Option<Ref>)
    requires doc.Valid() && InDocument(doc, start)
    ensures InDocument(doc, r)
    decreases |pieces|
  {
    if pieces == [] then start
    else Step(doc, ResolvePieces(doc, start, pieces[..|pieces| - 1]), pieces[|pieces| - 1])
  }

  /** The element a whole selector designates, starting from `document.body`. */
  function Resolve(doc: Document, selector: string): (r: Option<Ref>)
    requires doc.Valid()
    ensures InDocument(doc, r)
  {
    ResolvePieces(doc, Some(doc.body), Split(selector, ShadowRootSeparator))
  }

  /** `getForm(formSelector)`: the form the selector designates, or the
      error it throws. */
  method GetForm(doc: Document, formSelector: string) returns (r: Result<Ref, string>)
    requires doc.Valid()
    ensures r.Success? <==> Resolve(doc, formSelector).Some? && doc.IsForm(Resolve(doc, formSelector).value)
    ensures r.Success? ==> r.value == Resolve(doc, formSelector).value && doc.IsForm(r.value)
    ensures r.Failure? && Resolve(doc, formSelector).None? ==> r.error == NoElementFound
    ensures r.Failure? && Resolve(doc, formSelector).Some? ==> r.error == NotAFormElement
  {
    var selectorParts := Split(formSelector, ShadowRootSeparator);
    var currentElement: Option<Ref> := Some(doc.body);
    var i := 0;
    while i < |selectorParts|
      invariant 0 <= i <= |selectorParts|
      invariant InDocument(doc, currentElement)
      invariant currentElement == ResolvePieces(doc, Some(doc.body), selectorParts[..i])
    {
      if currentElement.Some? {
        var key := (currentElement.value, selectorParts[i]);
        currentElement := if key in doc.lookup then Some(doc.lookup[key]) else None;
        if currentElement.Some? && doc.nodes[currentElement.value].shadow.ShadowRoot? {
          currentElement := doc.nodes[currentElement.value].shadow.firstElementChild;
        }
      }
      assert selectorParts[..i + 1][..i] == selectorParts[..i];
      i := i + 1;
    }
    assert selectorParts[..i] == selectorParts;
    if currentElement.None? {
      return Failure(NoElementFound);
    }
    if !doc.IsForm(currentElement.value) {
      return Failure(NotAFormElement);
    }
    return Success(currentElement.value);
  }

  /** Once the scope is null it stays null for every remaining piece. */
  lemma {:induction false} NullScopeStaysNull(doc: Document, pieces: seq<string>)
    requires doc.Valid()
    ensures ResolvePieces(doc, None, pieces) == None
    decreases |pieces|
  {
    if pieces != [] {
      NullScopeStaysNull(doc, pieces[..|pieces| - 1]);
    }
  }

  /** Resolution is a left-to-right walk: resolving `first + rest` is
      resolving `rest` from wherever `first` led. */
  lemma {:induction false} ResolveConcat(doc: Document, start: Option<Ref>, first: seq<string>, rest: seq<string>)
    requires doc.Valid() && InDocument(doc, start)
    ensures ResolvePieces(doc, start, first + rest) == ResolvePieces(doc, ResolvePieces(doc, start, first), rest)
    decreases |rest|
  {
    if rest == [] {
      assert first + rest == first;
    } else {
      var init := rest[..|rest| - 1];
      assert (first + rest)[..|first + rest| - 1] == first + init;
      ResolveConcat(doc, start, first, init);
    }
  }

  /** A piece that finds nothing ends the search: no later piece is
      looked up and the selector designates nothing. */
  lemma NoMatchIsFinal(doc: Document, start: Option<Ref>, first: seq<string>, rest: seq<string>)
    requires doc.Valid() && InDocument(doc, start)
    requires ResolvePieces(doc, start, first) == None
    ensures ResolvePieces(doc, start, first + rest) == None
  {
    ResolveConcat(doc, start, first, rest);
    NullScopeStaysNull(doc, rest);
  }

  /** A selector without `::shadow-root` is a single scoped lookup from the
      body, with at most one step into a shadow root. */
  lemma PlainSelector(doc: Document, selector: string)
    requires doc.Valid() && !Contains(selector, ShadowRootSeparator)
    ensures Resolve(doc, selector) == Step(doc, Some(doc.body), selector)
  {
    SplitWithoutSeparator(selector, ShadowRootSeparator);
    var pieces := [selector];
    assert pieces[..0] == [];
    assert ResolvePieces(doc, Some(doc.body), pieces[..0]) == Some(doc.body);
    assert ResolvePieces(doc, Some(doc.body), pieces) == Step(doc, Some(doc.body), selector);
  }

  /** Only one shadow boundary is crossed per piece: when the match's shadow
      root begins with an element that itself hosts a shadow root, the scope
      stops at that element. */
  lemma OneShadowLevelPerPiece(doc: Document, scope: Ref, piece: string)
    requires doc.Valid() && doc.Has(scope) && (scope, piece) in doc.lookup
    requires doc.nodes[doc.lookup[(scope, piece)]].shadow.ShadowRoot?
    ensures Step(doc, Some(scope), piece) == doc.nodes[doc.lookup[(scope, piece)]].shadow.firstElementChild
  {
  }
}
