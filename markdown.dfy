/** The service worker's `unwrapJSONStringFromMarkdown`, meant for JSON that
    arrives inside a Markdown code block: it removes the fence with two
    anchored, non-global regular-expression replacements, first
    `/^```json\n/` and then `/\s*```$/`. */
module Markdown {

  import opened Wrappers
  import opened Strings

  const OpeningFence := "```json\n"
  const ClosingFence := "```"

  /** `replace(/^```json\n/, '')`: the pattern is anchored at index 0 and the
      replacement is not global, so the fence goes at most once and only
      from the very start. */
  function StripOpeningFence(s: string): (r: string)
    ensures |s| - |r| in {0, |OpeningFence|}
    ensures r == s[|s| - |r|..]
    ensures r != s <==> OpeningFence <= s
  {
    if OpeningFence <= s then s[|OpeningFence|..] else s
  }

  /** The pattern `\s*```$` matches `s` starting at index `i`: only
      whitespace from `i` up to a fence that ends the string. */
  predicate ClosingMatchAt(s: string, i: nat) {
    i + |ClosingFence| <= |s|
    && s[|s| - |ClosingFence|..] == ClosingFence
    && AllWs(s[i..|s| - |ClosingFence|])
  }

  /** Where the regular-expression search for `\s*```$` succeeds first,
      scanning the start positions from left to right. */
  function ClosingMatchStart(s: string): (i: Option<nat>)
    ensures i.Some? ==> ClosingMatchAt(s, i.value)
    ensures i.Some? ==> forall j: nat :: j < i.value ==> !ClosingMatchAt(s, j)
    ensures i.None? ==> forall j: nat :: !ClosingMatchAt(s, j)
    ensures i.Some? <==> |s| >= |ClosingFence| && s[|s| - |ClosingFence|..] == ClosingFence
  {
    var f := |ClosingFence|;
    if |s| >= f && s[|s| - f..] == ClosingFence then
      var body := s[..|s| - f];
      var i := |body| - TrailingWs(body);
      assert s[i..|s| - f] == body[i..];
      NoEarlierClosingMatch(s, i);
      Some(i)
    else
      None
  }

  /** A non-whitespace character just before index `i` rules out every match
      that starts earlier. */
  lemma NoEarlierClosingMatch(s: string, i: nat)
    requires |ClosingFence| <= |s| && i <= |s| - |ClosingFence|
    requires i > 0 ==> !IsWs(s[i - 1])
    ensures forall j: nat :: j < i ==> !ClosingMatchAt(s, j)
  {
    forall j: nat | j < i
      ensures !ClosingMatchAt(s, j)
    {
      var run := s[j..|s| - |ClosingFence|];
      assert run[i - 1 - j] == s[i - 1];
    }
  }

  /** `replace(/\s*```$/, '')`: drops everything from the first match on;
      leaves `s` alone when it does not end in a fence. */
  function StripClosingFence(s: string): (r: string)
    ensures r <= s
    ensures !(|s| >= |ClosingFence| && s[|s| - |ClosingFence|..] == ClosingFence) ==> r == s
    ensures |s| >= |ClosingFence| && s[|s| - |ClosingFence|..] == ClosingFence ==>
      |r| + |ClosingFence| <= |s| && ClosingMatchAt(s, |r|) && forall j: nat :: j < |r| ==> !ClosingMatchAt(s, j)
  {
    match ClosingMatchStart(s)
    case None => s
    case Some(i) => s[..i]
  }

  /** `unwrapJSONStringFromMarkdown`: the opening fence is removed before the
      closing one. The result is a contiguous piece of the input. */
  function Unwrap(markdown: string): (r: string)
    ensures |r| <= |markdown|
    ensures var start := |markdown| - |StripOpeningFence(markdown)|;
      start + |r| <= |markdown| && r == markdown[start..start + |r|]
  {
    StripClosingFence(StripOpeningFence(markdown))
  }

  /** A string with neither fence comes back unchanged. */
  lemma UnwrapWithoutFences(s: string)
    requires !(OpeningFence <= s)
    requires !(|s| >= |ClosingFence| && s[|s| - |ClosingFence|..] == ClosingFence)
    ensures Unwrap(s) == s
  {
  }

  /** Wrapping a payload in a `json` code block and unwrapping it gives the
      payload back, provided the payload does not itself end in whitespace
      (that whitespace would go with the closing fence). */
  lemma {:induction false} UnwrapRoundTrip(payload: string)
    requires payload == [] || !IsWs(payload[|payload| - 1])
    ensures Unwrap(OpeningFence + payload + "\n" + ClosingFence) == payload
  {
    var s := OpeningFence + payload + "\n" + ClosingFence;
    assert OpeningFence <= s;
    var t := StripOpeningFence(s);
    assert t == payload + "\n" + ClosingFence;
    assert t[|t| - |ClosingFence|..] == ClosingFence;
    var body := t[..|t| - |ClosingFence|];
    assert body == payload + "\n";
    assert TrailingWs(body) == 1 by {
      assert body[..|body| - 1] == payload;
      if payload != [] {
        assert TrailingWs(payload) == 0;
      }
    }
    assert ClosingMatchStart(t) == Some(|payload|);
    assert t[..|payload|] == payload;
  }

  /** The opening fence goes first, so a block holding nothing but
      whitespace unwraps to the empty string ... */
  lemma {:induction false} EmptyBlockUnwrapsToEmpty(ws: string)
    requires AllWs(ws)
    ensures Unwrap(OpeningFence + ws + ClosingFence) == ""
  {
    var s := OpeningFence + ws + ClosingFence;
    assert OpeningFence <= s;
    var t := StripOpeningFence(s);
    assert t == ws + ClosingFence;
    assert ClosingMatchAt(t, 0) by {
      assert t[0..|t| - |ClosingFence|] == ws;
    }
  }

  /** ... whereas stripping the closing fence first would have left the
      opening one behind: for "```json\n```" the order of the two
      replacements decides between "" and "```json". */
  lemma OrderOfReplacementsMatters()
    ensures Unwrap(OpeningFence + ClosingFence) == ""
    ensures StripOpeningFence(StripClosingFence(OpeningFence + ClosingFence)) == "```json"
  {
    EmptyBlockUnwrapsToEmpty("");
    assert OpeningFence + "" + ClosingFence == OpeningFence + ClosingFence;
    ClosingFenceOfEmptyBlock();
  }

  /** In "```json\n```" the match of `\s*```$` starts at the newline: the
      'n' before it is not whitespace. */
  lemma ClosingFenceOfEmptyBlock()
    ensures StripClosingFence(OpeningFence + ClosingFence) == "```json"
  {
    var s := OpeningFence + ClosingFence;
    var r := StripClosingFence(s);
    assert s[|s| - |ClosingFence|..] == ClosingFence;
    assert ClosingMatchAt(s, 7) by {
      assert s[7..|s| - |ClosingFence|] == "\n";
    }
    assert r == s[..7];
  }
}
