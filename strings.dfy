/** String primitives of JavaScript that the content script and the
    service worker rely on: the `\s` character class, `String.prototype.trim`
    and `String.prototype.split` with a non-empty separator. */
module Strings {

  import opened Wrappers

  /** ECMAScript WhiteSpace and LineTerminator code points: the set matched by
      the regular-expression class `\s` and removed by `trim`. */
  predicate IsWs(c: char) {
    var n := c as int;
    n == 0x09 || n == 0x0A || n == 0x0B || n == 0x0C || n == 0x0D || n == 0x20
    || n == 0xA0 || n == 0x1680 || (0x2000 <= n <= 0x200A)
    || n == 0x2028 || n == 0x2029 || n == 0x202F || n == 0x205F || n == 0x3000
    || n == 0xFEFF
  }

  predicate AllWs(s: string) {
    forall i :: 0 <= i < |s| ==> IsWs(s[i])
  }

  /** Length of the longest run of whitespace at the start of `s`. */
  function LeadingWs(s: string): (n: nat)
    ensures n <= |s|
    ensures AllWs(s[..n])
    ensures n < |s| ==> !IsWs(s[n])
    decreases |s|
  {
    if s == [] || !IsWs(s[0]) then 0
    else
      var n := 1 + LeadingWs(s[1..]);
      assert s[..n] == [s[0]] + s[1..][..n - 1];
      n
  }

  /** Length of the longest run of whitespace at the end of `s`. */
  function TrailingWs(s: string): (n: nat)
    ensures n <= |s|
    ensures AllWs(s[|s| - n..])
    ensures n < |s| ==> !IsWs(s[|s| - n - 1])
    decreases |s|
  {
    if s == [] || !IsWs(s[|s| - 1]) then 0
    else
      var init := s[..|s| - 1];
      var n := 1 + TrailingWs(init);
      assert s[|s| - n..] == init[|init| - (n - 1)..] + [s[|s| - 1]];
      n
  }

  /** `String.prototype.trim`: the text between the leading and the trailing
      whitespace runs. */
  function Trim(s: string): (r: string)
    ensures |r| <= |s|
    ensures r != [] ==> !IsWs(r[0]) && !IsWs(r[|r| - 1])
  {
    var t := s[LeadingWs(s)..];
    t[..|t| - TrailingWs(t)]
  }

  /** What trimming keeps: the piece of `s` between a leading and a
      trailing run of whitespace. */
  lemma TrimProperties(s: string)
    ensures var r := Trim(s);
      && LeadingWs(s) + |r| <= |s|
      && r == s[LeadingWs(s)..LeadingWs(s) + |r|]
      && AllWs(s[..LeadingWs(s)]) && AllWs(s[LeadingWs(s) + |r|..])
  {
    var a := LeadingWs(s);
    var t := s[a..];
    var b := TrailingWs(t);
    var r := Trim(s);
    assert r == t[..|t| - b];
    assert r == s[a..a + |r|] by {
      assert t[..|t| - b] == s[a..a + (|t| - b)];
    }
    assert AllWs(s[a + |r|..]) by {
      assert s[a + |r|..] == t[|t| - b..];
    }
  }

  /** Trimming leaves nothing exactly when `s` is all whitespace. */
  lemma TrimEmpty(s: string)
    ensures Trim(s) == [] <==> AllWs(s)
  {
    var a := LeadingWs(s);
    var t := s[a..];
    var b := TrailingWs(t);
    assert Trim(s) == t[..|t| - b];
    if Trim(s) == [] {
      assert AllWs(t) by {
        assert t[|t| - b..] == t;
      }
      assert a == |s|;
      assert s[..a] == s;
    } else {
      assert a < |s|;
      assert !IsWs(s[a]);
    }
  }

  /** Trimming twice is trimming once. */
  lemma TrimIdempotent(s: string)
    ensures Trim(Trim(s)) == Trim(s)
  {
    var r := Trim(s);
    if r != [] {
      assert LeadingWs(r) == 0;
      assert TrailingWs(r[0..]) == 0;
      assert r[0..] == r;
    }
  }

  /** `sep` occurs in `s` starting at index `i`. */
  predicate OccursAt(s: string, sep: string, i: nat) {
    i + |sep| <= |s| && s[i..i + |sep|] == sep
  }

  predicate Contains(s: string, sep: string) {
    exists i: nat | i <= |s| :: OccursAt(s, sep, i)
  }

  lemma OccursAtShift(s: string, sep: string)
    requires s != []
    ensures forall j: nat :: OccursAt(s[1..], sep, j) <==> OccursAt(s, sep, j + 1)
  {
    forall j: nat
      ensures OccursAt(s[1..], sep, j) <==> OccursAt(s, sep, j + 1)
    {
      if j + 1 + |sep| <= |s| {
        assert s[1..][j..j + |sep|] == s[j + 1..j + 1 + |sep|];
      }
    }
  }

  /** Index of the first occurrence of `sep` in `s`, as `indexOf` finds it. */
  function Find(s: string, sep: string): (r: Option<nat>)
    ensures r.Some? ==> OccursAt(s, sep, r.value)
    ensures r.Some? ==> forall j: nat :: j < r.value ==> !OccursAt(s, sep, j)
    ensures r.None? ==> !Contains(s, sep)
    decreases |s|
  {
    if |s| < |sep| then None
    else if s[..|sep|] == sep then Some(0)
    else
      assert s[0..|sep|] == s[..|sep|];
      assert !OccursAt(s, sep, 0);
      OccursAtShift(s, sep);
      assert forall j: nat | 0 < j :: OccursAt(s, sep, j) == OccursAt(s[1..], sep, j - 1);
      match Find(s[1..], sep)
      case None => None
      case Some(i) => Some(i + 1)
  }

  lemma NoOccurrenceInPrefix(s: string, sep: string, i: nat)
    requires sep != [] && i <= |s|
    requires forall j: nat :: j < i ==> !OccursAt(s, sep, j)
    ensures !Contains(s[..i], sep)
  {
    forall j: nat | OccursAt(s[..i], sep, j)
      ensures false
    {
      assert s[..i][j..j + |sep|] == s[j..j + |sep|];
      assert OccursAt(s, sep, j);
    }
  }

  /** `s.split(sep)` for a non-empty separator: the pieces between the
      successive non-overlapping occurrences of `sep`, found left to right. */
  function Split(s: string, sep: string): (parts: seq<string>)
    requires sep != []
    ensures |parts| > 0
    ensures forall k :: 0 <= k < |parts| ==> !Contains(parts[k], sep)
    decreases |s|
  {
    match Find(s, sep)
    case None => [s]
    case Some(i) =>
      NoOccurrenceInPrefix(s, sep, i);
      [s[..i]] + Split(s[i + |sep|..], sep)
  }

  /** `parts.join(sep)`. */
  function Join(parts: seq<string>, sep: string): string {
    if parts == [] then ""
    else if |parts| == 1 then parts[0]
    else parts[0] + sep + Join(parts[1..], sep)
  }

  /** Splitting loses nothing: joining the pieces with the separator gives
      back the original string. */
  lemma {:induction false} JoinSplit(s: string, sep: string)
    requires sep != []
    ensures Join(Split(s, sep), sep) == s
    decreases |s|
  {
    match Find(s, sep)
    case None =>
    case Some(i) =>
      var rest := Split(s[i + |sep|..], sep);
      JoinSplit(s[i + |sep|..], sep);
      assert Split(s, sep) == [s[..i]] + rest;
      assert ([s[..i]] + rest)[1..] == rest;
      assert s == s[..i] + s[i..i + |sep|] + s[i + |sep|..];
  }

  /** A string without the separator is one piece. */
  lemma SplitWithoutSeparator(s: string, sep: string)
    requires sep != [] && !Contains(s, sep)
    ensures Split(s, sep) == [s]
  {
  }
}
