/**
 * The java.lang.String operations the core relies on, written out with the
 * JDK's semantics: indexOf, lastIndexOf, split (which drops trailing empty
 * strings), concatenation of a possibly-null string, and decimal rendering
 * of integers.
 */
module Strings {
  import opened Wrappers

  /** `pat` occurs in `s` starting at index `i`. */
  predicate OccursAt(s: string, pat: string, i: nat) {
    i + |pat| <= |s| && s[i..i + |pat|] == pat
  }

  /** `pat` occurs somewhere in `s`. */
  ghost predicate Contains(s: string, pat: string) {
    exists i: nat :: OccursAt(s, pat, i)
  }

  /** String.indexOf(String) for a non-empty pattern: the first occurrence. */
  function IndexOf(s: string, pat: string): (r: Option<nat>)
    requires pat != []
    ensures r.Some? ==> OccursAt(s, pat, r.value)
    ensures r.Some? ==> forall j: nat :: j < r.value ==> !OccursAt(s, pat, j)
    ensures r.None? <==> !Contains(s, pat)
    decreases |s|
  {
    if |s| < |pat| then
      None
    else if s[..|pat|] == pat then
      assert OccursAt(s, pat, 0);
      Some(0)
    else
      assert !OccursAt(s, pat, 0);
      match IndexOf(s[1..], pat)
      case Some(i) =>
        assert OccursAt(s, pat, i + 1) by { ShiftOccursAt(s, pat, i); }
        assert forall j: nat :: j < i + 1 ==> !OccursAt(s, pat, j) by {
          forall j: nat | 0 < j < i + 1 ensures !OccursAt(s, pat, j) { ShiftOccursAt(s, pat, j - 1); }
        }
        Some(i + 1)
      case None =>
        assert forall j: nat :: !OccursAt(s, pat, j) by {
          forall j: nat | 0 < j ensures !OccursAt(s, pat, j) { ShiftOccursAt(s, pat, j - 1); }
        }
        None
  }

  /** An occurrence at `j + 1` in `s` is an occurrence at `j` in `s[1..]`. */
  lemma ShiftOccursAt(s: string, pat: string, j: nat)
    requires s != []
    ensures OccursAt(s, pat, j + 1) <==> OccursAt(s[1..], pat, j)
  {
    if j + 1 + |pat| <= |s| {
      assert s[1..][j..j + |pat|] == s[j + 1..j + 1 + |pat|];
    }
  }

  /** String.indexOf(char): the first index holding `c`. */
  function IndexOfChar(s: string, c: char): (r: Option<nat>)
    ensures r.Some? ==> r.value < |s| && s[r.value] == c && c !in s[..r.value]
    ensures r.None? <==> c !in s
    decreases |s|
  {
    if s == [] then None
    else if s[0] == c then Some(0)
    else
      match IndexOfChar(s[1..], c)
      case Some(i) =>
        assert s[..i + 1] == [s[0]] + s[1..][..i];
        Some(i + 1)
      case None =>
        assert s == [s[0]] + s[1..];
        None
  }

  /** indexOf finds the index of `c` that no earlier `c` precedes. */
  lemma IndexOfCharAt(s: string, c: char, k: nat)
    requires k < |s| && s[k] == c && c !in s[..k]
    ensures IndexOfChar(s, c) == Some(k)
  {
    var r := IndexOfChar(s, c);
    assert c in s by { assert s[k] == c; }
    forall j | 0 <= j < k ensures s[j] != c {
      assert s[..k][j] == s[j];
    }
    forall j | 0 <= j < r.value ensures s[j] != c {
      assert s[..r.value][j] == s[j];
    }
  }

  /** String.lastIndexOf(char): the last index holding `c`. */
  function LastIndexOfChar(s: string, c: char): (r: Option<nat>)
    ensures r.Some? ==> r.value < |s| && s[r.value] == c && c !in s[r.value + 1..]
    ensures r.None? <==> c !in s
    decreases |s|
  {
    if s == [] then None
    else if s[|s| - 1] == c then Some(|s| - 1)
    else
      var r := LastIndexOfChar(s[..|s| - 1], c);
      assert s == s[..|s| - 1] + [s[|s| - 1]];
      match r
      case Some(i) =>
        assert s[i + 1..] == s[..|s| - 1][i + 1..] + [s[|s| - 1]];
        Some(i)
      case None => None
  }

  /** The pieces joined back with the separator `c`. */
  function Join(pieces: seq<string>, c: char): string
    decreases |pieces|
  {
    if |pieces| == 0 then ""
    else if |pieces| == 1 then pieces[0]
    else pieces[0] + [c] + Join(pieces[1..], c)
  }

  /** Splits `s` at every `c`, keeping every piece (also empty ones). */
  function SplitAll(s: string, c: char): (pieces: seq<string>)
    ensures |pieces| >= 1
    ensures forall k :: 0 <= k < |pieces| ==> c !in pieces[k]
    ensures Join(pieces, c) == s
    decreases |s|
  {
    match IndexOfChar(s, c)
    case None => [s]
    case Some(i) =>
      var tail := SplitAll(s[i + 1..], c);
      assert s == s[..i] + [c] + s[i + 1..];
      [s[..i]] + tail
  }

  /** The pieces without their trailing run of empty strings. */
  function DropTrailingEmpty(pieces: seq<string>): (r: seq<string>)
    ensures |r| <= |pieces| && r == pieces[..|r|]
    ensures r == [] || r[|r| - 1] != ""
    ensures forall k :: |r| <= k < |pieces| ==> pieces[k] == ""
    decreases |pieces|
  {
    if pieces != [] && pieces[|pieces| - 1] == "" then DropTrailingEmpty(pieces[..|pieces| - 1])
    else pieces
  }

  /**
   * String.split with a one-character separator: when `c` does not occur
   * the result is `[s]` (also for the empty string); otherwise every piece,
   * minus the trailing empty ones.
   */
  function JavaSplit(s: string, c: char): (pieces: seq<string>)
  {
    if c !in s then [s] else DropTrailingEmpty(SplitAll(s, c))
  }

  /** Splitting a join of separator-free pieces gives the pieces back. */
  lemma {:induction false} SplitJoin(pieces: seq<string>, c: char)
    requires |pieces| >= 1
    requires forall k :: 0 <= k < |pieces| ==> c !in pieces[k]
    ensures SplitAll(Join(pieces, c), c) == pieces
    decreases |pieces|
  {
    if |pieces| > 1 {
      var tail := pieces[1..];
      SplitAllCons(pieces[0], Join(tail, c), c);
      forall k | 0 <= k < |tail| ensures c !in tail[k] {
        assert tail[k] == pieces[k + 1];
      }
      SplitJoin(tail, c);
      assert pieces == [pieces[0]] + tail;
    }
  }

  /** A separator-free head, the separator, then a rest: the head is the first piece, the rest splits on. */
  lemma SplitAllCons(head: string, rest: string, c: char)
    requires c !in head
    ensures SplitAll(head + [c] + rest, c) == [head] + SplitAll(rest, c)
  {
    var s := head + [c] + rest;
    assert s[|head|] == c && s[..|head|] == head && s[|head| + 1..] == rest;
    IndexOfCharAt(s, c, |head|);
  }

  /** Every piece of a split is free of the separator. */
  lemma JavaSplitPieces(s: string, c: char)
    ensures forall k :: 0 <= k < |JavaSplit(s, c)| ==> c !in JavaSplit(s, c)[k]
  {
    if c in s {
      var all := SplitAll(s, c);
      var r := DropTrailingEmpty(all);
      forall k | 0 <= k < |r| ensures c !in r[k] {
        assert r[k] == all[k];
      }
    }
  }

  /** Splitting a join of separator-free pieces whose last piece is not empty gives the pieces back. */
  lemma JavaSplitJoin(pieces: seq<string>, c: char)
    requires |pieces| >= 1 && pieces[|pieces| - 1] != ""
    requires forall k :: 0 <= k < |pieces| ==> c !in pieces[k]
    ensures JavaSplit(Join(pieces, c), c) == pieces
  {
    var s := Join(pieces, c);
    SplitJoin(pieces, c);
    if c !in s {
      assert |SplitAll(s, c)| == 1;
    }
  }

  /** Java's rendering of a possibly-null string inside a concatenation. */
  function JavaStr(s: Option<string>): string {
    match s
    case Some(t) => t
    case None => "null"
  }

  /** The decimal digit for `d`: '0' + d. */
  function DigitChar(d: nat): char
    requires d < 10
  {
    ('0' as int + d) as char
  }

  function DigitValue(c: char): nat {
    if '0' <= c <= '9' then (c as int - '0' as int) as nat else 0
  }

  /** Decimal rendering of a natural number, as Integer.toString does it. */
  function NatToString(n: nat): (s: string)
    ensures |s| >= 1
    ensures forall k :: 0 <= k < |s| ==> '0' <= s[k] <= '9'
  {
    if n < 10 then [DigitChar(n)] else NatToString(n / 10) + [DigitChar(n % 10)]
  }

  /** Reads a string of decimal digits back as a number. */
  function ParseNat(s: string): nat
    decreases |s|
  {
    if s == [] then 0 else ParseNat(s[..|s| - 1]) * 10 + DigitValue(s[|s| - 1])
  }

  lemma {:induction false} ParseNatToString(n: nat)
    ensures ParseNat(NatToString(n)) == n
  {
    var s := NatToString(n);
    if n >= 10 {
      ParseNatToString(n / 10);
      assert s[..|s| - 1] == NatToString(n / 10);
    }
  }

  /** Decimal rendering is injective, so indexed field names never collide. */
  lemma NatToStringInjective(m: nat, n: nat)
    requires NatToString(m) == NatToString(n)
    ensures m == n
  {
    ParseNatToString(m);
    ParseNatToString(n);
  }

  /** Decimal rendering of an integer, with a leading '-' when negative. */
  function IntToString(i: int): (s: string) {
    if i < 0 then "-" + NatToString(-i) else NatToString(i)
  }

  function ParseInt(s: string): int {
    if s != [] && s[0] == '-' then 0 - ParseNat(s[1..]) as int else ParseNat(s)
  }

  lemma IntToStringRoundTrip(i: int)
    ensures ParseInt(IntToString(i)) == i
    ensures ' ' !in IntToString(i)
  {
    var s := IntToString(i);
    if i < 0 {
      var digits := NatToString(-i);
      ParseNatToString(-i);
      assert s == "-" + digits && s[0] == '-' && s[1..] == digits;
      assert ' ' !in digits;
    } else {
      ParseNatToString(i);
      assert '0' <= s[0] <= '9';
    }
  }
}
