/** The Option and Result datatypes used across the model. */
module Wrappers {
  datatype Option<+T> = None | Some(value: T)

  datatype Result<+T, +E> = Ok(value: T) | Err(error: E)
}

/** Order-preserving selection from a sequence, shared by the list filters. */
module Sequences {
  /** `s` is obtained from `t` by deleting elements (greedy matching decides it). */
  ghost predicate IsSubsequence<T>(s: seq<T>, t: seq<T>)
    decreases |t|
  {
    if s == [] then true
    else if t == [] then false
    else if s[0] == t[0] then IsSubsequence(s[1..], t[1..])
    else IsSubsequence(s, t[1..])
  }
}

/**
  String operations shared by the gallery components: lower-casing, substring
  search, literal replace-all (what a global regular expression without
  metacharacters does), split/join, removal of inline script blocks, and the
  decimal rendering of integers that template literals perform.
 */
module Text {
  import opened Wrappers

  predicate IsUpper(c: char) { 'A' <= c <= 'Z' }

  function LowerChar(c: char): char {
    if IsUpper(c) then (c as int + 32) as char else c
  }

  /** ASCII lower-casing, character by character. */
  function ToLower(s: string): (r: string)
    ensures |r| == |s|
    ensures forall i :: 0 <= i < |s| ==> r[i] == LowerChar(s[i])
  {
    seq(|s|, i requires 0 <= i < |s| => LowerChar(s[i]))
  }

  /** `pat` occurs in `s` starting at index `k`. */
  ghost predicate OccursAt(s: string, pat: string, k: int) {
    0 <= k && k + |pat| <= |s| && s[k..k + |pat|] == pat
  }

  /** The first occurrence of `pat` in `s` at or after `from`, as `indexOf` finds it. */
  function IndexOf(s: string, pat: string, from: nat): (r: Option<nat>)
    ensures r.Some? ==> from <= r.value && OccursAt(s, pat, r.value)
    ensures r.Some? ==> forall k :: from <= k < r.value ==> !OccursAt(s, pat, k)
    ensures r.None? ==> forall k :: from <= k ==> !OccursAt(s, pat, k)
    decreases |s| - from
  {
    if from + |pat| > |s| then None
    else if s[from..from + |pat|] == pat then Some(from)
    else IndexOf(s, pat, from + 1)
  }

  /** `includes` */
  predicate Contains(s: string, pat: string) {
    IndexOf(s, pat, 0).Some?
  }

  lemma ContainsIff(s: string, pat: string)
    ensures Contains(s, pat) <==> exists k :: OccursAt(s, pat, k)
  {
    if !Contains(s, pat) {
      forall k ensures !OccursAt(s, pat, k) {
        if k >= 0 { assert 0 <= k; }
      }
    }
  }

  /** Every string contains the empty string (what `includes('')` answers). */
  lemma ContainsEmpty(s: string)
    ensures Contains(s, "")
  {
    assert s[0..0] == "";
  }

  /** Literal, left-to-right, non-overlapping replacement of every occurrence. */
  function ReplaceAll(s: string, pat: string, rep: string): string
    requires |pat| > 0
    decreases |s|
  {
    match IndexOf(s, pat, 0)
    case None => s
    case Some(i) => s[..i] + rep + ReplaceAll(s[i + |pat|..], pat, rep)
  }

  /** A replacement as long as the pattern keeps the text's length. */
  lemma {:induction false} ReplaceAllSameLength(s: string, pat: string, rep: string)
    requires |pat| > 0 && |rep| == |pat|
    ensures |ReplaceAll(s, pat, rep)| == |s|
    decreases |s|
  {
    match IndexOf(s, pat, 0)
    case None =>
    case Some(i) => ReplaceAllSameLength(s[i + |pat|..], pat, rep);
  }

  /** `split(pat)` with a non-empty string separator. */
  function Split(s: string, pat: string): (parts: seq<string>)
    requires |pat| > 0
    ensures |parts| >= 1
    decreases |s|
  {
    match IndexOf(s, pat, 0)
    case None => [s]
    case Some(i) => [s[..i]] + Split(s[i + |pat|..], pat)
  }

  /** `join(sep)` */
  function Join(parts: seq<string>, sep: string): string {
    if |parts| == 0 then ""
    else if |parts| == 1 then parts[0]
    else parts[0] + sep + Join(parts[1..], sep)
  }

  /** Splitting on a separator and joining with it gives the text back. */
  lemma {:induction false} JoinSplit(s: string, pat: string)
    requires |pat| > 0
    ensures Join(Split(s, pat), pat) == s
    decreases |s|
  {
    var found := IndexOf(s, pat, 0);
    if found.Some? {
      var i := found.value;
      var rest := s[i + |pat|..];
      JoinSplit(rest, pat);
      SplitAt(s, pat, i);
      JoinCons(s[..i], Split(rest, pat), pat);
      assert s[i..i + |pat|] == pat;
      SliceThree(s, i, i + |pat|);
    }
  }

  lemma {:induction false} SliceThree(s: string, i: nat, j: nat)
    requires i <= j <= |s|
    ensures s == s[..i] + s[i..j] + s[j..]
  {
  }

  lemma {:induction false} JoinCons(head: string, tail: seq<string>, sep: string)
    requires |tail| >= 1
    ensures Join([head] + tail, sep) == head + sep + Join(tail, sep)
  {
    assert ([head] + tail)[1..] == tail;
  }

  /** Replacing every occurrence is splitting on the pattern and joining with the replacement. */
  lemma {:induction false} ReplaceAllIsSplitJoin(s: string, pat: string, rep: string)
    requires |pat| > 0
    ensures ReplaceAll(s, pat, rep) == Join(Split(s, pat), rep)
    decreases |s|
  {
    match IndexOf(s, pat, 0)
    case None =>
    case Some(i) =>
      var rest := s[i + |pat|..];
      ReplaceAllIsSplitJoin(rest, pat, rep);
      ReplaceAllAt(s, pat, rep, i);
      SplitAt(s, pat, i);
      JoinCons(s[..i], Split(rest, pat), rep);
  }

  /** The split, given where the first occurrence is. */
  lemma {:induction false} SplitAt(s: string, pat: string, i: nat)
    requires |pat| > 0 && IndexOf(s, pat, 0) == Some(i)
    ensures Split(s, pat) == [s[..i]] + Split(s[i + |pat|..], pat)
  {
  }

  /** No piece produced by `Split` contains the separator. */
  lemma {:induction false} SplitPiecesAreFree(s: string, pat: string)
    requires |pat| > 0
    ensures forall j :: 0 <= j < |Split(s, pat)| ==> !Contains(Split(s, pat)[j], pat)
    decreases |s|
  {
    var parts := Split(s, pat);
    match IndexOf(s, pat, 0)
    case None =>
      PrefixFree(s, pat, |s|);
      assert s[..|s|] == s;
    case Some(i) =>
      PrefixFree(s, pat, i);
      SplitPiecesAreFree(s[i + |pat|..], pat);
      assert parts == [s[..i]] + Split(s[i + |pat|..], pat);
  }

  /** A prefix ending before the first occurrence does not contain the pattern. */
  lemma {:induction false} PrefixFree(s: string, pat: string, i: nat)
    requires i <= |s| && |pat| > 0
    requires forall k :: 0 <= k < i ==> !OccursAt(s, pat, k)
    ensures !Contains(s[..i], pat)
  {
    if Contains(s[..i], pat) {
      var k := IndexOf(s[..i], pat, 0).value;
      assert OccursAt(s[..i], pat, k);
      assert s[..i][k..k + |pat|] == s[k..k + |pat|];
      assert OccursAt(s, pat, k);
    }
  }

  /** The number of occurrences of character `c` in `s`. */
  function CountChar(s: string, c: char): nat {
    if s == [] then 0 else (if s[0] == c then 1 else 0) + CountChar(s[1..], c)
  }

  lemma {:induction false} CountCharAppend(a: string, b: string, c: char)
    ensures CountChar(a + b, c) == CountChar(a, c) + CountChar(b, c)
  {
    if a == [] {
      assert a + b == b;
    } else {
      assert (a + b)[0] == a[0];
      assert (a + b)[1..] == a[1..] + b;
      CountCharAppend(a[1..], b, c);
    }
  }

  /** Splitting on a one-character separator yields one piece more than there are separators. */
  lemma {:induction false} SplitCharCount(s: string, c: char)
    ensures |Split(s, [c])| == CountChar(s, c) + 1
    decreases |s|
  {
    match IndexOf(s, [c], 0)
    case None =>
      NoOccurrenceNoCount(s, c);
    case Some(i) =>
      var rest := s[i + 1..];
      SplitCharCount(rest, c);
      forall k | 0 <= k < i ensures !OccursAt(s[..i], [c], k) {
        assert s[..i][k..k + 1] == s[k..k + 1];
        assert !OccursAt(s, [c], k);
      }
      NoOccurrenceNoCount(s[..i], c);
      assert s == s[..i] + [c] + rest;
      CountCharAppend(s[..i] + [c], rest, c);
      CountCharAppend(s[..i], [c], c);
  }

  lemma {:induction false} NoOccurrenceNoCount(s: string, c: char)
    requires forall k :: 0 <= k < |s| ==> !OccursAt(s, [c], k)
    ensures CountChar(s, c) == 0
  {
    if s != [] {
      assert s[0..1] == [s[0]];
      assert !OccursAt(s, [c], 0);
      forall k | 0 <= k < |s[1..]| ensures !OccursAt(s[1..], [c], k) {
        assert s[1..][k..k + 1] == s[k + 1..k + 2];
        assert !OccursAt(s, [c], k + 1);
      }
      NoOccurrenceNoCount(s[1..], c);
    }
  }

  /** Replacing one character by a text, position by position. */
  function ReplaceChar(s: string, c: char, rep: string): string {
    if s == [] then [] else (if s[0] == c then rep else [s[0]]) + ReplaceChar(s[1..], c, rep)
  }

  lemma {:induction false} ReplaceCharAppend(a: string, b: string, c: char, rep: string)
    ensures ReplaceChar(a + b, c, rep) == ReplaceChar(a, c, rep) + ReplaceChar(b, c, rep)
  {
    if a == [] {
      assert a + b == b;
    } else {
      assert (a + b)[0] == a[0];
      assert (a + b)[1..] == a[1..] + b;
      ReplaceCharAppend(a[1..], b, c, rep);
    }
  }

  lemma {:induction false} ReplaceCharAbsent(s: string, c: char, rep: string)
    requires forall k :: 0 <= k < |s| ==> s[k] != c
    ensures ReplaceChar(s, c, rep) == s
  {
    if s != [] { ReplaceCharAbsent(s[1..], c, rep); }
  }

  /** A replace-all with a one-character pattern rewrites exactly the positions holding it. */
  lemma {:induction false} ReplaceAllSingle(s: string, c: char, rep: string)
    ensures ReplaceAll(s, [c], rep) == ReplaceChar(s, c, rep)
    decreases |s|
  {
    match IndexOf(s, [c], 0)
    case None =>
      CharAbsent(s, c, |s|);
      ReplaceCharAbsent(s, c, rep);
    case Some(i) =>
      var rest := s[i + 1..];
      ReplaceAllSingle(rest, c, rep);
      ReplaceAllAt(s, [c], rep, i);
      CharAbsent(s, c, i);
      ReplaceCharAt(s, c, rep, i);
  }

  /** The replacement, given where the first occurrence is. */
  lemma {:induction false} ReplaceAllAt(s: string, pat: string, rep: string, i: nat)
    requires |pat| > 0 && IndexOf(s, pat, 0) == Some(i)
    ensures ReplaceAll(s, pat, rep) == s[..i] + rep + ReplaceAll(s[i + |pat|..], pat, rep)
  {
  }

  /** No position before a one-character pattern's first occurrence holds that character. */
  lemma {:induction false} CharAbsent(s: string, c: char, i: nat)
    requires i <= |s|
    requires forall k :: 0 <= k < i ==> !OccursAt(s, [c], k)
    ensures forall k :: 0 <= k < i ==> s[k] != c
  {
    forall k | 0 <= k < i ensures s[k] != c {
      assert s[k..k + 1] == [s[k]];
      assert !OccursAt(s, [c], k);
    }
  }

  /** Character replacement around the first position holding the character. */
  lemma {:induction false} ReplaceCharAt(s: string, c: char, rep: string, i: nat)
    requires i < |s| && s[i] == c
    requires forall k :: 0 <= k < i ==> s[k] != c
    ensures ReplaceChar(s, c, rep) == s[..i] + rep + ReplaceChar(s[i + 1..], c, rep)
  {
    var rest := s[i + 1..];
    ReplaceCharAbsent(s[..i], c, rep);
    assert s == s[..i] + [c] + rest;
    ReplaceCharAppend(s[..i] + [c], rest, c, rep);
    ReplaceCharAppend(s[..i], [c], c, rep);
    assert ReplaceChar([c], c, rep) == rep + ReplaceChar([], c, rep);
  }

  /** Decimal rendering of a natural number, as a template literal prints it. */
  function NatText(n: nat): (r: string)
    ensures |r| >= 1
    ensures forall i :: 0 <= i < |r| ==> '0' <= r[i] <= '9'
  {
    if n < 10 then [('0' as int + n) as char]
    else NatText(n / 10) + [('0' as int + n % 10) as char]
  }

  /** Decimal rendering of an integer, with a leading '-' for negative values. */
  function IntText(n: int): (r: string)
    ensures |r| >= 1
  {
    if n < 0 then "-" + NatText(-n) else NatText(n)
  }

  /** The value of a string of decimal digits. */
  function DigitsValue(s: string): nat
    requires forall i :: 0 <= i < |s| ==> '0' <= s[i] <= '9'
  {
    if s == [] then 0 else 10 * DigitsValue(s[..|s| - 1]) + (s[|s| - 1] as int - '0' as int)
  }

  /** Reading the digits back gives the number: the rendering loses nothing. */
  lemma {:induction false} NatTextRoundTrip(n: nat)
    ensures DigitsValue(NatText(n)) == n
  {
    if n >= 10 {
      NatTextRoundTrip(n / 10);
      var r := NatText(n);
      assert r[..|r| - 1] == NatText(n / 10);
    }
  }

  /** The tags of an inline script block. */
  const ScriptOpen: string := "<script>"
  const ScriptClose: string := "</script>"

  /**
    Where the first `open … close` block of `s` sits, as a lazy pattern
    `open[\s\S]*?close` finds it: the first `open`, and the first `close`
    after it; none when either is missing.
   */
  function FirstBlock(s: string, open: string, close: string): (r: Option<(nat, nat)>)
    ensures r.Some? ==> r.value.0 + |open| <= r.value.1 && r.value.1 + |close| <= |s|
    ensures r.Some? ==> OccursAt(s, open, r.value.0) && OccursAt(s, close, r.value.1)
  {
    match IndexOf(s, open, 0)
    case None => None
    case Some(i) =>
      match IndexOf(s, close, i + |open|)
      case None => None
      case Some(j) => Some((i, j))
  }

  /**
    Removes every `open … close` block the way a global lazy pattern
    `open[\s\S]*?close` does: the scan resumes behind each block's `close`,
    and an `open` without a `close` after it is left alone.
   */
  function RemoveBlocks(s: string, open: string, close: string): string
    requires |close| > 0
    decreases |s|
  {
    match FirstBlock(s, open, close)
    case None => s
    case Some((i, j)) => s[..i] + RemoveBlocks(s[j + |close|..], open, close)
  }

  /** Removes every `<script>…</script>` block, as `/<script>[\s\S]*?<\/script>/g` does. */
  function RemoveScripts(s: string): string {
    RemoveBlocks(s, ScriptOpen, ScriptClose)
  }

  /** Removing blocks never lengthens the text and leaves text without an opening tag alone. */
  lemma {:induction false} RemoveBlocksShrinks(s: string, open: string, close: string)
    requires |close| > 0
    ensures |RemoveBlocks(s, open, close)| <= |s|
    ensures !Contains(s, open) ==> RemoveBlocks(s, open, close) == s
    decreases |s|
  {
    match FirstBlock(s, open, close)
    case None =>
    case Some((i, j)) => RemoveBlocksShrinks(s[j + |close|..], open, close);
  }

  /** Stripping scripts never lengthens the text and leaves script-free text alone. */
  lemma RemoveScriptsShrinks(s: string)
    ensures |RemoveScripts(s)| <= |s|
    ensures !Contains(s, ScriptOpen) ==> RemoveScripts(s) == s
  {
    RemoveBlocksShrinks(s, ScriptOpen, ScriptClose);
  }
}
