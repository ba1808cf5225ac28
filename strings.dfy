/** The few Python string operations the bot relies on: `str.strip()`,
    `str.split(sep)`, `sep.join(pieces)` and `str.startswith(prefix)`,
    on strings of Unicode scalar values. */
module Strings {

  /** Python's `str.isspace()` for a single character: the characters
      `str.strip()` with no argument removes. */
  predicate IsSpace(c: char)
  {
    || ('\t' <= c <= '\r')
    || ('\U{1C}' <= c <= '\U{1F}')
    || c == ' '
    || c == '\U{85}'
    || c == '\U{A0}'
    || c == '\U{1680}'
    || ('\U{2000}' <= c <= '\U{200A}')
    || c == '\U{2028}'
    || c == '\U{2029}'
    || c == '\U{202F}'
    || c == '\U{205F}'
    || c == '\U{3000}'
  }

  predicate AllSpace(s: string)
  {
    forall i :: 0 <= i < |s| ==> IsSpace(s[i])
  }

  /** Neither the first nor the last character is white space. */
  predicate IsStripped(s: string)
  {
    s == [] || (!IsSpace(s[0]) && !IsSpace(s[|s| - 1]))
  }

  /** The first position at or after `i` that does not hold white space,
      or `|s|`. */
  function SkipSpaceForward(s: string, i: nat): (j: nat)
    requires i <= |s|
    ensures i <= j <= |s|
    ensures forall k :: i <= k < j ==> IsSpace(s[k])
    ensures j == |s| || !IsSpace(s[j])
    decreases |s| - i
  {
    if i < |s| && IsSpace(s[i]) then SkipSpaceForward(s, i + 1) else i
  }

  /** The position just after the last character before `j`, and not before
      `lo`, that is not white space, or `lo`. */
  function SkipSpaceBackward(s: string, lo: nat, j: nat): (k: nat)
    requires lo <= j <= |s|
    ensures lo <= k <= j
    ensures forall m :: k <= m < j ==> IsSpace(s[m])
    ensures k == lo || !IsSpace(s[k - 1])
    decreases j - lo
  {
    if j > lo && IsSpace(s[j - 1]) then SkipSpaceBackward(s, lo, j - 1) else j
  }

  /** `s.strip()`: what is left once the white space at both ends is
      removed. */
  function Strip(s: string): (r: string)
    ensures IsStripped(r)
    ensures r == [] <==> AllSpace(s)
  {
    var i := SkipSpaceForward(s, 0);
    var k := SkipSpaceBackward(s, i, |s|);
    s[i..k]
  }

  /** What `strip()` keeps is a slice of its input with only white space
      around it. */
  lemma StripIsSlice(s: string) returns (i: nat)
    ensures i + |Strip(s)| <= |s|
    ensures Strip(s) == s[i..i + |Strip(s)|]
    ensures forall j :: 0 <= j < i ==> IsSpace(s[j])
    ensures forall j :: i + |Strip(s)| <= j < |s| ==> IsSpace(s[j])
  {
    i := SkipSpaceForward(s, 0);
  }

  /** A string with no white space at its ends is left as it is by `strip()`. */
  lemma StripFixesStripped(s: string)
    requires IsStripped(s)
    ensures Strip(s) == s
  {
  }

  /** `strip()` is idempotent. */
  lemma StripIdempotent(s: string)
    ensures Strip(Strip(s)) == Strip(s)
  {
    StripFixesStripped(Strip(s));
  }

  /** Number of occurrences of `c` in `s`. */
  function Occurrences(s: string, c: char): (n: nat)
    ensures n <= |s|
  {
    if s == [] then 0 else (if s[0] == c then 1 else 0) + Occurrences(s[1..], c)
  }

  /** `sep.join(pieces)` */
  function Join(pieces: seq<string>, sep: string): (s: string)
    ensures |pieces| == 0 ==> s == []
    ensures |pieces| > 0 ==> pieces[0] <= s
  {
    if |pieces| == 0 then []
    else if |pieces| == 1 then pieces[0]
    else pieces[0] + sep + Join(pieces[1..], sep)
  }

  /** Joining one more piece adds the separator and that piece at the end. */
  lemma {:induction false} JoinSnoc(pieces: seq<string>, p: string, sep: string)
    requires |pieces| > 0
    ensures Join(pieces + [p], sep) == Join(pieces, sep) + sep + p
  {
    if |pieces| == 1 {
      assert (pieces + [p])[1..] == [p];
    } else {
      assert (pieces + [p])[1..] == pieces[1..] + [p];
      JoinSnoc(pieces[1..], p, sep);
    }
  }

  /** `s.split(sep)` for a one-character separator: one more piece than there
      are separators, no piece holds the separator, and joining the pieces
      back with the separator gives `s` again. */
  function Split(s: string, sep: char): (pieces: seq<string>)
    ensures |pieces| == Occurrences(s, sep) + 1
    ensures forall i :: 0 <= i < |pieces| ==> sep !in pieces[i]
    ensures Join(pieces, [sep]) == s
  {
    if s == [] then [[]]
    else
      var rest := Split(s[1..], sep);
      if s[0] == sep then
        assert s == [sep] + s[1..];
        [[]] + rest
      else
        var pieces := [[s[0]] + rest[0]] + rest[1..];
        assert pieces[1..] == rest[1..];
        assert s == [s[0]] + s[1..];
        pieces
  }

  /** `s.startswith(prefix)` */
  predicate StartsWith(s: string, prefix: string)
  {
    prefix <= s
  }

  /** `s[:n]` for `n >= 0` */
  function Take(s: string, n: nat): (r: string)
    ensures |r| <= n && r <= s
    ensures |s| <= n ==> r == s
    ensures |s| > n ==> |r| == n
  {
    if |s| <= n then s else s[..n]
  }

  /** Every element of `keys` after `strip()`, in order. */
  function StripAll(keys: seq<string>): (r: seq<string>)
    ensures |r| == |keys|
    ensures forall i :: 0 <= i < |keys| ==> r[i] == Strip(keys[i])
  {
    seq(|keys|, i requires 0 <= i < |keys| => Strip(keys[i]))
  }

  /** Stripping one more key adds its stripped form at the end. */
  lemma StripAllSnoc(keys: seq<string>, k: string)
    ensures StripAll(keys + [k]) == StripAll(keys) + [Strip(k)]
  {
  }

  /** The non-empty strings of `xs`, in their order. */
  function NonEmpty(xs: seq<string>): (r: seq<string>)
    ensures forall i :: 0 <= i < |r| ==> r[i] != [] && r[i] in xs
  {
    if xs == [] then []
    else
      var init := NonEmpty(xs[..|xs| - 1]);
      var x := xs[|xs| - 1];
      assert forall y :: y in xs[..|xs| - 1] ==> y in xs;
      if x != [] then init + [x] else init
  }

  /** How many strings of `xs` are not empty. */
  function NonEmptyCount(xs: seq<string>): (n: nat)
    ensures n <= |xs|
  {
    if xs == [] then 0
    else NonEmptyCount(xs[..|xs| - 1]) + (if xs[|xs| - 1] != [] then 1 else 0)
  }

  /** One more string at the end is kept exactly when it is not empty. */
  lemma NonEmptySnoc(xs: seq<string>, x: string)
    ensures NonEmpty(xs + [x]) == if x != [] then NonEmpty(xs) + [x] else NonEmpty(xs)
  {
    assert (xs + [x])[..|xs|] == xs;
  }

  lemma {:induction false} NonEmptyLength(xs: seq<string>)
    ensures |NonEmpty(xs)| == NonEmptyCount(xs) <= |xs|
  {
    if xs != [] {
      NonEmptyLength(xs[..|xs| - 1]);
    }
  }

  lemma {:induction false} NonEmptyKeepsAll(xs: seq<string>)
    ensures forall i :: 0 <= i < |xs| && xs[i] != [] ==> xs[i] in NonEmpty(xs)
  {
    if xs != [] {
      var init := xs[..|xs| - 1];
      NonEmptyKeepsAll(init);
      assert forall i :: 0 <= i < |init| ==> init[i] == xs[i];
    }
  }

  lemma {:induction false} NonEmptyEmpty(xs: seq<string>)
    ensures NonEmpty(xs) == [] <==> forall i :: 0 <= i < |xs| ==> xs[i] == []
  {
    if xs != [] {
      var init := xs[..|xs| - 1];
      NonEmptyEmpty(init);
      assert forall i :: 0 <= i < |init| ==> init[i] == xs[i];
    }
  }

  lemma {:induction false} NonEmptyKeepsOrder(xs: seq<string>)
    ensures IsSubsequence(NonEmpty(xs), xs)
  {
    if xs != [] {
      var init := xs[..|xs| - 1];
      NonEmptyKeepsOrder(init);
      var r := NonEmpty(xs);
      if xs[|xs| - 1] != [] {
        assert r[..|r| - 1] == NonEmpty(init);
      } else if r != [] {
        assert r == NonEmpty(init);
      }
    }
  }

  lemma {:induction false} NonEmptyOfNonEmpty(xs: seq<string>)
    requires forall i :: 0 <= i < |xs| ==> xs[i] != []
    ensures NonEmpty(xs) == xs
  {
    if xs != [] {
      var init := xs[..|xs| - 1];
      NonEmptyOfNonEmpty(init);
      assert xs == init + [xs[|xs| - 1]];
    }
  }

  /** `a` is `b` with some elements left out, the others kept in order. */
  predicate IsSubsequence<T(==)>(a: seq<T>, b: seq<T>)
    decreases |b|
  {
    if a == [] then true
    else if b == [] then false
    else (a[|a| - 1] == b[|b| - 1] && IsSubsequence(a[..|a| - 1], b[..|b| - 1]))
         || IsSubsequence(a, b[..|b| - 1])
  }

  /** `[k.strip() for k in keys if k.strip()]`: every key stripped, and the
      empty results dropped. */
  function NonBlankStripped(keys: seq<string>): (r: seq<string>)
    ensures forall i :: 0 <= i < |r| ==> r[i] != [] && IsStripped(r[i])
  {
    var stripped := StripAll(keys);
    assert forall x :: x in stripped ==> IsStripped(x);
    NonEmpty(stripped)
  }

  /** One more key at the end adds its stripped form exactly when it is
      not blank. */
  lemma NonBlankStrippedSnoc(keys: seq<string>, k: string)
    ensures NonBlankStripped(keys + [k])
         == if Strip(k) != [] then NonBlankStripped(keys) + [Strip(k)] else NonBlankStripped(keys)
  {
    StripAllSnoc(keys, k);
    NonEmptySnoc(StripAll(keys), Strip(k));
  }

  /** One kept key per key that is not blank. */
  lemma NonBlankStrippedLength(keys: seq<string>)
    ensures |NonBlankStripped(keys)| == NonEmptyCount(StripAll(keys)) <= |keys|
  {
    NonEmptyLength(StripAll(keys));
  }

  /** No key that is not blank is dropped. */
  lemma NonBlankStrippedKeepsAll(keys: seq<string>)
    ensures forall i :: 0 <= i < |keys| && Strip(keys[i]) != [] ==> Strip(keys[i]) in NonBlankStripped(keys)
  {
    NonEmptyKeepsAll(StripAll(keys));
  }

  /** The result is empty exactly when every key is blank. */
  lemma NonBlankStrippedEmpty(keys: seq<string>)
    ensures NonBlankStripped(keys) == [] <==> forall i :: 0 <= i < |keys| ==> AllSpace(keys[i])
  {
    var stripped := StripAll(keys);
    NonEmptyEmpty(stripped);
    assert forall i :: 0 <= i < |keys| ==> (stripped[i] == [] <==> AllSpace(keys[i]));
  }

  /** The kept keys appear in the order of the input. */
  lemma NonBlankStrippedKeepsOrder(keys: seq<string>)
    ensures IsSubsequence(NonBlankStripped(keys), StripAll(keys))
  {
    NonEmptyKeepsOrder(StripAll(keys));
  }

  /** Stripping and filtering a list that is already stripped and filtered
      changes nothing. */
  lemma NonBlankStrippedIdempotent(keys: seq<string>)
    ensures NonBlankStripped(NonBlankStripped(keys)) == NonBlankStripped(keys)
  {
    var r := NonBlankStripped(keys);
    forall i | 0 <= i < |r|
      ensures Strip(r[i]) == r[i]
    {
      StripFixesStripped(r[i]);
    }
    assert StripAll(r) == r;
    NonEmptyOfNonEmpty(r);
  }
}
