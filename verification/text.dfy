/** Character classes and small scanners over `string` (= `seq<char>`) that the
    pattern matchers of the parser are built from. Python's `re` character
    classes become predicates here; a greedy run becomes `Span`. */
module Text {
  import opened Wrappers

  /** Python's `\s` on text, which is also what `str.strip()` removes: the
      characters for which `str.isspace()` holds. */
  predicate IsSpace(c: char) {
    || c == ' '
    || ('\t' <= c <= '\r')
    || ('\U{1C}' <= c <= '\U{1F}')
    || c == '\U{85}' || c == '\U{A0}' || c == '\U{1680}'
    || ('\U{2000}' <= c <= '\U{200A}')
    || c == '\U{2028}' || c == '\U{2029}' || c == '\U{202F}' || c == '\U{205F}'
    || c == '\U{3000}'
  }

  /** `\w`, restricted to ASCII letters, digits and underscore. */
  predicate IsWordChar(c: char) {
    ('a' <= c <= 'z') || ('A' <= c <= 'Z') || ('0' <= c <= '9') || c == '_'
  }

  /** `\d`, restricted to ASCII digits. */
  predicate IsDigit(c: char) {
    '0' <= c <= '9'
  }

  /** The optional identifier quote `[`"]` of the patterns. */
  predicate IsQuote(c: char) {
    c == '`' || c == '"'
  }

  predicate IsNewline(c: char) {
    c == '\n'
  }

  predicate NotNewline(c: char) {
    c != '\n'
  }

  /** ASCII lower-casing, used both for `re.I` and for `str.lower()`. */
  function Lower(c: char): (r: char)
    ensures 'A' <= c <= 'Z' ==> 'a' <= r <= 'z'
    ensures !('A' <= c <= 'Z') ==> r == c
  {
    if 'A' <= c <= 'Z' then (c as int + 32) as char else c
  }

  function LowerString(s: string): (r: string)
    ensures |r| == |s|
    ensures forall k :: 0 <= k < |s| ==> r[k] == Lower(s[k])
  {
    seq(|s|, k requires 0 <= k < |s| => Lower(s[k]))
  }

  lemma LowerStringAppend(a: string, b: string)
    ensures LowerString(a + b) == LowerString(a) + LowerString(b)
  {
    assert forall k :: 0 <= k < |a + b| ==> LowerString(a + b)[k] == (LowerString(a) + LowerString(b))[k];
  }

  predicate All(s: string, p: char -> bool) {
    forall k :: 0 <= k < |s| ==> p(s[k])
  }

  /** The literal `lit` occurs in `s` starting at `i`. */
  predicate LiteralAt(s: string, i: nat, lit: string) {
    i + |lit| <= |s| && s[i..i + |lit|] == lit
  }

  /** The keyword `kw` occurs at `i`, compared case-insensitively. */
  predicate KeywordAt(s: string, i: nat, kw: string) {
    i + |kw| <= |s| && forall k :: 0 <= k < |kw| ==> Lower(s[i + k]) == Lower(kw[k])
  }

  predicate StartsWith(s: string, prefix: string) {
    LiteralAt(s, 0, prefix)
  }

  lemma LiteralChars(s: string, i: nat, lit: string)
    ensures LiteralAt(s, i, lit) ==> forall k :: 0 <= k < |lit| ==> s[i + k] == lit[k]
  {
    if LiteralAt(s, i, lit) {
      var t := s[i..i + |lit|];
      assert forall k :: 0 <= k < |lit| ==> t[k] == s[i + k];
    }
  }

  /** A literal occurrence is also a case-insensitive one. */
  lemma LiteralIsKeyword(s: string, i: nat, lit: string)
    requires LiteralAt(s, i, lit)
    ensures KeywordAt(s, i, lit)
  {
    LiteralChars(s, i, lit);
  }

  /** A keyword occurs only where each of its letters does. */
  lemma KeywordNeedsLetter(s: string, kw: string, j: nat)
    requires j < |kw|
    ensures (exists i :: 0 <= i <= |s| && KeywordAt(s, i, kw)) ==> exists k :: 0 <= k < |s| && Lower(s[k]) == Lower(kw[j])
  {
    if exists i :: 0 <= i <= |s| && KeywordAt(s, i, kw) {
      var i :| 0 <= i <= |s| && KeywordAt(s, i, kw);
      assert Lower(s[i + j]) == Lower(kw[j]);
    }
  }

  /** No character of `x` lowers to the letter `c`. */
  predicate NoLetter(x: string, c: char) {
    forall k :: 0 <= k < |x| ==> Lower(x[k]) != c
  }

  lemma NoLetterAppend(a: string, b: string, c: char)
    ensures NoLetter(a + b, c) <==> NoLetter(a, c) && NoLetter(b, c)
  {
    if NoLetter(a, c) && NoLetter(b, c) {
      forall k | 0 <= k < |a + b| ensures Lower((a + b)[k]) != c {
        if k >= |a| { assert (a + b)[k] == b[k - |a|]; }
      }
    }
    if NoLetter(a + b, c) {
      assert forall k :: 0 <= k < |a| ==> (a + b)[k] == a[k];
      assert forall k :: 0 <= k < |b| ==> (a + b)[|a| + k] == b[k];
    }
  }

  /** Python's `needle in s`. */
  predicate Contains(s: string, needle: string) {
    exists i | 0 <= i <= |s| :: LiteralAt(s, i, needle)
  }

  lemma ContainsInside(a: string, b: string, c: string)
    ensures Contains(a + b + c, b)
  {
    assert (a + b + c)[|a|..|a| + |b|] == b;
    assert LiteralAt(a + b + c, |a|, b);
  }

  /** The end of the maximal run of characters satisfying `p` that starts at
      `i`: a greedy `p*` of a regular expression. */
  function Span(s: string, i: nat, p: char -> bool): (j: nat)
    requires i <= |s|
    ensures i <= j <= |s|
    ensures j == |s| || !p(s[j])
    decreases |s| - i
  {
    if i < |s| && p(s[i]) then Span(s, i + 1, p) else i
  }

  /** Every character of the run satisfies `p`. */
  lemma {:induction false} SpanAll(s: string, i: nat, p: char -> bool)
    requires i <= |s|
    ensures forall k :: i <= k < Span(s, i, p) ==> p(s[k])
    decreases |s| - i
  {
    if i < |s| && p(s[i]) {
      SpanAll(s, i + 1, p);
    }
  }

  /** Conversely, any maximal run starting at `i` is the one `Span` finds. */
  lemma {:induction false} SpanUnique(s: string, i: nat, j: nat, p: char -> bool)
    requires i <= j <= |s|
    requires forall k :: i <= k < j ==> p(s[k])
    requires j == |s| || !p(s[j])
    ensures Span(s, i, p) == j
    decreases j - i
  {
    if i < j {
      SpanUnique(s, i + 1, j, p);
    }
  }

  /** The start of the maximal run of characters satisfying `p` that ends at
      `hi`, not going below `lo`. */
  function SpanBack(s: string, lo: nat, hi: nat, p: char -> bool): (j: nat)
    requires lo <= hi <= |s|
    ensures lo <= j <= hi
    ensures j == lo || !p(s[j - 1])
    decreases hi
  {
    if lo < hi && p(s[hi - 1]) then SpanBack(s, lo, hi - 1, p) else hi
  }

  /** The run of `p` from `i` is a copy of `x` when `s` holds `x` there and
      something outside `p` (or the end) follows. */
  lemma SpanOver(s: string, i: nat, x: string, p: char -> bool)
    requires i + |x| <= |s| && All(x, p)
    requires forall k :: 0 <= k < |x| ==> s[i + k] == x[k]
    requires i + |x| == |s| || !p(s[i + |x|])
    ensures Span(s, i, p) == i + |x|
  {
    forall k | i <= k < i + |x|
      ensures p(s[k])
    {
      assert s[k] == x[k - i];
    }
    SpanUnique(s, i, i + |x|, p);
  }

  /** Every character of the run satisfies `p`. */
  lemma {:induction false} SpanBackAll(s: string, lo: nat, hi: nat, p: char -> bool)
    requires lo <= hi <= |s|
    ensures forall k :: SpanBack(s, lo, hi, p) <= k < hi ==> p(s[k])
    decreases hi
  {
    if lo < hi && p(s[hi - 1]) {
      SpanBackAll(s, lo, hi - 1, p);
    }
  }

  /** Conversely, any maximal run ending at `hi` is the one `SpanBack` finds. */
  lemma {:induction false} SpanBackUnique(s: string, lo: nat, hi: nat, j: nat, p: char -> bool)
    requires lo <= j <= hi <= |s|
    requires forall k :: j <= k < hi ==> p(s[k])
    requires j == lo || !p(s[j - 1])
    ensures SpanBack(s, lo, hi, p) == j
    decreases hi - j
  {
    if j < hi {
      SpanBackUnique(s, lo, hi - 1, j, p);
    }
  }

  /** `s` is `r` with characters satisfying `p` added on both sides. */
  predicate PaddedBy(s: string, r: string, p: char -> bool) {
    exists a | 0 <= a <= |s| - |r| :: s[a..a + |r|] == r && All(s[..a], p) && All(s[a + |r|..], p)
  }

  /** Python's `s.strip()` (with `p` = `IsSpace`) and `s.strip(chars)`. */
  function Strip(s: string, p: char -> bool): (r: string)
    ensures |r| <= |s|
    ensures |r| > 0 ==> !p(r[0]) && !p(r[|r| - 1])
    ensures PaddedBy(s, r, p)
    ensures forall c :: c in r ==> c in s
  {
    var a := Span(s, 0, p);
    var b := SpanBack(s, a, |s|, p);
    SpanAll(s, 0, p);
    SpanBackAll(s, a, |s|, p);
    assert s[a..b][..] == s[a..a + (b - a)];
    assert All(s[..a], p);
    assert All(s[b..], p);
    s[a..b]
  }

  /** Stripping `a + r + b`, with `a` and `b` made of stripped characters and
      `r` starting and ending with a kept one, gives back `r`. */
  lemma StripPadded(a: string, r: string, b: string, p: char -> bool)
    requires All(a, p) && All(b, p)
    requires |r| > 0 && !p(r[0]) && !p(r[|r| - 1])
    ensures Strip(a + r + b, p) == r
  {
    var s := a + r + b;
    assert forall k :: 0 <= k < |a| ==> s[k] == a[k];
    assert forall k :: |a| + |r| <= k < |s| ==> s[k] == b[k - |a| - |r|];
    assert s[|a|] == r[0] && s[|a| + |r| - 1] == r[|r| - 1];
    SpanUnique(s, 0, |a|, p);
    SpanBackUnique(s, |a|, |s|, |a| + |r|, p);
    assert s[|a|..|a| + |r|] == r;
  }

  lemma {:induction false} StripIdempotent(s: string, p: char -> bool)
    ensures Strip(Strip(s, p), p) == Strip(s, p)
  {
    var r := Strip(s, p);
    if |r| > 0 {
      assert Span(r, 0, p) == 0;
      assert SpanBack(r, 0, |r|, p) == |r|;
    }
  }

  /** Position of the first `c` in `s`. */
  function IndexOf(s: string, c: char): (r: Option<nat>)
    ensures r.Some? ==> r.value < |s| && s[r.value] == c && c !in s[..r.value]
    ensures r.None? ==> c !in s
  {
    var other := x => x != c;
    var j := Span(s, 0, other);
    SpanAll(s, 0, other);
    if j < |s| then Some(j) else None
  }

  /** Python's `sep.join(xs)`. */
  function JoinWith(xs: seq<string>, sep: string): string
    decreases |xs|
  {
    if |xs| == 0 then "" else if |xs| == 1 then xs[0] else xs[0] + sep + JoinWith(xs[1..], sep)
  }

  /** Python's `s.split(c)` for a one-character separator. */
  function SplitOn(s: string, c: char): (r: seq<string>)
    ensures |r| >= 1
    ensures forall k :: 0 <= k < |r| ==> c !in r[k]
    ensures JoinWith(r, [c]) == s
    decreases |s|
  {
    match IndexOf(s, c)
    case None => [s]
    case Some(i) =>
      var rest := SplitOn(s[i + 1..], c);
      var r := [s[..i]] + rest;
      assert r[1..] == rest;
      assert s == s[..i] + [c] + s[i + 1..];
      r
  }

  /** Number of occurrences of `c` in `s`. */
  function Count(s: string, c: char): nat
    decreases |s|
  {
    if |s| == 0 then 0 else (if s[0] == c then 1 else 0) + Count(s[1..], c)
  }

  lemma {:induction false} CountAppend(a: string, b: string, c: char)
    ensures Count(a + b, c) == Count(a, c) + Count(b, c)
    decreases |a|
  {
    if |a| > 0 {
      assert (a + b)[1..] == a[1..] + b;
      CountAppend(a[1..], b, c);
    } else {
      assert a + b == b;
    }
  }

  lemma {:induction false} CountAbsent(s: string, c: char)
    requires c !in s
    ensures Count(s, c) == 0
    decreases |s|
  {
    if |s| > 0 {
      assert c !in s[1..];
      CountAbsent(s[1..], c);
    }
  }

  /** Splitting on `c` yields one piece more than there are `c`s. */
  lemma {:induction false} SplitOnCount(s: string, c: char)
    ensures |SplitOn(s, c)| == Count(s, c) + 1
    decreases |s|
  {
    match IndexOf(s, c)
    case None =>
      CountAbsent(s, c);
    case Some(i) =>
      SplitOnCount(s[i + 1..], c);
      assert s == s[..i] + ([c] + s[i + 1..]);
      CountAppend(s[..i], [c] + s[i + 1..], c);
      CountAppend([c], s[i + 1..], c);
      CountAbsent(s[..i], c);
  }

  /** Joining pieces free of `c` with `c` and splitting again gives the pieces
      back: the other half of the round trip in the contract of `SplitOn`. */
  lemma {:induction false} SplitOnJoin(xs: seq<string>, c: char)
    requires |xs| >= 1
    requires forall k :: 0 <= k < |xs| ==> c !in xs[k]
    ensures SplitOn(JoinWith(xs, [c]), c) == xs
    decreases |xs|
  {
    if |xs| > 1 {
      var s := JoinWith(xs, [c]);
      var tail := JoinWith(xs[1..], [c]);
      assert s == xs[0] + [c] + tail;
      assert IndexOf(s, c) == Some(|xs[0]|) by {
        assert s[..|xs[0]|] == xs[0];
        assert s[|xs[0]|] == c;
      }
      assert s[|xs[0]| + 1..] == tail;
      assert s[..|xs[0]|] == xs[0];
      SplitOnJoin(xs[1..], c);
      assert xs == [xs[0]] + xs[1..];
    } else {
      assert JoinWith(xs, [c]) == xs[0];
    }
  }

  /** The value of an ASCII digit. */
  function DigitValue(c: char): nat
    requires IsDigit(c)
  {
    (c as int) - ('0' as int)
  }

  function Digit(d: nat): (c: char)
    requires d < 10
    ensures IsDigit(c) && DigitValue(c) == d
  {
    ((d + '0' as int) as char)
  }

  /** Python's `int(ds)` on a string of ASCII digits. */
  function DecimalValue(ds: string): nat
    requires All(ds, IsDigit)
    decreases |ds|
  {
    if |ds| == 0 then 0 else DecimalValue(ds[..|ds| - 1]) * 10 + DigitValue(ds[|ds| - 1])
  }

  /** Python's `str(n)` for a non-negative integer. */
  function DecimalString(n: nat): (r: string)
    ensures |r| >= 1 && All(r, IsDigit)
    ensures DecimalValue(r) == n
    ensures |r| > 1 ==> r[0] != '0'
    ensures n < 10 <==> |r| == 1
    ensures 10 <= n < 100 <==> |r| == 2
    decreases n
  {
    if n < 10 then [Digit(n)]
    else
      var r := DecimalString(n / 10) + [Digit(n % 10)];
      assert r[..|r| - 1] == DecimalString(n / 10);
      r
  }

  function Min(a: int, b: int): int {
    if a <= b then a else b
  }

  function Max(a: int, b: int): int {
    if a >= b then a else b
  }

  /** Concatenation of a sequence of strings, Python's `"".join(xs)`. */
  function Concat(xs: seq<string>): string
    decreases |xs|
  {
    if |xs| == 0 then "" else Concat(xs[..|xs| - 1]) + xs[|xs| - 1]
  }

  lemma {:induction false} ConcatAppend(xs: seq<string>, ys: seq<string>)
    ensures Concat(xs + ys) == Concat(xs) + Concat(ys)
    decreases |ys|
  {
    if |ys| == 0 {
      assert xs + ys == xs;
    } else {
      assert (xs + ys)[..|xs + ys| - 1] == xs + ys[..|ys| - 1];
      ConcatAppend(xs, ys[..|ys| - 1]);
    }
  }
}
