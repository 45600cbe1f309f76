/** The parts of Java's semantics that the modelled code relies on: `int`
    arithmetic with two's-complement wrap-around, the range of `long` (no
    `long` arithmetic occurs), the exceptions it can throw, and the String
    operations it calls (`startsWith` is the sequence prefix test `<=`;
    `replace` and `String.join` are defined here). */
module JavaLang {

  import opened Wrappers

  const TWO_32: int := 0x1_0000_0000

  /** Java `int`. */
  type Int32 = x: int | -0x8000_0000 <= x < 0x8000_0000

  /** Java `long`. */
  type Int64 = x: int | -0x8000_0000_0000_0000 <= x < 0x8000_0000_0000_0000

  /** The exceptions the modelled code lets escape to its caller. */
  datatype Throwable =
    | NullPointer            // dereference of null
    | IllegalArgument        // a Lucene argument check failed
    | ArrayIndexOutOfBounds  // a negative or too large array index
    | QuerySyntax            // QueryParser rejected the keyword

  /** Narrowing of a mathematical integer to a Java `int`. */
  function Wrap32(x: int): (r: Int32)
    ensures (x - r) % TWO_32 == 0
    ensures -0x8000_0000 <= x < 0x8000_0000 ==> r == x
    ensures 0x8000_0000 <= x < 0x8000_0000 + TWO_32 ==> r == x - TWO_32
    ensures -0x8000_0000 - TWO_32 <= x < -0x8000_0000 ==> r == x + TWO_32
  {
    var m := x % TWO_32;
    assert x == TWO_32 * (x / TWO_32) + m;
    if m < 0x8000_0000 then m else m - TWO_32
  }

  /** Java's `a + b`, `a - b` and `a * b` on `int`. */
  function Add32(a: Int32, b: Int32): Int32 { Wrap32(a + b) }
  function Sub32(a: Int32, b: Int32): Int32 { Wrap32(a - b) }
  function Mul32(a: Int32, b: Int32): Int32 { Wrap32(a * b) }

  /** `Math.min`. */
  function Min(a: int, b: int): int { if a <= b then a else b }

  /** StringUtil.isEmpty: null or of length zero. */
  predicate IsEmpty(s: Option<string>) {
    s.None? || |s.value| == 0
  }

  /** `t` occurs in `s` at position `k`. */
  predicate MatchAt(s: string, k: int, t: string) {
    0 <= k && k + |t| <= |s| && s[k..k + |t|] == t
  }

  /** `s.contains(t)`. */
  predicate Occurs(t: string, s: string) {
    exists k :: 0 <= k <= |s| && MatchAt(s, k, t)
  }

  /** `s.replace(t, r)` for a non-empty target: every occurrence of `t`,
      scanning from the left and not overlapping, is replaced by `r`. */
  function ReplaceAll(s: string, t: string, r: string): (res: string)
    requires |t| > 0
    ensures |r| <= |t| ==> |res| <= |s|
    decreases |s|
  {
    if |s| < |t| then s
    else if s[..|t|] == t then r + ReplaceAll(s[|t|..], t, r)
    else [s[0]] + ReplaceAll(s[1..], t, r)
  }

  /** An occurrence in the tail of `x` is an occurrence in `x`, one further on. */
  lemma MatchShift(x: string, k: int, t: string)
    requires |x| > 0 && 0 <= k
    ensures MatchAt(x[1..], k, t) <==> MatchAt(x, k + 1, t)
  {
    if k + |t| <= |x| - 1 {
      assert x[1..][k..k + |t|] == x[k + 1..k + 1 + |t|];
    }
  }

  /** Replacing skips a prefix `x[..i]` in which no occurrence of `t`
      starts: that prefix is copied unchanged. */
  lemma {:induction false} ReplaceSkips(x: string, i: nat, t: string, r: string)
    requires |t| > 0 && i <= |x|
    requires forall k :: 0 <= k < i ==> !MatchAt(x, k, t)
    ensures ReplaceAll(x, t, r) == x[..i] + ReplaceAll(x[i..], t, r)
    decreases i
  {
    if i == 0 {
      assert x[..0] + ReplaceAll(x[0..], t, r) == ReplaceAll(x, t, r);
    } else if |x| < |t| {
      assert x[..i] + x[i..] == x;
    } else {
      assert !MatchAt(x, 0, t);
      assert x[..|t|] != t;
      forall k | 0 <= k < i - 1
        ensures !MatchAt(x[1..], k, t)
      {
        MatchShift(x, k, t);
      }
      ReplaceSkips(x[1..], i - 1, t, r);
      assert x[1..][..i - 1] == x[1..i];
      assert x[1..][i - 1..] == x[i..];
      assert [x[0]] + x[1..i] == x[..i];
    }
  }

  /** A string in which `t` does not occur is left as it is by `replace`. */
  lemma ReplaceAbsent(s: string, t: string, r: string)
    requires |t| > 0 && !Occurs(t, s)
    ensures ReplaceAll(s, t, r) == s
  {
    forall k | 0 <= k < |s|
      ensures !MatchAt(s, k, t)
    {
    }
    ReplaceSkips(s, |s|, t, r);
    assert s[..|s|] == s;
  }

  /** `String.join(sep, xs)`. */
  function Join(xs: seq<string>, sep: string): (r: string)
    ensures |xs| > 0 ==> xs[0] <= r
    ensures |xs| > 1 ==> xs[0] + sep <= r
    decreases |xs|
  {
    if |xs| == 0 then ""
    else if |xs| == 1 then xs[0]
    else xs[0] + sep + Join(xs[1..], sep)
  }

  /** Splitting at every `c`, keeping empty pieces: the inverse of `Join` for
      pieces that do not contain the separator. */
  function Split(s: string, c: char): (r: seq<string>)
    ensures |r| >= 1
    decreases |s|
  {
    if |s| == 0 then [""]
    else
      var rest := Split(s[1..], c);
      if s[0] == c then [""] + rest
      else [[s[0]] + rest[0]] + rest[1..]
  }

  lemma {:induction false} SplitPiece(a: string, s: string, c: char)
    requires c !in a
    ensures Split(a + s, c) == [a + Split(s, c)[0]] + Split(s, c)[1..]
    decreases |a|
  {
    if a != [] {
      assert (a + s)[1..] == a[1..] + s;
      SplitPiece(a[1..], s, c);
      assert [a[0]] + (a[1..] + Split(s, c)[0]) == a + Split(s, c)[0];
    } else {
      assert a + s == s;
      assert a + Split(s, c)[0] == Split(s, c)[0];
    }
  }

  /** When no piece contains the separator, the comma-joined tag string can be
      split back into exactly the list of pieces, in order. */
  lemma {:induction false} SplitJoin(xs: seq<string>, c: char)
    requires |xs| > 0
    requires forall i :: 0 <= i < |xs| ==> c !in xs[i]
    ensures Split(Join(xs, [c]), c) == xs
    decreases |xs|
  {
    if |xs| == 1 {
      assert xs[0] + "" == xs[0];
      SplitPiece(xs[0], "", c);
    } else {
      var rest := Join(xs[1..], [c]);
      SplitJoin(xs[1..], c);
      assert xs[0] + [c] + rest == xs[0] + ([c] + rest);
      SplitPiece(xs[0], [c] + rest, c);
      assert ([c] + rest)[1..] == rest;
      assert Split([c] + rest, c) == [""] + Split(rest, c);
      assert xs[0] + "" == xs[0];
      assert [xs[0]] + xs[1..] == xs;
    }
  }
}
