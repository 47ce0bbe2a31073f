/**
 Text as the modelled code handles it: byte order of strings, zero-padded
 numerals, first-separator splitting, trimming, and unsigned decimal parsing.
 */
module Text {
  import opened Ordering

  datatype Option<+T> = None | Some(value: T)

  // --- Order ---------------------------------------------------------------

  /** Byte order of strings (code-point order, which UTF-8 preserves). */
  predicate LexLess(a: string, b: string) {
    b != [] && (a == [] || a[0] < b[0] || (a[0] == b[0] && LexLess(a[1..], b[1..])))
  }

  lemma {:induction false} LexTransitive(a: string, b: string, c: string)
    requires LexLess(a, b) && LexLess(b, c)
    ensures LexLess(a, c)
  {
    if a != [] && a[0] == b[0] == c[0] { LexTransitive(a[1..], b[1..], c[1..]); }
  }

  lemma {:induction false} LexConnected(a: string, b: string)
    ensures !LexLess(a, a)
    ensures a == b || LexLess(a, b) || LexLess(b, a)
  {
    if a != [] {
      LexConnected(a[1..], if b == [] then [] else b[1..]);
      if b != [] && a[0] == b[0] {
        assert a == [a[0]] + a[1..] && b == [b[0]] + b[1..];
      }
    }
  }

  lemma LexIsStrictTotalOrder()
    ensures StrictTotalOrder(LexLess)
  {
    forall a: string, b: string ensures !LexLess(a, a) && (a == b || LexLess(a, b) || LexLess(b, a)) {
      LexConnected(a, b);
    }
    forall a: string, b: string, c: string | LexLess(a, b) && LexLess(b, c) ensures LexLess(a, c) {
      LexTransitive(a, b, c);
    }
  }

  /** Equal-length heads decide the order before the tails do. */
  lemma {:induction false} LexConcat(p: string, s: string, q: string, t: string)
    requires |p| == |q|
    ensures LexLess(p + s, q + t) <==> LexLess(p, q) || (p == q && LexLess(s, t))
  {
    if p == [] {
      assert p + s == s && q + t == t;
    } else {
      assert (p + s)[1..] == p[1..] + s && (q + t)[1..] == q[1..] + t;
      LexConcat(p[1..], s, q[1..], t);
      assert p == [p[0]] + p[1..] && q == [q[0]] + q[1..];
    }
  }

  /** A string precedes every longer string that extends it. */
  lemma {:induction false} LexExtension(p: string, s: string)
    requires s != []
    ensures LexLess(p, p + s)
  {
    if p == [] {
      assert p + s == s;
    } else {
      assert (p + s)[1..] == p[1..] + s;
      LexExtension(p[1..], s);
    }
  }

  // --- Fixed-width numerals ------------------------------------------------

  function Power(base: nat, n: nat): nat {
    if n == 0 then 1 else base * Power(base, n - 1)
  }

  lemma {:induction false} PowerSum(base: nat, a: nat, b: nat)
    ensures Power(base, a + b) == Power(base, a) * Power(base, b)
  {
    if a > 0 {
      PowerSum(base, a - 1, b);
      MulAssociative(base, Power(base, a - 1), Power(base, b));
    }
  }

  lemma MulAssociative(x: nat, y: nat, z: nat)
    ensures x * (y * z) == (x * y) * z
  {
  }

  function Digit(d: nat): char
    requires d < 16
  {
    "0123456789abcdef"[d]
  }

  /** `n` in `base`, most significant digit first, in exactly `width` digits. */
  function Fixed(base: nat, width: nat, n: nat): (s: string)
    requires base == 10 || base == 16
    ensures |s| == width
  {
    if width == 0 then "" else Fixed(base, width - 1, n / base) + [Digit(n % base)]
  }

  lemma DigitOrder(a: nat, b: nat)
    requires a < 16 && b < 16
    ensures Digit(a) < Digit(b) <==> a < b
    ensures Digit(a) == Digit(b) <==> a == b
  {
  }

  lemma DigitwiseOrder(base: nat, a: nat, b: nat)
    requires base == 10 || base == 16
    ensures a < b <==> a / base < b / base || (a / base == b / base && a % base < b % base)
    ensures a == b <==> a / base == b / base && a % base == b % base
  {
  }

  /** On numbers that fit, text order of fixed-width numerals is numeric order. */
  lemma {:induction false} FixedOrder(base: nat, width: nat, a: nat, b: nat)
    requires base == 10 || base == 16
    requires a < Power(base, width) && b < Power(base, width)
    ensures LexLess(Fixed(base, width, a), Fixed(base, width, b)) <==> a < b
    ensures Fixed(base, width, a) == Fixed(base, width, b) <==> a == b
  {
    if width > 0 {
      var hiA, hiB := Fixed(base, width - 1, a / base), Fixed(base, width - 1, b / base);
      FixedOrder(base, width - 1, a / base, b / base);
      DigitOrder(a % base, b % base);
      LexConcat(hiA, [Digit(a % base)], hiB, [Digit(b % base)]);
      assert Fixed(base, width, a)[..width - 1] == hiA && Fixed(base, width, b)[..width - 1] == hiB;
      assert Fixed(base, width, a)[width - 1] == Digit(a % base);
      assert Fixed(base, width, b)[width - 1] == Digit(b % base);
      DigitwiseOrder(base, a, b);
    }
  }

  // --- Splitting and trimming ----------------------------------------------

  /** The text before and after the first `sep`, as `str::split_once`. */
  function SplitOnce(s: string, sep: char): (r: Option<(string, string)>)
    ensures r.None? <==> sep !in s
    ensures r.Some? ==> s == r.value.0 + [sep] + r.value.1 && sep !in r.value.0
    ensures r.Some? ==> |r.value.1| < |s|
  {
    if s == [] then None
    else if s[0] == sep then Some(([], s[1..]))
    else
      match SplitOnce(s[1..], sep)
      case None => None
      case Some((head, tail)) => Some(([s[0]] + head, tail))
  }

  /** Splitting undoes joining at a separator absent from the head. */
  lemma {:induction false} SplitOnceJoin(head: string, sep: char, tail: string)
    requires sep !in head
    ensures SplitOnce(head + [sep] + tail, sep) == Some((head, tail))
  {
    var s := head + [sep] + tail;
    if head == [] {
      assert s[1..] == tail;
    } else {
      assert s[1..] == head[1..] + [sep] + tail;
      SplitOnceJoin(head[1..], sep, tail);
      assert s[0] == head[0] && head == [head[0]] + head[1..];
    }
  }

  /** Every piece between separators, as `str::split`. */
  function Split(s: string, sep: char): (parts: seq<string>)
    ensures parts != []
    ensures forall p :: p in parts ==> sep !in p
    decreases |s|
  {
    match SplitOnce(s, sep)
    case None => [s]
    case Some((head, tail)) => [head] + Split(tail, sep)
  }

  /** The White_Space code points, as `char::is_whitespace`. */
  predicate IsWhitespace(c: char) {
    var n := c as int;
    || 0x9 <= n <= 0xD || n == 0x20 || n == 0x85 || n == 0xA0 || n == 0x1680
    || 0x2000 <= n <= 0x200A || n == 0x2028 || n == 0x2029 || n == 0x202F || n == 0x205F || n == 0x3000
  }

  function TrimStart(s: string): string {
    if s != [] && IsWhitespace(s[0]) then TrimStart(s[1..]) else s
  }

  function TrimEnd(s: string): string {
    if s != [] && IsWhitespace(s[|s| - 1]) then TrimEnd(s[..|s| - 1]) else s
  }

  function Trim(s: string): string {
    TrimEnd(TrimStart(s))
  }

  predicate AllWhitespace(s: string) {
    forall i :: 0 <= i < |s| ==> IsWhitespace(s[i])
  }

  /** Nothing left to trim at either end. */
  predicate Trimmed(s: string) {
    s == [] || (!IsWhitespace(s[0]) && !IsWhitespace(s[|s| - 1]))
  }

  /** Whitespace around a trimmed text is what trimming removes. */
  lemma {:induction false} TrimStrips(before: string, s: string, after: string)
    requires AllWhitespace(before) && AllWhitespace(after) && Trimmed(s)
    ensures Trim(before + s + after) == s
    decreases |before| + |after|, |after|
  {
    var all := before + s + after;
    if before != [] {
      assert all[1..] == before[1..] + s + after;
      TrimStrips(before[1..], s, after);
    } else if after != [] {
      TrimEndStrips(s, after);
      assert all == s + after;
      if s == [] { TrimStrips(after, s, before); assert after + s + before == all; }
    } else {
      assert all == s;
    }
  }

  lemma {:induction false} TrimEndStrips(s: string, after: string)
    requires AllWhitespace(after) && (s == [] || !IsWhitespace(s[|s| - 1]))
    ensures TrimEnd(s + after) == s
  {
    var all := s + after;
    if after == [] {
      assert all == s;
    } else {
      assert all[..|all| - 1] == s + after[..|after| - 1];
      TrimEndStrips(s, after[..|after| - 1]);
    }
  }

  lemma TrimPlain(s: string)
    requires Trimmed(s)
    ensures Trim(s) == s
  {
    assert [] + s + [] == s;
    TrimStrips([], s, []);
  }

  predicate IsPrefix<T(==)>(p: seq<T>, s: seq<T>) {
    |p| <= |s| && s[..|p|] == p
  }
}
