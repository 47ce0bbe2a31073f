/** Cron fields: the term parser and the bitmask it builds. */
module CronField {
  import opened Text
  import opened Numbers

  datatype CronError =
    | WrongFieldCount | InvalidStep | ZeroStep | NotANumber | OutOfRange | ReversedRange

  datatype Result<+T> = Ok(value: T) | Err(error: CronError)

  // --- Bitmasks ------------------------------------------------------------

  /** A 64-bit mask by value; bit 0 is the parity. */
  type Mask = n: nat | n < 0x1_0000_0000_0000_0000

  /** `mask & (1 << v) != 0`. */
  predicate TestBit(n: nat, v: nat) {
    if v == 0 then n % 2 == 1 else TestBit(n / 2, v - 1)
  }

  /** `mask | (1 << v)`. */
  function SetBit(n: nat, v: nat): nat {
    if v == 0 then n / 2 * 2 + 1 else 2 * SetBit(n / 2, v - 1) + n % 2
  }

  lemma {:induction false} SetBitFits(n: nat, v: nat, width: nat)
    requires v < width && n < Power(2, width)
    ensures SetBit(n, v) < Power(2, width)
  {
    if v > 0 { SetBitFits(n / 2, v - 1, width - 1); }
  }

  lemma HalveSetBit(n: nat, bit: nat)
    ensures bit == 0 ==> SetBit(n, bit) / 2 == n / 2 && SetBit(n, bit) % 2 == 1
    ensures bit > 0 ==> SetBit(n, bit) / 2 == SetBit(n / 2, bit - 1) && SetBit(n, bit) % 2 == n % 2
  {
  }

  /** Setting one bit adds one member. */
  lemma {:induction false} TestSetBit(n: nat, bit: nat, v: nat)
    ensures TestBit(SetBit(n, bit), v) <==> TestBit(n, v) || v == bit
  {
    HalveSetBit(n, bit);
    if bit > 0 && v > 0 { TestSetBit(n / 2, bit - 1, v - 1); }
  }

  lemma {:induction false} ZeroIsEmpty(v: nat)
    ensures !TestBit(0, v)
  {
    if v > 0 { ZeroIsEmpty(v - 1); }
  }

  predicate InMask(mask: Mask, v: nat) { v < 64 && TestBit(mask, v) }

  lemma SixtyFourBits()
    ensures Power(2, 64) == 0x1_0000_0000_0000_0000
  {
    assert Power(2, 8) == 0x100;
    PowerSum(2, 8, 8);
    PowerSum(2, 16, 16);
    PowerSum(2, 32, 32);
  }

  function WithBit(mask: Mask, bit: nat): (r: Mask)
    requires bit < 64
    ensures forall v: nat :: v < 64 ==> (InMask(r, v) <==> InMask(mask, v) || v == bit)
  {
    SixtyFourBits();
    SetBitFits(mask, bit, 64);
    assert forall v: nat :: v < 64 ==> (TestBit(SetBit(mask, bit), v) <==> TestBit(mask, v) || v == bit) by {
      forall v: nat | v < 64 ensures TestBit(SetBit(mask, bit), v) <==> TestBit(mask, v) || v == bit {
        TestSetBit(mask, bit, v);
      }
    }
    SetBit(mask, bit)
  }

  datatype Field = Field(mask: Mask, isStar: bool) {
    predicate Contains(v: nat) { InMask(mask, v) }
  }

  // --- Numbers -------------------------------------------------------------

  predicate AllDigits(s: string) {
    forall i :: 0 <= i < |s| ==> '0' <= s[i] <= '9'
  }

  function DecimalValue(s: string): nat
    requires AllDigits(s)
  {
    if s == [] then 0
    else 10 * DecimalValue(s[..|s| - 1]) + (s[|s| - 1] as int - '0' as int)
  }

  /** `str::parse::<u8>`: an optional plus sign, then digits, at most 255. */
  function ParseU8(s: string): (r: Option<nat>)
    ensures r.Some? ==> r.value <= 255
  {
    var digits := if |s| > 1 && s[0] == '+' then s[1..] else s;
    if digits != [] && AllDigits(digits) && DecimalValue(digits) <= 255
    then Some(DecimalValue(digits)) else None
  }

  function ParseNum(s: string, min: nat, max: nat): (r: Result<nat>)
    ensures r.Ok? ==> min <= r.value <= max && r.value <= 255
  {
    var v := ParseU8(Trim(s));
    if v.None? then Err(NotANumber)
    else if v.value < min || v.value > max then Err(OutOfRange)
    else Ok(v.value)
  }

  // --- Terms ---------------------------------------------------------------

  datatype Term = Term(lo: nat, hi: nat, step: nat)

  predicate ValidTerm(t: Term, min: nat, max: nat) {
    min <= t.lo <= t.hi <= max && 1 <= t.step <= 255
  }

  function ParseStep(term: string): (r: Result<(string, nat)>)
    ensures r.Ok? ==> 1 <= r.value.1 <= 255
  {
    match SplitOnce(term, '/')
    case None => Ok((term, 1))
    case Some((range, stepText)) =>
      var step := ParseU8(stepText);
      if step.None? then Err(InvalidStep)
      else if step.value == 0 then Err(ZeroStep)
      else Ok((range, step.value))
  }

  function ParseRange(range: string, min: nat, max: nat): (r: Result<(nat, nat)>)
    requires min <= max
    ensures r.Ok? ==> min <= r.value.0 <= max && min <= r.value.1 <= max
  {
    if range == "*" then Ok((min, max))
    else
      match SplitOnce(range, '-')
      case Some((a, b)) =>
        var lo := ParseNum(a, min, max);
        if lo.Err? then Err(lo.error)
        else
          var hi := ParseNum(b, min, max);
          if hi.Err? then Err(hi.error) else Ok((lo.value, hi.value))
      case None =>
        var v := ParseNum(range, min, max);
        if v.Err? then Err(v.error) else Ok((v.value, v.value))
  }

  function ParseTerm(term: string, min: nat, max: nat): (r: Result<Term>)
    requires min <= max
    ensures r.Ok? ==> ValidTerm(r.value, min, max)
  {
    var stepped := ParseStep(term);
    if stepped.Err? then Err(stepped.error)
    else
      var bounds := ParseRange(stepped.value.0, min, max);
      if bounds.Err? then Err(bounds.error)
      else if bounds.value.0 > bounds.value.1 then Err(ReversedRange)
      else Ok(Term(bounds.value.0, bounds.value.1, stepped.value.1))
  }

  /** All values, or the first error. */
  function Collect<T>(results: seq<Result<T>>): (r: Result<seq<T>>)
    ensures r.Ok? ==> |r.value| == |results| && forall i :: 0 <= i < |results| ==> results[i] == Ok(r.value[i])
  {
    if results == [] then Ok([])
    else
      var n := |results| - 1;
      match Collect(results[..n])
      case Err(error) => Err(error)
      case Ok(values) =>
        match results[n]
        case Err(error) => Err(error)
        case Ok(value) => Ok(values + [value])
  }

  lemma {:induction false} FirstErrorStands<T>(results: seq<Result<T>>, n: nat)
    requires n <= |results| && Collect(results[..n]).Err?
    ensures Collect(results) == Collect(results[..n])
    decreases |results|
  {
    if n < |results| {
      var m := |results| - 1;
      assert results[..m][..n] == results[..n];
      FirstErrorStands(results[..m], n);
    } else {
      assert results[..n] == results;
    }
  }

  function TermResults(parts: seq<string>, min: nat, max: nat): (results: seq<Result<Term>>)
    requires min <= max
    ensures |results| == |parts| && forall i :: 0 <= i < |parts| ==> results[i] == ParseTerm(parts[i], min, max)
  {
    seq(|parts|, i requires 0 <= i < |parts| => ParseTerm(parts[i], min, max))
  }

  /** The terms of a comma-separated field, or the first error. */
  function ParseTerms(spec: string, min: nat, max: nat): (r: Result<seq<Term>>)
    requires min <= max
    ensures r.Ok? ==> r.value != [] && forall i :: 0 <= i < |r.value| ==> ValidTerm(r.value[i], min, max)
  {
    Collect(TermResults(Split(spec, ','), min, max))
  }

  // --- What a term means and what the loop marks ---------------------------

  /** Day-of-week values are taken modulo seven. */
  function BitOf(wrap: bool, v: nat): nat { if wrap then v % 7 else v }

  /** The `j`-th value of a progression, were the counter unbounded. */
  function Nth(t: Term, j: nat): nat { t.lo + j * t.step }

  ghost predicate MeansAt(t: Term, wrap: bool, b: nat, j: nat) {
    Nth(t, j) <= t.hi && BitOf(wrap, Nth(t, j)) == b
  }

  /** `b` belongs to the term: some lo + j * step <= hi lands on it. */
  ghost predicate Means(t: Term, wrap: bool, b: nat) {
    exists j: nat :: MeansAt(t, wrap, b, j)
  }

  /** The eight-bit counter overflows on its first increment. */
  predicate Overflows(t: Term) { t.lo + t.step > 255 }

  /** The `j`-th value the eight-bit counter takes: past an overflow it walks
      down from `lo` in steps of `256 - step`. */
  function Walk(t: Term, j: nat): int {
    if Overflows(t) then t.lo - j * (256 - t.step) else t.lo + j * t.step
  }

  ghost predicate MarksAt(t: Term, wrap: bool, b: nat, j: nat) {
    0 <= Walk(t, j) <= t.hi && BitOf(wrap, Walk(t, j)) == b
  }

  ghost predicate Marks(t: Term, wrap: bool, b: nat) {
    exists j: nat :: MarksAt(t, wrap, b, j)
  }

  lemma WalkStep(t: Term, j: nat)
    ensures Walk(t, j + 1) == if Overflows(t) then Walk(t, j) - (256 - t.step) else Walk(t, j) + t.step
  {
  }

  /** One counter increment, modulo 256, follows the walk or leaves the range for good. */
  lemma CounterStep(t: Term, j: nat, max: nat)
    requires ValidTerm(t, 0, max) && max <= 59
    requires 0 <= Walk(t, j) <= t.hi
    ensures var v := (Walk(t, j) + t.step) % 256;
      if 0 <= Walk(t, j + 1) <= t.hi then v == Walk(t, j + 1) else v > t.hi
  {
    WalkStep(t, j);
    MulMonotone(if j > 0 then 1 else 0, j, t.step);
  }

  lemma WalkLeavesForGood(t: Term, k: nat, j: nat)
    requires k <= j && 1 <= t.step <= 255 && t.lo <= t.hi
    requires !(0 <= Walk(t, k) <= t.hi)
    ensures !(0 <= Walk(t, j) <= t.hi)
  {
    MulMonotone(0, k, t.step);
    MulMonotone(k, j, t.step);
    MulMonotone(0, k, 256 - t.step);
    MulMonotone(k, j, 256 - t.step);
  }

  ghost predicate MarkedUpTo(before: Mask, mask: Mask, t: Term, wrap: bool, k: nat) {
    forall b: nat :: b < 64 ==> (InMask(mask, b) <==> InMask(before, b) || MarksBefore(t, wrap, b, k))
  }

  ghost predicate MarksBefore(t: Term, wrap: bool, b: nat, k: nat) {
    exists j: nat :: j < k && MarksAt(t, wrap, b, j)
  }

  lemma MarksBeforeNext(t: Term, wrap: bool, b: nat, k: nat)
    ensures MarksBefore(t, wrap, b, k + 1) <==> MarksBefore(t, wrap, b, k) || MarksAt(t, wrap, b, k)
  {
    if j: nat :| j < k + 1 && MarksAt(t, wrap, b, j) { assert j < k || j == k; }
  }

  lemma MarkNext(before: Mask, mask: Mask, next: Mask, t: Term, wrap: bool, k: nat)
    requires MarkedUpTo(before, mask, t, wrap, k)
    requires 0 <= Walk(t, k) <= t.hi < 64
    requires forall v: nat :: v < 64 ==> (InMask(next, v) <==> InMask(mask, v) || v == BitOf(wrap, Walk(t, k)))
    ensures MarkedUpTo(before, next, t, wrap, k + 1)
  {
    forall b: nat | b < 64
      ensures InMask(next, b) <==> InMask(before, b) || MarksBefore(t, wrap, b, k + 1)
    {
      MarksBeforeNext(t, wrap, b, k);
    }
  }

  /** The inner loop: mark every value of one term with a `u8` counter. */
  method MarkTerm(before: Mask, t: Term, wrap: bool, max: nat) returns (mask: Mask)
    requires ValidTerm(t, 0, max) && max <= 59
    ensures forall b: nat :: b < 64 ==> (InMask(mask, b) <==> InMask(before, b) || Marks(t, wrap, b))
  {
    mask := before;
    var v := t.lo;
    ghost var k: nat := 0;
    while v <= t.hi
      invariant 0 <= v <= 255
      invariant v <= t.hi ==> v == Walk(t, k)
      invariant v > t.hi ==> !(0 <= Walk(t, k) <= t.hi)
      invariant MarkedUpTo(before, mask, t, wrap, k)
      decreases if v > t.hi then 0 else if Overflows(t) then v + 1 else 256 - v
    {
      var bit := if wrap then v % 7 else v;
      var next := WithBit(mask, bit);
      MarkNext(before, mask, next, t, wrap, k);
      CounterStep(t, k, max);
      WalkStep(t, k);
      mask := next;
      v := (v + t.step) % 256;
      k := k + 1;
    }
    forall b: nat | b < 64 ensures InMask(mask, b) <==> InMask(before, b) || Marks(t, wrap, b) {
      if j: nat :| MarksAt(t, wrap, b, j) {
        if k <= j { WalkLeavesForGood(t, k, j); }
      }
    }
  }

  /** An overflowing term also marks a value below its start, which is a
      different bit unless it is exactly one week below. */
  lemma OverflowMarksBelow(t: Term, wrap: bool, max: nat)
    requires ValidTerm(t, 0, max) && (if wrap then max <= 7 else max <= 59) && Overflows(t)
    ensures var below := BitOf(wrap, t.lo + t.step - 256);
      Marks(t, wrap, below) && (below == BitOf(wrap, t.lo) <==> wrap && t.lo == 7 && t.step == 249)
  {
    WalkStep(t, 0);
    assert MarksAt(t, wrap, BitOf(wrap, t.lo + t.step - 256), 1);
  }

  lemma SundayWalk(t: Term)
    requires t.lo == t.hi == 7 && t.step == 249
    ensures forall b: nat :: Marks(t, true, b) <==> b == 0
  {
    forall b: nat ensures Marks(t, true, b) <==> b == 0 {
      if j: nat :| MarksAt(t, true, b, j) { assert Walk(t, j) == 7 * (1 - j); }
      if b == 0 { assert MarksAt(t, true, b, 0); }
    }
  }

  lemma NoOverflowExact(t: Term, wrap: bool)
    requires !Overflows(t)
    ensures forall b: nat :: Marks(t, wrap, b) <==> Means(t, wrap, b)
  {
    forall b: nat ensures Marks(t, wrap, b) <==> Means(t, wrap, b) {
      if j: nat :| MarksAt(t, wrap, b, j) { assert MeansAt(t, wrap, b, j); }
      if j: nat :| MeansAt(t, wrap, b, j) { assert MarksAt(t, wrap, b, j); }
    }
  }

  ghost predicate MarksItsMeaning(t: Term, wrap: bool) {
    forall b: nat :: Marks(t, wrap, b) <==> Means(t, wrap, b)
  }

  /** A term marks exactly its meaning unless the counter overflows; the one
      harmless overflow is day-of-week `7/249`, which walks from 7 to 0. */
  lemma MarksExactly(t: Term, wrap: bool, min: nat, max: nat)
    requires ValidTerm(t, min, max) && (if wrap then max <= 7 else max <= 59)
    ensures MarksItsMeaning(t, wrap) <==> !Overflows(t) || (wrap && t.lo == 7 && t.step == 249)
  {
    if !Overflows(t) {
      NoOverflowExact(t, wrap);
    } else {
      OverflowMeaning(t, wrap, max);
      OverflowMarksBelow(t, wrap, max);
      if wrap && t.lo == 7 && t.step == 249 { SundayWalk(t); }
    }
  }

  /** A step that overflows exceeds every range, so the term means its start alone. */
  lemma OverflowMeaning(t: Term, wrap: bool, max: nat)
    requires ValidTerm(t, 0, max) && max <= 59 && Overflows(t)
    ensures forall b: nat :: Means(t, wrap, b) <==> b == BitOf(wrap, t.lo)
  {
    forall b: nat ensures Means(t, wrap, b) <==> b == BitOf(wrap, t.lo) {
      if j: nat :| MeansAt(t, wrap, b, j) {
        MulMonotone(if j > 0 then 1 else 0, j, t.step);
        assert j == 0;
      }
      if b == BitOf(wrap, t.lo) { assert MeansAt(t, wrap, b, 0); }
    }
  }

  /** As days of the week, `7` and `0` mean the same single day, Sunday. */
  lemma SevenIsSunday(step: nat, b: nat)
    requires step >= 1
    ensures Means(Term(7, 7, step), true, b) <==> b == 0
    ensures Means(Term(0, 0, step), true, b) <==> b == 0
  {
    forall lo: nat | lo == 7 || lo == 0 ensures Means(Term(lo, lo, step), true, b) <==> b == 0 {
      var t := Term(lo, lo, step);
      if j: nat :| MeansAt(t, true, b, j) {
        MulMonotone(if j > 0 then 1 else 0, j, step);
        assert j == 0;
      }
      if b == 0 { assert MeansAt(t, true, b, 0); }
    }
  }

  // --- Fields --------------------------------------------------------------

  ghost predicate SomeMarks(terms: seq<Term>, wrap: bool, b: nat, n: nat) {
    exists i :: 0 <= i < n <= |terms| && Marks(terms[i], wrap, b)
  }

  ghost predicate MaskOf(mask: Mask, terms: seq<Term>, wrap: bool) {
    forall b: nat :: b < 64 ==> (InMask(mask, b) <==> SomeMarks(terms, wrap, b, |terms|))
  }

  /** What parsing a field must give: the first error, or the mask of its terms. */
  ghost predicate FieldSpec(spec: string, terms: Result<seq<Term>>, wrap: bool, r: Result<Field>) {
    match terms
    case Err(error) => r == Err(error)
    case Ok(ts) => r.Ok? && r.value.isStar == (spec == "*") && MaskOf(r.value.mask, ts, wrap)
  }

  /** The outer loop over comma-separated terms. */
  method ParseField(spec: string, min: nat, max: nat, wrap: bool) returns (r: Result<Field>)
    requires min <= max <= 59
    ensures FieldSpec(spec, ParseTerms(spec, min, max), wrap, r)
  {
    var parts := Split(spec, ',');
    ghost var results := TermResults(parts, min, max);
    var mask: Mask := 0;
    ghost var done: seq<Term> := [];
    assert MaskOf(mask, done, wrap) by {
      forall b: nat ensures !InMask(mask, b) { ZeroIsEmpty(b); }
    }
    for i := 0 to |parts|
      invariant Collect(results[..i]) == Ok(done)
      invariant MaskOf(mask, done, wrap)
    {
      assert results[..i + 1][..i] == results[..i];
      var term := ParseTerm(parts[i], min, max);
      if term.Err? {
        FirstErrorStands(results, i + 1);
        return Err(term.error);
      }
      var next := MarkTerm(mask, term.value, wrap, max);
      MaskNext(mask, next, done, term.value, wrap);
      mask := next;
      done := done + [term.value];
    }
    assert results[..|parts|] == results;
    return Ok(Field(mask, spec == "*"));
  }

  lemma MaskNext(mask: Mask, next: Mask, done: seq<Term>, t: Term, wrap: bool)
    requires MaskOf(mask, done, wrap)
    requires forall b: nat :: b < 64 ==> (InMask(next, b) <==> InMask(mask, b) || Marks(t, wrap, b))
    ensures MaskOf(next, done + [t], wrap)
  {
    forall b: nat | b < 64 ensures InMask(next, b) <==> SomeMarks(done + [t], wrap, b, |done| + 1) {
      SomeMarksNext(done, t, wrap, b);
    }
  }

  lemma SomeMarksNext(done: seq<Term>, t: Term, wrap: bool, b: nat)
    ensures SomeMarks(done + [t], wrap, b, |done| + 1) <==> SomeMarks(done, wrap, b, |done|) || Marks(t, wrap, b)
  {
    var more := done + [t];
    if Marks(t, wrap, b) { assert Marks(more[|done|], wrap, b); }
    if SomeMarks(done, wrap, b, |done|) {
      var i :| 0 <= i < |done| && Marks(done[i], wrap, b);
      assert Marks(more[i], wrap, b);
    }
  }

  /** The mask of the values below `n` that the terms mark. */
  lemma {:induction false} MaskBelow(terms: seq<Term>, wrap: bool, n: nat) returns (mask: Mask)
    requires n <= 64
    ensures forall b: nat :: b < 64 ==> (InMask(mask, b) <==> b < n && SomeMarks(terms, wrap, b, |terms|))
  {
    if n == 0 {
      mask := 0;
      forall b: nat ensures !InMask(mask, b) { ZeroIsEmpty(b); }
    } else {
      mask := MaskBelow(terms, wrap, n - 1);
      if SomeMarks(terms, wrap, n - 1, |terms|) { mask := WithBit(mask, n - 1); }
    }
  }

  /** Every list of terms has the field that parsing it must give. */
  lemma FieldExists(spec: string, terms: seq<Term>, wrap: bool) returns (f: Field)
    ensures FieldSpec(spec, Ok(terms), wrap, Ok(f))
  {
    var mask := MaskBelow(terms, wrap, 64);
    f := Field(mask, spec == "*");
  }

  /** A term of one value marks that value. */
  lemma SingleMarks(v: nat, b: nat)
    requires v <= 59
    ensures Marks(Term(v, v, 1), false, b) <==> b == v
  {
    var t := Term(v, v, 1);
    NoOverflowExact(t, false);
    if j: nat :| MeansAt(t, false, b, j) { assert j == 0; }
    if b == v { assert MeansAt(t, false, b, 0); }
  }

  /** `b` belongs to some term of the field. */
  ghost predicate SomeMeans(terms: seq<Term>, wrap: bool, b: nat) {
    exists i :: 0 <= i < |terms| && Means(terms[i], wrap, b)
  }

  predicate InRange(wrap: bool, min: nat, max: nat, b: nat) {
    if wrap then b <= 6 else min <= b <= max
  }

  lemma MeansInRange(t: Term, wrap: bool, min: nat, max: nat, b: nat)
    requires ValidTerm(t, min, max) && Means(t, wrap, b)
    ensures InRange(wrap, min, max, b)
  {
    var j: nat :| MeansAt(t, wrap, b, j);
    MulMonotone(0, j, t.step);
  }

  lemma UnionAt(terms: seq<Term>, wrap: bool, min: nat, max: nat, b: nat)
    requires forall i :: 0 <= i < |terms| ==> ValidTerm(terms[i], min, max) && !Overflows(terms[i])
    ensures SomeMarks(terms, wrap, b, |terms|) <==> SomeMeans(terms, wrap, b)
    ensures SomeMeans(terms, wrap, b) ==> InRange(wrap, min, max, b)
  {
    if SomeMarks(terms, wrap, b, |terms|) {
      var i :| 0 <= i < |terms| && Marks(terms[i], wrap, b);
      NoOverflowExact(terms[i], wrap);
    }
    if SomeMeans(terms, wrap, b) {
      var i :| 0 <= i < |terms| && Means(terms[i], wrap, b);
      NoOverflowExact(terms[i], wrap);
      MeansInRange(terms[i], wrap, min, max, b);
    }
  }

  /** With no overflowing term, a parsed field holds exactly the union of its
      terms' meanings; it is not empty and stays inside its range. */
  lemma FieldIsUnionOfTerms(spec: string, min: nat, max: nat, wrap: bool, r: Result<Field>)
    requires min <= max && (if wrap then max <= 7 else max <= 59)
    requires r.Ok? && FieldSpec(spec, ParseTerms(spec, min, max), wrap, r)
    requires forall i :: 0 <= i < |ParseTerms(spec, min, max).value| ==> !Overflows(ParseTerms(spec, min, max).value[i])
    ensures forall b: nat :: b < 64 ==> (r.value.Contains(b) <==> SomeMeans(ParseTerms(spec, min, max).value, wrap, b))
    ensures forall b: nat :: r.value.Contains(b) ==> InRange(wrap, min, max, b)
    ensures exists b: nat :: r.value.Contains(b)
  {
    var terms := ParseTerms(spec, min, max).value;
    forall b: nat
      ensures SomeMarks(terms, wrap, b, |terms|) <==> SomeMeans(terms, wrap, b)
      ensures SomeMeans(terms, wrap, b) ==> InRange(wrap, min, max, b)
    {
      UnionAt(terms, wrap, min, max, b);
    }
    StartIsMarked(terms[0], wrap);
    var start := BitOf(wrap, terms[0].lo);
    assert SomeMarks(terms, wrap, start, |terms|);
    assert r.value.Contains(start);
  }

  /** Whatever the step, a term marks its start: no accepted field is empty. */
  lemma StartIsMarked(t: Term, wrap: bool)
    requires t.lo <= t.hi
    ensures Marks(t, wrap, BitOf(wrap, t.lo))
  {
    assert MarksAt(t, wrap, BitOf(wrap, t.lo), 0);
  }
}
