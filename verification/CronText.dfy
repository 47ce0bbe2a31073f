/** Cron expressions as text: printing a schedule's terms and parsing them back. */
module CronText {
  import opened Text
  import opened Numbers
  import opened CronField
  import opened Cron
  import opened Calendar
  import opened CronSearch

  function Decimal(n: nat): (s: string)
    ensures s != []
  {
    if n < 10 then [Digit(n)] else Decimal(n / 10) + [Digit(n % 10)]
  }

  lemma {:induction false} DecimalParses(n: nat)
    ensures AllDigits(Decimal(n)) && DecimalValue(Decimal(n)) == n
  {
    var s := Decimal(n);
    if n >= 10 {
      DecimalParses(n / 10);
      assert s[..|s| - 1] == Decimal(n / 10);
    } else {
      assert s[..0] == [];
    }
  }

  lemma DigitsAreNotSpace(s: string)
    requires s != [] && AllDigits(s)
    ensures Trim(s) == s
  {
    assert '0' <= s[0] <= '9' && '0' <= s[|s| - 1] <= '9';
  }

  /** A numeral of at most 255 is itself; a larger one does not fit. */
  lemma ParseU8Decimal(n: nat)
    ensures ParseU8(Decimal(n)) == (if n <= 255 then Some(n) else None) && Trim(Decimal(n)) == Decimal(n)
  {
    DecimalParses(n);
    DigitsAreNotSpace(Decimal(n));
    assert '0' <= Decimal(n)[0] <= '9';
  }

  /** A plus sign or a leading zero changes nothing. */
  lemma PlusAndZero(s: string)
    requires s != [] && AllDigits(s)
    ensures ParseU8("+" + s) == ParseU8(s) && ParseU8("0" + s) == ParseU8(s)
  {
    assert ("+" + s)[1..] == s;
    assert '0' <= s[0] <= '9';
    LeadingZero(s);
  }

  lemma {:induction false} LeadingZero(s: string)
    requires AllDigits(s)
    ensures AllDigits("0" + s) && DecimalValue("0" + s) == DecimalValue(s)
  {
    var t := "0" + s;
    if s == [] {
      assert t[..0] == [];
    } else {
      LeadingZero(s[..|s| - 1]);
      assert t[..|t| - 1] == "0" + s[..|s| - 1];
    }
  }

  lemma DecimalLacks(n: nat, c: char)
    requires !('0' <= c <= '9')
    ensures c !in Decimal(n)
  {
    DecimalParses(n);
  }

  // --- Written terms -------------------------------------------------------

  /** `*`, `n` or `lo-hi`. */
  datatype Range = Star | Single(n: nat) | Span(lo: nat, hi: nat)

  /** A range, with `/step` after it or not. */
  datatype Written = Written(range: Range, step: Option<nat>)

  function PrintRange(r: Range): string {
    match r
    case Star => "*"
    case Single(n) => Decimal(n)
    case Span(lo, hi) => Decimal(lo) + ['-'] + Decimal(hi)
  }

  function PrintWritten(w: Written): string {
    match w.step
    case None => PrintRange(w.range)
    case Some(step) => PrintRange(w.range) + ['/'] + Decimal(step)
  }

  function JudgeNumber(n: nat, min: nat, max: nat): Result<nat> {
    if n > 255 then Err(NotANumber) else if min <= n <= max then Ok(n) else Err(OutOfRange)
  }

  function JudgeRange(r: Range, min: nat, max: nat): Result<(nat, nat)> {
    match r
    case Star => Ok((min, max))
    case Single(n) => (match JudgeNumber(n, min, max) case Err(error) => Err(error) case Ok(v) => Ok((v, v)))
    case Span(lo, hi) =>
      match (JudgeNumber(lo, min, max), JudgeNumber(hi, min, max))
      case (Err(error), _) => Err(error)
      case (Ok(_), Err(error)) => Err(error)
      case (Ok(a), Ok(b)) => Ok((a, b))
  }

  /** What a written term stands for over a field's range, or why it is refused. */
  function Judge(w: Written, min: nat, max: nat): Result<Term> {
    var step := if w.step.None? then 1 else w.step.value;
    if step > 255 then Err(InvalidStep)
    else if step == 0 then Err(ZeroStep)
    else
      match JudgeRange(w.range, min, max)
      case Err(error) => Err(error)
      case Ok((lo, hi)) => if lo > hi then Err(ReversedRange) else Ok(Term(lo, hi, step))
  }

  lemma NumberParses(n: nat, min: nat, max: nat)
    requires max <= 255
    ensures ParseNum(Decimal(n), min, max) == JudgeNumber(n, min, max)
  {
    ParseU8Decimal(n);
  }

  /** Whitespace around a number is ignored. */
  lemma NumberTrimmed(before: string, n: nat, after: string, min: nat, max: nat)
    requires AllWhitespace(before) && AllWhitespace(after) && max <= 255
    ensures ParseNum(before + Decimal(n) + after, min, max) == JudgeNumber(n, min, max)
  {
    DecimalParses(n);
    var s := Decimal(n);
    assert '0' <= s[0] <= '9' && '0' <= s[|s| - 1] <= '9';
    TrimStrips(before, s, after);
    ParseU8Decimal(n);
  }

  lemma RangeParses(r: Range, min: nat, max: nat)
    requires min <= max <= 255
    ensures ParseRange(PrintRange(r), min, max) == JudgeRange(r, min, max)
  {
    match r
    case Star =>
    case Single(n) =>
      NumberParses(n, min, max);
      DecimalLacks(n, '-');
      NumeralIsNotStar(n);
    case Span(lo, hi) =>
      NumberParses(lo, min, max);
      NumberParses(hi, min, max);
      DecimalLacks(lo, '-');
      SplitOnceJoin(Decimal(lo), '-', Decimal(hi));
      assert |PrintRange(r)| >= 2;
  }

  lemma NumeralIsNotStar(n: nat)
    ensures Decimal(n) != "*"
  {
    DecimalLacks(n, '*');
    assert "*"[0] == '*';
  }

  lemma RangeLacks(r: Range, c: char)
    requires !('0' <= c <= '9') && c != '-' && c != '*'
    ensures c !in PrintRange(r)
  {
    match r
    case Star =>
    case Single(n) => DecimalLacks(n, c);
    case Span(lo, hi) =>
      DecimalLacks(lo, c);
      DecimalLacks(hi, c);
  }

  lemma StepParses(range: string, step: nat)
    requires '/' !in range
    ensures ParseStep(range) == Ok((range, 1))
    ensures ParseStep(range + ['/'] + Decimal(step))
      == if step > 255 then Err(InvalidStep) else if step == 0 then Err(ZeroStep) else Ok((range, step))
  {
    SplitOnceJoin(range, '/', Decimal(step));
    ParseU8Decimal(step);
  }

  /** Every written form, with any numbers, parses to what it stands for. */
  lemma WrittenParses(w: Written, min: nat, max: nat)
    requires min <= max <= 255
    ensures ParseTerm(PrintWritten(w), min, max) == Judge(w, min, max)
  {
    RangeLacks(w.range, '/');
    StepParses(PrintRange(w.range), if w.step.None? then 1 else w.step.value);
    RangeParses(w.range, min, max);
  }

  // --- Written fields ------------------------------------------------------

  function PrintList(ws: seq<Written>): string
    requires ws != []
  {
    if |ws| == 1 then PrintWritten(ws[0]) else PrintWritten(ws[0]) + [','] + PrintList(ws[1..])
  }

  function Printed(ws: seq<Written>): seq<string> {
    if ws == [] then [] else [PrintWritten(ws[0])] + Printed(ws[1..])
  }

  lemma {:induction false} PrintedAt(ws: seq<Written>, i: nat)
    ensures |Printed(ws)| == |ws| && (i < |ws| ==> Printed(ws)[i] == PrintWritten(ws[i]))
  {
    if ws != [] { PrintedAt(ws[1..], if i > 0 then i - 1 else 0); }
  }

  lemma WrittenLacksComma(w: Written)
    ensures ',' !in PrintWritten(w)
  {
    RangeLacks(w.range, ',');
    if w.step.Some? { DecimalLacks(w.step.value, ','); }
  }

  lemma {:induction false} SplitPrinted(ws: seq<Written>)
    requires ws != []
    ensures Split(PrintList(ws), ',') == Printed(ws)
  {
    WrittenLacksComma(ws[0]);
    if |ws| == 1 {
      SplitWhole(PrintWritten(ws[0]));
      assert Printed(ws[1..]) == [];
    } else {
      SplitPrinted(ws[1..]);
      SplitHead(PrintWritten(ws[0]), PrintList(ws[1..]));
    }
  }

  lemma SplitWhole(s: string)
    requires ',' !in s
    ensures Split(s, ',') == [s]
  {
  }

  lemma SplitHead(head: string, rest: string)
    requires ',' !in head
    ensures Split(head + [','] + rest, ',') == [head] + Split(rest, ',')
  {
    SplitOnceJoin(head, ',', rest);
  }

  lemma {:induction false} CollectAll<T>(results: seq<Result<T>>, values: seq<T>)
    requires |results| == |values| && forall i :: 0 <= i < |values| ==> results[i] == Ok(values[i])
    ensures Collect(results) == Ok(values)
  {
    if results != [] {
      var n := |results| - 1;
      CollectAll(results[..n], values[..n]);
      assert values == values[..n] + [values[n]];
    }
  }

  lemma CollectFirstError<T>(results: seq<Result<T>>, i: nat)
    requires i < |results| && results[i].Err? && forall j :: 0 <= j < i ==> results[j].Ok?
    ensures Collect(results) == Err(results[i].error)
  {
    var values := seq(i, j requires 0 <= j < i => results[j].value);
    CollectAll(results[..i], values);
    assert results[..i + 1][..i] == results[..i];
    FirstErrorStands(results, i + 1);
  }

  lemma ResultsAreJudged(ws: seq<Written>, min: nat, max: nat)
    requires ws != [] && min <= max <= 255
    ensures var results := TermResults(Split(PrintList(ws), ','), min, max);
      |results| == |ws| && forall i :: 0 <= i < |ws| ==> results[i] == Judge(ws[i], min, max)
  {
    SplitPrinted(ws);
    PrintedAt(ws, 0);
    forall i | 0 <= i < |ws| ensures ParseTerm(Printed(ws)[i], min, max) == Judge(ws[i], min, max) {
      PrintedAt(ws, i);
      WrittenParses(ws[i], min, max);
    }
  }

  /** A comma list of written terms parses to what they stand for, in order. */
  lemma ListParses(ws: seq<Written>, terms: seq<Term>, min: nat, max: nat)
    requires ws != [] && min <= max <= 255 && |terms| == |ws|
    requires forall i :: 0 <= i < |ws| ==> Judge(ws[i], min, max) == Ok(terms[i])
    ensures ParseTerms(PrintList(ws), min, max) == Ok(terms)
  {
    var results := TermResults(Split(PrintList(ws), ','), min, max);
    ResultsAreJudged(ws, min, max);
    assert forall i :: 0 <= i < |ws| ==> results[i] == Ok(terms[i]);
    CollectAll(results, terms);
  }

  /** Or is refused for its first bad term. */
  lemma ListRefused(ws: seq<Written>, i: nat, min: nat, max: nat)
    requires ws != [] && min <= max <= 255 && i < |ws| && Judge(ws[i], min, max).Err?
    requires forall j :: 0 <= j < i ==> Judge(ws[j], min, max).Ok?
    ensures ParseTerms(PrintList(ws), min, max) == Err(Judge(ws[i], min, max).error)
  {
    ResultsAreJudged(ws, min, max);
    CollectFirstError(TermResults(Split(PrintList(ws), ','), min, max), i);
  }

  /** A term written out in full. */
  function InFull(t: Term): Written { Written(Span(t.lo, t.hi), Some(t.step)) }

  function AllInFull(terms: seq<Term>): (ws: seq<Written>)
    ensures |ws| == |terms| && forall i :: 0 <= i < |terms| ==> ws[i] == InFull(terms[i])
  {
    seq(|terms|, i requires 0 <= i < |terms| => InFull(terms[i]))
  }

  /** Every list of terms in range is what its printed field parses to. */
  lemma FieldRoundTrip(terms: seq<Term>, min: nat, max: nat)
    requires terms != [] && min <= max <= 255
    requires forall i :: 0 <= i < |terms| ==> ValidTerm(terms[i], min, max)
    ensures ParseTerms(PrintList(AllInFull(terms)), min, max) == Ok(terms)
  {
    ListParses(AllInFull(terms), terms, min, max);
  }

  // --- Expressions ---------------------------------------------------------

  predicate IsWord(w: string) {
    w != [] && forall i :: 0 <= i < |w| ==> !IsWhitespace(w[i])
  }

  function JoinWords(words: seq<string>): string {
    if words == [] then []
    else if |words| == 1 then words[0]
    else words[0] + [' '] + JoinWords(words[1..])
  }

  lemma {:induction false} SplitFirstWord(w: string, rest: string)
    requires IsWord(w) && (rest == [] || IsWhitespace(rest[0]))
    ensures SplitWhitespace(w + rest) == [w] + SplitWhitespace(rest)
  {
    var s := w + rest;
    assert s[0] == w[0] && s[1..] == w[1..] + rest;
    if |w| == 1 {
      assert w == [w[0]] && w[1..] + rest == rest;
    } else {
      SplitFirstWord(w[1..], rest);
      assert s[1] == w[1];
      assert w == [w[0]] + w[1..];
    }
  }

  /** Any whitespace before, between and after words only separates them. */
  lemma {:induction false} SpaceOnlySeparates(space: string, rest: string)
    requires AllWhitespace(space)
    ensures SplitWhitespace(space + rest) == SplitWhitespace(rest)
  {
    if space == [] {
      assert space + rest == rest;
    } else {
      assert (space + rest)[1..] == space[1..] + rest;
      SpaceOnlySeparates(space[1..], rest);
    }
  }

  lemma WordThenSpace(w: string, space: string, rest: string)
    requires IsWord(w) && space != [] && AllWhitespace(space)
    ensures SplitWhitespace(w + (space + rest)) == [w] + SplitWhitespace(rest)
  {
    SplitFirstWord(w, space + rest);
    SpaceOnlySeparates(space, rest);
  }

  /** Fields survive being written with single spaces between them. */
  lemma {:induction false} SplitJoinedWords(words: seq<string>)
    requires forall i :: 0 <= i < |words| ==> IsWord(words[i])
    ensures SplitWhitespace(JoinWords(words)) == words
  {
    if |words| == 1 {
      SplitFirstWord(words[0], []);
      assert words[0] + [] == words[0] && words == [words[0]];
    } else if |words| > 1 {
      var tail := [' '] + JoinWords(words[1..]);
      SplitFirstWord(words[0], tail);
      assert JoinWords(words) == words[0] + tail;
      assert tail[1..] == JoinWords(words[1..]);
      SplitJoinedWords(words[1..]);
      assert words == [words[0]] + words[1..];
    }
  }

  // --- Written schedules ---------------------------------------------------

  /** `b` is one of lo, lo + step, lo + 2 * step, ... up to hi, for some written term. */
  ghost predicate Denotes(ws: seq<Written>, min: nat, max: nat, wrap: bool, b: nat) {
    exists i, j: nat :: 0 <= i < |ws| && DenotesAt(ws[i], min, max, wrap, b, j)
  }

  ghost predicate DenotesAt(w: Written, min: nat, max: nat, wrap: bool, b: nat, j: nat) {
    var step := if w.step.None? then 1 else w.step.value;
    match w.range
    case Star => min + j * step <= max && b == (if wrap then (min + j * step) % 7 else min + j * step)
    case Single(n) => j == 0 && b == (if wrap then n % 7 else n)
    case Span(lo, hi) => lo + j * step <= hi && b == (if wrap then (lo + j * step) % 7 else lo + j * step)
  }

  /** Written terms in range whose counter does not overflow. */
  predicate Sound(ws: seq<Written>, min: nat, max: nat) {
    ws != [] && forall i :: 0 <= i < |ws| ==> Judge(ws[i], min, max).Ok? && !Overflows(Judge(ws[i], min, max).value)
  }

  function Terms(ws: seq<Written>, min: nat, max: nat): (terms: seq<Term>)
    requires Sound(ws, min, max)
    ensures |terms| == |ws| && forall i :: 0 <= i < |ws| ==> terms[i] == Judge(ws[i], min, max).value
  {
    seq(|ws|, i requires 0 <= i < |ws| => Judge(ws[i], min, max).value)
  }

  lemma TermDenotes(w: Written, min: nat, max: nat, wrap: bool, b: nat)
    requires min <= max <= 59 && Judge(w, min, max).Ok?
    ensures Means(Judge(w, min, max).value, wrap, b) <==> exists j: nat :: DenotesAt(w, min, max, wrap, b, j)
  {
    var t := Judge(w, min, max).value;
    if j: nat :| MeansAt(t, wrap, b, j) {
      if w.range.Single? {
        MulMonotone(if j > 0 then 1 else 0, j, t.step);
        assert j == 0;
      }
      assert DenotesAt(w, min, max, wrap, b, j);
    }
    if j: nat :| DenotesAt(w, min, max, wrap, b, j) { assert MeansAt(t, wrap, b, j); }
  }

  lemma TermsDenote(ws: seq<Written>, min: nat, max: nat, wrap: bool, b: nat)
    requires min <= max <= 59 && Sound(ws, min, max)
    ensures SomeMeans(Terms(ws, min, max), wrap, b) <==> Denotes(ws, min, max, wrap, b)
  {
    var terms := Terms(ws, min, max);
    if SomeMeans(terms, wrap, b) {
      var i :| 0 <= i < |terms| && Means(terms[i], wrap, b);
      TermDenotes(ws[i], min, max, wrap, b);
      var j: nat :| DenotesAt(ws[i], min, max, wrap, b, j);
    }
    if i, j: nat :| 0 <= i < |ws| && DenotesAt(ws[i], min, max, wrap, b, j) {
      TermDenotes(ws[i], min, max, wrap, b);
      assert Means(terms[i], wrap, b);
    }
  }

  /** The field parsed from a written list holds exactly what the list denotes. */
  lemma FieldDenotes(spec: string, ws: seq<Written>, min: nat, max: nat, wrap: bool, f: Field)
    requires min <= max && (if wrap then max <= 7 else max <= 59) && Sound(ws, min, max) && spec == PrintList(ws)
    requires FieldSpec(spec, ParseTerms(spec, min, max), wrap, Ok(f))
    ensures f.isStar <==> ws == [Written(Star, None)]
    ensures forall b: nat :: b < 64 ==> (f.Contains(b) <==> Denotes(ws, min, max, wrap, b))
  {
    ListParses(ws, Terms(ws, min, max), min, max);
    FieldIsUnionOfTerms(spec, min, max, wrap, Ok(f));
    forall b: nat | b < 64 ensures f.Contains(b) <==> Denotes(ws, min, max, wrap, b) {
      TermsDenote(ws, min, max, wrap, b);
    }
    OnlyStarPrintsStar(ws);
  }

  lemma OnlyStarPrintsStar(ws: seq<Written>)
    requires ws != []
    ensures PrintList(ws) == "*" <==> ws == [Written(Star, None)]
  {
    if |ws| > 1 {
      assert |PrintList(ws)| >= 2 by { PrintedIsNotEmpty(ws[0]); }
    } else {
      assert ws == [ws[0]];
      WrittenStar(ws[0]);
    }
  }

  lemma PrintedIsNotEmpty(w: Written)
    ensures PrintWritten(w) != []
  {
  }

  lemma WrittenStar(w: Written)
    ensures PrintWritten(w) == "*" <==> w == Written(Star, None)
  {
    if w.range.Single? { NumeralIsNotStar(w.range.n); }
  }

  /** Five written lists and the schedule their texts parse to. */
  datatype Schedule = Schedule(
    minute: seq<Written>, hour: seq<Written>, dom: seq<Written>, month: seq<Written>, dow: seq<Written>)

  ghost predicate WellWritten(w: Schedule) {
    && Sound(w.minute, 0, 59) && Sound(w.hour, 0, 23) && Sound(w.dom, 1, 31) && Sound(w.month, 1, 12)
    && Sound(w.dow, 0, 7)
  }

  function Texts(w: Schedule): seq<string>
    requires w.minute != [] && w.hour != [] && w.dom != [] && w.month != [] && w.dow != []
  {
    [PrintList(w.minute), PrintList(w.hour), PrintList(w.dom), PrintList(w.month), PrintList(w.dow)]
  }

  /** A parsed schedule holds in each field what was written there, minutes first:
      0-59, 0-23, 1-31, 1-12, and weekdays modulo seven. */
  lemma ScheduleDenotes(w: Schedule, c: Cron)
    requires WellWritten(w) && ParsedAs(Texts(w), c)
    ensures forall b: nat :: b < 64 ==>
      && (c.minute.Contains(b) <==> Denotes(w.minute, 0, 59, false, b)) && (c.hour.Contains(b) <==> Denotes(w.hour, 0, 23, false, b))
      && (c.dom.Contains(b) <==> Denotes(w.dom, 1, 31, false, b)) && (c.month.Contains(b) <==> Denotes(w.month, 1, 12, false, b))
      && (c.dow.Contains(b) <==> Denotes(w.dow, 0, 7, true, b))
    ensures (c.dom.isStar <==> w.dom == [Written(Star, None)]) && (c.dow.isStar <==> w.dow == [Written(Star, None)])
  {
    var parts := Texts(w);
    FieldDenotes(parts[0], w.minute, 0, 59, false, c.minute);
    FieldDenotes(parts[1], w.hour, 0, 23, false, c.hour);
    FieldDenotes(parts[2], w.dom, 1, 31, false, c.dom);
    FieldDenotes(parts[3], w.month, 1, 12, false, c.month);
    FieldDenotes(parts[4], w.dow, 0, 7, true, c.dow);
  }

  // --- Concrete schedules --------------------------------------------------

  function Number(n: nat): seq<Written> { [Written(Single(n), None)] }

  function Any(): seq<Written> { [Written(Star, None)] }

  lemma NumberDenotes(n: nat, min: nat, max: nat, wrap: bool, b: nat)
    ensures Denotes(Number(n), min, max, wrap, b) <==> b == if wrap then n % 7 else n
  {
    if b == (if wrap then n % 7 else n) { assert DenotesAt(Number(n)[0], min, max, wrap, b, 0); }
  }

  lemma AnyDenotes(min: nat, max: nat, b: nat)
    requires min <= b <= max
    ensures Denotes(Any(), min, max, false, b)
  {
    assert DenotesAt(Any()[0], min, max, false, b, b - min);
  }

  /** Some schedule is parsed from every well-written one. */
  lemma WrittenIsAccepted(w: Schedule) returns (c: Cron)
    requires WellWritten(w)
    ensures ParsedAs(Texts(w), c)
  {
    var parts := Texts(w);
    var minute := WrittenField(parts[0], w.minute, 0, 59, false);
    var hour := WrittenField(parts[1], w.hour, 0, 23, false);
    var dom := WrittenField(parts[2], w.dom, 1, 31, false);
    var month := WrittenField(parts[3], w.month, 1, 12, false);
    var dow := WrittenField(parts[4], w.dow, 0, 7, true);
    c := Cron(minute, hour, dom, month, dow);
  }

  lemma WrittenField(spec: string, ws: seq<Written>, min: nat, max: nat, wrap: bool) returns (f: Field)
    requires min <= max <= 59 && Sound(ws, min, max) && spec == PrintList(ws)
    ensures FieldSpec(spec, ParseTerms(spec, min, max), wrap, Ok(f))
  {
    ListParses(ws, Terms(ws, min, max), min, max);
    f := FieldExists(spec, Terms(ws, min, max), wrap);
  }

  /** An expression is refused for its first bad field. */
  lemma {:induction false} FirstBadField(parts: seq<string>, k: nat, i: nat)
    requires |parts| == 5 && k <= i < 5 && ParseTerms(parts[i], RANGES[i].0, RANGES[i].1).Err?
    requires forall j :: k <= j < i ==> ParseTerms(parts[j], RANGES[j].0, RANGES[j].1).Ok?
    ensures FirstError(parts, k) == Some(ParseTerms(parts[i], RANGES[i].0, RANGES[i].1).error)
    decreases i - k
  {
    if k < i { FirstBadField(parts, k + 1, i); }
  }

  lemma ParsedHasNoError(parts: seq<string>, c: Cron)
    requires |parts| == 5 && ParsedAs(parts, c)
    ensures FirstError(parts, 0).None?
  {
    assert FirstError(parts, 5).None?;
    assert FirstError(parts, 3).None? by { assert FirstError(parts, 4).None?; }
    assert FirstError(parts, 1).None? by { assert FirstError(parts, 2).None?; }
  }

  lemma WordThen(w: string, rest: string)
    requires IsWord(w)
    ensures SplitWhitespace(w + (" " + rest)) == [w] + SplitWhitespace(rest)
  {
    SplitFirstWord(w, " " + rest);
    assert (" " + rest)[1..] == rest;
  }

  lemma FiveWords(a: string, b: string, c: string, d: string, e: string)
    requires IsWord(a) && IsWord(b) && IsWord(c) && IsWord(d) && IsWord(e)
    ensures SplitWhitespace(a + (" " + (b + (" " + (c + (" " + (d + (" " + e)))))))) == [a, b, c, d, e]
  {
    SplitFirstWord(e, "");
    assert e + "" == e && SplitWhitespace(e) == [e];
    WordThen(d, e);
    WordThen(c, d + (" " + e));
    WordThen(b, c + (" " + (d + (" " + e))));
    WordThen(a, b + (" " + (c + (" " + (d + (" " + e))))));
  }

  /** `0 0 29 2 *`: midnight on 29 February, whatever the weekday. */
  function LeapDay(): Schedule { Schedule(Number(0), Number(0), Number(29), Number(2), Any()) }

  lemma LeapDayText(text: string)
    requires text == "0 0 29 2 *"
    ensures SplitWhitespace(text) == Texts(LeapDay())
  {
    var zero, day, month, star := "0", "29", "2", "*";
    assert Decimal(0) == zero && Decimal(29) == day && Decimal(2) == month;
    assert IsWord(zero) && IsWord(day) && IsWord(month) && IsWord(star);
    assert text == zero + (" " + (zero + (" " + (day + (" " + (month + (" " + star)))))));
    FiveWords(zero, zero, day, month, star);
    assert Texts(LeapDay()) == [zero, zero, day, month, star];
  }

  /** The field of a plain number holds that number alone. */
  lemma NumberField(spec: string, n: nat, min: nat, max: nat, wrap: bool, f: Field)
    requires min <= n <= max && (if wrap then max <= 7 else max <= 59) && spec == PrintList(Number(n))
    requires FieldSpec(spec, ParseTerms(spec, min, max), wrap, Ok(f))
    ensures !f.isStar && forall b: nat :: b < 64 ==> (f.Contains(b) <==> b == if wrap then n % 7 else n)
  {
    FieldDenotes(spec, Number(n), min, max, wrap, f);
    forall b: nat | b < 64 ensures f.Contains(b) <==> b == if wrap then n % 7 else n {
      NumberDenotes(n, min, max, wrap, b);
    }
  }

  /** The field of a star holds its whole range. */
  lemma StarField(spec: string, min: nat, max: nat, wrap: bool, f: Field)
    requires min <= max && (if wrap then max <= 7 else max <= 59) && spec == PrintList(Any())
    requires FieldSpec(spec, ParseTerms(spec, min, max), wrap, Ok(f))
    ensures f.isStar && (!wrap ==> forall b: nat :: min <= b <= max ==> f.Contains(b))
  {
    FieldDenotes(spec, Any(), min, max, wrap, f);
    forall b: nat | !wrap && min <= b <= max ensures f.Contains(b) { AnyDenotes(min, max, b); }
  }

  lemma LeapDayFields(parts: seq<string>, c: Cron)
    requires parts == Texts(LeapDay()) && ParsedAs(parts, c)
    ensures c.dow.isStar && !c.dom.isStar
    ensures c.minute.Contains(0) && c.hour.Contains(0)
    ensures forall b: nat :: b < 64 ==> (c.dom.Contains(b) <==> b == 29) && (c.month.Contains(b) <==> b == 2)
  {
    NumberField(parts[0], 0, 0, 59, false, c.minute);
    NumberField(parts[1], 0, 0, 23, false, c.hour);
    NumberField(parts[2], 29, 1, 31, false, c.dom);
    NumberField(parts[3], 2, 1, 12, false, c.month);
    StarField(parts[4], 0, 7, true, c.dow);
  }

  /** It is accepted, admits no other date, and from some minute on is not found. */
  lemma LeapDayScheduleStops(text: string) returns (c: Cron)
    requires text == "0 0 29 2 *"
    ensures var parts := SplitWhitespace(text);
      |parts| == 5 && ParsedAs(parts, c) && FirstError(parts, 0).None?
    ensures Accepted(c) && !AdmitsYearlyDate(c)
    ensures Next(Fires(c), EndOf2096()).None?
  {
    LeapDayText(text);
    var parts := SplitWhitespace(text);
    c := WrittenIsAccepted(LeapDay());
    ParsedIsAccepted(parts, c);
    ParsedHasNoError(parts, c);
    LeapDayFields(parts, c);
    LeapDayOnlyStops(c);
    NoneIsNext(Fires(c), EndOf2096());
  }

  /** `0 0 1 * 1`: midnight on the first of a month or on a Monday. */
  function FirstOrMonday(): Schedule { Schedule(Number(0), Number(0), Number(1), Any(), Number(1)) }

  lemma FirstOrMondayText(text: string)
    requires text == "0 0 1 * 1"
    ensures SplitWhitespace(text) == Texts(FirstOrMonday())
  {
    var zero, one, star := "0", "1", "*";
    assert Decimal(0) == zero && Decimal(1) == one;
    assert IsWord(zero) && IsWord(one) && IsWord(star);
    assert text == zero + (" " + (zero + (" " + (one + (" " + (star + (" " + one)))))));
    FiveWords(zero, zero, one, star, one);
    assert Texts(FirstOrMonday()) == [zero, zero, one, star, one];
  }

  /** From just before minute 0, a Thursday, it fires there, on the first. */
  lemma FirstOrMondayFires(text: string, first: int) returns (c: Cron)
    requires text == "0 0 1 * 1" && first == 0
    ensures var parts := SplitWhitespace(text); |parts| == 5 && ParsedAs(parts, c) && FirstError(parts, 0).None?
    ensures Weekday(DayOf(first)) == 4 && Next(Fires(c), first - 1) == Some(first)
  {
    FirstOrMondayText(text);
    var parts := SplitWhitespace(text);
    c := WrittenIsAccepted(FirstOrMonday());
    ParsedHasNoError(parts, c);
    FirstOrMondayFields(parts, c);
    FirstFires(c, 1, first);
    SearchFindsNow(c, first);
    EpochDay();
  }

  lemma FirstFires(c: Cron, day: nat, t: int)
    requires 1 <= day <= 31 && t == (day - 1) * 1440
    requires !c.dom.isStar && !c.dow.isStar && c.minute.Contains(0) && c.hour.Contains(0) && c.month.Contains(1)
    requires c.dom.Contains(day)
    ensures Matches(c, t)
  {
    var d, k := JanuaryDay(day, day - 1);
    MidnightFires(c, d, k, t);
  }

  /** The first days of 1970 with their numbers. */
  lemma JanuaryDay(day: nat, n: nat) returns (d: Date, k: int)
    requires 1 <= day <= 31 && n == day - 1
    ensures d.month == 1 && d.day == day && ValidDate(d) && k == DayNumber(d) == UNIX_EPOCH + n
    ensures Weekday(k) == (4 + n) % 7
  {
    EpochDay();
    d, k := Date(1970, 1, day), UNIX_EPOCH + n;
  }

  lemma MidnightFires(c: Cron, d: Date, k: int, t: int)
    requires ValidDate(d) && DayNumber(d) == k && t == (k - UNIX_EPOCH) * 1440
    requires !c.dom.isStar && !c.dow.isStar && c.minute.Contains(0) && c.hour.Contains(0) && c.month.Contains(d.month)
    requires c.dom.Contains(d.day) || c.dow.Contains(Weekday(k))
    ensures Matches(c, t)
  {
    FiresOnDate(c, d, 0, 0);
  }

  lemma SearchFindsNow(c: Cron, t: int)
    requires Matches(c, t)
    ensures Next(Fires(c), t - 1) == Some(t)
  {
    FiresNow(Fires(c), t);
  }

  lemma FiresNow(fires: int -> bool, t: int)
    requires fires(t)
    ensures Next(fires, t - 1) == Some(t)
  {
    FirstIsNext(fires, t - 1, t);
  }

  lemma FirstOrMondayFields(parts: seq<string>, c: Cron)
    requires parts == Texts(FirstOrMonday()) && ParsedAs(parts, c)
    ensures !c.dom.isStar && !c.dow.isStar && c.minute.Contains(0) && c.hour.Contains(0) && c.month.Contains(1)
    ensures c.dom.Contains(1) && c.dow.Contains(1)
  {
    NumberField(parts[0], 0, 0, 59, false, c.minute);
    NumberField(parts[1], 0, 0, 23, false, c.hour);
    NumberField(parts[2], 1, 1, 31, false, c.dom);
    StarField(parts[3], 1, 12, false, c.month);
    NumberField(parts[4], 1, 0, 7, true, c.dow);
  }

  ghost predicate IsMultiple(b: nat, step: nat) {
    exists j: nat :: b == Times(j, step)
  }

  function Times(j: nat, step: nat): nat { j * step }

  /** Minutes with a stepped star are the multiples of the step. */
  lemma SteppedStar(text: string, step: nat, f: Field)
    requires 1 <= step <= 255 && text == "*" + ['/'] + Decimal(step)
    requires FieldSpec(text, ParseTerms(text, 0, 59), false, Ok(f))
    ensures forall b: nat :: b < 64 ==> (f.Contains(b) <==> b <= 59 && IsMultiple(b, step))
  {
    var ws := [Written(Star, Some(step))];
    assert text == PrintList(ws);
    FieldDenotes(text, ws, 0, 59, false, f);
    forall b: nat | b < 64 ensures f.Contains(b) <==> b <= 59 && IsMultiple(b, step) {
      MultipleDenotes(ws, step, b);
    }
  }

  lemma MultipleDenotes(ws: seq<Written>, step: nat, b: nat)
    requires step >= 1 && ws == [Written(Star, Some(step))]
    ensures Denotes(ws, 0, 59, false, b) <==> b <= 59 && IsMultiple(b, step)
  {
    if i, j: nat :| 0 <= i < |ws| && DenotesAt(ws[i], 0, 59, false, b, j) { assert b == Times(j, step); }
    if j: nat :| b <= 59 && b == Times(j, step) { assert DenotesAt(ws[0], 0, 59, false, b, j); }
  }

  /** `59-59/200` as minutes also marks 3, since 59 + 200 wraps to 3. */
  lemma OverflowingTermMarksThree(text: string, t: Term)
    requires text == "59-59/200" && t == Term(59, 59, 200)
    ensures ParseTerm(text, 0, 59) == Ok(t) && Marks(t, false, 3) && !Means(t, false, 3)
  {
    assert text == PrintWritten(InFull(t)) by {
      assert Decimal(59) == "59";
      assert Decimal(200) == "200" by { assert Decimal(20) == "20"; }
    }
    WrittenParses(InFull(t), 0, 59);
    OverflowMarksBelow(t, false, 59);
    OverflowMeaning(t, false, 59);
  }
}
