/** Millisecond instants and their RFC 3339 text. */
module Timestamps {
  import opened Text
  import opened Calendar
  import opened Numbers

  const MILLIS_PER_DAY: int := 86400000

  /** Years 0000 to 9999, the range whose text has four-digit years. */
  predicate Printable(t: int) {
    -62167219200000 <= t <= 253402300799999
  }

  lemma PrintableYear(t: int)
    requires Printable(t)
    ensures 0 <= DatePart(t).year <= 9999
  {
    var n := t / MILLIS_PER_DAY + UNIX_EPOCH;
    var y := DatePart(t).year;
    WithinYear(DatePart(t));
    if y < 0 { YearMonotone(y + 1, 0); }
    if y > 9999 { YearMonotone(10000, y); }
  }

  // --- Fixed-width records -------------------------------------------------

  predicate TupleLess(a: seq<nat>, b: seq<nat>)
    requires |a| == |b|
  {
    a != [] && (a[0] < b[0] || (a[0] == b[0] && TupleLess(a[1..], b[1..])))
  }

  /** Each value in its width, each followed by its separator. */
  function Render(values: seq<nat>, widths: seq<nat>, seps: string): string
    requires |values| == |widths| == |seps|
  {
    if values == [] then ""
    else Fixed(10, widths[0], values[0]) + [seps[0]] + Render(values[1..], widths[1..], seps[1..])
  }

  ghost predicate Fits(values: seq<nat>, widths: seq<nat>)
    requires |values| == |widths|
  {
    forall i :: 0 <= i < |values| ==> values[i] < Power(10, widths[i])
  }

  /** Text order of records is field-by-field numeric order. */
  lemma {:induction false} RenderOrder(a: seq<nat>, b: seq<nat>, widths: seq<nat>, seps: string)
    requires |a| == |b| == |widths| == |seps|
    requires Fits(a, widths) && Fits(b, widths)
    ensures LexLess(Render(a, widths, seps), Render(b, widths, seps)) <==> TupleLess(a, b)
  {
    if a != [] {
      var w, sep := widths[0], [seps[0]];
      var x, y := Fixed(10, w, a[0]), Fixed(10, w, b[0]);
      var s, t := Render(a[1..], widths[1..], seps[1..]), Render(b[1..], widths[1..], seps[1..]);
      RenderOrder(a[1..], b[1..], widths[1..], seps[1..]);
      FixedOrder(10, w, a[0], b[0]);
      assert x + sep + s == x + (sep + s) && y + sep + t == y + (sep + t);
      LexConcat(x, sep + s, y, sep + t);
      LexConcat(sep, s, sep, t);
      LexConnected(sep, sep);
    }
  }

  // --- RFC 3339 ------------------------------------------------------------

  function DatePart(t: int): (d: Date)
    ensures ValidDate(d)
  {
    CivilDate(t / MILLIS_PER_DAY + UNIX_EPOCH)
  }

  /** Hour, minute, second and millisecond of the day. */
  function TimePart(t: int): (p: seq<nat>)
    ensures |p| == 4 && p[0] <= 23 && p[1] <= 59 && p[2] <= 59 && p[3] <= 999
  {
    var m := t % MILLIS_PER_DAY;
    [m / 3600000, m / 60000 % 60, m / 1000 % 60, m % 1000]
  }

  function Fields(t: int): (f: seq<nat>)
    requires Printable(t)
    ensures |f| == 7 && f[0] <= 9999
  {
    PrintableYear(t);
    var d := DatePart(t);
    [d.year, d.month, d.day] + TimePart(t)
  }

  /** `[year]-[month]-[day]T[hour]:[minute]:[second].[subsecond digits:3]Z`. */
  function Rfc3339(t: int): string
    requires Printable(t)
  {
    Render(Fields(t), [4, 2, 2, 2, 2, 2, 3], "--T::.Z")
  }

  /** Seven numerals and what stands between them. */
  function Layout(y: nat, mo: nat, d: nat, h: nat, mi: nat, sec: nat, ms: nat): string {
    Fixed(10, 4, y) + "-" + (Fixed(10, 2, mo) + "-" + (Fixed(10, 2, d) + "T" + (Fixed(10, 2, h) + ":"
      + (Fixed(10, 2, mi) + ":" + (Fixed(10, 2, sec) + "." + (Fixed(10, 3, ms) + "Z" + ""))))))
  }

  /** The text is year, month and day, then hour, minute, second and millisecond. */
  lemma TextLayout(t: int)
    requires Printable(t)
    ensures var d, m := CivilDate(t / 86400000 + UNIX_EPOCH), t % 86400000;
      d.year >= 0 && Rfc3339(t) == Layout(d.year, d.month, d.day, m / 3600000, m / 60000 % 60, m / 1000 % 60, m % 1000)
  {
    PrintableYear(t);
    var f := Fields(t);
    LaidOut(f[0], f[1], f[2], f[3], f[4], f[5], f[6]);
    assert f == [f[0], f[1], f[2], f[3], f[4], f[5], f[6]];
  }

  lemma RenderStep(v: nat, values: seq<nat>, w: nat, widths: seq<nat>, sep: char, seps: string)
    requires |values| == |widths| == |seps|
    ensures Render([v] + values, [w] + widths, [sep] + seps) == Fixed(10, w, v) + [sep] + Render(values, widths, seps)
  {
    assert ([v] + values)[1..] == values && ([w] + widths)[1..] == widths && ([sep] + seps)[1..] == seps;
  }

  lemma LaidOut(y: nat, mo: nat, d: nat, h: nat, mi: nat, sec: nat, ms: nat)
    ensures Render([y, mo, d, h, mi, sec, ms], [4, 2, 2, 2, 2, 2, 3], "--T::.Z") == Layout(y, mo, d, h, mi, sec, ms)
  {
    RenderStep(ms, [], 3, [], 'Z', "");
    RenderStep(sec, [ms], 2, [3], '.', "Z");
    RenderStep(mi, [sec, ms], 2, [2, 3], ':', ".Z");
    RenderStep(h, [mi, sec, ms], 2, [2, 2, 3], ':', ":.Z");
    RenderStep(d, [h, mi, sec, ms], 2, [2, 2, 2, 3], 'T', "::.Z");
    RenderStep(mo, [d, h, mi, sec, ms], 2, [2, 2, 2, 2, 3], '-', "T::.Z");
    RenderStep(y, [mo, d, h, mi, sec, ms], 4, [2, 2, 2, 2, 2, 3], '-', "-T::.Z");
  }

  /** The representable instants are those of the years -9999 to 9999, the ones with
      four-digit years those from 0 on. */
  lemma RepresentableYears(t: int)
    ensures MIN_TIME <= t <= MAX_TIME <==> -9999 <= DatePart(t).year <= 9999
    ensures Printable(t) <==> 0 <= DatePart(t).year <= 9999
  {
    var n := t / MILLIS_PER_DAY + UNIX_EPOCH;
    var y := DatePart(t).year;
    YearBounds(n, y, -9999);
    YearBounds(n, y, 0);
    YearBounds(n, y, 10000);
    assert YearStart(-9999) - UNIX_EPOCH == MIN_TIME / MILLIS_PER_DAY && MIN_TIME % MILLIS_PER_DAY == 0;
    assert YearStart(10000) - UNIX_EPOCH == (MAX_TIME + 1) / MILLIS_PER_DAY && (MAX_TIME + 1) % MILLIS_PER_DAY == 0;
  }

  lemma YearBounds(n: int, y: int, bound: int)
    requires y == CivilDate(n).year
    ensures y >= bound <==> n >= YearStart(bound)
  {
    WithinYear(CivilDate(n));
    if y >= bound { YearMonotone(bound, y); } else { YearMonotone(y + 1, bound); }
  }

  lemma FieldsFit(t: int)
    requires Printable(t)
    ensures Fits(Fields(t), [4, 2, 2, 2, 2, 2, 3])
  {
    var w := [4, 2, 2, 2, 2, 2, 3];
    assert Power(10, 2) == 100;
    assert Power(10, 3) == 1000;
    assert Power(10, 4) == 10000;
    var f := Fields(t);
    var p := TimePart(t);
    assert f[3] == p[0] && f[4] == p[1] && f[5] == p[2] && f[6] == p[3];
  }

  lemma TupleHead(x: nat, a: seq<nat>, y: nat, b: seq<nat>)
    requires |a| == |b|
    ensures TupleLess([x] + a, [y] + b) <==> x < y || (x == y && TupleLess(a, b))
  {
    assert ([x] + a)[1..] == a && ([y] + b)[1..] == b;
  }

  lemma TripleOrder(x: nat, y: nat, z: nat, a: seq<nat>, u: nat, v: nat, w: nat, b: seq<nat>)
    requires |a| == |b|
    ensures TupleLess([x, y, z] + a, [u, v, w] + b) <==>
      x < u || (x == u && (y < v || (y == v && (z < w || (z == w && TupleLess(a, b))))))
  {
    assert [x, y, z] + a == [x] + ([y] + ([z] + a)) && [u, v, w] + b == [u] + ([v] + ([w] + b));
    TupleHead(z, a, w, b);
    TupleHead(y, [z] + a, v, [w] + b);
    TupleHead(x, [y] + ([z] + a), u, [v] + ([w] + b));
  }

  lemma ClockValue(t: int)
    ensures var p := TimePart(t);
      t % MILLIS_PER_DAY == 3600000 * p[0] + 60000 * p[1] + 1000 * p[2] + p[3]
  {
    var m := t % MILLIS_PER_DAY;
    assert m / 60000 == 60 * (m / 3600000) + m / 60000 % 60;
    assert m / 1000 == 60 * (m / 60000) + m / 1000 % 60;
  }

  lemma ClockOrder(x: nat, y: nat, z: nat, c: nat, u: nat, v: nat, w: nat, e: nat)
    requires y <= 59 && z <= 59 && c <= 999 && v <= 59 && w <= 59 && e <= 999
    ensures 3600000 * x + 60000 * y + 1000 * z + c < 3600000 * u + 60000 * v + 1000 * w + e <==>
      x < u || (x == u && (y < v || (y == v && (z < w || (z == w && c < e)))))
  {
  }

  lemma TimeOrder(a: int, b: int)
    ensures TupleLess(TimePart(a), TimePart(b)) <==> a % MILLIS_PER_DAY < b % MILLIS_PER_DAY
  {
    var p, q := TimePart(a), TimePart(b);
    assert p == [p[0], p[1], p[2]] + [p[3]] && q == [q[0], q[1], q[2]] + [q[3]];
    TripleOrder(p[0], p[1], p[2], [p[3]], q[0], q[1], q[2], [q[3]]);
    ClockValue(a);
    ClockValue(b);
    ClockOrder(p[0], p[1], p[2], p[3], q[0], q[1], q[2], q[3]);
  }

  lemma DayThenTime(a: int, b: int)
    ensures var n, k := a / MILLIS_PER_DAY, b / MILLIS_PER_DAY;
      a < b <==> n < k || (n == k && a % MILLIS_PER_DAY < b % MILLIS_PER_DAY)
  {
  }

  lemma DateOrEqual(n: int, k: int)
    ensures var d, e := CivilDate(n), CivilDate(k); (DateLess(d, e) <==> n < k) && (d == e <==> n == k)
  {
    CivilOrder(n, k);
    CivilOrder(k, n);
  }

  lemma DateFirst(d: Date, p: seq<nat>, n: int, e: Date, q: seq<nat>, k: int)
    requires d.year >= 0 && d.month >= 0 && d.day >= 0 && e.year >= 0 && e.month >= 0 && e.day >= 0
    requires (DateLess(d, e) <==> n < k) && (d == e <==> n == k) && |p| == |q|
    ensures TupleLess([d.year as nat, d.month, d.day] + p, [e.year as nat, e.month, e.day] + q)
      <==> n < k || (n == k && TupleLess(p, q))
  {
    TripleOrder(d.year, d.month, d.day, p, e.year, e.month, e.day, q);
  }

  lemma FieldOrder(a: int, b: int)
    requires Printable(a) && Printable(b)
    ensures TupleLess(Fields(a), Fields(b)) <==> a < b
  {
    var n, k := a / MILLIS_PER_DAY + UNIX_EPOCH, b / MILLIS_PER_DAY + UNIX_EPOCH;
    PrintableYear(a);
    PrintableYear(b);
    DateOrEqual(n, k);
    DateFirst(DatePart(a), TimePart(a), n, DatePart(b), TimePart(b), k);
    TimeOrder(a, b);
    DayThenTime(a, b);
  }

  /** Comparing RFC 3339 texts compares the instants. */
  lemma TextOrderIsChronological(a: int, b: int)
    requires Printable(a) && Printable(b)
    ensures LexLess(Rfc3339(a), Rfc3339(b)) <==> a < b
  {
    FieldsFit(a);
    FieldsFit(b);
    RenderOrder(Fields(a), Fields(b), [4, 2, 2, 2, 2, 2, 3], "--T::.Z");
    FieldOrder(a, b);
  }
}
