/** The bounded forward search for the next minute at which a schedule fires. */
module CronSearch {
  import opened Text

  /** Five years of 366 days, in minutes. */
  const HORIZON: int := 5 * 366 * 1440

  ghost predicate FirstMatch(fires: int -> bool, start: int, t: int) {
    start <= t < start + HORIZON && fires(t) && forall u :: start <= u < t ==> !fires(u)
  }

  ghost predicate NoMatch(fires: int -> bool, start: int) {
    forall u :: start <= u < start + HORIZON ==> !fires(u)
  }

  /** The least firing minute strictly after the minute `m`, within the horizon. */
  ghost function Next(fires: int -> bool, m: int): (r: Option<int>)
    ensures r.Some? ==> FirstMatch(fires, m + 1, r.value)
    ensures r.None? <==> NoMatch(fires, m + 1)
  {
    if NoMatch(fires, m + 1) then None
    else
      var u :| m + 1 <= u < m + 1 + HORIZON && fires(u);
      FirstMatchExists(fires, m + 1, u);
      var t :| FirstMatch(fires, m + 1, t);
      Some(t)
  }

  lemma FirstMatchExists(fires: int -> bool, start: int, u: int)
    requires start <= u < start + HORIZON && fires(u)
    ensures exists t :: FirstMatch(fires, start, t)
    decreases u - start
  {
    if v :| start <= v < u && fires(v) {
      FirstMatchExists(fires, start, v);
    } else {
      assert FirstMatch(fires, start, u);
    }
  }

  lemma FirstIsNext(fires: int -> bool, m: int, t: int)
    requires FirstMatch(fires, m + 1, t)
    ensures Next(fires, m) == Some(t)
  {
    var r := Next(fires, m);
    assert r.Some? && !(r.value < t) && !(t < r.value);
  }

  lemma NoneIsNext(fires: int -> bool, m: int)
    requires NoMatch(fires, m + 1)
    ensures Next(fires, m) == None
  {
  }

  /** The minutes visited by calling the search `n` times, each from the last result. */
  ghost function Occurrences(fires: int -> bool, m: int, n: nat): seq<int>
    decreases n
  {
    if n == 0 || Next(fires, m).None? then []
    else [Next(fires, m).value] + Occurrences(fires, Next(fires, m).value, n - 1)
  }

  ghost predicate Increasing(q: seq<int>) {
    forall i, j :: 0 <= i < j < |q| ==> q[i] < q[j]
  }

  lemma {:induction false} OccurrencesIncrease(fires: int -> bool, m: int, n: nat)
    ensures var q := Occurrences(fires, m, n);
      (forall i :: 0 <= i < |q| ==> m < q[i] && fires(q[i])) && Increasing(q)
    decreases n
  {
    if n > 0 && Next(fires, m).Some? {
      OccurrencesIncrease(fires, Next(fires, m).value, n - 1);
    }
  }

  /** Iteration visits every firing minute exactly once, in order, skipping none. */
  lemma OccurrencesAreAllMatches(fires: int -> bool, m: int, n: nat)
    ensures var q := Occurrences(fires, m, n);
      && (forall t :: t in q ==> m < t && fires(t))
      && Increasing(q)
      && (forall t :: q != [] && m < t <= q[|q| - 1] && fires(t) ==> t in q)
  {
    var q := Occurrences(fires, m, n);
    OccurrencesIncrease(fires, m, n);
    forall t | q != [] && m < t <= q[|q| - 1] && fires(t) ensures t in q {
      NoneIsSkipped(fires, m, n, t);
    }
  }

  lemma {:induction false} NoneIsSkipped(fires: int -> bool, m: int, n: nat, t: int)
    requires var q := Occurrences(fires, m, n); q != [] && m < t <= q[|q| - 1] && fires(t)
    ensures t in Occurrences(fires, m, n)
    decreases n
  {
    var q, first := Occurrences(fires, m, n), Next(fires, m).value;
    var rest := Occurrences(fires, first, n - 1);
    assert q == [first] + rest;
    if first < t {
      assert rest != [] && rest[|rest| - 1] == q[|q| - 1];
      NoneIsSkipped(fires, first, n - 1, t);
    } else {
      assert t == q[0];
    }
  }

  lemma {:induction false} EndlessOccurrences(fires: int -> bool, m: int, n: nat)
    requires forall k :: Next(fires, k).Some?
    ensures |Occurrences(fires, m, n)| == n
    decreases n
  {
    if n > 0 { EndlessOccurrences(fires, Next(fires, m).value, n - 1); }
  }
}
