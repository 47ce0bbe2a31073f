/** The in-memory outbox and one pass of the relay that drains it. */
module Outbox {
  import opened Text
  import opened Numbers

  /** A row: `event` stands for the aggregate metadata and payload it carries. */
  datatype Entry = Entry(id: int, event: string, published: bool, publishedAt: Option<int>)

  function NewEntry(id: int, event: string): Entry { Entry(id, event, false, None) }

  // --- Fetching ------------------------------------------------------------

  function Unpublished(entries: seq<Entry>): seq<Entry> {
    if entries == [] then []
    else
      var n := |entries| - 1;
      Unpublished(entries[..n]) + if entries[n].published then [] else [entries[n]]
  }

  /** Insert after every entry with an id up to `e.id`, so equal ids keep their order. */
  function InsertById(s: seq<Entry>, e: Entry): (r: seq<Entry>)
    ensures |r| == |s| + 1
  {
    if s == [] || s[|s| - 1].id <= e.id then s + [e]
    else
      var n := |s| - 1;
      InsertById(s[..n], e) + [s[n]]
  }

  /** The stable sort by id. */
  function SortById(entries: seq<Entry>): (r: seq<Entry>)
    ensures |r| == |entries|
  {
    if entries == [] then []
    else
      var n := |entries| - 1;
      InsertById(SortById(entries[..n]), entries[n])
  }

  function Fetch(entries: seq<Entry>, limit: nat): (r: seq<Entry>)
    ensures |r| <= limit && |r| <= |Unpublished(entries)|
  {
    var sorted := SortById(Unpublished(entries));
    if limit < |sorted| then sorted[..limit] else sorted
  }

  ghost predicate SortedById(s: seq<Entry>) {
    forall i, j :: 0 <= i < j < |s| ==> s[i].id <= s[j].id
  }

  ghost predicate StepwiseSorted(s: seq<Entry>) {
    |s| > 1 ==> s[|s| - 2].id <= s[|s| - 1].id && StepwiseSorted(s[..|s| - 1])
  }

  lemma {:induction false} StepwiseIsSorted(s: seq<Entry>)
    requires StepwiseSorted(s)
    ensures SortedById(s)
  {
    if |s| > 1 {
      var n := |s| - 1;
      StepwiseIsSorted(s[..n]);
      forall i | 0 <= i < n ensures s[i].id <= s[n].id { assert s[..n][i].id <= s[..n][n - 1].id; }
    }
  }

  lemma {:induction false} InsertKeepsSorted(s: seq<Entry>, e: Entry)
    requires StepwiseSorted(s)
    ensures var r := InsertById(s, e);
      StepwiseSorted(r) && (r[|s|] == e || (s != [] && r[|s|] == s[|s| - 1]))
  {
    var r := InsertById(s, e);
    if s == [] || s[|s| - 1].id <= e.id {
      assert r[..|s|] == s;
    } else {
      var n := |s| - 1;
      InsertKeepsSorted(s[..n], e);
      assert r[..|s|] == InsertById(s[..n], e);
    }
  }

  lemma {:induction false} InsertAddsOne(s: seq<Entry>, e: Entry)
    ensures multiset(InsertById(s, e)) == multiset(s) + multiset{e}
  {
    if s != [] && s[|s| - 1].id > e.id {
      var n := |s| - 1;
      InsertAddsOne(s[..n], e);
      assert s == s[..n] + [s[n]];
    }
  }

  /** Sorting gives the same entries, with their multiplicities, in id order. */
  lemma {:induction false} SortIsSortedPermutation(entries: seq<Entry>)
    ensures StepwiseSorted(SortById(entries)) && SortedById(SortById(entries))
    ensures multiset(SortById(entries)) == multiset(entries)
  {
    if entries != [] {
      var n := |entries| - 1;
      SortIsSortedPermutation(entries[..n]);
      InsertKeepsSorted(SortById(entries[..n]), entries[n]);
      InsertAddsOne(SortById(entries[..n]), entries[n]);
      assert entries == entries[..n] + [entries[n]];
    }
    StepwiseIsSorted(SortById(entries));
  }

  /** The entries with one id, in order. */
  function WithId(entries: seq<Entry>, id: int): seq<Entry> {
    if entries == [] then []
    else
      var n := |entries| - 1;
      WithId(entries[..n], id) + (if entries[n].id == id then [entries[n]] else [])
  }

  lemma {:induction false} InsertGoesLast(s: seq<Entry>, e: Entry, id: int)
    ensures WithId(InsertById(s, e), id) == WithId(s, id) + (if e.id == id then [e] else [])
  {
    if s == [] || s[|s| - 1].id <= e.id {
      assert (s + [e])[..|s|] == s;
    } else {
      var n := |s| - 1;
      InsertGoesLast(s[..n], e, id);
      assert InsertById(s, e)[..|s|] == InsertById(s[..n], e);
    }
  }

  /** Sorting is stable: entries with one id keep their order. */
  lemma {:induction false} SortIsStable(entries: seq<Entry>, id: int)
    ensures WithId(SortById(entries), id) == WithId(entries, id)
  {
    if entries != [] {
      var n := |entries| - 1;
      SortIsStable(entries[..n], id);
      InsertGoesLast(SortById(entries[..n]), entries[n], id);
    }
  }

  lemma {:induction false} UnpublishedMember(entries: seq<Entry>, e: Entry)
    ensures e in Unpublished(entries) <==> e in entries && !e.published
  {
    if entries != [] {
      var n := |entries| - 1;
      UnpublishedMember(entries[..n], e);
      assert entries == entries[..n] + [entries[n]];
    }
  }

  lemma SortedMember(entries: seq<Entry>, e: Entry)
    ensures e in SortById(Unpublished(entries)) <==> e in entries && !e.published
  {
    UnpublishedMember(entries, e);
    SortIsSortedPermutation(Unpublished(entries));
    assert e in multiset(SortById(Unpublished(entries))) <==> e in multiset(Unpublished(entries));
  }

  lemma TakenFirst(sorted: seq<Entry>, j: nat, e: Entry)
    requires SortedById(sorted) && j < |sorted| && e in sorted && e !in sorted[..j]
    ensures sorted[j].id <= e.id
  {
    var i :| 0 <= i < |sorted| && sorted[i] == e;
    assert forall k :: 0 <= k < j ==> sorted[..j][k] == sorted[k];
  }

  lemma FetchedIsUnpublished(entries: seq<Entry>, limit: nat, j: nat)
    requires j < |Fetch(entries, limit)|
    ensures Fetch(entries, limit)[j] in entries && !Fetch(entries, limit)[j].published
  {
    var e := SortById(Unpublished(entries))[j];
    assert e in SortById(Unpublished(entries));
    SortedMember(entries, e);
  }

  /** A fetch takes the oldest unpublished entries in id order: an unpublished
      entry not taken before position `j` is no older than the one at `j`. */
  lemma FetchIsOldestFirst(entries: seq<Entry>, limit: nat, e: Entry, j: nat)
    requires j < |Fetch(entries, limit)|
    requires e in entries && !e.published && e !in Fetch(entries, limit)[..j]
    ensures Fetch(entries, limit)[j].id <= e.id
  {
    var sorted := SortById(Unpublished(entries));
    SortIsSortedPermutation(Unpublished(entries));
    SortedMember(entries, e);
    FetchTakes(entries, limit, j);
    TakenFirst(sorted, j, e);
  }

  lemma FetchTakes(entries: seq<Entry>, limit: nat, j: nat)
    requires j < |Fetch(entries, limit)|
    ensures var sorted := SortById(Unpublished(entries));
      j < |sorted| && Fetch(entries, limit)[..j] == sorted[..j] && Fetch(entries, limit)[j] == sorted[j]
  {
  }

  // --- Marking -------------------------------------------------------------

  function MarkEntry(e: Entry, ids: seq<int>, now: int): Entry {
    if !e.published && e.id in ids then e.(published := true, publishedAt := Some(now)) else e
  }

  function Mark(entries: seq<Entry>, ids: seq<int>, now: int): (r: seq<Entry>)
    ensures |r| == |entries| && forall i :: 0 <= i < |entries| ==> r[i] == MarkEntry(entries[i], ids, now)
  {
    seq(|entries|, i requires 0 <= i < |entries| => MarkEntry(entries[i], ids, now))
  }

  /** A marking stamps its time on the listed unpublished entries and leaves all else. */
  lemma MarkStored(entries: seq<Entry>, ids: seq<int>, now: int, i: nat)
    requires i < |entries|
    ensures var was, after := entries[i], Mark(entries, ids, now)[i];
      && after.id == was.id && after.event == was.event
      && (!was.published && was.id in ids ==> after.published && after.publishedAt == Some(now))
      && (was.published || was.id !in ids ==> after == was)
  {
  }

  function EntryIds(entries: seq<Entry>): (ids: seq<int>)
    ensures |ids| == |entries| && forall i :: 0 <= i < |entries| ==> ids[i] == entries[i].id
  {
    seq(|entries|, i requires 0 <= i < |entries| => entries[i].id)
  }

  /** How many of the first `n` publishes succeed before the first failure. */
  function Shipped(accepts: nat -> bool, n: nat): (k: nat)
    ensures k <= n && (forall i: nat :: i < k ==> accepts(i)) && (k < n ==> !accepts(k))
  {
    if n == 0 then 0
    else
      var k := Shipped(accepts, n - 1);
      if k == n - 1 && accepts(k) then n else k
  }

  class InMemoryOutbox {
    var entries: seq<Entry>

    constructor ()
      ensures entries == []
    {
      entries := [];
    }

    method Enqueue(batch: seq<Entry>)
      modifies this
      ensures entries == old(entries) + batch
    {
      entries := entries + batch;
    }

    method FetchUnpublished(limit: nat) returns (r: seq<Entry>)
      ensures r == Fetch(entries, limit)
    {
      var unpublished := Unpublished(entries);
      unpublished := SortById(unpublished);
      r := if limit < |unpublished| then unpublished[..limit] else unpublished;
    }

    method MarkPublished(ids: seq<int>, now: int)
      modifies this
      ensures entries == Mark(old(entries), ids, now)
    {
      for i := 0 to |entries|
        invariant |entries| == |old(entries)|
        invariant forall k :: 0 <= k < i ==> entries[k] == MarkEntry(old(entries)[k], ids, now)
        invariant forall k :: i <= k < |entries| ==> entries[k] == old(entries)[k]
      {
        var e := entries[i];
        if !e.published && e.id in ids {
          entries := entries[i := e.(published := true, publishedAt := Some(now))];
        }
      }
    }
  }

  /** The ids a pass ships: the fetched batch up to the first refusal. */
  function ShippedIds(entries: seq<Entry>, batchSize: nat, accepts: nat -> bool): seq<int> {
    var ids := EntryIds(Fetch(entries, batchSize));
    ids[..Shipped(accepts, |ids|)]
  }

  /** `OutboxRelay::drain`: publish in order until the first refusal, then mark what was shipped. */
  method Drain(outbox: InMemoryOutbox, batchSize: nat, accepts: nat -> bool, now: int)
    returns (count: nat, published: seq<int>)
    modifies outbox
    ensures published == ShippedIds(old(outbox.entries), batchSize, accepts) && count == |published|
    ensures outbox.entries == Mark(old(outbox.entries), published, now)
  {
    var fetched := outbox.FetchUnpublished(batchSize);
    ghost var ids := EntryIds(fetched);
    published := [];
    var i := 0;
    while i < |fetched|
      invariant 0 <= i <= |fetched|
      invariant published == ids[..i]
      invariant forall k: nat :: k < i ==> accepts(k)
    {
      if !accepts(i) { break; }
      published := published + [fetched[i].id];
      i := i + 1;
    }
    ShippedIs(accepts, |fetched|, i);
    if published != [] {
      outbox.MarkPublished(published, now);
    } else {
      assert Mark(outbox.entries, published, now) == outbox.entries;
    }
    count := |published|;
  }

  lemma ShippedIs(accepts: nat -> bool, n: nat, i: nat)
    requires i <= n && (forall k: nat :: k < i ==> accepts(k)) && (i < n ==> !accepts(i))
    ensures Shipped(accepts, n) == i
  {
    var k := Shipped(accepts, n);
    assert k >= i && k <= i;
  }

  // --- A lone relay with a healthy publisher -------------------------------

  ghost predicate DistinctIds(entries: seq<Entry>) {
    forall i, j :: 0 <= i < j < |entries| ==> entries[i].id != entries[j].id
  }

  /** One pass in which every publish and the marking succeed. */
  function HealthyPass(entries: seq<Entry>, batchSize: nat, now: int): seq<Entry> {
    Mark(entries, EntryIds(Fetch(entries, batchSize)), now)
  }

  /** That is what a pass does when no publish is refused. */
  lemma UnrefusedPassIsHealthy(entries: seq<Entry>, batchSize: nat, accepts: nat -> bool, now: int)
    requires forall i: nat :: i < |Fetch(entries, batchSize)| ==> accepts(i)
    ensures Mark(entries, ShippedIds(entries, batchSize, accepts), now) == HealthyPass(entries, batchSize, now)
  {
    var ids := EntryIds(Fetch(entries, batchSize));
    ShippedIs(accepts, |ids|, |ids|);
    assert ids[..|ids|] == ids;
  }

  ghost predicate PassAt(states: seq<seq<Entry>>, batchSize: nat, times: seq<int>, p: nat) {
    p < |times| && p + 1 < |states| && states[p + 1] == HealthyPass(states[p], batchSize, times[p])
  }

  /** `states` are the outbox before, between and after healthy passes at `times`. */
  ghost predicate HealthyPasses(states: seq<seq<Entry>>, batchSize: nat, times: seq<int>) {
    |states| == |times| + 1 && forall p :: 0 <= p < |times| ==> PassAt(states, batchSize, times, p)
  }

  function Backlog(entries: seq<Entry>): nat { |Unpublished(entries)| }

  ghost function Waiting(entries: seq<Entry>): set<int> {
    set e | e in entries && !e.published :: e.id
  }

  lemma {:induction false} BacklogIsWaiting(entries: seq<Entry>)
    requires DistinctIds(entries)
    ensures Backlog(entries) == |Waiting(entries)|
  {
    if entries != [] {
      var n := |entries| - 1;
      var last := entries[n];
      BacklogIsWaiting(entries[..n]);
      assert entries == entries[..n] + [last];
      if last.published {
        assert Waiting(entries) == Waiting(entries[..n]);
      } else {
        assert last.id !in Waiting(entries[..n]);
        assert Waiting(entries) == Waiting(entries[..n]) + {last.id};
      }
    }
  }

  ghost function IdSet(ids: seq<int>): set<int> { set id | id in ids }

  lemma {:induction false} IdSetCount(ids: seq<int>)
    requires forall i, j :: 0 <= i < j < |ids| ==> ids[i] != ids[j]
    ensures |IdSet(ids)| == |ids|
  {
    if ids != [] {
      var n := |ids| - 1;
      IdSetCount(ids[..n]);
      assert ids == ids[..n] + [ids[n]];
      assert IdSet(ids) == IdSet(ids[..n]) + {ids[n]};
    }
  }

  lemma {:induction false} UnpublishedDistinct(entries: seq<Entry>)
    requires DistinctIds(entries)
    ensures DistinctIds(Unpublished(entries))
  {
    if entries != [] {
      var n := |entries| - 1;
      var before := Unpublished(entries[..n]);
      UnpublishedDistinct(entries[..n]);
      forall i | 0 <= i < |before| ensures before[i].id != entries[n].id {
        UnpublishedMember(entries[..n], before[i]);
      }
    }
  }

  /** Two entries with one id in a multiset of distinct ids are one occurrence. */
  lemma SameMultisetDistinct(s: seq<Entry>, r: seq<Entry>)
    requires DistinctIds(s) && multiset(r) == multiset(s)
    ensures DistinctIds(r)
  {
    forall i, j | 0 <= i < j < |r| ensures r[i].id != r[j].id {
      if r[i].id == r[j].id {
        var x, y := r[i], r[j];
        assert x in multiset(r) && y in multiset(r);
        assert x in s && y in s;
        var a :| 0 <= a < |s| && s[a] == x;
        var b :| 0 <= b < |s| && s[b] == y;
        assert a == b;
        TwiceInside(r, i, j);
        OnceInside(s, a);
        assert false;
      }
    }
  }

  lemma TwiceInside(r: seq<Entry>, i: nat, j: nat)
    requires i < j < |r| && r[i] == r[j]
    ensures multiset(r)[r[i]] >= 2
  {
    assert r == r[..i + 1] + r[i + 1..];
    assert r[i] in multiset(r[..i + 1]) && r[j] in multiset(r[i + 1..]) by {
      assert r[..i + 1][i] == r[i] && r[i + 1..][j - i - 1] == r[j];
    }
  }

  lemma OnceInside(s: seq<Entry>, a: nat)
    requires DistinctIds(s) && a < |s|
    ensures multiset(s)[s[a]] == 1
  {
    assert s == s[..a] + [s[a]] + s[a + 1..];
    assert s[a] !in s[..a] && s[a] !in s[a + 1..];
  }

  lemma FetchDistinct(entries: seq<Entry>, limit: nat)
    requires DistinctIds(entries)
    ensures DistinctIds(Fetch(entries, limit)) && SortedById(Fetch(entries, limit))
    ensures |Fetch(entries, limit)| == if limit < Backlog(entries) then limit else Backlog(entries)
  {
    UnpublishedDistinct(entries);
    SortIsSortedPermutation(Unpublished(entries));
    SameMultisetDistinct(Unpublished(entries), SortById(Unpublished(entries)));
  }

  lemma FetchedWait(entries: seq<Entry>, limit: nat)
    ensures IdSet(EntryIds(Fetch(entries, limit))) <= Waiting(entries)
  {
    var fetched := Fetch(entries, limit);
    forall id | id in EntryIds(fetched) ensures id in Waiting(entries) {
      var i :| 0 <= i < |fetched| && EntryIds(fetched)[i] == id;
      FetchedIsUnpublished(entries, limit, i);
    }
  }

  lemma WaitingAfterMark(entries: seq<Entry>, ids: seq<int>, now: int)
    ensures Waiting(Mark(entries, ids, now)) == Waiting(entries) - IdSet(ids)
  {
    var after := Mark(entries, ids, now);
    forall id ensures id in Waiting(after) <==> id in Waiting(entries) && id !in IdSet(ids) {
      if id in Waiting(after) {
        var i :| 0 <= i < |after| && !after[i].published && after[i].id == id;
        assert entries[i] == after[i] && entries[i] in entries;
      }
      if id in Waiting(entries) && id !in IdSet(ids) {
        var i :| 0 <= i < |entries| && !entries[i].published && entries[i].id == id;
        assert after[i] == entries[i] && after[i] in after;
      }
    }
  }

  /** What is left of `n` after `k` are taken. */
  function Left(n: nat, k: nat): nat { if k < n then n - k else 0 }

  /** A healthy pass ships one batch of the backlog. */
  lemma PassShipsBatch(entries: seq<Entry>, batchSize: nat, now: int)
    requires DistinctIds(entries)
    ensures DistinctIds(HealthyPass(entries, batchSize, now))
    ensures Backlog(HealthyPass(entries, batchSize, now)) == Left(Backlog(entries), batchSize)
  {
    MarkKeepsDistinct(entries, EntryIds(Fetch(entries, batchSize)), now);
    FetchDistinct(entries, batchSize);
    PassLeavesWaiting(entries, batchSize, now);
    BacklogIsWaiting(entries);
    BacklogIsWaiting(HealthyPass(entries, batchSize, now));
  }

  lemma MarkKeepsDistinct(entries: seq<Entry>, ids: seq<int>, now: int)
    requires DistinctIds(entries)
    ensures DistinctIds(Mark(entries, ids, now))
  {
  }

  lemma PassLeavesWaiting(entries: seq<Entry>, batchSize: nat, now: int)
    requires DistinctIds(Fetch(entries, batchSize))
    ensures |Waiting(HealthyPass(entries, batchSize, now))| == |Waiting(entries)| - |Fetch(entries, batchSize)|
  {
    var ids := EntryIds(Fetch(entries, batchSize));
    FetchedWait(entries, batchSize);
    WaitingAfterMark(entries, ids, now);
    IdSetCount(ids);
  }

  /** After `p` healthy passes the backlog is `n - p * batch`, floored at zero. */
  lemma {:induction false} PassesShip(states: seq<seq<Entry>>, batchSize: nat, times: seq<int>, p: nat)
    requires HealthyPasses(states, batchSize, times) && p <= |times|
    requires DistinctIds(states[0])
    ensures DistinctIds(states[p]) && Backlog(states[p]) == Left(Backlog(states[0]), p * batchSize)
  {
    if p > 0 {
      PassesShip(states, batchSize, times, p - 1);
      assert PassAt(states, batchSize, times, p - 1);
      PassShipsBatch(states[p - 1], batchSize, times[p - 1]);
      LeftTwice(Backlog(states[0]), batchSize, p);
    }
  }

  lemma LeftTwice(n: nat, b: nat, p: nat)
    requires p >= 1
    ensures Left(Left(n, (p - 1) * b), b) == Left(n, p * b)
  {
    assert p * b == (p - 1) * b + b;
    assert (p - 1) * b >= 0;
  }

  /** `n` entries are emptied by exactly ceil(n / batch) passes and no fewer. */
  lemma EmptiedInCeilPasses(states: seq<seq<Entry>>, batchSize: nat, times: seq<int>, p: nat)
    requires HealthyPasses(states, batchSize, times) && p <= |times|
    requires DistinctIds(states[0]) && batchSize >= 1
    ensures Backlog(states[p]) == 0 <==> p >= (Backlog(states[0]) + batchSize - 1) / batchSize
  {
    PassesShip(states, batchSize, times, p);
    CeilDivision(Backlog(states[0]), batchSize, p);
  }

  lemma CeilDivision(n: nat, b: nat, p: nat)
    requires b >= 1
    ensures p * b >= n <==> p >= (n + b - 1) / b
  {
    var q := (n + b - 1) / b;
    assert n + b - 1 == q * b + (n + b - 1) % b;
    if p >= q { MulMonotone(q, p, b); } else { MulMonotone(p + 1, q, b); }
  }
}
