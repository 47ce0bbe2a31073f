/**
 Dotted keys: inserting at a dotted path, expanding a flat map into a tree, and
 looking dotted keys up again.
 */
module ConfigKeys {
  import opened Ordering
  import opened Text
  import opened ConfigTree

  function Segments(key: string): (path: seq<string>)
    ensures path != []
  {
    Split(key, '.')
  }

  /** The tree whose only content is `v` at `path`. */
  function Nest(path: seq<string>, v: Value): Value {
    if path == [] then v else Object(map[path[0] := Nest(path[1..], v)])
  }

  // --- Insertion -----------------------------------------------------------

  /** `target` with `value` inserted at the dotted `path`, making objects on the way. */
  function InsertNested(target: Value, path: string, value: Value): (r: Value)
    ensures r.Object?
    decreases |path|
  {
    var fields := FieldsOf(target);
    match SplitOnce(path, '.')
    case None => Object(fields[path := Merge(if path in fields then fields[path] else Null, value)])
    case Some((head, tail)) =>
      Object(fields[head := InsertNested(if head in fields then fields[head] else Object(map[]), tail, value)])
  }

  function FieldsOf(v: Value): map<string, Value> {
    if v.Object? then v.fields else map[]
  }

  /** Merging a one-key object sets or merges that key. */
  lemma MergeOneKey(target: Value, key: string, child: Value)
    ensures var fields := FieldsOf(target);
      Merge(target, Object(map[key := child]))
      == Object(fields[key := if key in fields then Merge(fields[key], child) else child])
  {
    var fields := FieldsOf(target);
    assert Merge(target, Object(map[key := child])).fields
      == fields[key := if key in fields then Merge(fields[key], child) else child];
  }

  lemma SegmentsOf(path: string)
    ensures match SplitOnce(path, '.')
      case None => Segments(path) == [path]
      case Some((head, tail)) => Segments(path) == [head] + Segments(tail)
  {
  }

  lemma NestStep(head: string, rest: seq<string>, v: Value)
    ensures Nest([head] + rest, v) == Object(map[head := Nest(rest, v)])
  {
    assert ([head] + rest)[1..] == rest;
  }

  /** Dotted insertion is a deep merge of the single-path tree. */
  lemma {:induction false} InsertIsMerge(target: Value, path: string, value: Value)
    ensures InsertNested(target, path, value) == Merge(target, Nest(Segments(path), value))
    decreases |path|
  {
    SegmentsOf(path);
    match SplitOnce(path, '.')
    case None =>
      NestStep(path, [], value);
      MergeOneKey(target, path, value);
    case Some((head, tail)) =>
      var fields := FieldsOf(target);
      var child := if head in fields then fields[head] else Object(map[]);
      InsertIsMerge(child, tail, value);
      EmptyUnderNest(tail, value);
      NestStep(head, Segments(tail), value);
      MergeOneKey(target, head, Nest(Segments(tail), value));
  }

  lemma EmptyUnderNest(path: string, value: Value)
    ensures Merge(Object(map[]), Nest(Segments(path), value)) == Nest(Segments(path), value)
  {
    EmptyIsIdentity(Nest(Segments(path), value).fields);
  }

  method InsertAt(target: Value, path: string, value: Value) returns (r: Value)
    ensures r == InsertNested(target, path, value)
    decreases |path|
  {
    var fields := FieldsOf(target);
    match SplitOnce(path, '.') {
      case None =>
        if path !in fields { fields := fields[path := Null]; }
        var merged := MergeValue(fields[path], value);
        fields := fields[path := merged];
      case Some((head, tail)) =>
        if head !in fields { fields := fields[head := Object(map[])]; }
        var child := InsertAt(fields[head], tail, value);
        fields := fields[head := child];
    }
    r := Object(fields);
  }

  // --- Expansion -----------------------------------------------------------

  /** The keys of `flat` in byte order, as a `BTreeMap` yields them. */
  function KeyOrder(flat: map<string, Value>): (keys: seq<string>)
    ensures Ascending(LexLess, keys)
    ensures forall k :: k in keys <==> k in flat
    ensures |keys| == |flat.Keys|
  {
    LexIsStrictTotalOrder();
    Enumerate(LexLess, flat.Keys)
  }

  /** The single-path trees of the first `n` keys, merged in order. */
  function MergedPaths(flat: map<string, Value>, keys: seq<string>, n: nat): (r: Value)
    requires n <= |keys| && forall k :: k in keys ==> k in flat
    ensures r.Object?
  {
    if n == 0 then Object(map[])
    else Merge(MergedPaths(flat, keys, n - 1), Nest(Segments(keys[n - 1]), flat[keys[n - 1]]))
  }

  function Expanded(flat: map<string, Value>): map<string, Value> {
    MergedPaths(flat, KeyOrder(flat), |KeyOrder(flat)|).fields
  }

  class ConfigMap {
    var values: map<string, Value>

    constructor (initial: map<string, Value>)
      ensures values == initial
    {
      values := initial;
    }

    method MergeWith(other: map<string, Value>)
      modifies this
      ensures Object(values) == Merge(Object(old(values)), Object(other))
    {
      values := MergeFields(values, other);
    }

    method ExpandDotted()
      modifies this
      ensures values == Expanded(old(values))
    {
      values := InsertKeys(values, KeyOrder(values));
    }

    static method InsertKeys(flat: map<string, Value>, keys: seq<string>) returns (root: map<string, Value>)
      requires forall k :: k in keys ==> k in flat
      ensures Object(root) == MergedPaths(flat, keys, |keys|)
    {
      root := map[];
      for n := 0 to |keys|
        invariant Object(root) == MergedPaths(flat, keys, n)
      {
        root := InsertKey(root, keys[n], flat[keys[n]]);
      }
    }

    static method InsertKey(was: map<string, Value>, key: string, value: Value) returns (root: map<string, Value>)
      ensures Object(root) == InsertNested(Object(was), key, value)
      ensures Object(root) == Merge(Object(was), Nest(Segments(key), value))
    {
      InsertIsMerge(Object(was), key, value);
      match SplitOnce(key, '.') {
        case None =>
          var merged := MergeValue(if key in was then was[key] else Null, value);
          root := was[key := merged];
        case Some((head, tail)) =>
          var child := InsertAt(if head in was then was[head] else Object(map[]), tail, value);
          root := was[head := child];
      }
    }
  }

  predicate Undotted(flat: map<string, Value>) {
    forall k :: k in flat ==> '.' !in k
  }

  lemma {:induction false} PathsAreUndotted(flat: map<string, Value>, keys: seq<string>, n: nat)
    requires n <= |keys| && forall k :: k in keys ==> k in flat
    ensures Undotted(MergedPaths(flat, keys, n).fields)
  {
    if n > 0 {
      PathsAreUndotted(flat, keys, n - 1);
      assert Segments(keys[n - 1])[0] in Segments(keys[n - 1]);
    }
  }

  /** Restricting to undotted keys, the merged paths are the map itself. */
  lemma {:induction false} UndottedPaths(flat: map<string, Value>, keys: seq<string>, n: nat)
    requires n <= |keys| && (forall k :: k in keys ==> k in flat) && Undotted(flat)
    ensures MergedPaths(flat, keys, n).fields == map k | k in flat && k in keys[..n] :: flat[k]
  {
    if n > 0 {
      UndottedPaths(flat, keys, n - 1);
      var key := keys[n - 1];
      assert keys[..n] == keys[..n - 1] + [key];
      assert Segments(key) == [key] && Nest([], flat[key]) == flat[key];
      assert Nest(Segments(key), flat[key]) == Object(map[key := flat[key]]);
      SelfMerge(flat[key]);
    }
  }

  /** Expansion leaves exactly the undotted maps alone, and always yields one. */
  lemma ExpansionFixesUndotted(flat: map<string, Value>)
    ensures Undotted(Expanded(flat))
    ensures Expanded(flat) == flat <==> Undotted(flat)
  {
    var keys := KeyOrder(flat);
    PathsAreUndotted(flat, keys, |keys|);
    if Undotted(flat) {
      UndottedPaths(flat, keys, |keys|);
      assert keys[..|keys|] == keys;
    }
  }

  lemma ExpansionIsIdempotent(flat: map<string, Value>)
    ensures Expanded(Expanded(flat)) == Expanded(flat)
  {
    ExpansionFixesUndotted(flat);
    ExpansionFixesUndotted(Expanded(flat));
  }

  // --- Lookup --------------------------------------------------------------

  function GetNested(v: Value, path: string): Option<Value>
    decreases |path|
  {
    match SplitOnce(path, '.')
    case None => if v.Object? && path in v.fields then Some(v.fields[path]) else None
    case Some((head, tail)) =>
      if v.Object? && head in v.fields then GetNested(v.fields[head], tail) else None
  }

  /** The exact key if present at the top, else the value its segments lead to. */
  function GetRaw(values: map<string, Value>, key: string): Option<Value> {
    if key in values then Some(values[key])
    else
      match SplitOnce(key, '.')
      case None => None
      case Some((head, tail)) => if head in values then GetNested(values[head], tail) else None
  }

  lemma {:induction false} GetNestedWalks(v: Value, path: string)
    ensures GetNested(v, path) == Walk(v, Segments(path))
    decreases |path|
  {
    match SplitOnce(path, '.')
    case None =>
    case Some((head, tail)) =>
      assert Segments(path)[1..] == Segments(tail);
      if v.Object? && head in v.fields { GetNestedWalks(v.fields[head], tail); }
  }

  /** Lookup answers the exact key if the top level has it, else walks the segments. */
  lemma GetRawWalks(values: map<string, Value>, key: string)
    ensures GetRaw(values, key) == if key in values then Some(values[key]) else Walk(Object(values), Segments(key))
    ensures Undotted(values) ==> GetRaw(values, key) == Walk(Object(values), Segments(key))
  {
    GetNestedWalks(Object(values), key);
    assert '.' !in key ==> Segments(key) == [key] && Segments(key)[1..] == [];
  }

  function JoinDotted(path: seq<string>): string
    requires path != []
  {
    if |path| == 1 then path[0] else path[0] + "." + JoinDotted(path[1..])
  }

  /** A key's segments hold no dot and join back to the key. */
  lemma {:induction false} SegmentsJoin(key: string)
    ensures JoinDotted(Segments(key)) == key && forall i :: 0 <= i < |Segments(key)| ==> '.' !in Segments(key)[i]
    decreases |key|
  {
    SegmentsOf(key);
    match SplitOnce(key, '.')
    case None =>
    case Some((head, tail)) =>
      SegmentsJoin(tail);
      assert Segments(key)[1..] == Segments(tail);
  }

  // --- Expansion and lookup ------------------------------------------------

  /** `p` leads to an ancestor of what `q` leads to. */
  predicate Above(p: seq<string>, q: seq<string>) {
    |p| < |q| && q[..|p|] == p
  }

  lemma {:induction false} WalkConcat(v: Value, p: seq<string>, q: seq<string>)
    ensures Walk(v, p + q) == (match Walk(v, p) case None => None case Some(w) => Walk(w, q))
  {
    if p == [] {
      assert p + q == q;
    } else {
      assert (p + q)[1..] == p[1..] + q && (p + q)[0] == p[0];
      if v.Object? && p[0] in v.fields { WalkConcat(v.fields[p[0]], p[1..], q); }
    }
  }

  /** Merging a value in at a path that holds it already changes nothing. */
  lemma {:induction false} MergeHeld(t: Value, path: seq<string>, v: Value)
    requires Walk(t, path) == Some(v)
    ensures Merge(t, Nest(path, v)) == t
  {
    if path == [] {
      SelfMerge(v);
    } else {
      MergeHeld(t.fields[path[0]], path[1..], v);
      assert Merge(t, Nest(path, v)).fields == t.fields;
    }
  }

  /** Merging a value in at a path that held nothing puts exactly it there. */
  lemma {:induction false} MergeNew(t: Value, path: seq<string>, v: Value)
    requires Walk(t, path).None?
    ensures Walk(Merge(t, Nest(path, v)), path) == Some(v)
  {
    if t.Object? && path[0] in t.fields {
      MergeNew(t.fields[path[0]], path[1..], v);
    } else {
      WalkNest(path, v);
    }
  }

  lemma {:induction false} WalkNest(path: seq<string>, v: Value)
    ensures Walk(Nest(path, v), path) == Some(v)
  {
    if path != [] { WalkNest(path[1..], v); }
  }

  /** A merge at `path` does not touch a path that is neither above nor below it. */
  lemma {:induction false} MergeElsewhere(t: Value, path: seq<string>, v: Value, other: seq<string>)
    requires !IsPrefix(path, other) && !IsPrefix(other, path)
    requires Walk(t, other).Some?
    ensures Walk(Merge(t, Nest(path, v)), other) == Walk(t, other)
  {
    if path[0] == other[0] {
      assert path == [path[0]] + path[1..] && other == [other[0]] + other[1..];
      MergeElsewhere(t.fields[path[0]], path[1..], v, other[1..]);
    }
  }

  /** Merging below a path merges into what the path holds. */
  lemma {:induction false} MergeBelow(t: Value, path: seq<string>, rest: seq<string>, v: Value)
    requires Walk(t, path).Some?
    ensures Walk(Merge(t, Nest(path + rest, v)), path) == Some(Merge(Walk(t, path).value, Nest(rest, v)))
  {
    if path == [] {
      assert path + rest == rest;
    } else {
      assert (path + rest)[1..] == path[1..] + rest && (path + rest)[0] == path[0];
      MergeBelow(t.fields[path[0]], path[1..], rest, v);
    }
  }

  lemma {:induction false} SegmentsInjective(p: string, q: string)
    requires Segments(p) == Segments(q)
    ensures p == q
    decreases |p|
  {
    SegmentsOf(p);
    SegmentsOf(q);
    var sp, sq := SplitOnce(p, '.'), SplitOnce(q, '.');
    assert Segments(p)[0] == Segments(q)[0] && |Segments(p)| == |Segments(q)|;
    if sp.Some? && sq.Some? {
      assert Segments(p)[1..] == Segments(sp.value.1) && Segments(q)[1..] == Segments(sq.value.1);
      SegmentsInjective(sp.value.1, sq.value.1);
    }
  }

  /** A key above another is expanded before it. */
  lemma {:induction false} AboveIsEarlier(p: string, q: string)
    requires Above(Segments(p), Segments(q))
    ensures LexLess(p, q)
    decreases |p|
  {
    SegmentsOf(p);
    SegmentsOf(q);
    var sp, sq := SplitOnce(p, '.'), SplitOnce(q, '.');
    assert Segments(p)[0] == Segments(q)[0];
    var head, tail := sq.value.0, sq.value.1;
    assert q == (head + ".") + tail;
    if sp.None? {
      assert q == p + ("." + tail);
      LexExtension(p, "." + tail);
    } else {
      assert p == (head + ".") + sp.value.1;
      assert Segments(q)[1..] == Segments(tail) && Segments(p)[1..] == Segments(sp.value.1);
      assert Segments(q)[..|Segments(p)|][1..] == Segments(q)[1..][..|Segments(p)| - 1];
      AboveIsEarlier(sp.value.1, tail);
      LexConcat(head + ".", sp.value.1, head + ".", tail);
    }
  }

  /** Where one key lies above another, its value holds the other's already. */
  ghost predicate LongerKeysHeld(flat: map<string, Value>) {
    forall p, q :: p in flat && q in flat && Above(Segments(p), Segments(q)) ==>
      Walk(flat[p], Segments(q)[|Segments(p)|..]) == Some(flat[q])
  }

  ghost predicate Found(flat: map<string, Value>, tree: Value, key: string) {
    key in flat && Walk(tree, Segments(key)) == Some(flat[key])
  }

  predicate Related(p: seq<string>, q: seq<string>) {
    IsPrefix(p, q) || IsPrefix(q, p)
  }

  /** What the first `n` keys put at a path came from a key on the same line. */
  lemma {:induction false} PathOrigin(flat: map<string, Value>, keys: seq<string>, n: nat, path: seq<string>)
    requires n <= |keys| && (forall k :: k in keys ==> k in flat) && path != []
    requires Walk(MergedPaths(flat, keys, n), path).Some?
    ensures exists i :: 0 <= i < n && Related(Segments(keys[i]), path)
  {
    if n > 0 && !Related(Segments(keys[n - 1]), path) {
      var before, key := MergedPaths(flat, keys, n - 1), keys[n - 1];
      if Walk(before, path).None? {
        MergeLeavesMissing(before, Segments(key), flat[key], path);
      }
      PathOrigin(flat, keys, n - 1, path);
    }
  }

  lemma {:induction false} MergeLeavesMissing(t: Value, path: seq<string>, v: Value, other: seq<string>)
    requires !Related(path, other) && Walk(t, other).None?
    ensures Walk(Merge(t, Nest(path, v)), other).None?
  {
    if path[0] == other[0] {
      assert path == [path[0]] + path[1..] && other == [other[0]] + other[1..];
      if t.Object? && path[0] in t.fields {
        MergeLeavesMissing(t.fields[path[0]], path[1..], v, other[1..]);
      } else {
        NestElsewhere(path[1..], v, other[1..]);
      }
    }
  }

  lemma {:induction false} NestElsewhere(path: seq<string>, v: Value, other: seq<string>)
    requires !Related(path, other)
    ensures Walk(Nest(path, v), other).None?
  {
    if path[0] == other[0] {
      assert path == [path[0]] + path[1..] && other == [other[0]] + other[1..];
      NestElsewhere(path[1..], v, other[1..]);
    }
  }

  /** Keys expanded earlier are unrelated to a later key or above it. */
  lemma EarlierKey(keys: seq<string>, i: nat, n: nat)
    requires Ascending(LexLess, keys) && i < n < |keys|
    requires Related(Segments(keys[i]), Segments(keys[n]))
    ensures Above(Segments(keys[i]), Segments(keys[n]))
  {
    var p, q := Segments(keys[i]), Segments(keys[n]);
    assert LexLess(keys[i], keys[n]);
    LexConnected(keys[i], keys[i]);
    if |p| == |q| {
      SegmentsInjective(keys[i], keys[n]);
    } else if IsPrefix(q, p) {
      AboveIsEarlier(keys[n], keys[i]);
      LexTransitive(keys[i], keys[n], keys[i]);
    }
  }

  /** Expanding the next key keeps every earlier key found. */
  lemma EarlierStaysFound(flat: map<string, Value>, keys: seq<string>, i: nat, n: nat)
    requires n < |keys| && (forall k :: k in keys ==> k in flat)
    requires Ascending(LexLess, keys) && LongerKeysHeld(flat) && i < n
    requires Found(flat, MergedPaths(flat, keys, n), keys[i])
    ensures Found(flat, MergedPaths(flat, keys, n + 1), keys[i])
  {
    var tree, key := MergedPaths(flat, keys, n), keys[n];
    var p, q := Segments(keys[i]), Segments(key);
    if Related(p, q) {
      EarlierKey(keys, i, n);
      var rest := q[|p|..];
      assert q == p + rest;
      MergeBelow(tree, p, rest, flat[key]);
      MergeHeld(flat[keys[i]], rest, flat[key]);
    } else {
      MergeElsewhere(tree, q, flat[key], p);
    }
  }

  lemma {:induction false} NextIsFound(flat: map<string, Value>, keys: seq<string>, n: nat)
    requires n < |keys| && (forall k :: k in keys ==> k in flat)
    requires Ascending(LexLess, keys) && LongerKeysHeld(flat)
    ensures Found(flat, MergedPaths(flat, keys, n + 1), keys[n])
    decreases n, 1
  {
    var tree, key := MergedPaths(flat, keys, n), keys[n];
    var q := Segments(key);
    if Walk(tree, q).None? {
      MergeNew(tree, q, flat[key]);
    } else {
      PathOrigin(flat, keys, n, q);
      var i :| 0 <= i < n && Related(Segments(keys[i]), q);
      EarlierKey(keys, i, n);
      AllFound(flat, keys, i, n);
      FoundBelow(flat, tree, keys[i], key);
      MergeHeld(tree, q, flat[key]);
    }
  }

  /** A key below one that is found is found with it. */
  lemma FoundBelow(flat: map<string, Value>, tree: Value, p: string, q: string)
    requires LongerKeysHeld(flat) && q in flat && Above(Segments(p), Segments(q))
    requires Found(flat, tree, p)
    ensures Found(flat, tree, q)
  {
    var rest := Segments(q)[|Segments(p)|..];
    WalkConcat(tree, Segments(p), rest);
    assert Segments(q) == Segments(p) + rest;
  }

  /** Each of the first `n` keys is found once they are expanded. */
  lemma {:induction false} AllFound(flat: map<string, Value>, keys: seq<string>, i: nat, n: nat)
    requires i < n <= |keys| && (forall k :: k in keys ==> k in flat)
    requires Ascending(LexLess, keys) && LongerKeysHeld(flat)
    ensures Found(flat, MergedPaths(flat, keys, n), keys[i])
    decreases n, 0
  {
    if i < n - 1 {
      AllFound(flat, keys, i, n - 1);
      EarlierStaysFound(flat, keys, i, n - 1);
    } else {
      NextIsFound(flat, keys, i);
    }
  }

  /** Every key of `flat` looks up to its own value in the expanded map. */
  ghost predicate LookupRecovers(flat: map<string, Value>) {
    forall key :: key in flat ==> GetRaw(Expanded(flat), key) == Some(flat[key])
  }

  lemma ExpandedLookup(flat: map<string, Value>, key: string)
    requires key in flat
    ensures GetRaw(Expanded(flat), key) == Some(flat[key]) <==> Found(flat, Object(Expanded(flat)), key)
  {
    ExpansionFixesUndotted(flat);
    GetRawWalks(Expanded(flat), key);
  }

  lemma HeldIsRecovered(flat: map<string, Value>)
    requires LongerKeysHeld(flat)
    ensures LookupRecovers(flat)
  {
    var keys := KeyOrder(flat);
    forall key | key in flat ensures GetRaw(Expanded(flat), key) == Some(flat[key]) {
      var i :| 0 <= i < |keys| && keys[i] == key;
      AllFound(flat, keys, i, |keys|);
      ExpandedLookup(flat, key);
    }
  }

  lemma RecoveredIsHeld(flat: map<string, Value>, p: string, q: string)
    requires LookupRecovers(flat) && p in flat && q in flat && Above(Segments(p), Segments(q))
    ensures Walk(flat[p], Segments(q)[|Segments(p)|..]) == Some(flat[q])
  {
    var rest := Segments(q)[|Segments(p)|..];
    assert Segments(q) == Segments(p) + rest;
    WalkConcat(Object(Expanded(flat)), Segments(p), rest);
    ExpandedLookup(flat, p);
    ExpandedLookup(flat, q);
  }

  /** After expansion every original key looks up to its value, exactly when each
      key above another already holds the other's value. */
  lemma LookupUndoesExpansion(flat: map<string, Value>)
    ensures LookupRecovers(flat) <==> LongerKeysHeld(flat)
  {
    if LongerKeysHeld(flat) { HeldIsRecovered(flat); }
    if LookupRecovers(flat) {
      forall p, q | p in flat && q in flat && Above(Segments(p), Segments(q))
        ensures Walk(flat[p], Segments(q)[|Segments(p)|..]) == Some(flat[q])
      {
        RecoveredIsHeld(flat, p, q);
      }
    }
  }

  /** `a` and `a.b`: expanding the longer key replaces what the shorter one held. */
  lemma ShadowedKeyIsLost()
    ensures !LookupRecovers(map["a" := Number(1), "a.b" := Number(2)])
  {
    var flat := map["a" := Number(1), "a.b" := Number(2)];
    assert Segments("a") == ["a"];
    assert "a.b" == "a" + ['.'] + "b";
    SplitOnceJoin("a", '.', "b");
    assert Segments("b") == ["b"];
    assert Segments("a.b") == ["a", "b"];
    assert Above(Segments("a"), Segments("a.b"));
    assert !LongerKeysHeld(flat) by {
      assert Walk(flat["a"], Segments("a.b")[1..]).None?;
    }
    LookupUndoesExpansion(flat);
  }

  /** So when no key's segments begin another's, every key is found again. */
  lemma PrefixFreeKeysAreFound(flat: map<string, Value>)
    requires forall p, q :: p in flat && q in flat ==> !Above(Segments(p), Segments(q))
    ensures LookupRecovers(flat)
  {
    LookupUndoesExpansion(flat);
  }
}
