/** Configuration trees: deep merge, its algebra, and resolution of provider layers. */
module ConfigTree {
  import opened Text

  /** A JSON value; numbers are opaque to every operation here. */
  datatype Value =
    | Null
    | Bool(flag: bool)
    | Number(number: int)
    | String(text: string)
    | Array(items: seq<Value>)
    | Object(fields: map<string, Value>)

  // --- Deep merge ----------------------------------------------------------

  /** `overlay` on top of `base`: objects key by key, anything else replaces. */
  function Merge(base: Value, overlay: Value): Value
    decreases overlay
  {
    if base.Object? && overlay.Object? then
      Object(map k | k in base.fields.Keys + overlay.fields.Keys ::
        if k !in overlay.fields then base.fields[k]
        else if k !in base.fields then overlay.fields[k]
        else Merge(base.fields[k], overlay.fields[k]))
    else overlay
  }

  /** The merged fields once the overlay keys in `done` have been visited. */
  function MergedSoFar(base: map<string, Value>, overlay: map<string, Value>, done: set<string>): map<string, Value> {
    map k | k in base.Keys + (done * overlay.Keys) ::
      if k !in done || k !in overlay then base[k]
      else if k !in base then overlay[k]
      else Merge(base[k], overlay[k])
  }

  /** Visiting one more overlay key merges or inserts it. */
  lemma OneMoreMerged(base: map<string, Value>, overlay: map<string, Value>, done: set<string>, key: string)
    requires key in overlay && key !in done
    ensures var before := MergedSoFar(base, overlay, done);
      && (key in before <==> key in base) && (key in base ==> before[key] == base[key])
      && MergedSoFar(base, overlay, done + {key})
        == before[key := if key in base then Merge(base[key], overlay[key]) else overlay[key]]
  {
  }

  method MergeValue(base: Value, overlay: Value) returns (merged: Value)
    ensures merged == Merge(base, overlay)
    decreases overlay, 1
  {
    if base.Object? && overlay.Object? {
      var fields := MergeFields(base.fields, overlay.fields);
      merged := Object(fields);
    } else {
      merged := overlay;
    }
  }

  /** Visits the overlay's keys one by one, in any order. */
  method MergeFields(base: map<string, Value>, overlay: map<string, Value>) returns (fields: map<string, Value>)
    ensures Object(fields) == Merge(Object(base), Object(overlay))
    decreases Object(overlay), 0
  {
    fields := base;
    var todo := overlay.Keys;
    while todo != {}
      invariant todo <= overlay.Keys
      invariant fields == MergedSoFar(base, overlay, overlay.Keys - todo)
    {
      var key :| key in todo;
      OneMoreMerged(base, overlay, overlay.Keys - todo, key);
      assert overlay.Keys - (todo - {key}) == (overlay.Keys - todo) + {key};
      var value := overlay[key];
      if key in fields {
        value := MergeValue(fields[key], value);
      }
      fields := fields[key := value];
      todo := todo - {key};
    }
  }

  /** An empty layer changes nothing, above or below. */
  lemma EmptyIsIdentity(a: map<string, Value>)
    ensures Merge(Object(a), Object(map[])) == Object(a)
    ensures Merge(Object(map[]), Object(a)) == Object(a)
  {
    assert Merge(Object(a), Object(map[])).fields == a;
    assert Merge(Object(map[]), Object(a)).fields == a;
  }

  /** `upper` already decides everything that `lower` says. */
  ghost predicate Covers(upper: Value, lower: Value)
    decreases upper
  {
    (upper.Object? && lower.Object?) ==>
      forall k :: k in lower.fields ==> k in upper.fields && Covers(upper.fields[k], lower.fields[k])
  }

  /** Merging over a layer that the overlay covers leaves the overlay. */
  lemma {:induction false} CoversIffAbsorbs(upper: Value, lower: Value)
    ensures Covers(upper, lower) <==> Merge(lower, upper) == upper
    decreases upper
  {
    if upper.Object? && lower.Object? {
      var merged := Merge(lower, upper);
      forall k | k in lower.fields && k in upper.fields
        ensures Covers(upper.fields[k], lower.fields[k]) <==> merged.fields[k] == upper.fields[k]
      {
        CoversIffAbsorbs(upper.fields[k], lower.fields[k]);
      }
      if Covers(upper, lower) {
        assert merged.fields == upper.fields;
      } else {
        var k :| k in lower.fields && !(k in upper.fields && Covers(upper.fields[k], lower.fields[k]));
        assert k in merged.fields;
        assert merged.fields != upper.fields;
      }
    }
  }

  /** A merge result covers its overlay, and every tree covers itself. */
  lemma {:induction false} MergedCovers(base: Value, overlay: Value)
    ensures Covers(overlay, overlay)
    ensures Covers(Merge(base, overlay), overlay)
    decreases overlay
  {
    if overlay.Object? {
      forall k | k in overlay.fields
        ensures Covers(overlay.fields[k], overlay.fields[k])
        ensures base.Object? && k in base.fields ==> Covers(Merge(base.fields[k], overlay.fields[k]), overlay.fields[k])
      {
        MergedCovers(if base.Object? && k in base.fields then base.fields[k] else Null, overlay.fields[k]);
      }
    }
  }

  lemma SelfMerge(a: Value)
    ensures Merge(a, a) == a
  {
    MergedCovers(a, a);
    CoversIffAbsorbs(a, a);
  }

  /** Applying a layer twice is applying it once. */
  lemma {:induction false} MergeIsIdempotent(base: Value, overlay: Value)
    ensures Merge(Merge(base, overlay), overlay) == Merge(base, overlay)
    decreases overlay
  {
    if base.Object? && overlay.Object? {
      var once := Merge(base, overlay);
      forall k | k in overlay.fields ensures Merge(once.fields[k], overlay.fields[k]) == once.fields[k] {
        if k in base.fields {
          MergeIsIdempotent(base.fields[k], overlay.fields[k]);
        } else {
          SelfMerge(overlay.fields[k]);
        }
      }
      assert Merge(once, overlay).fields == once.fields;
    } else {
      SelfMerge(overlay);
    }
  }

  // --- Associativity -------------------------------------------------------

  /** Wherever the middle layer hides an object of the first and the third brings
      an object back, the third covers the first. */
  ghost predicate RevivalsCovered(a: Value, b: Value, c: Value)
    decreases c
  {
    (a.Object? && c.Object?) ==>
      if b.Object? then
        forall k :: k in a.fields && k in b.fields && k in c.fields ==> RevivalsCovered(a.fields[k], b.fields[k], c.fields[k])
      else Covers(c, a)
  }

  /** Three layers may be grouped either way exactly when revivals are covered. */
  lemma {:induction false} AssociativeIffRevivalsCovered(a: Value, b: Value, c: Value)
    ensures Merge(Merge(a, b), c) == Merge(a, Merge(b, c)) <==> RevivalsCovered(a, b, c)
    decreases c
  {
    if a.Object? && c.Object? {
      if b.Object? {
        FieldwiseAssociative(a, b, c);
      } else {
        CoversIffAbsorbs(c, a);
      }
    }
  }

  lemma {:induction false} FieldwiseAssociative(a: Value, b: Value, c: Value)
    requires a.Object? && b.Object? && c.Object?
    ensures Merge(Merge(a, b), c) == Merge(a, Merge(b, c)) <==> RevivalsCovered(a, b, c)
    decreases c, 0
  {
    var left, right := Merge(Merge(a, b), c), Merge(a, Merge(b, c));
    forall k | k in left.fields
      ensures left.fields[k] == right.fields[k]
        <==> (k in a.fields && k in b.fields && k in c.fields ==> RevivalsCovered(a.fields[k], b.fields[k], c.fields[k]))
    {
      if k in a.fields && k in b.fields && k in c.fields {
        AssociativeIffRevivalsCovered(a.fields[k], b.fields[k], c.fields[k]);
      }
    }
    assert left.fields.Keys == right.fields.Keys;
    if RevivalsCovered(a, b, c) {
      assert left.fields == right.fields;
    } else {
      var k :| k in a.fields && k in b.fields && k in c.fields && !RevivalsCovered(a.fields[k], b.fields[k], c.fields[k]);
      assert left.fields[k] != right.fields[k];
    }
  }

  /** An object, then a scalar, then another object: the first object's keys come
      back under one grouping only. */
  lemma RevivalBreaksAssociativity(x: string, y: string)
    requires x != y
    ensures var a, b, c := Object(map[x := Null]), Bool(true), Object(map[y := Null]);
      Merge(Merge(a, b), c) == c && x in Merge(a, Merge(b, c)).fields
  {
  }

  // --- Paths ---------------------------------------------------------------

  /** The value that `path` leads to. */
  function Walk(v: Value, path: seq<string>): Option<Value> {
    if path == [] then Some(v)
    else if v.Object? && path[0] in v.fields then Walk(v.fields[path[0]], path[1..])
    else None
  }

  /** What a merge holds at a path comes from one of its sides. */
  lemma {:induction false} MergeOrigin(a: Value, b: Value, path: seq<string>)
    requires Walk(Merge(a, b), path).Some?
    ensures var v := Walk(Merge(a, b), path).value;
      if v.Object? then
        || (Walk(a, path).Some? && Walk(a, path).value.Object?)
        || (Walk(b, path).Some? && Walk(b, path).value.Object?)
      else
        Walk(a, path) == Some(v) || Walk(b, path) == Some(v)
  {
    if path != [] && a.Object? && b.Object? && path[0] in a.fields && path[0] in b.fields {
      MergeOrigin(a.fields[path[0]], b.fields[path[0]], path[1..]);
    }
  }

  /** Wherever the overlay holds something other than an object, it wins. */
  lemma {:induction false} OverlayWins(a: Value, b: Value, path: seq<string>)
    requires Walk(b, path).Some? && !Walk(b, path).value.Object?
    ensures Walk(Merge(a, b), path) == Walk(b, path)
  {
    if path != [] && a.Object? && path[0] in a.fields { OverlayWins(a.fields[path[0]], b.fields[path[0]], path[1..]); }
  }

  /** On the way along `path` the overlay ends at a missing key, not at a value. */
  predicate Silent(b: Value, path: seq<string>) {
    path != [] && b.Object? && (path[0] in b.fields ==> Silent(b.fields[path[0]], path[1..]))
  }

  /** Where the overlay says nothing the base shows through. */
  lemma {:induction false} BaseShowsThrough(a: Value, b: Value, path: seq<string>)
    requires Silent(b, path)
    ensures Walk(Merge(a, b), path) == Walk(a, path)
  {
    if a.Object? {
      if path[0] in a.fields && path[0] in b.fields {
        BaseShowsThrough(a.fields[path[0]], b.fields[path[0]], path[1..]);
      } else if path[0] in b.fields {
        SilentIsMissing(b.fields[path[0]], path[1..]);
      }
    } else {
      SilentIsMissing(b, path);
    }
  }

  lemma {:induction false} SilentIsMissing(b: Value, path: seq<string>)
    requires Silent(b, path)
    ensures Walk(b, path).None?
  {
    if path[0] in b.fields { SilentIsMissing(b.fields[path[0]], path[1..]); }
  }

  predicate ObjectAt(v: Value, path: seq<string>) {
    Walk(v, path).Some? && Walk(v, path).value.Object?
  }

  predicate ScalarAt(v: Value, path: seq<string>) {
    Walk(v, path).Some? && !Walk(v, path).value.Object?
  }

  /** `path` holds an object, then a non-object, then an object. */
  predicate RevivedAt(a: Value, b: Value, c: Value, path: seq<string>) {
    ObjectAt(a, path) && ScalarAt(b, path) && ObjectAt(c, path)
  }

  lemma {:induction false} NoRevivalIsCovered(a: Value, b: Value, c: Value)
    requires forall path :: !RevivedAt(a, b, c, path)
    ensures RevivalsCovered(a, b, c)
    decreases c
  {
    if a.Object? && c.Object? {
      assert !RevivedAt(a, b, c, []);
      forall k | b.Object? && k in a.fields && k in b.fields && k in c.fields
        ensures RevivalsCovered(a.fields[k], b.fields[k], c.fields[k])
      {
        forall path ensures !RevivedAt(a.fields[k], b.fields[k], c.fields[k], path) {
          assert ([k] + path)[1..] == path;
          assert !RevivedAt(a, b, c, [k] + path);
        }
        NoRevivalIsCovered(a.fields[k], b.fields[k], c.fields[k]);
      }
    }
  }

  // --- Layered resolution --------------------------------------------------

  /** The layers merged in order, starting from nothing. */
  function Resolve(layers: seq<map<string, Value>>): (r: Value)
    ensures r.Object?
  {
    if layers == [] then Object(map[])
    else Merge(Resolve(layers[..|layers| - 1]), Object(layers[|layers| - 1]))
  }

  /** Loads the providers in order and merges what they return; the first provider
      that fails ends the resolution. */
  method ResolveProviders(loads: seq<Option<map<string, Value>>>) returns (r: Option<map<string, Value>>)
    ensures r.None? <==> exists i :: 0 <= i < |loads| && loads[i].None?
    ensures r.Some? ==> Object(r.value) == Resolve(seq(|loads|, i requires 0 <= i < |loads| => FieldsLoaded(loads[i])))
  {
    ghost var layers := seq(|loads|, i requires 0 <= i < |loads| => FieldsLoaded(loads[i]));
    var acc: map<string, Value> := map[];
    for n := 0 to |loads|
      invariant forall i :: 0 <= i < n ==> loads[i].Some?
      invariant Object(acc) == Resolve(layers[..n])
    {
      if loads[n].None? { return None; }
      assert layers[..n + 1][..n] == layers[..n];
      acc := MergeFields(acc, loads[n].value);
    }
    assert layers[..|loads|] == layers;
    r := Some(acc);
  }

  function FieldsLoaded(load: Option<map<string, Value>>): map<string, Value> {
    if load.Some? then load.value else map[]
  }

  /** A later provider overrides an earlier one: what a layer holds at a path, the
      later ones being silent there, is what resolution holds. */
  lemma {:induction false} LastLayerWins(layers: seq<map<string, Value>>, i: nat, path: seq<string>)
    requires i < |layers| && ScalarAt(Object(layers[i]), path)
    requires forall j :: i < j < |layers| ==> Silent(Object(layers[j]), path)
    ensures Walk(Resolve(layers), path) == Walk(Object(layers[i]), path)
    decreases |layers|
  {
    var last := |layers| - 1;
    var before := layers[..last];
    if i == last {
      OverlayWins(Resolve(before), Object(layers[last]), path);
    } else {
      LastLayerWins(before, i, path);
      BaseShowsThrough(Resolve(before), Object(layers[last]), path);
    }
  }

  /** A way of bracketing layers into merged groups. */
  datatype Grouping = Layer(tree: map<string, Value>) | Merged(lower: Grouping, upper: Grouping)

  function Flatten(g: Grouping): seq<map<string, Value>> {
    match g
    case Layer(tree) => [tree]
    case Merged(lower, upper) => Flatten(lower) + Flatten(upper)
  }

  function Evaluate(g: Grouping): (r: Value)
    ensures r.Object?
  {
    match g
    case Layer(tree) => Object(tree)
    case Merged(lower, upper) => Merge(Evaluate(lower), Evaluate(upper))
  }

  /** No path holds an object, later a non-object, and later an object again. */
  ghost predicate NoRevival(layers: seq<map<string, Value>>) {
    forall i, j, k, path :: 0 <= i < j < k < |layers| ==>
      !RevivedAt(Object(layers[i]), Object(layers[j]), Object(layers[k]), path)
  }

  /** Whatever resolution holds at a path, some layer put it there. */
  lemma {:induction false} ResolveOrigin(layers: seq<map<string, Value>>, path: seq<string>)
    ensures ObjectAt(Resolve(layers), path) && path != [] ==> exists i :: 0 <= i < |layers| && ObjectAt(Object(layers[i]), path)
    ensures ScalarAt(Resolve(layers), path) ==> exists i :: 0 <= i < |layers| && ScalarAt(Object(layers[i]), path)
  {
    if layers != [] && Walk(Resolve(layers), path).Some? {
      var last := |layers| - 1;
      var before := layers[..last];
      MergeOrigin(Resolve(before), Object(layers[last]), path);
      ResolveOrigin(before, path);
      if ObjectAt(Resolve(layers), path) && path != [] && !ObjectAt(Object(layers[last]), path) {
        var i :| 0 <= i < |before| && ObjectAt(Object(before[i]), path);
        assert layers[i] == before[i];
      }
      if ScalarAt(Resolve(layers), path) && !ScalarAt(Object(layers[last]), path) {
        var i :| 0 <= i < |before| && ScalarAt(Object(before[i]), path);
        assert layers[i] == before[i];
      }
    }
  }

  /** Without revivals, resolving two runs of layers separately changes nothing. */
  lemma {:induction false} ResolveSplits(lower: seq<map<string, Value>>, upper: seq<map<string, Value>>)
    requires NoRevival(lower + upper)
    ensures Resolve(lower + upper) == Merge(Resolve(lower), Resolve(upper))
    decreases |upper|
  {
    var all := lower + upper;
    if upper == [] {
      assert all == lower;
      EmptyIsIdentity(Resolve(lower).fields);
    } else {
      var last := |upper| - 1;
      var a, b, c := Resolve(lower), Resolve(upper[..last]), Object(upper[last]);
      assert all[..|all| - 1] == lower + upper[..last];
      NoRevivalPrefix(lower + upper[..last], all);
      ResolveSplits(lower, upper[..last]);
      forall path ensures !RevivedAt(a, b, c, path) {
        if RevivedAt(a, b, c, path) { SplitRevival(lower, upper, path); }
      }
      NoRevivalIsCovered(a, b, c);
      AssociativeIffRevivalsCovered(a, b, c);
    }
  }

  lemma NoRevivalPrefix(part: seq<map<string, Value>>, all: seq<map<string, Value>>)
    requires NoRevival(all) && IsPrefix(part, all)
    ensures NoRevival(part)
  {
    forall i, j, k, path | 0 <= i < j < k < |part|
      ensures !RevivedAt(Object(part[i]), Object(part[j]), Object(part[k]), path)
    {
      assert part[i] == all[i] && part[j] == all[j] && part[k] == all[k];
    }
  }

  /** A revival between resolved runs is a revival between three layers. */
  lemma SplitRevival(lower: seq<map<string, Value>>, upper: seq<map<string, Value>>, path: seq<string>)
    requires upper != []
    requires RevivedAt(Resolve(lower), Resolve(upper[..|upper| - 1]), Object(upper[|upper| - 1]), path)
    ensures !NoRevival(lower + upper)
  {
    var all, last := lower + upper, |upper| - 1;
    ResolveOrigin(lower, path);
    ResolveOrigin(upper[..last], path);
    var i :| 0 <= i < |lower| && ObjectAt(Object(lower[i]), path);
    var j :| 0 <= j < last && ScalarAt(Object(upper[..last][j]), path);
    assert all[i] == lower[i] && all[|lower| + j] == upper[..last][j] && all[|lower| + last] == upper[last];
    assert RevivedAt(Object(all[i]), Object(all[|lower| + j]), Object(all[|lower| + last]), path);
  }

  lemma NoRevivalSuffix(part: seq<map<string, Value>>, before: seq<map<string, Value>>)
    requires NoRevival(before + part)
    ensures NoRevival(part)
  {
    var all := before + part;
    forall i, j, k, path | 0 <= i < j < k < |part|
      ensures !RevivedAt(Object(part[i]), Object(part[j]), Object(part[k]), path)
    {
      var n := |before|;
      assert part[i] == all[n + i] && part[j] == all[n + j] && part[k] == all[n + k];
    }
  }

  /** Layers without revivals resolve alike however they are grouped. */
  lemma {:induction false} GroupingIsIrrelevant(g: Grouping)
    requires NoRevival(Flatten(g))
    ensures Evaluate(g) == Resolve(Flatten(g))
  {
    match g
    case Layer(tree) =>
      assert Flatten(g)[..0] == [];
      EmptyIsIdentity(tree);
    case Merged(lower, upper) =>
      NoRevivalPrefix(Flatten(lower), Flatten(g));
      NoRevivalSuffix(Flatten(upper), Flatten(lower));
      GroupingIsIrrelevant(lower);
      GroupingIsIrrelevant(upper);
      ResolveSplits(Flatten(lower), Flatten(upper));
  }
}
