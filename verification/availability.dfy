// Which releases ship a component: the index a registry publishes, and the walk over its schemas that it stands in for.
//
// A component is a key (its kind and type together), a schema is the set of keys it lists.
module Availability {
  import opened Spans

  datatype Option<+T> = None | Some(value: T)

  function At<K, T>(m: map<K, seq<T>>, k: K): seq<T> {
    if k in m then m[k] else []
  }

  // What a store with one location serves: the releases it lists, the schemas that load, and the availability index it
  // publishes, if any.
  datatype Store<!V, K> = Store(
    order: Order<V>, listed: seq<V>, schemas: map<V, set<K>>, published: Option<map<K, seq<Span<V>>>>, remote: bool)

  const WALK_LIMIT := 12

  ghost function ShippedIn<V, K>(versions: seq<V>, schemas: map<V, set<K>>, k: K): set<V> {
    set v | v in versions && v in schemas && k in schemas[v]
  }

  ghost function KeysOf<V, K>(versions: seq<V>, schemas: map<V, set<K>>): set<K> {
    set v, k | v in versions && v in schemas && k in schemas[v] :: k
  }

  // What spansIn builds: every component some release lists, with its spans.
  ghost predicate IsIndexOf<V(!new), K(!new)>(o: Order<V>, versions: seq<V>, schemas: map<V, set<K>>,
                                             out: map<K, seq<Span<V>>>) {
    && out.Keys == KeysOf(versions, schemas)
    && forall k | k in out :: out[k] == SpansOver(o, OldestFirst(o, versions), ShippedIn(versions, schemas, k))
  }

  // The releases seen so far to ship each component.
  ghost predicate Records<V, K(!new)>(present: map<K, set<V>>, versions: seq<V>, schemas: map<V, set<K>>) {
    && present.Keys == KeysOf(versions, schemas)
    && forall k | k in present :: present[k] == ShippedIn(versions, schemas, k)
  }

  // spansIn: fails when a listed release has no schema, and otherwise compresses what every schema lists.
  method SpansIn<V(==,!new), K(==,!new)>(o: Order<V>, versions: seq<V>, schemas: map<V, set<K>>)
    returns (r: Option<map<K, seq<Span<V>>>>)
    ensures r.Some? <==> forall v | v in versions :: v in schemas
    ensures r.Some? ==> IsIndexOf(o, versions, schemas, r.value)
  {
    var present: map<K, set<V>> := map[];
    for i := 0 to |versions|
      invariant forall v | v in versions[..i] :: v in schemas
      invariant Records(present, versions[..i], schemas)
    {
      assert versions[..i + 1] == versions[..i] + [versions[i]];
      if versions[i] !in schemas {
        assert versions[i] in versions;
        return None;
      }
      present := Record(present, versions[..i], versions[i], schemas);
    }
    assert versions[..|versions|] == versions;
    var out: map<K, seq<Span<V>>> := map[];
    var keys := present.Keys;
    while keys != {}
      invariant keys <= present.Keys && out.Keys == present.Keys - keys
      invariant forall k | k in out :: out[k] == SpansOver(o, OldestFirst(o, versions), present[k])
      decreases keys
    {
      var k :| k in keys;
      var spans := SpansOf(o, versions, present[k]);
      out := out[k := spans];
      keys := keys - {k};
    }
    r := Some(out);
  }

  // One turn of the first loop of spansIn.
  method Record<V(==,!new), K(==,!new)>(present: map<K, set<V>>, ghost before: seq<V>, v: V, schemas: map<V, set<K>>)
    returns (more: map<K, set<V>>)
    requires v in schemas && Records(present, before, schemas)
    ensures Records(more, before + [v], schemas)
  {
    more := present;
    var keys := schemas[v];
    ghost var done: set<K> := {};
    while keys != {}
      invariant keys + done == schemas[v] && keys !! done
      invariant more.Keys == present.Keys + done
      invariant forall k | k in more ::
                  more[k] == (if k in present then present[k] else {}) + (if k in done then {v} else {})
      decreases keys
    {
      var k :| k in keys;
      more := more[k := (if k in more then more[k] else {}) + {v}];
      keys, done := keys - {k}, done + {k};
    }
    assert done == schemas[v];
    RecordedOneMore(present, more, before, v, schemas);
  }

  lemma RecordedOneMore<V, K(!new)>(present: map<K, set<V>>, more: map<K, set<V>>, before: seq<V>, v: V,
                                   schemas: map<V, set<K>>)
    requires v in schemas && Records(present, before, schemas)
    requires more.Keys == present.Keys + schemas[v]
    requires forall k | k in more ::
               more[k] == (if k in present then present[k] else {}) + (if k in schemas[v] then {v} else {})
    ensures Records(more, before + [v], schemas)
  {
    assert KeysOf(before + [v], schemas) == KeysOf(before, schemas) + schemas[v];
    forall k | k in more
      ensures more[k] == ShippedIn(before + [v], schemas, k)
    {
      assert ShippedIn(before + [v], schemas, k) == ShippedIn(before, schemas, k) +
               (if k in schemas[v] then {v} else {});
      assert k !in present ==> ShippedIn(before, schemas, k) == {};
    }
  }

  // Expand: the index read against the releases served now.
  method Expand<V(==,!new), K(==,!new)>(o: Order<V>, index: map<K, seq<Span<V>>>, releases: seq<V>)
    returns (out: map<K, seq<V>>)
    ensures out.Keys == index.Keys
    ensures forall k | k in out ::
              out[k] == Filter(OldestFirst(o, releases), CoveredSet(o, index[k], OldestFirst(o, releases)))
  {
    var ordered := OldestFirst(o, releases);
    out := map[];
    var keys := index.Keys;
    while keys != {}
      invariant keys <= index.Keys && out.Keys == index.Keys - keys
      invariant forall k | k in out :: out[k] == Filter(ordered, CoveredSet(o, index[k], ordered))
      decreases keys
    {
      var k :| k in keys;
      var versions := Covered(o, index[k], ordered);
      out := out[k := versions];
      keys := keys - {k};
    }
  }

  function Reversed<T>(xs: seq<T>): (r: seq<T>)
    ensures |r| == |xs| && forall i | 0 <= i < |xs| :: r[i] == xs[|xs| - 1 - i]
  {
    if xs == [] then [] else Reversed(xs[1..]) + [xs[0]]
  }

  // Store.Versions: each named release once, newest first.
  function Once<V(==)>(o: Order<V>, vs: seq<V>, seen: set<V>): seq<V> {
    if vs == [] then []
    else if vs[0] != o.none && vs[0] !in seen then [vs[0]] + Once(o, vs[1..], seen + {vs[0]})
    else Once(o, vs[1..], seen)
  }

  function NewestFirst<V(==,!new)>(o: Order<V>, vs: seq<V>): seq<V> {
    Reversed(OldestFirst(o, Once(o, vs, {})))
  }

  // The releases a walk reads.
  function Walked<V(==,!new), K>(s: Store<V, K>): seq<V> {
    var versions := NewestFirst(s.order, s.listed);
    if s.remote && |versions| > WALK_LIMIT then versions[..WALK_LIMIT] else versions
  }

  ghost function FailedIn<V, K>(vs: seq<V>, schemas: map<V, set<K>>): nat {
    if vs == [] then 0 else (if vs[0] in schemas then 0 else 1) + FailedIn(vs[1..], schemas)
  }

  ghost function LoadedWith<V(!new), K(!new)>(vs: seq<V>, schemas: map<V, set<K>>, k: K): seq<V> {
    if vs == [] then []
    else (if vs[0] in schemas && k in schemas[vs[0]] then [vs[0]] else []) + LoadedWith(vs[1..], schemas, k)
  }

  // The two answers for a component.

  ghost function PublishedAnswer<V(!new), K(!new)>(s: Store<V, K>, k: K): seq<V>
    requires s.published.Some?
  {
    var ordered := OldestFirst(s.order, s.listed);
    if k in s.published.value then Filter(ordered, CoveredSet(s.order, s.published.value[k], ordered)) else []
  }

  // The walk keeps quiet when at least half of what it read failed.
  ghost function WalkAnswer<V(!new), K(!new)>(s: Store<V, K>, k: K): seq<V> {
    var oldest := Reversed(Walked(s));
    if 2 * FailedIn(oldest, s.schemas) >= |oldest| then [] else LoadedWith(oldest, s.schemas, k)
  }

  ghost function Answer<V(!new), K(!new)>(s: Store<V, K>, k: K): seq<V> {
    if s.published.Some? then PublishedAnswer(s, k) else WalkAnswer(s, k)
  }

  class VersionIndex<V(==,!new), K(==,!new)> {
    const store: Store<V, K>
    var ready: bool
    var byKey: map<K, seq<V>>

    constructor (store: Store<V, K>)
      ensures this.store == store && !ready && Valid()
    {
      this.store := store;
      ready, byKey := false, map[];
    }

    // Once built, the index holds the answer for every component.
    ghost predicate Valid()
      reads this
    {
      ready ==> forall k :: At(byKey, k) == Answer(store, k)
    }

    // Versions. The flags say whether the asking run is cancelled before the call and by the end of any build in it,
    // and `seen` is the store as that run sees it: requests of a cancelled run fail, each for itself, so its view may
    // lack the published index, releases or schemas. A map built from such a view is never answered from.
    method Versions(k: K, cancelled: bool, cancelledAfter: bool, seen: Store<V, K>) returns (versions: seq<V>)
      requires Valid() && (cancelled ==> cancelledAfter) && (!cancelledAfter ==> seen == store)
      modifies this
      ensures Valid()
      ensures versions == if cancelled || !ready then [] else Answer(store, k)
      ensures ready <==> old(ready) || !cancelledAfter
      ensures old(ready) || cancelled ==> byKey == old(byKey)
      ensures !old(ready) && !cancelled ==> forall x :: At(byKey, x) == Answer(seen, x)
    {
      if cancelled {
        return [];
      }
      if !ready {
        Build(seen);
        ready := !cancelledAfter;
      }
      if !ready {
        return [];
      }
      return At(byKey, k);
    }

    method Build(seen: Store<V, K>)
      modifies this`byKey
      ensures forall k :: At(byKey, k) == Answer(seen, k)
    {
      byKey := map[];
      var found := Published(seen);
      if found {
        return;
      }
      Walk(seen);
    }

    method Published(seen: Store<V, K>) returns (found: bool)
      requires byKey == map[]
      modifies this`byKey
      ensures found <==> seen.published.Some?
      ensures found ==> forall k :: At(byKey, k) == PublishedAnswer(seen, k)
      ensures !found ==> byKey == map[]
    {
      if seen.published.None? {
        return false;
      }
      byKey := Expand(seen.order, seen.published.value, seen.listed);
      return true;
    }

    method Walk(seen: Store<V, K>)
      requires byKey == map[]
      modifies this`byKey
      ensures forall k :: At(byKey, k) == WalkAnswer(seen, k)
    {
      var versions := Walked(seen);
      ghost var oldest := Reversed(versions);
      var failed := 0;
      assert oldest[..0] == [];
      for i := 0 to |versions|
        invariant failed == FailedIn(oldest[..i], seen.schemas)
        invariant Gathered(byKey, oldest[..i], seen.schemas)
      {
        var version := versions[|versions| - 1 - i];
        assert oldest[..i + 1] == oldest[..i] + [version];
        FailedSnoc(oldest[..i], version, seen.schemas);
        var loaded := Read(version, seen.schemas, oldest[..i]);
        if !loaded {
          failed := failed + 1;
        }
      }
      assert oldest[..|versions|] == oldest;
      if failed * 2 >= |versions| {
        byKey := map[];
      }
    }

    // One turn of walk, on the release after those gathered so far.
    method Read(version: V, schemas: map<V, set<K>>, ghost before: seq<V>) returns (loaded: bool)
      requires Gathered(byKey, before, schemas)
      modifies this`byKey
      ensures loaded <==> version in schemas
      ensures Gathered(byKey, before + [version], schemas)
    {
      loaded := version in schemas;
      if loaded {
        AppendTo(schemas[version], version);
      }
      forall k
        ensures At(byKey, k) == LoadedWith(before + [version], schemas, k)
      {
        LoadedSnoc(before, version, schemas, k);
      }
    }

    // The inner loop of walk: the release is added to each component its schema lists.
    method AppendTo(keys: set<K>, version: V)
      modifies this`byKey
      ensures forall k :: At(byKey, k) == old(At(byKey, k)) + if k in keys then [version] else []
    {
      var todo := keys;
      while todo != {}
        invariant todo <= keys
        invariant forall k :: At(byKey, k) == old(At(byKey, k)) + if k in keys - todo then [version] else []
        decreases todo
      {
        var k :| k in todo;
        byKey := byKey[k := At(byKey, k) + [version]];
        todo := todo - {k};
      }
    }
  }

  ghost predicate Gathered<V(!new), K(!new)>(byKey: map<K, seq<V>>, vs: seq<V>, schemas: map<V, set<K>>) {
    forall k :: At(byKey, k) == LoadedWith(vs, schemas, k)
  }

  lemma {:induction false} FailedSnoc<V(!new), K(!new)>(vs: seq<V>, v: V, schemas: map<V, set<K>>)
    ensures FailedIn(vs + [v], schemas) == FailedIn(vs, schemas) + if v in schemas then 0 else 1
  {
    if vs != [] {
      assert (vs + [v])[1..] == vs[1..] + [v];
      FailedSnoc(vs[1..], v, schemas);
    }
  }

  lemma {:induction false} LoadedSnoc<V(!new), K(!new)>(vs: seq<V>, v: V, schemas: map<V, set<K>>, k: K)
    ensures LoadedWith(vs + [v], schemas, k) ==
            LoadedWith(vs, schemas, k) + if v in schemas && k in schemas[v] then [v] else []
  {
    if vs != [] {
      assert (vs + [v])[1..] == vs[1..] + [v];
      LoadedSnoc(vs[1..], v, schemas, k);
    }
  }

  // Agreement.

  // The releases that have names; the walk reads no other.
  ghost function WithNames<V(!new)>(o: Order<V>, vs: seq<V>): seq<V> {
    if vs == [] then [] else (if vs[0] != o.none then [vs[0]] else []) + WithNames(o, vs[1..])
  }

  lemma {:induction false} NamesIn<V(!new)>(o: Order<V>, vs: seq<V>)
    ensures forall v :: v in WithNames(o, vs) <==> v in vs && v != o.none
  {
    if vs != [] {
      assert vs == [vs[0]] + vs[1..];
      NamesIn(o, vs[1..]);
    }
  }

  lemma {:induction false} NamesAscend<V(!new)>(o: Order<V>, vs: seq<V>)
    requires Ascending(o, vs)
    ensures Ascending(o, WithNames(o, vs))
  {
    if vs != [] {
      var rest := WithNames(o, vs[1..]);
      assert forall i | 0 <= i < |vs[1..]| :: vs[1..][i] == vs[i + 1];
      NamesAscend(o, vs[1..]);
      NamesIn(o, vs[1..]);
      forall j | 0 <= j < |rest|
        ensures o.cmp(vs[0], rest[j]) < 0
      {
        assert rest[j] in vs[1..];
        var k :| 0 <= k < |vs[1..]| && vs[1..][k] == rest[j];
      }
    }
  }

  lemma {:induction false} NamesDiffer<V(!new)>(o: Order<V>, vs: seq<V>)
    requires Distinct(o, vs)
    ensures Distinct(o, WithNames(o, vs))
  {
    if vs != [] {
      var rest := WithNames(o, vs[1..]);
      assert forall i | 0 <= i < |vs[1..]| :: vs[1..][i] == vs[i + 1];
      NamesDiffer(o, vs[1..]);
      NamesIn(o, vs[1..]);
      forall j | 0 <= j < |rest|
        ensures o.cmp(vs[0], rest[j]) != 0
      {
        assert rest[j] in vs[1..];
        var k :| 0 <= k < |vs[1..]| && vs[1..][k] == rest[j];
      }
    }
  }

  lemma {:induction false} OnceKeepsNames<V(!new)>(o: Order<V>, vs: seq<V>, seen: set<V>)
    requires IsOrder(o) && Distinct(o, vs)
    requires forall v | v in vs :: v !in seen
    ensures Once(o, vs, seen) == WithNames(o, vs)
  {
    if vs != [] {
      assert vs == [vs[0]] + vs[1..];
      assert o.cmp(vs[0], vs[0]) == 0;
      assert forall i | 0 <= i < |vs[1..]| :: vs[1..][i] == vs[i + 1];
      OnceKeepsNames(o, vs[1..], if vs[0] != o.none then seen + {vs[0]} else seen);
    }
  }

  lemma NamesSort<V(!new)>(o: Order<V>, vs: seq<V>)
    requires IsOrder(o) && Distinct(o, vs)
    ensures OldestFirst(o, WithNames(o, vs)) == WithNames(o, OldestFirst(o, vs))
  {
    var names := WithNames(o, vs);
    NamesIn(o, vs);
    NamesDiffer(o, vs);
    OldestFirstKeeps(o, vs);
    OldestFirstKeeps(o, names);
    DistinctAscends(o, vs);
    DistinctAscends(o, names);
    NamesIn(o, OldestFirst(o, vs));
    NamesAscend(o, OldestFirst(o, vs));
    AscendingIsUnique(o, OldestFirst(o, names), WithNames(o, OldestFirst(o, vs)));
  }

  lemma ReversedTwice<T>(xs: seq<T>)
    ensures Reversed(Reversed(xs)) == xs
  {
  }

  lemma {:induction false} LoadedIsFilter<V(!new), K(!new)>(vs: seq<V>, schemas: map<V, set<K>>, k: K, shipped: set<V>)
    requires forall v | v in vs :: v in schemas && (v in shipped <==> k in schemas[v])
    ensures FailedIn(vs, schemas) == 0 && LoadedWith(vs, schemas, k) == Filter(vs, shipped)
  {
    if vs != [] {
      assert vs[0] in vs;
      LoadedIsFilter(vs[1..], schemas, k, shipped);
    }
  }

  lemma {:induction false} FilterOfNames<V(!new)>(o: Order<V>, vs: seq<V>, shipped: set<V>)
    ensures Filter(WithNames(o, vs), shipped) == Filter(vs, shipped - {o.none})
  {
    if vs != [] {
      var rest := WithNames(o, vs[1..]);
      FilterOfNames(o, vs[1..], shipped);
      if vs[0] == o.none {
        assert WithNames(o, vs) == rest;
      } else {
        assert WithNames(o, vs)[0] == vs[0] && WithNames(o, vs)[1..] == rest;
      }
    }
  }

  lemma {:induction false} FilterIn<V(!new)>(vs: seq<V>, p: set<V>, v: V)
    ensures v in Filter(vs, p) <==> v in vs && v in p
  {
    if vs != [] {
      assert vs == [vs[0]] + vs[1..];
      FilterIn(vs[1..], p, v);
    }
  }

  // What is asked of the registry: local, every listed release loads, and no two compare equal.
  ghost predicate IsLocal<V(!new), K(!new)>(s: Store<V, K>) {
    && IsOrder(s.order) && !s.remote && Distinct(s.order, s.listed)
    && (forall v | v in s.listed :: v in s.schemas)
    && s.published.Some? && IsIndexOf(s.order, s.listed, s.schemas, s.published.value)
  }

  // The published index and the walk over the schemas answer the same for a component exactly when no release without a
  // name ships it: the walk leaves such a release out, and the index does not.
  lemma {:induction false} AnswersAgree<V(!new), K(!new)>(s: Store<V, K>, k: K)
    requires IsLocal(s)
    ensures PublishedAnswer(s, k) == WalkAnswer(s, k) <==> s.order.none !in ShippedIn(s.listed, s.schemas, k)
  {
    var ordered := OldestFirst(s.order, s.listed);
    var shipped := ShippedIn(s.listed, s.schemas, k);
    WalkIsShipped(s, k);
    FilterIn(ordered, shipped - {s.order.none}, s.order.none);
    if s.order.none in shipped {
      PublishedHolds(s, k, s.order.none);
    } else {
      PublishedIsShipped(s, k);
      assert shipped - {s.order.none} == shipped;
    }
  }

  // For every component at once: when nothing is shipped by a release without a name.
  lemma {:induction false} CollectorAnswersAgree<K(!new)>(s: Store<string, K>)
    requires s.order == VERSIONS && IsLocal(s)
    ensures (forall k :: PublishedAnswer(s, k) == WalkAnswer(s, k)) <==> ("" in s.listed ==> s.schemas[""] == {})
  {
    forall k
      ensures PublishedAnswer(s, k) == WalkAnswer(s, k) <==> !("" in s.listed && k in s.schemas[""])
    {
      AnswersAgree(s, k);
    }
    if "" in s.listed && s.schemas[""] != {} {
      var k :| k in s.schemas[""];
      assert PublishedAnswer(s, k) != WalkAnswer(s, k);
    }
  }

  // A release without a name that ships nothing is no end of a run, so nothing is lost.
  lemma PublishedIsShipped<V(!new), K(!new)>(s: Store<V, K>, k: K)
    requires IsLocal(s) && s.order.none !in ShippedIn(s.listed, s.schemas, k)
    ensures PublishedAnswer(s, k) == Filter(OldestFirst(s.order, s.listed), ShippedIn(s.listed, s.schemas, k))
  {
    var ordered := OldestFirst(s.order, s.listed);
    var shipped := ShippedIn(s.listed, s.schemas, k);
    OldestFirstKeeps(s.order, s.listed);
    DistinctAscends(s.order, s.listed);
    if k in s.published.value {
      ExactUnlessOpenEarly(s.order, ordered, shipped);
      forall v | v in ordered
        ensures v in CoveredSet(s.order, s.published.value[k], ordered) <==> v in shipped
      {
        var i :| 0 <= i < |ordered| && ordered[i] == v;
      }
      SameFilter(ordered, CoveredSet(s.order, s.published.value[k], ordered), shipped);
    } else {
      NothingShipped(s, k, ordered, shipped);
    }
  }

  lemma PublishedHolds<V(!new), K(!new)>(s: Store<V, K>, k: K, v: V)
    requires IsLocal(s) && v in ShippedIn(s.listed, s.schemas, k)
    ensures v in PublishedAnswer(s, k)
  {
    var ordered := OldestFirst(s.order, s.listed);
    var shipped := ShippedIn(s.listed, s.schemas, k);
    var marks := Marks(ordered, shipped);
    OldestFirstKeeps(s.order, s.listed);
    DistinctAscends(s.order, s.listed);
    RunsAreCanonical(marks, 0);
    SpansAreOpenLast(s.order, ordered, shipped);
    var j :| 0 <= j < |ordered| && ordered[j] == v;
    RunsCover(s.order, ordered, marks, Runs(marks, 0), 0, j);
    assert k in KeysOf(s.listed, s.schemas);
    FilterIn(ordered, CoveredSet(s.order, s.published.value[k], ordered), v);
  }

  lemma WalkIsShipped<V(!new), K(!new)>(s: Store<V, K>, k: K)
    requires IsLocal(s)
    ensures WalkAnswer(s, k) ==
            Filter(OldestFirst(s.order, s.listed), ShippedIn(s.listed, s.schemas, k) - {s.order.none})
  {
    var ordered := OldestFirst(s.order, s.listed);
    var names := WithNames(s.order, ordered);
    var shipped := ShippedIn(s.listed, s.schemas, k);
    OnceKeepsNames(s.order, s.listed, {});
    NamesSort(s.order, s.listed);
    ReversedTwice(names);
    OldestFirstKeeps(s.order, s.listed);
    NamesIn(s.order, ordered);
    LoadedIsFilter(names, s.schemas, k, shipped);
    assert names == [] ==> LoadedWith(names, s.schemas, k) == [];
    FilterOfNames(s.order, ordered, shipped);
  }

  lemma NothingShipped<V(!new), K(!new)>(s: Store<V, K>, k: K, vs: seq<V>, shipped: set<V>)
    requires k !in KeysOf(s.listed, s.schemas) && shipped == ShippedIn(s.listed, s.schemas, k)
    ensures Filter(vs, shipped) == []
  {
    assert shipped == {};
    SameFilter(vs, shipped, {});
    FilterNothing(vs);
  }

  lemma {:induction false} FilterNothing<V(!new)>(vs: seq<V>)
    ensures Filter(vs, {}) == []
  {
    if vs != [] {
      FilterNothing(vs[1..]);
    }
  }

  // Any store: what the walk reads and answers, whichever releases are listed and however the sort breaks ties.

  ghost predicate NoneTwice<V>(vs: seq<V>) {
    forall i, j | 0 <= i < j < |vs| :: vs[i] != vs[j]
  }

  ghost predicate Sorted<V(!new)>(o: Order<V>, vs: seq<V>) {
    forall i, j | 0 <= i < j < |vs| :: o.cmp(vs[i], vs[j]) <= 0
  }

  ghost function NamedSet<V>(o: Order<V>, vs: seq<V>): set<V> {
    set v | v in vs && v != o.none
  }

  // The named releases, newest first and each once: all of them, or of a remote store the twelve newest.
  ghost predicate NewestNamed<V(!new), K>(s: Store<V, K>, w: seq<V>) {
    && NoneTwice(w)
    && NewestDown(s.order, w)
    && (forall v | v in w :: v in s.listed && v != s.order.none)
    && |w| == (if s.remote && |NamedSet(s.order, s.listed)| > 12 then 12 else |NamedSet(s.order, s.listed)|)
    && forall v, x | v in s.listed && v != s.order.none && v !in w && x in w :: s.order.cmp(x, v) >= 0
  }

  lemma {:induction false} OnceIsOnce<V(!new)>(o: Order<V>, vs: seq<V>, seen: set<V>)
    ensures NoneTwice(Once(o, vs, seen))
    ensures forall v :: v in Once(o, vs, seen) <==> v in vs && v != o.none && v !in seen
  {
    if vs != [] {
      assert vs == [vs[0]] + vs[1..];
      OnceIsOnce(o, vs[1..], seen + {vs[0]});
      OnceIsOnce(o, vs[1..], seen);
    }
  }

  ghost predicate NewestDown<V(!new)>(o: Order<V>, vs: seq<V>) {
    forall i, j | 0 <= i < j < |vs| :: o.cmp(vs[i], vs[j]) >= 0
  }

  lemma FirstThen<V(!new)>(o: Order<V>, u: V, rest: seq<V>)
    requires Sorted(o, rest) && forall x | x in rest :: o.cmp(u, x) <= 0
    ensures Sorted(o, [u] + rest)
  {
  }

  lemma FirstOfSorted<V(!new)>(o: Order<V>, vs: seq<V>, x: V)
    requires Sorted(o, vs) && vs != [] && x in vs[1..]
    ensures o.cmp(vs[0], x) <= 0
  {
    var k :| 0 <= k < |vs[1..]| && vs[1..][k] == x;
    assert vs[k + 1] == x;
  }

  lemma {:induction false} InsertSorts<V(!new)>(o: Order<V>, v: V, vs: seq<V>)
    requires IsOrder(o) && Sorted(o, vs)
    ensures Sorted(o, Insert(o, v, vs))
  {
    if vs == [] || o.cmp(v, vs[0]) <= 0 {
      forall x | x in vs
        ensures o.cmp(v, x) <= 0
      {
        assert vs == [vs[0]] + vs[1..];
        if x in vs[1..] {
          FirstOfSorted(o, vs, x);
        }
      }
      FirstThen(o, v, vs);
    } else {
      var rest := Insert(o, v, vs[1..]);
      InsertSorts(o, v, vs[1..]);
      InsertAdds(o, v, vs[1..]);
      assert o.cmp(vs[0], v) == -o.cmp(v, vs[0]);
      forall x | x in rest
        ensures o.cmp(vs[0], x) <= 0
      {
        if x != v {
          FirstOfSorted(o, vs, x);
        }
      }
      FirstThen(o, vs[0], rest);
    }
  }

  lemma {:induction false} InsertOnce<V(!new)>(o: Order<V>, v: V, vs: seq<V>)
    requires NoneTwice(vs) && v !in vs
    ensures NoneTwice(Insert(o, v, vs))
  {
    if vs != [] && o.cmp(v, vs[0]) > 0 {
      assert vs == [vs[0]] + vs[1..];
      InsertOnce(o, v, vs[1..]);
      InsertAdds(o, v, vs[1..]);
      assert vs[0] !in vs[1..];
    }
  }

  lemma {:induction false} OldestFirstSorts<V(!new)>(o: Order<V>, vs: seq<V>)
    requires IsOrder(o)
    ensures Sorted(o, OldestFirst(o, vs)) && (NoneTwice(vs) ==> NoneTwice(OldestFirst(o, vs)))
  {
    if vs != [] {
      OldestFirstSorts(o, vs[1..]);
      OldestFirstKeeps(o, vs[1..]);
      InsertSorts(o, vs[0], OldestFirst(o, vs[1..]));
      if NoneTwice(vs) {
        assert vs[0] !in vs[1..];
        InsertOnce(o, vs[0], OldestFirst(o, vs[1..]));
      }
    }
  }

  lemma ReversedOnce<V>(vs: seq<V>)
    requires NoneTwice(vs)
    ensures NoneTwice(Reversed(vs))
  {
  }

  lemma ReversedHas<V>(vs: seq<V>)
    ensures forall v :: v in Reversed(vs) <==> v in vs
  {
    var back := Reversed(vs);
    forall v | v in vs
      ensures v in back
    {
      var i :| 0 <= i < |vs| && vs[i] == v;
      assert back[|vs| - 1 - i] == v;
    }
  }

  lemma ReversedTurns<V(!new)>(o: Order<V>, vs: seq<V>)
    requires IsOrder(o)
    ensures Sorted(o, vs) ==> NewestDown(o, Reversed(vs))
    ensures NewestDown(o, vs) ==> Sorted(o, Reversed(vs))
  {
    var back := Reversed(vs);
    forall i, j | 0 <= i < j < |vs|
      ensures back[i] == vs[|vs| - 1 - i] && back[j] == vs[|vs| - 1 - j]
      ensures o.cmp(back[i], back[j]) == -o.cmp(back[j], back[i])
    {
    }
    if Sorted(o, vs) {
      forall i, j | 0 <= i < j < |back|
        ensures o.cmp(back[i], back[j]) >= 0
      {
        assert o.cmp(vs[|vs| - 1 - j], vs[|vs| - 1 - i]) <= 0;
      }
    }
    if NewestDown(o, vs) {
      forall i, j | 0 <= i < j < |back|
        ensures o.cmp(back[i], back[j]) <= 0
      {
        assert o.cmp(vs[|vs| - 1 - j], vs[|vs| - 1 - i]) >= 0;
      }
    }
  }

  lemma {:induction false} OnceEach<V>(vs: seq<V>)
    requires NoneTwice(vs)
    ensures |set v | v in vs| == |vs|
  {
    if vs != [] {
      var rest := set v | v in vs[1..];
      OnceEach(vs[1..]);
      assert vs == [vs[0]] + vs[1..];
      assert (set v | v in vs) == {vs[0]} + rest;
      assert vs[0] !in rest;
    }
  }

  lemma AllNamed<V(!new)>(o: Order<V>, vs: seq<V>)
    requires IsOrder(o)
    ensures var all := NewestFirst(o, vs);
            && NoneTwice(all) && NewestDown(o, all) && |all| == |NamedSet(o, vs)|
            && forall v :: v in all <==> v in vs && v != o.none
  {
    OldestFirstSorts(o, Once(o, vs, {}));
    OnceIsOnce(o, vs, {});
    ReversedTurns(o, OldestFirst(o, Once(o, vs, {})));
    NamedOnce(o, vs);
  }

  lemma NamedOnce<V(!new)>(o: Order<V>, vs: seq<V>)
    requires NoneTwice(OldestFirst(o, Once(o, vs, {})))
    ensures var all := NewestFirst(o, vs);
            && NoneTwice(all) && |all| == |NamedSet(o, vs)| && forall v :: v in all <==> v in vs && v != o.none
  {
    var once := Once(o, vs, {});
    var sorted := OldestFirst(o, once);
    OnceIsOnce(o, vs, {});
    OldestFirstKeeps(o, once);
    ReversedHas(sorted);
    ReversedOnce(sorted);
    OnceEach(once);
    assert (set v | v in once) == NamedSet(o, vs);
  }

  lemma TakenHas<V>(vs: seq<V>, n: nat, j: nat)
    requires j < |vs| && n <= |vs|
    ensures j < n ==> vs[j] in vs[..n]
  {
    if j < n {
      assert vs[..n][j] == vs[j];
    }
  }

  lemma TakeNewest<V(!new)>(o: Order<V>, all: seq<V>, n: nat)
    requires NoneTwice(all) && NewestDown(o, all) && n <= |all|
    ensures NoneTwice(all[..n]) && NewestDown(o, all[..n])
    ensures forall v, x | v in all && v !in all[..n] && x in all[..n] :: o.cmp(x, v) >= 0
  {
    var w := all[..n];
    forall v, x | v in all && v !in w && x in w
      ensures o.cmp(x, v) >= 0
    {
      var i :| 0 <= i < |w| && w[i] == x;
      var j :| 0 <= j < |all| && all[j] == v;
      TakenHas(all, n, j);
    }
  }

  lemma WalkedAreNewest<V(!new), K(!new)>(s: Store<V, K>)
    requires IsOrder(s.order)
    ensures NewestNamed(s, Walked(s))
  {
    var all := NewestFirst(s.order, s.listed);
    AllNamed(s.order, s.listed);
    TakeNewest(s.order, all, |Walked(s)|);
    assert Walked(s) == all[..|Walked(s)|];
    assert forall v | v in Walked(s) :: v in all;
  }

  // The answer: nothing when half or more of what is read does not load, and otherwise the releases read whose schemas
  // list the component, oldest first.
  lemma WalkAnswers<V(!new), K(!new)>(s: Store<V, K>, k: K)
    requires IsOrder(s.order)
    ensures var w, answer := Walked(s), WalkAnswer(s, k);
            && NewestNamed(s, w)
            && NoneTwice(answer) && Sorted(s.order, answer)
            && forall v :: v in answer <==>
                 && 2 * |Missing(w, s.schemas)| < |w|
                 && v in w && v in s.schemas && k in s.schemas[v]
  {
    WalkedAreNewest(s);
    ReversedTurns(s.order, Walked(s));
    AnswersRead(s, k);
  }

  lemma AnswersRead<V(!new), K(!new)>(s: Store<V, K>, k: K)
    requires NoneTwice(Walked(s)) && Sorted(s.order, Reversed(Walked(s)))
    ensures var w, answer := Walked(s), WalkAnswer(s, k);
            && NoneTwice(answer) && Sorted(s.order, answer)
            && forall v :: v in answer <==>
                 && 2 * |Missing(w, s.schemas)| < |w|
                 && v in w && v in s.schemas && k in s.schemas[v]
  {
    var w := Walked(s);
    var oldest := Reversed(w);
    ReversedHas(w);
    ReversedOnce(w);
    FailedAre(oldest, s.schemas);
    assert Missing(oldest, s.schemas) == Missing(w, s.schemas);
    LoadedAre(s.order, oldest, s.schemas, k);
  }

  ghost function Missing<V, K>(vs: seq<V>, schemas: map<V, set<K>>): set<V> {
    set x | x in vs && x !in schemas
  }

  lemma {:induction false} FailedAre<V(!new), K(!new)>(vs: seq<V>, schemas: map<V, set<K>>)
    requires NoneTwice(vs)
    ensures FailedIn(vs, schemas) == |Missing(vs, schemas)|
  {
    if vs != [] {
      FailedAre(vs[1..], schemas);
      assert vs == [vs[0]] + vs[1..];
      assert vs[0] !in vs[1..];
      assert Missing(vs, schemas) == Missing(vs[1..], schemas) + if vs[0] in schemas then {} else {vs[0]};
    }
  }

  lemma {:induction false} LoadedAre<V(!new), K(!new)>(o: Order<V>, vs: seq<V>, schemas: map<V, set<K>>, k: K)
    requires NoneTwice(vs) && Sorted(o, vs)
    ensures NoneTwice(LoadedWith(vs, schemas, k)) && Sorted(o, LoadedWith(vs, schemas, k))
    ensures forall v :: v in LoadedWith(vs, schemas, k) <==> v in vs && v in schemas && k in schemas[v]
  {
    if vs != [] {
      LoadedAre(o, vs[1..], schemas, k);
      assert vs == [vs[0]] + vs[1..];
      var rest := LoadedWith(vs[1..], schemas, k);
      forall j | 0 <= j < |rest|
        ensures o.cmp(vs[0], rest[j]) <= 0 && rest[j] != vs[0]
      {
        assert rest[j] in rest && rest[j] in vs[1..];
        var i :| 0 <= i < |vs[1..]| && vs[1..][i] == rest[j];
        assert vs[i + 1] == rest[j];
      }
    }
  }

  lemma {:induction false} FilterSorts<V(!new)>(o: Order<V>, vs: seq<V>, present: set<V>)
    requires Sorted(o, vs)
    ensures Sorted(o, Filter(vs, present)) && forall v :: v in Filter(vs, present) <==> v in vs && v in present
  {
    if vs != [] {
      assert vs == [vs[0]] + vs[1..];
      FilterSorts(o, vs[1..], present);
      var rest := Filter(vs[1..], present);
      forall x | x in rest
        ensures o.cmp(vs[0], x) <= 0
      {
        FirstOfSorted(o, vs, x);
      }
      if vs[0] in present {
        FirstThen(o, vs[0], rest);
      }
    }
  }

  // What the index answers from: the spans that are published, read against the releases listed now, and the walk only
  // where nothing is published. The answer is oldest first.
  lemma AnswerIs<V(!new), K(!new)>(s: Store<V, K>, k: K)
    requires IsOrder(s.order)
    ensures Sorted(s.order, Answer(s, k))
    ensures forall v :: v in Answer(s, k) <==>
              match s.published
              case Some(index) =>
                && v in s.listed && k in index
                && exists span :: span in index[k] && s.order.cmp(v, span.from) >= 0
                                  && (span.to == s.order.none || s.order.cmp(v, span.to) <= 0)
              case None =>
                && 2 * |Missing(Walked(s), s.schemas)| < |Walked(s)|
                && v in Walked(s) && v in s.schemas && k in s.schemas[v]
  {
    if s.published.None? {
      WalkAnswers(s, k);
    } else if k in s.published.value {
      OldestFirstSorts(s.order, s.listed);
      PublishedIs(s, k);
    }
  }

  lemma PublishedIs<V(!new), K(!new)>(s: Store<V, K>, k: K)
    requires s.published.Some? && k in s.published.value && Sorted(s.order, OldestFirst(s.order, s.listed))
    ensures Sorted(s.order, PublishedAnswer(s, k))
    ensures forall v :: v in PublishedAnswer(s, k) <==>
              v in s.listed && exists span :: span in s.published.value[k] && Covers(s.order, span, v)
  {
    var spans, ordered := s.published.value[k], OldestFirst(s.order, s.listed);
    OldestFirstKeeps(s.order, s.listed);
    FilterSorts(s.order, ordered, CoveredSet(s.order, spans, ordered));
    forall v
      ensures AnyCovers(s.order, spans, v) <==> exists span :: span in spans && Covers(s.order, span, v)
    {
      AnyCoversIs(s.order, spans, v);
    }
  }

  lemma {:induction false} AnyCoversIs<V(!new)>(o: Order<V>, spans: seq<Span<V>>, v: V)
    ensures AnyCovers(o, spans, v) <==> exists span :: span in spans && Covers(o, span, v)
  {
    if spans != [] {
      assert spans == [spans[0]] + spans[1..];
      AnyCoversIs(o, spans[1..], v);
    }
  }
}
