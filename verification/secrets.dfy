// hardcoded-secret: the walk that finds credentials written into a configuration, over a graph of shared nodes.
//
// Nodes and keys are type parameters. What makes a value a credential, and which key opens a headers map, are given.
module Secrets {

  datatype Shape<N, K> =
    | Mapping(entries: seq<(K, N)>)
    | Sequence(items: seq<N>)
    | Scalar
    | Other

  datatype Settings<!N, !K> = Settings(
    shape: map<N, Shape<N, K>>,
    noKey: K,                           // the key a component's own settings hang from
    opensHeaders: K -> bool,
    isSecret: (K, N, bool) -> bool)     // isHardcodedSecret of a key, a scalar's value and whether inside headers

  // The same scalar can be ordinary text under one key and a secret under another.
  datatype Context<N, K> = Context(node: N, key: K, inHeaders: bool)

  ghost predicate Closed<N(!new), K>(g: Settings<N, K>) {
    forall n | n in g.shape ::
      match g.shape[n]
      case Mapping(entries) => forall e | e in entries :: e.1 in g.shape
      case Sequence(items) => forall i | i in items :: i in g.shape
      case _ => true
  }

  // The contexts a walk goes on to.
  function Next<N(==), K>(g: Settings<N, K>, c: Context<N, K>): seq<Context<N, K>> {
    if c.node !in g.shape then []
    else match g.shape[c.node]
      case Mapping(entries) =>
        seq(|entries|, i requires 0 <= i < |entries| =>
          Context(entries[i].1, entries[i].0, c.inHeaders || g.opensHeaders(entries[i].0)))
      case Sequence(items) =>
        seq(|items|, i requires 0 <= i < |items| => Context(items[i], c.key, c.inHeaders))
      case _ => []
  }

  predicate IsHit<N(==), K>(g: Settings<N, K>, c: Context<N, K>) {
    c.node in g.shape && g.shape[c.node].Scalar? && g.isSecret(c.key, c.node, c.inHeaders)
  }

  // The unmemoised definition: the contexts some path leads to.

  ghost predicate IsPath<N, K>(g: Settings<N, K>, path: seq<Context<N, K>>) {
    && path != []
    && forall i | 0 < i < |path| :: path[i] in Next(g, path[i - 1])
  }

  ghost predicate Leads<N, K>(g: Settings<N, K>, path: seq<Context<N, K>>, from: Context<N, K>, to: Context<N, K>) {
    IsPath(g, path) && path[0] == from && path[|path| - 1] == to
  }

  ghost predicate Reaches<N(!new), K(!new)>(g: Settings<N, K>, from: Context<N, K>, to: Context<N, K>) {
    exists path :: Leads(g, path, from, to)
  }

  lemma ReachesSelf<N(!new), K(!new)>(g: Settings<N, K>, c: Context<N, K>)
    ensures Reaches(g, c, c)
  {
    assert Leads(g, [c], c, c);
  }

  lemma ReachesOn<N(!new), K(!new)>(g: Settings<N, K>, from: Context<N, K>, mid: Context<N, K>, to: Context<N, K>)
    requires mid in Next(g, from) && Reaches(g, mid, to)
    ensures Reaches(g, from, to)
  {
    var path :| Leads(g, path, mid, to);
    var longer := [from] + path;
    forall i | 0 < i < |longer|
      ensures longer[i] in Next(g, longer[i - 1])
    {
      assert longer[i] == path[i - 1] && (i > 1 ==> longer[i - 1] == path[i - 2]);
    }
    assert Leads(g, longer, from, to);
  }

  // A set of contexts that the walk cannot leave holds everything reachable from it.
  lemma {:induction false} CannotLeave<N(!new), K(!new)>(
    g: Settings<N, K>, seen: set<Context<N, K>>, path: seq<Context<N, K>>)
    requires forall c | c in seen :: Settled(g, seen, c)
    requires IsPath(g, path) && path[0] in seen
    ensures path[|path| - 1] in seen
    decreases |path|
  {
    if |path| > 1 {
      var rest := path[1..];
      assert path[1] in Next(g, path[0]) && Settled(g, seen, path[0]);
      assert forall i | 0 < i < |rest| :: rest[i] == path[i + 1] && rest[i - 1] == path[i];
      CannotLeave(g, seen, rest);
    }
  }

  ghost predicate Settled<N, K>(g: Settings<N, K>, seen: set<Context<N, K>>, c: Context<N, K>) {
    forall d | d in Next(g, c) :: d in seen
  }

  // Every context a walk can be in.
  ghost function AllContexts<N, K>(g: Settings<N, K>, keys: set<K>): set<Context<N, K>> {
    set n, k, h | n in g.shape && k in keys && h in {false, true} :: Context(n, k, h)
  }

  ghost function AllKeys<N, K>(g: Settings<N, K>): set<K> {
    {g.noKey} + set n, e | n in g.shape && g.shape[n].Mapping? && e in g.shape[n].entries :: e.0
  }

  lemma NextIsContext<N(!new), K>(g: Settings<N, K>, c: Context<N, K>, i: nat)
    requires Closed(g) && c in AllContexts(g, AllKeys(g)) && i < |Next(g, c)|
    ensures Next(g, c)[i] in AllContexts(g, AllKeys(g))
  {
    match g.shape[c.node]
    case Mapping(entries) => assert entries[i] in entries;
    case Sequence(items) => assert items[i] in items;
    case _ =>
  }

  // What a walk that went from having seen `was` to having seen `now` returned: the nodes of the hits in between.

  ghost predicate HitBetween<N, K>(g: Settings<N, K>, was: set<Context<N, K>>, now: set<Context<N, K>>, n: N) {
    exists c | c in now && c !in was :: IsHit(g, c) && c.node == n
  }

  ghost predicate Returned<N, K>(g: Settings<N, K>, was: set<Context<N, K>>, now: set<Context<N, K>>, out: seq<N>) {
    && (forall c | c in now && c !in was && IsHit(g, c) :: c.node in out)
    && (forall n | n in out :: HitBetween(g, was, now, n))
  }

  lemma ReturnedThen<N, K>(g: Settings<N, K>, a: set<Context<N, K>>, b: set<Context<N, K>>, c: set<Context<N, K>>,
                           one: seq<N>, two: seq<N>)
    requires a <= b <= c && Returned(g, a, b, one) && Returned(g, b, c, two)
    ensures Returned(g, a, c, one + two)
  {
    forall n | n in one + two
      ensures HitBetween(g, a, c, n)
    {
      if n in one {
        var x :| x in b && x !in a && IsHit(g, x) && x.node == n;
        assert x in c;
      } else {
        var x :| x in c && x !in b && IsHit(g, x) && x.node == n;
        assert x !in a;
      }
    }
  }

  // Everything seen since `was` was reached from `from`, and nothing it leads to is still unseen.
  ghost predicate Explored<N(!new), K(!new)>(g: Settings<N, K>, from: Context<N, K>,
                                             was: set<Context<N, K>>, now: set<Context<N, K>>) {
    forall c | c in now && c !in was :: Settled(g, now, c) && Reaches(g, from, c)
  }

  lemma ExploredThen<N(!new), K(!new)>(g: Settings<N, K>, from: Context<N, K>, next: Context<N, K>,
                                       a: set<Context<N, K>>, b: set<Context<N, K>>, c: set<Context<N, K>>)
    requires a <= b <= c && next in Next(g, from)
    requires Explored(g, from, a, b) && Explored(g, next, b, c)
    ensures Explored(g, from, a, c)
  {
    forall x | x in c && x !in a
      ensures Settled(g, c, x) && Reaches(g, from, x)
    {
      if x in b {
        assert Settled(g, b, x);
      } else {
        ReachesOn(g, from, next, x);
      }
    }
  }

  // The walk.
  class Finder<N(==, !new), K(==, !new)> {
    const g: Settings<N, K>
    var visited: set<Context<N, K>>
    // The contexts not visited yet, and those expanded so far, in order.
    ghost var left: set<Context<N, K>>
    ghost var expanded: seq<Context<N, K>>

    ghost predicate Valid()
      reads this
    {
      && Closed(g)
      && (forall c | c in AllContexts(g, AllKeys(g)) :: c in visited || c in left)
      && (forall c | c in expanded :: c in visited)
      && NoneTwice(expanded)
    }

    constructor (g: Settings<N, K>)
      requires Closed(g)
      ensures Valid() && this.g == g && visited == {} && expanded == []
    {
      this.g := g;
      visited := {};
      left := AllContexts(g, AllKeys(g));
      expanded := [];
    }

    // findSecrets.
    method Find(n: N, key: K, inHeaders: bool) returns (out: seq<N>)
      requires Valid() && Context(n, key, inHeaders) in AllContexts(g, AllKeys(g))
      modifies this
      ensures Valid() && left <= old(left) && old(visited) <= visited && Context(n, key, inHeaders) in visited
      ensures Explored(g, Context(n, key, inHeaders), old(visited), visited)
      ensures Returned(g, old(visited), visited, out)
      decreases left, 0
    {
      var context := Context(n, key, inHeaders);
      out := [];
      if context in visited {
        return;
      }
      visited := visited + {context};
      left := left - {context};
      expanded := expanded + [context];
      out := FindNext(context);
      ReachesSelf(g, context);
      if IsHit(g, context) {
        out := out + [n];
      }
    }

    // The settings a node holds, in order.
    method FindNext(c: Context<N, K>) returns (out: seq<N>)
      requires Valid() && c in AllContexts(g, AllKeys(g))
      modifies this
      ensures Valid() && left <= old(left) && old(visited) <= visited
      ensures Settled(g, visited, c) && Explored(g, c, old(visited), visited)
      ensures Returned(g, old(visited), visited, out)
      decreases left, 1
    {
      out := [];
      var next := Next(g, c);
      for i := 0 to |next|
        invariant Valid() && left <= old(left) && old(visited) <= visited
        invariant forall j | 0 <= j < i :: next[j] in visited
        invariant Explored(g, c, old(visited), visited)
        invariant Returned(g, old(visited), visited, out)
      {
        NextIsContext(g, c, i);
        ghost var was := visited;
        var hits := Find(next[i].node, next[i].key, next[i].inHeaders);
        ExploredThen(g, c, next[i], old(visited), was, visited);
        ReturnedThen(g, old(visited), was, visited, out, hits);
        out := out + hits;
      }
    }

    // Check: the walk over every component, and what is reported of it.
    method Check(roots: seq<N>) returns (reports: seq<N>)
      requires Valid() && visited == {} && expanded == []
      requires forall r | r in roots :: r in g.shape
      modifies this
      ensures Valid()
      ensures forall c :: c in visited <==> ReachedFrom(g, roots, c)
      ensures forall n :: n in reports <==> IsSecret(g, roots, n)
      ensures forall n :: n in reports <==> IsWritten(g, roots, n)
      ensures NoneTwice(reports)
    {
      reports := [];
      var reported: set<N> := {};
      for i := 0 to |roots|
        invariant Valid()
        invariant CoveredSoFar(g, roots, i, visited)
        invariant Returned(g, {}, visited, reports)
        invariant forall n :: n in reported <==> n in reports
        invariant NoneTwice(reports)
      {
        ghost var was := visited;
        assert Start(g, roots[i]) in AllContexts(g, AllKeys(g)) by {
          assert roots[i] in roots;
        }
        var hits := Find(roots[i], g.noKey, false);
        CoveredOne(g, roots, i, was, visited);
        ReturnedThen(g, {}, was, visited, reports, hits);
        ghost var all := reports + hits;
        reports, reported := Report(reports, reported, hits);
        SameReturned(g, {}, visited, all, reports);
      }
      VisitedIsReached(g, roots, visited);
      ReportedIsSecret(g, roots, visited, reports);
      forall n {
        SecretIsWritten(g, roots, n);
      }
    }

    method Report(before: seq<N>, had: set<N>, hits: seq<N>) returns (reports: seq<N>, reported: set<N>)
      requires forall n :: n in had <==> n in before
      requires NoneTwice(before)
      ensures forall n :: n in reported <==> n in reports
      ensures forall n :: n in reports <==> n in before || n in hits
      ensures NoneTwice(reports)
    {
      reports, reported := before, had;
      for i := 0 to |hits|
        invariant forall n :: n in reported <==> n in reports
        invariant forall n :: n in reports <==> n in before || n in hits[..i]
        invariant NoneTwice(reports)
      {
        assert hits[..i + 1] == hits[..i] + [hits[i]];
        if hits[i] in reported {
          continue;
        }
        reported := reported + {hits[i]};
        reports := reports + [hits[i]];
      }
      assert hits[..|hits|] == hits;
    }
  }

  function Start<N, K>(g: Settings<N, K>, root: N): Context<N, K> {
    Context(root, g.noKey, false)
  }

  ghost predicate ReachedFrom<N(!new), K(!new)>(g: Settings<N, K>, roots: seq<N>, c: Context<N, K>) {
    exists r | r in roots :: Reaches(g, Start(g, r), c)
  }

  // A scalar that some path from a component reaches where it reads as a credential.
  ghost predicate IsSecret<N(!new), K(!new)>(g: Settings<N, K>, roots: seq<N>, n: N) {
    exists c :: ReachedFrom(g, roots, c) && c.node == n && IsHit(g, c)
  }

  // The same told by the settings themselves: from a component's settings down through entries and items.

  datatype Hop<N, K> = Entry(key: K, node: N) | Item(node: N)

  ghost predicate IsHop<N, K>(g: Settings<N, K>, from: N, hop: Hop<N, K>) {
    && from in g.shape
    && match hop
       case Entry(key, node) => g.shape[from].Mapping? && (key, node) in g.shape[from].entries
       case Item(node) => g.shape[from].Sequence? && node in g.shape[from].items
  }

  function EndOf<N, K>(root: N, hops: seq<Hop<N, K>>): N {
    if hops == [] then root else hops[|hops| - 1].node
  }

  ghost predicate IsTrail<N, K>(g: Settings<N, K>, root: N, hops: seq<Hop<N, K>>) {
    forall i | 0 <= i < |hops| :: IsHop(g, EndOf(root, hops[..i]), hops[i])
  }

  // The key of the last entry on the way; items keep it.
  ghost predicate IsLastKey<N, K>(g: Settings<N, K>, hops: seq<Hop<N, K>>, k: K) {
    || (k == g.noKey && forall i | 0 <= i < |hops| :: hops[i].Item?)
    || (exists i | 0 <= i < |hops| ::
          hops[i].Entry? && hops[i].key == k && forall j | i < j < |hops| :: hops[j].Item?)
  }

  ghost predicate InHeaders<N, K>(g: Settings<N, K>, hops: seq<Hop<N, K>>) {
    exists i | 0 <= i < |hops| :: hops[i].Entry? && g.opensHeaders(hops[i].key)
  }

  // A scalar some way leads to, whose last key, or whose being inside headers, makes it a credential.
  ghost predicate IsWritten<N(!new), K(!new)>(g: Settings<N, K>, roots: seq<N>, n: N) {
    && n in g.shape && g.shape[n].Scalar?
    && exists root, hops, k {:trigger IsTrail(g, root, hops), IsLastKey(g, hops, k)} ::
         && root in roots && IsTrail(g, root, hops) && EndOf(root, hops) == n && IsLastKey(g, hops, k)
         && g.isSecret(k, n, InHeaders(g, hops))
  }

  // What a walk along the hops takes with it.
  ghost predicate Carries<N, K>(g: Settings<N, K>, root: N, hops: seq<Hop<N, K>>, c: Context<N, K>) {
    EndOf(root, hops) == c.node && IsLastKey(g, hops, c.key) && (c.inHeaders <==> InHeaders(g, hops))
  }

  lemma LastKeyIsOne<N, K>(g: Settings<N, K>, hops: seq<Hop<N, K>>, k: K, l: K)
    requires IsLastKey(g, hops, k) && IsLastKey(g, hops, l)
    ensures k == l
  {
  }

  // One hop more: what is carried then, and that the walk goes there.
  lemma HopCarries<N, K>(g: Settings<N, K>, root: N, hops: seq<Hop<N, K>>, hop: Hop<N, K>, c: Context<N, K>)
    requires Carries(g, root, hops, c) && IsHop(g, c.node, hop)
    ensures exists d | d in Next(g, c) :: Carries(g, root, hops + [hop], d)
  {
    var longer := hops + [hop];
    assert forall i | 0 <= i < |hops| :: longer[i] == hops[i];
    assert longer[|hops|] == hop;
    var next := Next(g, c);
    match hop
    case Entry(key, node) =>
      var entries := g.shape[c.node].entries;
      var i :| 0 <= i < |entries| && entries[i] == (key, node);
      KeyCarries(g, root, hops, hop, c);
      assert next[i] in next;
    case Item(node) =>
      var items := g.shape[c.node].items;
      var i :| 0 <= i < |items| && items[i] == node;
      ItemCarries(g, root, hops, hop, c);
      assert next[i] in next;
  }

  lemma KeyCarries<N, K>(g: Settings<N, K>, root: N, hops: seq<Hop<N, K>>, hop: Hop<N, K>, c: Context<N, K>)
    requires Carries(g, root, hops, c) && hop.Entry?
    ensures Carries(g, root, hops + [hop], Context(hop.node, hop.key, c.inHeaders || g.opensHeaders(hop.key)))
  {
    var longer := hops + [hop];
    assert forall i | 0 <= i < |hops| :: longer[i] == hops[i];
    assert longer[|hops|] == hop;
  }

  lemma ItemCarries<N, K>(g: Settings<N, K>, root: N, hops: seq<Hop<N, K>>, hop: Hop<N, K>, c: Context<N, K>)
    requires Carries(g, root, hops, c) && hop.Item?
    ensures Carries(g, root, hops + [hop], Context(hop.node, c.key, c.inHeaders))
  {
    var longer := hops + [hop];
    assert forall i | 0 <= i < |hops| :: longer[i] == hops[i];
    assert longer[|hops|] == hop;
    if i :| 0 <= i < |hops| && hops[i].Entry? && hops[i].key == c.key && forall j | i < j < |hops| :: hops[j].Item? {
      assert longer[i].Entry? && longer[i].key == c.key;
    }
    assert IsLastKey(g, longer, c.key);
  }

  // Every trail is walked.
  lemma {:induction false} TrailIsWalked<N(!new), K(!new)>(g: Settings<N, K>, root: N, hops: seq<Hop<N, K>>)
    returns (c: Context<N, K>)
    requires IsTrail(g, root, hops)
    ensures Reaches(g, Start(g, root), c) && Carries(g, root, hops, c)
    decreases |hops|
  {
    if hops == [] {
      c := Start(g, root);
      ReachesSelf(g, c);
    } else {
      var before, hop := hops[..|hops| - 1], hops[|hops| - 1];
      assert hops == before + [hop];
      assert forall i | 0 <= i < |before| :: before[..i] == hops[..i];
      var b := TrailIsWalked(g, root, before);
      assert IsHop(g, b.node, hop);
      HopCarries(g, root, before, hop, b);
      c :| c in Next(g, b) && Carries(g, root, before + [hop], c);
      ReachesThen(g, Start(g, root), b, c);
    }
  }

  lemma ReachesThen<N(!new), K(!new)>(g: Settings<N, K>, from: Context<N, K>, mid: Context<N, K>, to: Context<N, K>)
    requires Reaches(g, from, mid) && to in Next(g, mid)
    ensures Reaches(g, from, to)
  {
    var path :| Leads(g, path, from, mid);
    assert Leads(g, path + [to], from, to);
  }

  // Every walk follows a trail.
  lemma {:induction false} WalkIsTrail<N(!new), K(!new)>(g: Settings<N, K>, root: N, path: seq<Context<N, K>>)
    returns (hops: seq<Hop<N, K>>)
    requires IsPath(g, path) && path[0] == Start(g, root)
    ensures IsTrail(g, root, hops) && Carries(g, root, hops, path[|path| - 1])
    decreases |path|
  {
    if |path| == 1 {
      hops := [];
    } else {
      var before, b, c := path[..|path| - 1], path[|path| - 2], path[|path| - 1];
      assert c in Next(g, b);
      hops := WalkIsTrail(g, root, before);
      var i :| 0 <= i < |Next(g, b)| && Next(g, b)[i] == c;
      match g.shape[b.node]
      case Mapping(entries) =>
        var hop := Hop<N, K>.Entry(entries[i].0, entries[i].1);
        assert entries[i] == (hop.key, hop.node);
        KeyCarries(g, root, hops, hop, b);
        TrailThen(g, root, hops, hop);
        hops := hops + [hop];
      case Sequence(items) =>
        var hop := Hop<N, K>.Item(items[i]);
        ItemCarries(g, root, hops, hop, b);
        TrailThen(g, root, hops, hop);
        hops := hops + [hop];
      case _ =>
        assert false;
    }
  }

  lemma TrailThen<N, K>(g: Settings<N, K>, root: N, hops: seq<Hop<N, K>>, hop: Hop<N, K>)
    requires IsTrail(g, root, hops) && IsHop(g, EndOf(root, hops), hop)
    ensures IsTrail(g, root, hops + [hop])
  {
    var longer := hops + [hop];
    forall i | 0 <= i < |longer|
      ensures IsHop(g, EndOf(root, longer[..i]), longer[i])
    {
      assert longer[..i] == hops[..i];
      assert hops[..|hops|] == hops;
    }
  }

  // Being reached in a context that makes it a credential is being led to by such a way.
  lemma SecretIsWritten<N(!new), K(!new)>(g: Settings<N, K>, roots: seq<N>, n: N)
    ensures IsSecret(g, roots, n) <==> IsWritten(g, roots, n)
  {
    if IsSecret(g, roots, n) {
      var c :| ReachedFrom(g, roots, c) && c.node == n && IsHit(g, c);
      var root :| root in roots && Reaches(g, Start(g, root), c);
      var path :| Leads(g, path, Start(g, root), c);
      var hops := WalkIsTrail(g, root, path);
      assert IsTrail(g, root, hops) && IsLastKey(g, hops, c.key);
    }
    if IsWritten(g, roots, n) {
      var root, hops, k :| root in roots && IsTrail(g, root, hops) && EndOf(root, hops) == n && IsLastKey(g, hops, k)
        && g.isSecret(k, n, InHeaders(g, hops));
      var c := TrailIsWalked(g, root, hops);
      LastKeyIsOne(g, hops, k, c.key);
    }
  }

  ghost predicate CoveredSoFar<N(!new), K(!new)>(g: Settings<N, K>, roots: seq<N>, k: nat,
                                                 visited: set<Context<N, K>>)
  {
    && k <= |roots|
    && (forall r | r in roots[..k] :: Start(g, r) in visited)
    && forall c | c in visited :: Settled(g, visited, c) && ReachedFrom(g, roots, c)
  }

  lemma CoveredOne<N(!new), K(!new)>(g: Settings<N, K>, roots: seq<N>, k: nat,
                                     was: set<Context<N, K>>, now: set<Context<N, K>>)
    requires k < |roots| && CoveredSoFar(g, roots, k, was) && was <= now
    requires Start(g, roots[k]) in now && Explored(g, Start(g, roots[k]), was, now)
    ensures CoveredSoFar(g, roots, k + 1, now)
  {
    assert roots[..k + 1] == roots[..k] + [roots[k]];
    forall c | c in now
      ensures Settled(g, now, c) && ReachedFrom(g, roots, c)
    {
      if c in was {
        assert Settled(g, was, c);
      } else {
        assert roots[k] in roots && Reaches(g, Start(g, roots[k]), c);
      }
    }
  }

  lemma SameReturned<N(!new), K>(g: Settings<N, K>, was: set<Context<N, K>>, now: set<Context<N, K>>,
                                 one: seq<N>, two: seq<N>)
    requires Returned(g, was, now, one) && forall n :: n in two <==> n in one
    ensures Returned(g, was, now, two)
  {
  }

  lemma VisitedIsReached<N(!new), K(!new)>(g: Settings<N, K>, roots: seq<N>, visited: set<Context<N, K>>)
    requires CoveredSoFar(g, roots, |roots|, visited)
    ensures forall c :: c in visited <==> ReachedFrom(g, roots, c)
  {
    assert roots[..|roots|] == roots;
    forall c | ReachedFrom(g, roots, c)
      ensures c in visited
    {
      var r :| r in roots && Reaches(g, Start(g, r), c);
      var path :| Leads(g, path, Start(g, r), c);
      CannotLeave(g, visited, path);
    }
  }

  lemma ReportedIsSecret<N(!new), K(!new)>(g: Settings<N, K>, roots: seq<N>, visited: set<Context<N, K>>,
                                           reports: seq<N>)
    requires forall c :: c in visited <==> ReachedFrom(g, roots, c)
    requires Returned(g, {}, visited, reports)
    ensures forall n :: n in reports <==> IsSecret(g, roots, n)
  {
    forall n | n in reports
      ensures IsSecret(g, roots, n)
    {
      assert HitBetween(g, {}, visited, n);
    }
  }

  ghost predicate NoneTwice<T>(xs: seq<T>) {
    forall i, j | 0 <= i < j < |xs| :: xs[i] != xs[j]
  }
}
