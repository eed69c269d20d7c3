// Whether every ingress path into a pipeline passes a given kind of processor.
//
// The search remembers its answers, and remembers an unfinished visit as a no. `Derivable` is the property it stands
// for, with no memory in it: coverage provable in so many steps. UpstreamCovered says the memory never shows, except
// that pipelines written under the same key are taken for one of them.
module Upstream {
  import opened ConfigIndex

  datatype Query = Query(f: File, processors: seq<string>, connectors: seq<string>)

  // What the search remembers by: a pipeline key and whether a processor was passed before it.
  datatype Visit = Visit(pipeline: string, covered: bool)

  type Memo = map<Visit, bool>

  // The pipeline that each visit is taken to be about. Where a key is written twice, it is the one walked first.
  type Choice = map<Visit, Pipeline>

  // Every pipeline is taken for itself.
  const APART: Choice := map[]

  ghost function Taken(taken: Choice, p: Pipeline, covered: bool): Pipeline {
    if Visit(p.key, covered) in taken then taken[Visit(p.key, covered)] else p
  }

  ghost predicate Chooses(f: File, taken: Choice) {
    forall v | v in taken :: taken[v] in f.pipelines && taken[v].key == v.pipeline
  }

  ghost predicate UniqueKeys(f: File) {
    forall p, q | p in f.pipelines && q in f.pipelines && p.key == q.key :: p == q
  }

  ghost predicate HasProcessor(q: Query, p: Pipeline) {
    exists id :: id in p.processors && Backing(q.f, Processor, id) == Some(Processor) && id.typ in q.processors
  }

  // Coverage of what enters `p`, given whether a processor was already passed on the way back to it.
  ghost predicate Derivable(q: Query, taken: Choice, steps: nat, p: Pipeline, covered: bool)
    decreases steps, 1
  {
    && steps > 0
    && p.receivers != []
    && !p.dynamicReceivers
    && forall id | id in p.receivers :: RefCovered(q, taken, steps - 1, p, covered || HasProcessor(q, p), id)
  }

  ghost predicate RefCovered(q: Query, taken: Choice, steps: nat, p: Pipeline, covered: bool, id: ID)
    decreases steps, 2
  {
    match Backing(q.f, Receiver, id)
    case Some(Receiver) => covered
    case Some(Connector) =>
      && id.typ in q.connectors
      && (exists up :: Wires(q.f, up, Exporter, id))
      && forall up | Wires(q.f, up, Exporter, id) ::
           up.signal == p.signal && Derivable(q, taken, steps, Taken(taken, up, covered), covered)
    case _ => false
  }

  ghost predicate Covered(q: Query, taken: Choice, p: Pipeline, covered: bool) {
    exists steps :: Derivable(q, taken, steps, p, covered)
  }

  lemma {:induction false} MoreSteps(q: Query, taken: Choice, m: nat, n: nat, p: Pipeline, covered: bool)
    requires m <= n && Derivable(q, taken, m, p, covered)
    ensures Derivable(q, taken, n, p, covered)
    decreases m
  {
    var now := covered || HasProcessor(q, p);
    forall id | id in p.receivers
      ensures RefCovered(q, taken, n - 1, p, now, id)
    {
      assert RefCovered(q, taken, m - 1, p, now, id);
      if Backing(q.f, Receiver, id) == Some(Connector) {
        forall up | Wires(q.f, up, Exporter, id)
          ensures up.signal == p.signal && Derivable(q, taken, n - 1, Taken(taken, up, now), now)
        {
          MoreSteps(q, taken, m - 1, n - 1, Taken(taken, up, now), now);
        }
      }
    }
  }

  // With no key written twice, every pipeline is taken for itself whatever is chosen.
  lemma {:induction false} UniqueKeysApart(q: Query, taken: Choice, steps: nat, p: Pipeline, covered: bool)
    requires UniqueKeys(q.f) && Chooses(q.f, taken)
    ensures Derivable(q, taken, steps, p, covered) <==> Derivable(q, APART, steps, p, covered)
    decreases steps
  {
    if steps > 0 {
      var now := covered || HasProcessor(q, p);
      forall up | up in q.f.pipelines
        ensures Taken(taken, up, now) == up == Taken(APART, up, now)
        ensures Derivable(q, taken, steps - 1, up, now) <==> Derivable(q, APART, steps - 1, up, now)
      {
        UniqueKeysApart(q, taken, steps - 1, up, now);
      }
      assert forall id | id in p.receivers ::
          RefCovered(q, taken, steps - 1, p, now, id) <==> RefCovered(q, APART, steps - 1, p, now, id);
    }
  }

  ghost predicate Remembers(memo: Memo, v: Visit, answer: bool) {
    v in memo && memo[v] == answer
  }

  // A reason for a yes: all that a pipeline needs is among the visits in `sure`.
  ghost predicate Holds(q: Query, sure: seq<Visit>, p: Pipeline, covered: bool) {
    && p.receivers != []
    && !p.dynamicReceivers
    && forall id | id in p.receivers :: RefHolds(q, sure, p, covered || HasProcessor(q, p), id)
  }

  ghost predicate RefHolds(q: Query, sure: seq<Visit>, p: Pipeline, covered: bool, id: ID) {
    match Backing(q.f, Receiver, id)
    case Some(Receiver) => covered
    case Some(Connector) =>
      && id.typ in q.connectors
      && (exists up :: Wires(q.f, up, Exporter, id))
      && forall up | Wires(q.f, up, Exporter, id) :: up.signal == p.signal && Visit(up.key, covered) in sure
    case _ => false
  }

  ghost predicate RefsHold(q: Query, sure: seq<Visit>, ids: seq<ID>, i: nat, p: Pipeline, covered: bool)
    requires i <= |ids|
  {
    forall j | 0 <= j < i :: RefHolds(q, sure, p, covered, ids[j])
  }

  ghost predicate AllSure(sure: seq<Visit>, ups: seq<Pipeline>, i: nat, p: Pipeline, covered: bool)
    requires i <= |ups|
  {
    forall j | 0 <= j < i :: ups[j].signal == p.signal && Visit(ups[j].key, covered) in sure
  }

  ghost predicate Within(before: seq<Visit>, after: seq<Visit>) {
    forall v | v in before :: v in after
  }

  lemma OneMoreHolds(q: Query, before: seq<Visit>, after: seq<Visit>, ids: seq<ID>, i: nat, p: Pipeline, covered: bool)
    requires Within(before, after) && i < |ids| && RefsHold(q, before, ids, i, p, covered)
    requires RefHolds(q, after, p, covered, ids[i])
    ensures RefsHold(q, after, ids, i + 1, p, covered)
  {
    forall j | 0 <= j <= i
      ensures RefHolds(q, after, p, covered, ids[j])
    {
      assert j < i ==> RefHolds(q, before, p, covered, ids[j]);
    }
  }

  lemma OneMoreSure(before: seq<Visit>, after: seq<Visit>, ups: seq<Pipeline>, i: nat, p: Pipeline, covered: bool)
    requires Within(before, after) && i < |ups| && AllSure(before, ups, i, p, covered)
    requires ups[i].signal == p.signal && Visit(ups[i].key, covered) in after
    ensures AllSure(after, ups, i + 1, p, covered)
  {
    forall j | 0 <= j <= i
      ensures ups[j].signal == p.signal && Visit(ups[j].key, covered) in after
    {
      assert j < i ==> Visit(ups[j].key, covered) in before;
    }
  }

  // The yeses in the order they were found, each resting on those before it.
  ghost predicate YesesHold(q: Query, memo: Memo, taken: Choice, proven: seq<Visit>) {
    && (forall v :: v in proven <==> Remembers(memo, v, true))
    && forall i | 0 <= i < |proven| ::
         proven[i] in taken && Holds(q, proven[..i], taken[proven[i]], proven[i].covered)
  }

  lemma YesesStay(q: Query, memo: Memo, taken: Choice, proven: seq<Visit>, key: Visit, p: Pipeline)
    requires YesesHold(q, memo, taken, proven) && key !in memo
    ensures YesesHold(q, memo[key := false], taken[key := p], proven)
  {
    assert key !in proven;
  }

  lemma OneMoreYes(q: Query, memo: Memo, taken: Choice, proven: seq<Visit>, key: Visit)
    requires YesesHold(q, memo, taken, proven) && key in taken && Holds(q, proven, taken[key], key.covered)
    ensures YesesHold(q, memo[key := true], taken, proven + [key])
  {
    var now := proven + [key];
    forall i | 0 <= i < |now|
      ensures now[i] in taken && Holds(q, now[..i], taken[now[i]], now[i].covered)
    {
      assert now[..i] == proven[..i];
      assert proven[..|proven|] == proven;
    }
  }

  ghost predicate NosAre(memo: Memo, unfinished: Choice) {
    forall v | v in memo :: Remembers(memo, v, false) <==> v in unfinished
  }

  // A reason for a no that does not look past the memo: the pipeline itself fails, or it needs something remembered as
  // a no.
  ghost predicate Explained(q: Query, memo: Memo, p: Pipeline, covered: bool) {
    || p.receivers == []
    || p.dynamicReceivers
    || exists id :: id in p.receivers && RefFails(q, memo, p, covered || HasProcessor(q, p), id)
  }

  ghost predicate RefFails(q: Query, memo: Memo, p: Pipeline, covered: bool, id: ID) {
    match Backing(q.f, Receiver, id)
    case Some(Receiver) => !covered
    case Some(Connector) =>
      || id.typ !in q.connectors
      || (forall up :: !Wires(q.f, up, Exporter, id))
      || exists up :: Wires(q.f, up, Exporter, id)
           && (up.signal != p.signal || Remembers(memo, Visit(up.key, covered), false))
    case _ => true
  }

  ghost predicate NosExplained(q: Query, memo: Memo, taken: Choice, unfinished: Choice) {
    forall v | Remembers(memo, v, false) && v !in unfinished ::
      v in taken && Explained(q, memo, taken[v], v.covered)
  }

  // Yeses that rest on earlier yeses are derivable.
  lemma {:induction false} ProvenHolds(q: Query, memo: Memo, taken: Choice, proven: seq<Visit>, i: nat)
    requires YesesHold(q, memo, taken, proven) && i < |proven|
    ensures proven[i] in taken && Derivable(q, taken, i + 1, taken[proven[i]], proven[i].covered)
    decreases i, 1
  {
    var p := taken[proven[i]];
    var now := proven[i].covered || HasProcessor(q, p);
    forall id | id in p.receivers
      ensures RefCovered(q, taken, i, p, now, id)
    {
      ProvenRef(q, memo, taken, proven, i, p, now, id);
    }
  }

  lemma {:induction false} ProvenRef(q: Query, memo: Memo, taken: Choice, proven: seq<Visit>, i: nat, p: Pipeline,
                                     covered: bool, id: ID)
    requires YesesHold(q, memo, taken, proven) && i < |proven| && RefHolds(q, proven[..i], p, covered, id)
    ensures RefCovered(q, taken, i, p, covered, id)
    decreases i, 0
  {
    if Backing(q.f, Receiver, id) == Some(Connector) {
      forall up | Wires(q.f, up, Exporter, id)
        ensures Derivable(q, taken, i, Taken(taken, up, covered), covered)
      {
        var v := Visit(up.key, covered);
        assert v in proven[..i];
        var j :| 0 <= j < i && proven[..i][j] == v;
        ProvenHolds(q, memo, taken, proven, j);
        MoreSteps(q, taken, j + 1, i, taken[v], covered);
      }
    }
    SureDerives(q, taken, proven[..i], i, p, covered, id);
  }

  lemma SureDerives(q: Query, taken: Choice, sure: seq<Visit>, steps: nat, p: Pipeline, covered: bool, id: ID)
    requires RefHolds(q, sure, p, covered, id)
    requires Backing(q.f, Receiver, id) == Some(Connector) ==>
               forall up | Wires(q.f, up, Exporter, id) ::
                 Derivable(q, taken, steps, Taken(taken, up, covered), covered)
    ensures RefCovered(q, taken, steps, p, covered, id)
  {
  }

  // Nos that explain each other are never derivable, in any number of steps.
  lemma {:induction false} ExplainedNosFail(q: Query, memo: Memo, taken: Choice, steps: nat, v: Visit)
    requires NosExplained(q, memo, taken, APART) && taken.Keys == memo.Keys && Remembers(memo, v, false)
    ensures !Derivable(q, taken, steps, taken[v], v.covered)
    decreases steps
  {
    var p := taken[v];
    if Derivable(q, taken, steps, p, v.covered) {
      var now := v.covered || HasProcessor(q, p);
      assert Explained(q, memo, p, v.covered);
      var id :| id in p.receivers && RefFails(q, memo, p, now, id);
      assert RefCovered(q, taken, steps - 1, p, now, id);
      var up :| Wires(q.f, up, Exporter, id)
        && (up.signal != p.signal || Remembers(memo, Visit(up.key, now), false));
      ExplainedNosFail(q, memo, taken, steps - 1, Visit(up.key, now));
    }
  }

  // The states a search can be in.
  ghost function States(f: File): set<Visit> {
    StatesOf(f.pipelines, false) + StatesOf(f.pipelines, true)
  }

  ghost function StatesOf(ps: seq<Pipeline>, covered: bool): set<Visit> {
    set p | p in ps :: Visit(p.key, covered)
  }

  lemma StatesAreFew(f: File)
    ensures |States(f)| <= 2 * |f.pipelines|
  {
    FewStates(f.pipelines, false);
    FewStates(f.pipelines, true);
  }

  lemma {:induction false} FewStates(ps: seq<Pipeline>, covered: bool)
    ensures |StatesOf(ps, covered)| <= |ps|
  {
    if ps != [] {
      var rest := StatesOf(ps[1..], covered);
      FewStates(ps[1..], covered);
      assert StatesOf(ps, covered) == rest + {Visit(ps[0].key, covered)} by {
        assert ps == [ps[0]] + ps[1..];
      }
    }
  }

  lemma SubsetIsSmaller<T>(a: set<T>, b: set<T>)
    requires a <= b
    ensures |a| <= |b|
  {
    if a != b {
      assert b == a + (b - a);
    }
  }

  ghost predicate InBounds(f: File, memo: Memo, taken: Choice) {
    taken.Keys == memo.Keys && Chooses(f, taken)
  }

  lemma OneMoreVisit(f: File, memo: Memo, taken: Choice, key: Visit, p: Pipeline)
    requires InBounds(f, memo, taken) && key !in memo && p in f.pipelines && p.key == key.pipeline
    ensures InBounds(f, memo[key := false], taken[key := p])
    ensures |memo[key := false]| == |memo| + 1
  {
    assert memo[key := false].Keys == memo.Keys + {key} == taken[key := p].Keys;
  }

  ghost predicate Entered(taken: Choice, unfinished: Choice) {
    forall v | v in unfinished :: v in taken && taken[v] == unfinished[v]
  }

  ghost predicate Settled(q: Query, memo: Memo, taken: Choice, proven: seq<Visit>, unfinished: Choice) {
    && InBounds(q.f, memo, taken)
    && Entered(taken, unfinished)
    && YesesHold(q, memo, taken, proven)
    && NosAre(memo, unfinished)
  }

  ghost predicate Unsettled(q: Query, memo: Memo, taken: Choice, unfinished: Choice) {
    && InBounds(q.f, memo, taken)
    && Entered(taken, unfinished)
    && NosExplained(q, memo, taken, unfinished)
    && forall v | v in unfinished :: Remembers(memo, v, false)
  }

  lemma RoomLeft(f: File, memo: Memo, taken: Choice)
    requires InBounds(f, memo, taken)
    ensures |memo| <= 2 * |f.pipelines|
  {
    StatesAreFew(f);
    assert memo.Keys <= States(f);
    SubsetIsSmaller(memo.Keys, States(f));
    assert |memo| == |memo.Keys|;
  }

  // A visit begins as a no.
  lemma Entering(q: Query, memo: Memo, taken: Choice, proven: seq<Visit>, unfinished: Choice, key: Visit, p: Pipeline)
    requires Settled(q, memo, taken, proven, unfinished)
    requires key !in memo && p in q.f.pipelines && p.key == key.pipeline
    ensures Settled(q, memo[key := false], taken[key := p], proven, unfinished[key := p])
    ensures |memo| < |memo[key := false]| <= 2 * |q.f.pipelines|
  {
    YesesStay(q, memo, taken, proven, key, p);
    OneMoreVisit(q.f, memo, taken, key, p);
    RoomLeft(q.f, memo[key := false], taken[key := p]);
  }

  // A visit that fails is explained, and is no longer unfinished.
  lemma Failing(q: Query, memo: Memo, taken: Choice, unfinished: Choice, key: Visit, p: Pipeline)
    requires Unsettled(q, memo, taken, unfinished[key := p]) && key !in unfinished
    requires Explained(q, memo, p, key.covered)
    ensures Unsettled(q, memo, taken, unfinished) && Remembers(memo, key, false)
  {
    var now := unfinished[key := p];
    assert key in now;
    forall v | v in unfinished
      ensures v in taken && taken[v] == unfinished[v] && Remembers(memo, v, false)
    {
      assert v in now;
    }
  }

  // While the nos are the unfinished visits there is nothing else to explain.
  lemma SettledExplains(q: Query, memo: Memo, taken: Choice, proven: seq<Visit>, unfinished: Choice)
    requires Settled(q, memo, taken, proven, unfinished)
    ensures Unsettled(q, memo, taken, unfinished)
  {
  }

  lemma OneNoLess(memo: Memo, unfinished: Choice, key: Visit, p: Pipeline)
    requires NosAre(memo, unfinished[key := p]) && key !in unfinished && key in memo
    ensures NosAre(memo[key := true], unfinished) && memo[key := true].Keys == memo.Keys
  {
  }

  // A visit that ends well becomes a yes.
  lemma Leaving(q: Query, memo: Memo, taken: Choice, proven: seq<Visit>, unfinished: Choice, key: Visit, p: Pipeline)
    requires Settled(q, memo, taken, proven, unfinished[key := p]) && key !in unfinished
    requires Holds(q, proven, p, key.covered)
    ensures Settled(q, memo[key := true], taken, proven + [key], unfinished)
    ensures |memo[key := true]| == |memo| && Within(proven, proven + [key])
  {
    OneNoLess(memo, unfinished, key, p);
    OneMoreYes(q, memo, taken, proven, key);
  }

  class Search {
    const q: Query
    const index: Index
    var memo: Memo
    ghost var taken: Choice
    ghost var proven: seq<Visit>

    constructor (q: Query, index: Index)
      ensures this.q == q && this.index == index && memo == map[] && taken == map[] && proven == []
    {
      this.q := q;
      this.index := index;
      memo := map[];
      taken := map[];
      proven := [];
    }

    ghost predicate Ready()
      reads index
    {
      index.Valid() && index.file == q.f
    }

    // At most two states a pipeline are left to visit.
    ghost function Budget(): int
      reads this
    {
      2 * |q.f.pipelines| - |memo|
    }

    // hasProcessor.
    method PassesProcessor(p: Pipeline) returns (r: bool)
      requires Ready()
      ensures r <==> HasProcessor(q, p)
    {
      for i := 0 to |p.processors|
        invariant forall id | id in p.processors[..i] ::
                    !(Backing(q.f, Processor, id) == Some(Processor) && id.typ in q.processors)
      {
        var c := index.Resolve(Processor, p.processors[i]);
        if c.Some? && c.value.id.typ in q.processors {
          return true;
        }
      }
      assert p.processors[..|p.processors|] == p.processors;
      return false;
    }

    // Between visits: yeses are right, and the nos are exactly the visits the callers have not finished.
    ghost predicate Consistent(unfinished: Choice)
      reads this
    {
      Settled(q, memo, taken, proven, unfinished)
    }

    // After a no: it is final, so what the nos leave unexplained is only what the callers are about to fail with.
    ghost predicate Failed(unfinished: Choice)
      reads this
    {
      Unsettled(q, memo, taken, unfinished)
    }

    // The no remembered while a visit lasts, and the yes where it ends well.
    method Enter(key: Visit, ghost p: Pipeline, ghost unfinished: Choice)
      requires Consistent(unfinished) && key !in memo && p in q.f.pipelines && p.key == key.pipeline
      modifies this
      ensures Consistent(unfinished[key := p]) && key !in unfinished
      ensures memo == old(memo)[key := false] && |old(memo)| < |memo| && Budget() >= 0
      ensures proven == old(proven)
    {
      Entering(q, memo, taken, proven, unfinished, key, p);
      memo := memo[key := false];
      taken := taken[key := p];
    }

    method Leave(key: Visit, ghost p: Pipeline, ghost unfinished: Choice)
      requires Consistent(unfinished[key := p]) && key !in unfinished && Holds(q, proven, p, key.covered)
      modifies this
      ensures Consistent(unfinished) && taken == old(taken) && key in proven
      ensures |old(memo)| <= |memo| && Within(old(proven), proven)
    {
      Leaving(q, memo, taken, proven, unfinished, key, p);
      memo := memo[key := true];
      proven := proven + [key];
    }

    // The recursive walk. `unfinished` are the visits the callers have not finished.
    method Walk(current: Pipeline, covered: bool, ghost unfinished: Choice) returns (r: bool)
      requires Ready() && current in q.f.pipelines && Consistent(unfinished)
      modifies this
      ensures |old(memo)| <= |memo| && Within(old(proven), proven)
      ensures Visit(current.key, covered) in old(memo) || Taken(taken, current, covered) == current
      ensures r ==> Consistent(unfinished) && Visit(current.key, covered) in proven
      ensures !r ==> Failed(unfinished) && Remembers(memo, Visit(current.key, covered), false)
      decreases Budget(), 1
    {
      var key := Visit(current.key, covered);
      if key in memo {
        SettledExplains(q, memo, taken, proven, unfinished);
        return memo[key];
      }
      Enter(key, current, unfinished);
      ghost var now := unfinished[key := current];
      var passed := PassesProcessor(current);
      var onward := covered || passed;
      if |current.receivers| == 0 || current.dynamicReceivers {
        SettledExplains(q, memo, taken, proven, now);
        Failing(q, memo, taken, unfinished, key, current);
        return false;
      }
      var ok := References(current, onward, now);
      assert key in now && taken[key] == current;
      if !ok {
        Failing(q, memo, taken, unfinished, key, current);
        return false;
      }
      Leave(key, current, unfinished);
      r := true;
    }

    // The loop of walk over a pipeline's receivers.
    method References(current: Pipeline, covered: bool, ghost unfinished: Choice) returns (ok: bool)
      requires Ready() && current in q.f.pipelines && Consistent(unfinished)
      modifies this
      ensures |old(memo)| <= |memo| && Within(old(proven), proven)
      ensures ok ==>
                && Consistent(unfinished)
                && RefsHold(q, proven, current.receivers, |current.receivers|, current, covered)
      ensures !ok ==>
                && Failed(unfinished)
                && exists id :: id in current.receivers && RefFails(q, memo, current, covered, id)
      decreases Budget(), 4
    {
      for i := 0 to |current.receivers|
        invariant |old(memo)| <= |memo| && Within(old(proven), proven) && Consistent(unfinished)
        invariant RefsHold(q, proven, current.receivers, i, current, covered)
      {
        RoomLeft(q.f, memo, taken);
        ghost var before := proven;
        ok := Reference(current, covered, current.receivers[i], unfinished);
        if !ok {
          assert current.receivers[i] in current.receivers;
          return false;
        }
        OneMoreHolds(q, before, proven, current.receivers, i, current, covered);
      }
      ok := true;
    }

    // One receiver reference.
    method Reference(current: Pipeline, covered: bool, id: ID, ghost unfinished: Choice) returns (ok: bool)
      requires Ready() && current in q.f.pipelines && Consistent(unfinished)
      modifies this
      ensures |old(memo)| <= |memo| && Within(old(proven), proven)
      ensures ok ==> Consistent(unfinished) && RefHolds(q, proven, current, covered, id)
      ensures !ok ==> Failed(unfinished) && RefFails(q, memo, current, covered, id)
      decreases Budget(), 3
    {
      var component := index.Resolve(Receiver, id);
      if component.None? {
        return false;
      }
      if component.value.kind.Receiver? && covered {
        return true;
      }
      if !component.value.kind.Connector? || component.value.id.typ !in q.connectors {
        return false;
      }
      var producers := At(index.asExporter, id);
      assert forall up :: up in producers <==> Wires(q.f, up, Exporter, id);
      if |producers| == 0 {
        return false;
      }
      assert Wires(q.f, producers[0], Exporter, id);
      ok := Producers(producers, current, covered, id, unfinished);
    }

    // The search through a connector's producers for one that is not covered.
    method Producers(producers: seq<Pipeline>, current: Pipeline, covered: bool, ghost id: ID,
                     ghost unfinished: Choice)
      returns (ok: bool)
      requires Ready() && Consistent(unfinished) && Backing(q.f, Receiver, id) == Some(Connector)
      requires forall up | up in producers :: Wires(q.f, up, Exporter, id)
      modifies this
      ensures |old(memo)| <= |memo| && Within(old(proven), proven)
      ensures ok ==>
                && Consistent(unfinished)
                && AllSure(proven, producers, |producers|, current, covered)
      ensures !ok ==> Failed(unfinished) && RefFails(q, memo, current, covered, id)
      decreases Budget(), 2
    {
      for i := 0 to |producers|
        invariant |old(memo)| <= |memo| && Within(old(proven), proven) && Consistent(unfinished)
        invariant AllSure(proven, producers, i, current, covered)
      {
        var producer := producers[i];
        assert producer in producers && Wires(q.f, producer, Exporter, id);
        if producer.signal != current.signal {
          return false;
        }
        RoomLeft(q.f, memo, taken);
        ghost var before := proven;
        ok := Walk(producer, covered, unfinished);
        if !ok {
          return false;
        }
        OneMoreSure(before, proven, producers, i, current, covered);
      }
      ok := true;
    }
  }

  // Every exporter reference is written out: no expansion stands for the pipelines, for one of them, for its list of
  // exporters, or for an exporter in it.
  ghost predicate WritesExporters(f: File) {
    && !f.dynamicPipelines
    && forall p | p in f.pipelines ::
         !p.dynamicNode && !p.dynamicExporters && forall id | id in p.exporters :: !f.expands(id)
  }

  lemma WrittenIsNotDynamic(f: File)
    ensures WritesExporters(f) <==> !DynamicExporters(f)
  {
    if DynamicExporters(f) && !f.dynamicPipelines {
      var i :| 0 <= i < |f.pipelines|
        && (f.pipelines[i].dynamicNode || f.pipelines[i].dynamicExporters || AnyExpansion(f, f.pipelines[i].exporters));
      assert f.pipelines[i] in f.pipelines;
    }
    if !DynamicExporters(f) {
      forall p | p in f.pipelines
        ensures !p.dynamicNode && !p.dynamicExporters && forall id | id in p.exporters :: !f.expands(id)
      {
        var i :| 0 <= i < |f.pipelines| && f.pipelines[i] == p;
        assert !AnyExpansion(f, f.pipelines[i].exporters);
      }
    }
  }

  // What the Collector may find in the place of expansions: any reference in the place of one, any list in the place of
  // a list, any pipeline in the place of a pipeline, and any pipelines at all.

  ghost predicate ListMayBecome(f: File, dynamic: bool, was: seq<ID>, now: seq<ID>) {
    || dynamic
    || (|was| == |now| && forall i | 0 <= i < |was| :: f.expands(was[i]) || now[i] == was[i])
  }

  ghost predicate PipelineMayBecome(f: File, was: Pipeline, now: Pipeline) {
    || was.dynamicNode
    || (&& now.key == was.key && now.signal == was.signal
        && (now.dynamicReceivers ==> was.dynamicReceivers)
        && ListMayBecome(f, was.dynamicReceivers, was.receivers, now.receivers)
        && ListMayBecome(f, was.dynamicProcessors, was.processors, now.processors)
        && ListMayBecome(f, was.dynamicExporters, was.exporters, now.exporters))
  }

  ghost predicate MayBecome(f: File, now: File) {
    && now.sections == f.sections && now.expands == f.expands
    && (f.dynamicPipelines
        || (&& |now.pipelines| == |f.pipelines|
            && forall i | 0 <= i < |f.pipelines| :: PipelineMayBecome(f, f.pipelines[i], now.pipelines[i])))
  }

  // An expansion written for a list leaves the list itself empty.
  ghost predicate ListsAreRead(f: File) {
    forall p | p in f.pipelines ::
      && (p.dynamicReceivers ==> p.receivers == [])
      && (p.dynamicProcessors ==> p.processors == [])
      && (p.dynamicExporters ==> p.exporters == [])
  }

  ghost predicate Differs(q: Query, now: Query) {
    && WritesExporters(q.f) && ListsAreRead(q.f) && MayBecome(q.f, now.f)
    && now.processors == q.processors && now.connectors == q.connectors
  }

  // What is covered stays covered, whatever the expansions of the file come to be.
  lemma {:induction false} CoveredWhateverExpands(q: Query, now: Query, steps: nat, i: nat, covered: bool, passed: bool)
    requires Differs(q, now) && i < |q.f.pipelines| && (covered ==> passed)
    requires Derivable(q, APART, steps, q.f.pipelines[i], covered)
    ensures i < |now.f.pipelines| && Derivable(now, APART, steps, now.f.pipelines[i], passed)
    decreases steps, 1
  {
    var p, r := q.f.pipelines[i], now.f.pipelines[i];
    assert PipelineMayBecome(q.f, p, r) && p in q.f.pipelines;
    var before, onward := covered || HasProcessor(q, p), passed || HasProcessor(now, r);
    ReceiversAreWritten(q, steps, p, covered);
    ProcessorStays(q, now, p, r);
    assert r.receivers == p.receivers;
    forall id | id in r.receivers
      ensures RefCovered(now, APART, steps - 1, r, onward, id)
    {
      RefCoveredWhateverExpands(q, now, steps - 1, p, r, before, onward, id);
    }
  }

  lemma {:induction false} RefCoveredWhateverExpands(q: Query, now: Query, steps: nat, p: Pipeline, r: Pipeline,
                                                    covered: bool, passed: bool, id: ID)
    requires Differs(q, now) && (covered ==> passed) && p.signal == r.signal
    requires RefCovered(q, APART, steps, p, covered, id)
    ensures RefCovered(now, APART, steps, r, passed, id)
    decreases steps, 3
  {
    SameBacking(q.f, now.f, id);
    if Backing(q.f, Receiver, id) == Some(Connector) {
      ExportersStay(q, now, id);
      forall up | Wires(now.f, up, Exporter, id)
        ensures up.signal == r.signal && Derivable(now, APART, steps, up, passed)
      {
        FeederWhateverExpands(q, now, steps, p, covered, passed, id, up);
      }
      FeedersDerive(now, steps, r, passed, id);
    }
  }

  lemma FeedersDerive(q: Query, steps: nat, p: Pipeline, covered: bool, id: ID)
    requires Backing(q.f, Receiver, id) == Some(Connector) && id.typ in q.connectors
    requires exists up :: Wires(q.f, up, Exporter, id)
    requires forall up | Wires(q.f, up, Exporter, id) ::
               up.signal == p.signal && Derivable(q, APART, steps, up, covered)
    ensures RefCovered(q, APART, steps, p, covered, id)
  {
  }

  lemma {:induction false} FeederWhateverExpands(q: Query, now: Query, steps: nat, p: Pipeline, covered: bool,
                                                passed: bool, id: ID, up: Pipeline)
    requires Differs(q, now) && (covered ==> passed) && RefCovered(q, APART, steps, p, covered, id)
    requires Backing(q.f, Receiver, id) == Some(Connector) && Wires(now.f, up, Exporter, id)
    ensures up.signal == p.signal && Derivable(now, APART, steps, up, passed)
    decreases steps, 2
  {
    var j := FeederBefore(q, now, up, id);
    FeederDerives(q, steps, q.f.pipelines[j], p, covered, id);
    CoveredWhateverExpands(q, now, steps, j, covered, passed);
  }

  lemma SameBacking(f: File, now: File, id: ID)
    requires MayBecome(f, now)
    ensures Backing(now, Receiver, id) == Backing(f, Receiver, id)
  {
  }

  lemma FeederDerives(q: Query, steps: nat, up: Pipeline, p: Pipeline, covered: bool, id: ID)
    requires RefCovered(q, APART, steps, p, covered, id) && Wires(q.f, up, Exporter, id)
    requires Backing(q.f, Receiver, id) == Some(Connector)
    ensures up.signal == p.signal && Derivable(q, APART, steps, up, covered)
  {
  }

  lemma FeederBefore(q: Query, now: Query, up: Pipeline, id: ID) returns (j: nat)
    requires Differs(q, now) && Wires(now.f, up, Exporter, id)
    ensures j < |q.f.pipelines| == |now.f.pipelines| && now.f.pipelines[j] == up
    ensures Wires(q.f, q.f.pipelines[j], Exporter, id) && q.f.pipelines[j].signal == up.signal
  {
    ExportersStay(q, now, id);
    j :| 0 <= j < |now.f.pipelines| && now.f.pipelines[j] == up;
    assert q.f.pipelines[j] in q.f.pipelines && PipelineMayBecome(q.f, q.f.pipelines[j], up);
  }

  lemma ReceiversAreWritten(q: Query, steps: nat, p: Pipeline, covered: bool)
    requires Derivable(q, APART, steps, p, covered)
    ensures !p.dynamicReceivers && forall id | id in p.receivers :: !q.f.expands(id)
  {
    forall id | id in p.receivers
      ensures !q.f.expands(id)
    {
      assert RefCovered(q, APART, steps - 1, p, covered || HasProcessor(q, p), id);
    }
  }

  lemma ProcessorStays(q: Query, now: Query, p: Pipeline, r: Pipeline)
    requires PipelineMayBecome(q.f, p, r) && !p.dynamicNode && (p.dynamicProcessors ==> p.processors == [])
    requires MayBecome(q.f, now.f) && now.processors == q.processors
    ensures HasProcessor(q, p) ==> HasProcessor(now, r)
  {
    if id :| id in p.processors && Backing(q.f, Processor, id) == Some(Processor) && id.typ in q.processors {
      var j :| 0 <= j < |p.processors| && p.processors[j] == id;
      assert r.processors[j] == id;
      assert Backing(now.f, Processor, id) == Some(Processor);
    }
  }

  // Who feeds a connector is written out.
  lemma ExportersStay(q: Query, now: Query, id: ID)
    requires WritesExporters(q.f) && MayBecome(q.f, now.f)
    ensures |now.f.pipelines| == |q.f.pipelines|
    ensures forall j | 0 <= j < |q.f.pipelines| ::
              Wires(q.f, q.f.pipelines[j], Exporter, id) <==> Wires(now.f, now.f.pipelines[j], Exporter, id)
    ensures (exists up :: Wires(q.f, up, Exporter, id)) ==> exists up :: Wires(now.f, up, Exporter, id)
  {
    forall j | 0 <= j < |q.f.pipelines|
      ensures Wires(q.f, q.f.pipelines[j], Exporter, id) <==> Wires(now.f, now.f.pipelines[j], Exporter, id)
    {
      assert PipelineMayBecome(q.f, q.f.pipelines[j], now.f.pipelines[j]);
      assert q.f.pipelines[j] in q.f.pipelines && now.f.pipelines[j] in now.f.pipelines;
      assert now.f.pipelines[j].exporters == q.f.pipelines[j].exporters;
    }
    if up :| Wires(q.f, up, Exporter, id) {
      var j :| 0 <= j < |q.f.pipelines| && q.f.pipelines[j] == up;
      assert Wires(now.f, now.f.pipelines[j], Exporter, id);
    }
  }

  // So a yes is a yes for whatever file the Collector comes to read.
  lemma CoveredInEveryFile(q: Query, p: Pipeline)
    requires WritesExporters(q.f) && ListsAreRead(q.f) && p in q.f.pipelines && Covered(q, APART, p, false)
    ensures CoveredAnyhow(q, p)
  {
    var steps :| Derivable(q, APART, steps, p, false);
    forall now, i | MayBecome(q.f, now) && 0 <= i < |q.f.pipelines| && q.f.pipelines[i] == p
      ensures i < |now.pipelines| && Covered(q.(f := now), APART, now.pipelines[i], false)
    {
      CoveredWhateverExpands(q, q.(f := now), steps, i, false, false);
    }
  }

  ghost predicate CoveredAnyhow(q: Query, p: Pipeline) {
    forall now, i {:trigger MayBecome(q.f, now), q.f.pipelines[i]} |
      MayBecome(q.f, now) && 0 <= i < |q.f.pipelines| && q.f.pipelines[i] == p ::
      i < |now.pipelines| && Covered(q.(f := now), APART, now.pipelines[i], false)
  }

  // UpstreamCovered, for every file: a search never starts while an exporter reference may come from elsewhere, and
  // otherwise answers whether coverage is derivable, pipelines under the same key being taken for one of them. Without
  // such pipelines it is coverage itself, whatever the expansions in the file stand for.
  method UpstreamCovered(index: Index, p: Pipeline, processors: seq<string>, connectors: seq<string>)
    returns (r: bool, ghost taken: Choice)
    requires index.Valid() && p in index.file.pipelines
    ensures Chooses(index.file, taken) && Taken(taken, p, false) == p && Visit(p.key, false) in taken
    ensures r <==> WritesExporters(index.file) && Covered(Query(index.file, processors, connectors), taken, p, false)
    ensures UniqueKeys(index.file) ==>
              (r <==> WritesExporters(index.file)
                      && Covered(Query(index.file, processors, connectors), APART, p, false))
    ensures Covered(Query(index.file, processors, connectors), taken, p, false) && !r <==>
            && Covered(Query(index.file, processors, connectors), taken, p, false)
            && (|| index.file.dynamicPipelines
                || exists up | up in index.file.pipelines ::
                     up.dynamicNode || up.dynamicExporters || exists id :: id in up.exporters && index.file.expands(id))
    ensures r && UniqueKeys(index.file) && ListsAreRead(index.file) ==>
              CoveredAnyhow(Query(index.file, processors, connectors), p)
  {
    var key := Visit(p.key, false);
    WrittenIsNotDynamic(index.file);
    if DynamicExporters(index.file) {
      return false, map[key := p];
    }
    var q := Query(index.file, processors, connectors);
    var search := new Search(q, index);
    r := search.Walk(p, false, APART);
    taken := search.taken;
    if r {
      ghost var i :| 0 <= i < |search.proven| && search.proven[i] == key;
      ProvenHolds(q, search.memo, taken, search.proven, i);
    } else if Covered(q, taken, p, false) {
      ghost var steps :| Derivable(q, taken, steps, p, false);
      ExplainedNosFail(q, search.memo, taken, steps, key);
    }
    if UniqueKeys(index.file) {
      forall steps {
        UniqueKeysApart(q, taken, steps, p, false);
      }
      if r && ListsAreRead(q.f) {
        CoveredInEveryFile(q, p);
      }
    }
  }

  ghost predicate Feeds(q: Query, up: Pipeline, p: Pipeline) {
    exists id :: id in p.receivers && Backing(q.f, Receiver, id) == Some(Connector) && Wires(q.f, up, Exporter, id)
  }

  // A pipeline fed by another one under its own key waits for itself: the search answers no, even where the two
  // pipelines told apart are covered.
  lemma {:induction false} SharedKeyFeeder(q: Query, taken: Choice, steps: nat, p: Pipeline, up: Pipeline)
    requires Chooses(q.f, taken) && Visit(p.key, false) in taken && taken[Visit(p.key, false)] == p
    requires Feeds(q, up, p) && up.key == p.key && !HasProcessor(q, p)
    ensures !Derivable(q, taken, steps, p, false)
    decreases steps
  {
    if Derivable(q, taken, steps, p, false) {
      var id :| id in p.receivers && Backing(q.f, Receiver, id) == Some(Connector) && Wires(q.f, up, Exporter, id);
      assert RefCovered(q, taken, steps - 1, p, false, id);
      SharedKeyFeeder(q, taken, steps - 1, p, up);
    }
  }

  lemma SharedKeyFile(q: Query, p: Pipeline, up: Pipeline, receiver: ID, batch: ID, forwarder: ID)
    requires q.f.pipelines == [p, up] && p.receivers == [forwarder] && p.processors == p.exporters == []
    requires up.receivers == [receiver] && up.processors == [batch] && up.exporters == [forwarder]
    requires Backing(q.f, Receiver, receiver) == Some(Receiver) && Backing(q.f, Processor, batch) == Some(Processor)
    requires Backing(q.f, Receiver, forwarder) == Backing(q.f, Exporter, forwarder) == Some(Connector)
    requires batch.typ in q.processors && forwarder.typ in q.connectors && p.signal == up.signal
    requires !p.dynamicReceivers && !up.dynamicReceivers
    ensures Feeds(q, up, p) && !HasProcessor(q, p) && Derivable(q, APART, 2, p, false)
  {
    assert HasProcessor(q, up);
    assert Derivable(q, APART, 1, up, false);
    assert Wires(q.f, up, Exporter, forwarder);
    assert RefCovered(q, APART, 1, p, false, forwarder);
  }

  // Two pipelines under one key: the first receives from a connector that the second feeds, behind a processor.
  lemma SharedKeyMisleads() returns (q: Query, p: Pipeline)
    ensures WellFormed(q.f) && p in q.f.pipelines && WritesExporters(q.f) && !UniqueKeys(q.f)
    ensures Covered(q, APART, p, false)
    ensures forall taken | Chooses(q.f, taken) && Visit(p.key, false) in taken && Taken(taken, p, false) == p ::
              !Covered(q, taken, p, false)
  {
    var receiver, batch, forwarder := ID("otlp", ""), ID("batch", ""), ID("forward", "");
    p := Pipeline("traces", "traces", [forwarder], [], [], false, false, false, false);
    var up := Pipeline("traces", "traces", [receiver], [batch], [forwarder], false, false, false, false);
    var declared := map[Receiver := [Component(receiver, Receiver)], Processor := [Component(batch, Processor)],
                        Connector := [Component(forwarder, Connector)]];
    q := Query(File(declared, [], [], [p, up], false, _ => false), ["batch"], ["forward"]);
    SharedKeyFile(q, p, up, receiver, batch, forwarder);
    forall taken, steps | Chooses(q.f, taken) && Visit(p.key, false) in taken && Taken(taken, p, false) == p
      ensures !Derivable(q, taken, steps, p, false)
    {
      SharedKeyFeeder(q, taken, steps, p, up);
    }
  }

  // The same property told by paths: walk backwards through the connectors, as far as it goes.

  ghost predicate IsWalk(q: Query, w: seq<Pipeline>) {
    |w| > 0 && (|w| > 1 ==> Feeds(q, w[1], w[0]) && IsWalk(q, w[1..]))
  }

  ghost predicate Passed(q: Query, w: seq<Pipeline>) {
    exists p, id | p in w && id in p.processors ::
      && id.typ in q.processors && !q.f.expands(id)
      && Processor in q.f.sections && exists c :: c in q.f.sections[Processor] && c.id == id
  }

  lemma ProcessorIsListed(q: Query, p: Pipeline)
    ensures HasProcessor(q, p) <==>
            exists id | id in p.processors ::
              && id.typ in q.processors && !q.f.expands(id)
              && Processor in q.f.sections && exists c :: c in q.f.sections[Processor] && c.id == id
  {
    forall id
      ensures Backing(q.f, Processor, id) == Some(Processor) <==>
              !q.f.expands(id) && Processor in q.f.sections && exists c :: c in q.f.sections[Processor] && c.id == id
    {
      ResolvesTo(q.f, Processor, id, Processor);
    }
  }

  lemma PassedIs(q: Query, w: seq<Pipeline>)
    ensures Passed(q, w) <==> exists p :: p in w && HasProcessor(q, p)
  {
    forall p
      ensures HasProcessor(q, p) <==>
              exists id | id in p.processors ::
                && id.typ in q.processors && !q.f.expands(id)
                && Processor in q.f.sections && exists c :: c in q.f.sections[Processor] && c.id == id
    {
      ProcessorIsListed(q, p);
    }
  }

  // A walk may stop here: what comes in has passed a processor, and what comes from elsewhere comes through connectors
  // that may be followed, carry the same signal, and have someone feeding them.
  ghost predicate Sound(q: Query, p: Pipeline, passed: bool) {
    && p.receivers != []
    && !p.dynamicReceivers
    && forall id | id in p.receivers ::
         match Backing(q.f, Receiver, id)
         case Some(Receiver) => passed
         case Some(Connector) =>
           && id.typ in q.connectors
           && (exists up :: Wires(q.f, up, Exporter, id))
           && forall up | Wires(q.f, up, Exporter, id) :: up.signal == p.signal
         case _ => false
  }

  ghost predicate EveryWalkSound(q: Query, p: Pipeline, covered: bool, bound: nat) {
    forall w | IsWalk(q, w) && w[0] == p :: |w| <= bound && Sound(q, w[|w| - 1], covered || Passed(q, w))
  }

  lemma PassedFirst(q: Query, p: Pipeline, w: seq<Pipeline>)
    ensures Passed(q, [p] + w) <==> HasProcessor(q, p) || Passed(q, w)
  {
    PassedIs(q, w);
    PassedIs(q, [p] + w);
    assert p in [p] + w;
    assert forall x | x in w :: x in [p] + w;
  }

  lemma DerivableIsSound(q: Query, steps: nat, p: Pipeline, covered: bool)
    requires Derivable(q, APART, steps, p, covered)
    ensures Sound(q, p, covered || HasProcessor(q, p))
  {
    var onward := covered || HasProcessor(q, p);
    forall id | id in p.receivers
      ensures match Backing(q.f, Receiver, id)
              case Some(Receiver) => onward
              case Some(Connector) =>
                && id.typ in q.connectors
                && (exists up :: Wires(q.f, up, Exporter, id))
                && forall up | Wires(q.f, up, Exporter, id) :: up.signal == p.signal
              case _ => false
    {
      assert RefCovered(q, APART, steps - 1, p, onward, id);
    }
  }

  lemma FeederIsDerivable(q: Query, steps: nat, up: Pipeline, p: Pipeline, covered: bool)
    requires Feeds(q, up, p) && Derivable(q, APART, steps, p, covered)
    ensures steps > 0 && Derivable(q, APART, steps - 1, up, covered || HasProcessor(q, p))
  {
    var id :| id in p.receivers && Backing(q.f, Receiver, id) == Some(Connector) && Wires(q.f, up, Exporter, id);
    assert RefCovered(q, APART, steps - 1, p, covered || HasProcessor(q, p), id);
  }

  // Carrying what was passed along the walk comes to the same as looking back over it.
  ghost predicate EndsSound(q: Query, w: seq<Pipeline>, covered: bool)
    requires |w| > 0
  {
    var onward := covered || HasProcessor(q, w[0]);
    if |w| == 1 then Sound(q, w[0], onward) else EndsSound(q, w[1..], onward)
  }

  lemma {:induction false} EndsSoundLooksBack(q: Query, w: seq<Pipeline>, covered: bool)
    requires |w| > 0
    ensures EndsSound(q, w, covered) <==> Sound(q, w[|w| - 1], covered || Passed(q, w))
  {
    assert w == [w[0]] + w[1..];
    PassedFirst(q, w[0], w[1..]);
    if |w| > 1 {
      EndsSoundLooksBack(q, w[1..], covered || HasProcessor(q, w[0]));
    }
  }

  lemma {:induction false} DerivableWalks(q: Query, steps: nat, w: seq<Pipeline>, covered: bool)
    requires IsWalk(q, w) && Derivable(q, APART, steps, w[0], covered)
    ensures |w| <= steps && EndsSound(q, w, covered)
    decreases |w|
  {
    if |w| == 1 {
      DerivableIsSound(q, steps, w[0], covered);
    } else {
      FeederIsDerivable(q, steps, w[1], w[0], covered);
      DerivableWalks(q, steps - 1, w[1..], covered || HasProcessor(q, w[0]));
    }
  }

  lemma FeederWalksAreSound(q: Query, bound: nat, up: Pipeline, p: Pipeline, covered: bool)
    requires EveryWalkSound(q, p, covered, bound) && Feeds(q, up, p)
    ensures bound > 0 && EveryWalkSound(q, up, covered || HasProcessor(q, p), bound - 1)
  {
    assert IsWalk(q, [p]) && [p][0] == p;
    forall w | IsWalk(q, w) && w[0] == up
      ensures |w| <= bound - 1 && Sound(q, w[|w| - 1], covered || HasProcessor(q, p) || Passed(q, w))
    {
      var longer := [p] + w;
      assert longer[1..] == w;
      assert IsWalk(q, longer) && longer[0] == p;
      PassedFirst(q, p, w);
    }
  }

  lemma {:induction false} WalksDerive(q: Query, bound: nat, p: Pipeline, covered: bool)
    requires EveryWalkSound(q, p, covered, bound)
    ensures Derivable(q, APART, bound, p, covered)
    decreases bound
  {
    var onward := covered || HasProcessor(q, p);
    StandsSound(q, bound, p, covered);
    forall up | Feeds(q, up, p)
      ensures Derivable(q, APART, bound - 1, up, onward)
    {
      FeederWalksAreSound(q, bound, up, p, covered);
      WalksDerive(q, bound - 1, up, onward);
    }
    SoundDerives(q, bound - 1, p, covered);
  }

  lemma SoundDerives(q: Query, steps: nat, p: Pipeline, covered: bool)
    requires Sound(q, p, covered || HasProcessor(q, p))
    requires forall up | Feeds(q, up, p) :: Derivable(q, APART, steps, up, covered || HasProcessor(q, p))
    ensures Derivable(q, APART, steps + 1, p, covered)
  {
    var onward := covered || HasProcessor(q, p);
    forall id | id in p.receivers
      ensures RefCovered(q, APART, steps, p, onward, id)
    {
      if Backing(q.f, Receiver, id) == Some(Connector) {
        assert forall up | Wires(q.f, up, Exporter, id) :: Feeds(q, up, p);
      }
    }
  }

  lemma StandsSound(q: Query, bound: nat, p: Pipeline, covered: bool)
    requires EveryWalkSound(q, p, covered, bound)
    ensures bound > 0 && Sound(q, p, covered || HasProcessor(q, p))
  {
    assert IsWalk(q, [p]) && [p][0] == p;
    PassedFirst(q, p, []);
    assert [p] + [] == [p];
  }

  // Coverage is exactly: backward walks do not go on for ever, and every one of them is sound where it stands.
  lemma CoveredIsEveryWalk(q: Query, p: Pipeline)
    ensures Covered(q, APART, p, false) <==> exists bound :: EveryWalkSound(q, p, false, bound)
  {
    if Covered(q, APART, p, false) {
      var steps :| Derivable(q, APART, steps, p, false);
      forall w | IsWalk(q, w) && w[0] == p
        ensures |w| <= steps && Sound(q, w[|w| - 1], false || Passed(q, w))
      {
        DerivableWalks(q, steps, w, false);
        EndsSoundLooksBack(q, w, false);
      }
      assert EveryWalkSound(q, p, false, steps);
    }
    if bound :| EveryWalkSound(q, p, false, bound) {
      WalksDerive(q, bound, p, false);
    }
  }
}
