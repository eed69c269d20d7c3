// The reading of a mapping spelt out on its entries: which are its own, which merge something in, and which one a key
// is found in; and that the rewritten mapping holds every key as often as that reading has it, and no more.
module Reading {
  import opened YamlGraph
  import opened Preflight
  import opened Merge

  // Entry `i` is the mapping's own, under this key.
  ghost predicate IsOwn(kids: seq<Tree>, key: string, i: nat) {
    2 * i + 1 < |kids| && kids[2 * i].node.tag != "!!merge" && Target(kids[2 * i]).node.value == key
  }

  ghost predicate IsMerge(kids: seq<Tree>, i: nat) {
    2 * i + 1 < |kids| && kids[2 * i].node.tag == "!!merge"
  }

  // What is merged in there: the mapping its value stands for, or every item of the sequence.
  ghost function Merged(kids: seq<Tree>, i: nat): seq<Tree>
    requires IsMerge(kids, i)
  {
    var u := Target(kids[2 * i + 1]);
    if u.node.kind.Mapping? then [u] else u.kids
  }

  ghost predicate Supplies(kids: seq<Tree>, key: string, i: nat, j: nat) {
    IsMerge(kids, i) && j < |Merged(kids, i)| && Find(Target(Merged(kids, i)[j]), key).Some?
  }

  ghost predicate FirstOwn(kids: seq<Tree>, key: string, i: nat) {
    IsOwn(kids, key, i) && forall h | 0 <= h < i :: !IsOwn(kids, key, h)
  }

  ghost predicate FirstSupplied(kids: seq<Tree>, key: string, i: nat, j: nat) {
    && Supplies(kids, key, i, j)
    && (forall h: nat, l: nat | h < i :: !Supplies(kids, key, h, l))
    && (forall l | 0 <= l < j :: !Supplies(kids, key, i, l))
  }

  // A key has the value of the first entry the mapping writes under it; failing that, what the first source that has
  // the key means by it; and no value where no source has it.
  lemma FindIs(m: Tree, key: string)
    ensures forall i | FirstOwn(m.kids, key, i) :: Find(m, key) == Some(m.kids[2 * i + 1])
    ensures forall i: nat, j: nat | FirstSupplied(m.kids, key, i, j) && (forall h: nat :: !IsOwn(m.kids, key, h)) ::
              Find(m, key) == Find(Target(Merged(m.kids, i)[j]), key)
    ensures (forall h: nat :: !IsOwn(m.kids, key, h)) && (forall h: nat, l: nat :: !Supplies(m.kids, key, h, l)) ==>
              Find(m, key) == None
  {
    forall i | FirstOwn(m.kids, key, i)
      ensures FindOwn(m.kids, key) == Some(m.kids[2 * i + 1])
    {
      OwnIs(m.kids, key, i);
    }
    if forall h: nat :: !IsOwn(m.kids, key, h) {
      OwnIsNot(m.kids, key);
      forall i: nat, j: nat | FirstSupplied(m.kids, key, i, j)
        ensures FindMerged(m.kids, key) == Find(Target(Merged(m.kids, i)[j]), key)
      {
        MergedIs(m.kids, key, i, j);
      }
      if forall h: nat, l: nat :: !Supplies(m.kids, key, h, l) {
        MergedIsNot(m.kids, key);
      }
    }
  }

  lemma OneOn(kids: seq<Tree>, key: string, i: nat)
    requires |kids| >= 2
    ensures IsOwn(kids[2..], key, i) <==> IsOwn(kids, key, i + 1)
    ensures IsMerge(kids[2..], i) <==> IsMerge(kids, i + 1)
    ensures IsMerge(kids[2..], i) ==> Merged(kids[2..], i) == Merged(kids, i + 1)
  {
    if 2 * i + 1 < |kids[2..]| {
      assert kids[2..][2 * i] == kids[2 * (i + 1)] && kids[2..][2 * i + 1] == kids[2 * (i + 1) + 1];
    }
  }

  lemma {:induction false} OwnIs(kids: seq<Tree>, key: string, i: nat)
    requires FirstOwn(kids, key, i)
    ensures FindOwn(kids, key) == Some(kids[2 * i + 1])
    decreases i
  {
    assert kids[2 * 0] == kids[0];
    if i > 0 {
      assert !IsOwn(kids, key, 0);
      forall h | 0 <= h < i
        ensures IsOwn(kids[2..], key, h) <==> IsOwn(kids, key, h + 1)
      {
        OneOn(kids, key, h);
      }
      OwnIs(kids[2..], key, i - 1);
    }
  }

  lemma {:induction false} OwnIsNot(kids: seq<Tree>, key: string)
    requires forall h: nat :: !IsOwn(kids, key, h)
    ensures FindOwn(kids, key) == None
  {
    if |kids| >= 2 {
      assert !IsOwn(kids, key, 0) && kids[2 * 0] == kids[0];
      forall h: nat
        ensures !IsOwn(kids[2..], key, h)
      {
        OneOn(kids, key, h);
      }
      OwnIsNot(kids[2..], key);
    }
  }

  lemma {:induction false} ListedIs(sources: seq<Tree>, key: string, j: nat)
    requires j <= |sources| && forall l | 0 <= l < j :: Find(Target(sources[l]), key).None?
    requires j < |sources| ==> Find(Target(sources[j]), key).Some?
    ensures FindListed(sources, key) == if j < |sources| then Find(Target(sources[j]), key) else None
    decreases j
  {
    if j > 0 {
      forall l | 0 <= l < j - 1
        ensures Find(Target(sources[1..][l]), key).None?
      {
        assert sources[1..][l] == sources[l + 1];
      }
      ListedIs(sources[1..], key, j - 1);
    }
  }

  lemma {:induction false} MergedIs(kids: seq<Tree>, key: string, i: nat, j: nat)
    requires FirstSupplied(kids, key, i, j)
    ensures FindMerged(kids, key) == Find(Target(Merged(kids, i)[j]), key)
    decreases i
  {
    PairSize(kids);
    assert kids[2 * 0] == kids[0];
    if i == 0 {
      assert Merged(kids, 0) == Listed(kids[1]);
      forall l | 0 <= l < j
        ensures Find(Target(Listed(kids[1])[l]), key).None?
      {
        assert !Supplies(kids, key, 0, l);
      }
      ListedIs(Listed(kids[1]), key, j);
    } else {
      NoneListed(kids, key);
      forall h: nat
        ensures IsMerge(kids[2..], h) <==> IsMerge(kids, h + 1)
        ensures IsMerge(kids[2..], h) ==> Merged(kids[2..], h) == Merged(kids, h + 1)
      {
        OneOn(kids, key, h);
      }
      SuppliedLater(kids, key, i, j);
      MergedIs(kids[2..], key, i - 1, j);
    }
  }

  lemma SuppliedLater(kids: seq<Tree>, key: string, i: nat, j: nat)
    requires |kids| >= 2 && i > 0 && FirstSupplied(kids, key, i, j)
    ensures FirstSupplied(kids[2..], key, i - 1, j)
  {
    var rest, before := kids[2..], i - 1;
    OneOn(kids, key, before);
    forall h: nat, l: nat | h < before
      ensures !Supplies(rest, key, h, l)
    {
      OneOn(kids, key, h);
      assert !Supplies(kids, key, h + 1, l);
    }
    forall l | 0 <= l < j
      ensures !Supplies(rest, key, before, l)
    {
      assert !Supplies(kids, key, i, l);
    }
  }

  // A first entry that supplies nothing is passed over.
  lemma NoneListed(kids: seq<Tree>, key: string)
    requires |kids| >= 2 && forall l: nat :: !Supplies(kids, key, 0, l)
    ensures FindMerged(kids, key) == FindMerged(kids[2..], key)
  {
    PairSize(kids);
    assert kids[2 * 0] == kids[0];
    if IsMergeKey(kids[0]) {
      assert IsMerge(kids, 0) && Merged(kids, 0) == Listed(kids[1]);
      forall l | 0 <= l < |Listed(kids[1])|
        ensures Find(Target(Listed(kids[1])[l]), key).None?
      {
        assert !Supplies(kids, key, 0, l);
      }
      ListedIs(Listed(kids[1]), key, |Listed(kids[1])|);
    }
  }

  lemma {:induction false} MergedIsNot(kids: seq<Tree>, key: string)
    requires forall h: nat, l: nat :: !Supplies(kids, key, h, l)
    ensures FindMerged(kids, key) == None
  {
    if |kids| >= 2 {
      NoneListed(kids, key);
      forall h: nat, l: nat
        ensures !Supplies(kids[2..], key, h, l)
      {
        OneOn(kids, key, h);
        assert !Supplies(kids, key, h + 1, l);
      }
      MergedIsNot(kids[2..], key);
    }
  }

  // The plain reader takes the first entry under a key.
  lemma {:induction false} PlainFindIs(kids: seq<Tree>, key: string, i: nat)
    requires 2 * i + 1 < |kids| && kids[2 * i].node.value == key
    requires forall h | 0 <= h < i :: kids[2 * h].node.value != key
    ensures PlainFind(kids, key) == Some(kids[2 * i + 1])
    decreases i
  {
    if i > 0 {
      assert kids[2 * 0].node.value != key;
      forall h | 0 <= h < i - 1
        ensures kids[2..][2 * h].node.value != key
      {
        assert kids[2..][2 * h] == kids[2 * (h + 1)];
      }
      assert kids[2..][2 * (i - 1)] == kids[2 * i] && kids[2..][2 * (i - 1) + 1] == kids[2 * i + 1];
      PlainFindIs(kids[2..], key, i - 1);
    }
  }

  // How often a key is written.

  ghost function PlainCount(kids: seq<Tree>, key: string): nat {
    if |kids| < 2 then 0 else (if kids[0].node.value == key then 1 else 0) + PlainCount(kids[2..], key)
  }

  ghost function OwnCount(kids: seq<Tree>, key: string): nat {
    if |kids| < 2 then 0
    else
      (if kids[0].node.tag != "!!merge" && Target(kids[0]).node.value == key then 1 else 0) + OwnCount(kids[2..], key)
  }

  lemma {:induction false} PlainCountConcat(xs: seq<Tree>, ys: seq<Tree>, key: string)
    requires |xs| % 2 == 0
    ensures PlainCount(xs + ys, key) == PlainCount(xs, key) + PlainCount(ys, key)
  {
    if xs == [] {
      assert xs + ys == ys;
    } else {
      assert (xs + ys)[2..] == xs[2..] + ys;
      PlainCountConcat(xs[2..], ys, key);
    }
  }

  lemma {:induction false} OwnCounts(kids: seq<Tree>, key: string)
    requires AllSane(kids)
    ensures PlainCount(Own(kids), key) == OwnCount(kids, key)
    ensures OwnCount(kids, key) > 0 <==> FindOwn(kids, key).Some?
  {
    if |kids| >= 2 {
      TargetSettles(kids[0]);
      OwnCounts(kids[2..], key);
      var pair := [Resolved(kids[0]), Resolved(kids[1])];
      assert (pair + Own(kids[2..]))[2..] == Own(kids[2..]);
    }
  }

  lemma {:induction false} OneCounts(kids: seq<Tree>, seen: set<string>, key: string)
    ensures PlainCount(FromOne(kids, seen), key) == if key in seen || PlainFind(kids, key).None? then 0 else 1
    decreases |kids|
  {
    if |kids| >= 2 {
      if kids[0].node.value in seen {
        OneCounts(kids[2..], seen, key);
      } else {
        var more := seen + {kids[0].node.value};
        OneCounts(kids[2..], more, key);
        assert (kids[..2] + FromOne(kids[2..], more))[2..] == FromOne(kids[2..], more);
      }
    }
  }

  lemma {:induction false} AllCounts(sources: seq<Tree>, seen: set<string>, key: string)
    ensures PlainCount(FromAll(sources, seen), key) == if key in seen || PlainFirst(sources, key).None? then 0 else 1
    decreases |sources|
  {
    if sources != [] {
      var one, more := FromOne(sources[0].kids, seen), seen + Keys(sources[0].kids);
      OneCounts(sources[0].kids, seen, key);
      FromOneFinds(sources[0].kids, seen, key);
      KeysAreFound(sources[0].kids, key);
      AllCounts(sources[1..], more, key);
      PlainCountConcat(one, FromAll(sources[1..], more), key);
    }
  }

  // The rewritten mapping holds a key as often as the mapping writes it itself, and once where it only merges it in.
  lemma {:induction false} KeysAsWritten(m: Tree, key: string)
    requires m.node.kind.Mapping? && Sane(m)
    ensures PlainCount(Resolved(m).kids, key) ==
            if OwnCount(m.kids, key) > 0 then OwnCount(m.kids, key) else if Find(m, key).Some? then 1 else 0
  {
    var own := Own(m.kids);
    OwnCounts(m.kids, key);
    OwnFinds(m.kids, key);
    KeysAreFound(own, key);
    NodeEntriesDecode(m.kids);
    MergedResolved(m.kids, key);
    AllCounts(Sources(m.kids), Keys(own), key);
    PlainCountConcat(own, FromAll(Sources(m.kids), Keys(own)), key);
  }
}
