// The shape of a resolved document: no alias and no merge key is left in it, and it never unfolds into more nodes than
// the document the preflight measured.
module MergeShape {
  import opened YamlGraph
  import opened Preflight
  import opened Merge

  ghost predicate NoAliases(t: Tree) {
    !t.node.kind.Alias? && AllNoAliases(t.kids)
  }

  ghost predicate AllNoAliases(ts: seq<Tree>) {
    forall t | t in ts :: NoAliases(t)
  }

  // No key of any mapping carries the merge tag.
  ghost predicate NoMergeKeys(t: Tree) {
    (t.node.kind.Mapping? ==> KeysOrdinary(t.kids)) && AllNoMergeKeys(t.kids)
  }

  ghost predicate AllNoMergeKeys(ts: seq<Tree>) {
    forall t | t in ts :: NoMergeKeys(t)
  }

  ghost predicate KeysOrdinary(kids: seq<Tree>) {
    |kids| >= 2 ==> !IsMergeKey(kids[0]) && KeysOrdinary(kids[2..])
  }

  // No mapping has a key that is an alias of a merge key.
  ghost predicate NoKeyNamesMerge(t: Tree) {
    (t.node.kind.Mapping? ==> OwnKeysPlain(t.kids)) && forall i | 0 <= i < |t.kids| :: NoKeyNamesMerge(t.kids[i])
  }

  ghost predicate OwnKeysPlain(kids: seq<Tree>) {
    |kids| >= 2 ==> (IsMergeKey(kids[0]) || !IsMergeKey(Target(kids[0]))) && OwnKeysPlain(kids[2..])
  }

  // The entries a mapping writes itself keep a merge key exactly where a key is an alias of one.
  lemma {:induction false} OwnKeysOrdinary(kids: seq<Tree>)
    requires AllSane(kids)
    ensures KeysOrdinary(Own(kids)) <==> OwnKeysPlain(kids)
  {
    if |kids| >= 2 {
      OwnKeysOrdinary(kids[2..]);
      TargetSettles(kids[0]);
      var pair := [Resolved(kids[0]), Resolved(kids[1])];
      assert (pair + Own(kids[2..]))[2..] == Own(kids[2..]);
    }
  }

  lemma {:induction false} KeysOrdinaryBefore(xs: seq<Tree>, ys: seq<Tree>)
    requires |xs| % 2 == 0 && KeysOrdinary(xs + ys)
    ensures KeysOrdinary(xs)
  {
    if xs != [] {
      assert (xs + ys)[2..] == xs[2..] + ys;
      KeysOrdinaryBefore(xs[2..], ys);
    }
  }

  // Resolution leaves no alias.
  lemma {:induction false} ResolvedHasNoAliases(t: Tree)
    requires AliasesNamed(t)
    ensures NoAliases(Resolved(t))
    decreases Size(t), 1
  {
    match t.node.kind
    case Alias =>
      KidIsSmaller(t.kids, 0);
      ResolvedHasNoAliases(t.kids[0]);
    case Mapping =>
      OwnHasNoAliases(t.kids);
      FromAllKeeps(Sources(t.kids), Keys(Own(t.kids)));
    case _ =>
      forall i | 0 <= i < |t.kids|
        ensures NoAliases(ResolvedAll(t.kids)[i])
      {
        KidIsSmaller(t.kids, i);
        ResolvedAllAt(t.kids, i);
        ResolvedHasNoAliases(t.kids[i]);
      }
  }

  lemma {:induction false} OwnHasNoAliases(kids: seq<Tree>)
    requires forall i | 0 <= i < |kids| :: AliasesNamed(kids[i])
    ensures AllNoAliases(Own(kids))
    ensures forall s | s in Sources(kids) :: AllNoAliases(s.kids)
    decreases SumSize(kids), 2
  {
    if |kids| >= 2 {
      PairSize(kids);
      OwnHasNoAliases(kids[2..]);
      ResolvedHasNoAliases(kids[0]);
      ResolvedHasNoAliases(kids[1]);
      assert forall s | s in Supplied(Resolved(kids[1])) :: NoAliases(s);
    }
  }

  // Entries taken from sources are entries of the sources.
  lemma {:induction false} FromOneKeeps(kids: seq<Tree>, seen: set<string>)
    ensures forall x | x in FromOne(kids, seen) :: x in kids
    ensures KeysOrdinary(kids) ==> KeysOrdinary(FromOne(kids, seen))
  {
    if |kids| >= 2 {
      FromOneKeeps(kids[2..], seen);
      FromOneKeeps(kids[2..], seen + {kids[0].node.value});
      assert (kids[..2] + FromOne(kids[2..], seen + {kids[0].node.value}))[2..] ==
        FromOne(kids[2..], seen + {kids[0].node.value});
    }
  }

  lemma {:induction false} KeysOrdinaryConcat(xs: seq<Tree>, ys: seq<Tree>)
    requires |xs| % 2 == 0 && KeysOrdinary(xs) && KeysOrdinary(ys)
    ensures KeysOrdinary(xs + ys)
  {
    if xs == [] {
      assert xs + ys == ys;
    } else {
      assert (xs + ys)[2..] == xs[2..] + ys;
      KeysOrdinaryConcat(xs[2..], ys);
    }
  }

  lemma {:induction false} FromAllKeeps(sources: seq<Tree>, seen: set<string>)
    ensures forall x | x in FromAll(sources, seen) :: exists s :: s in sources && x in s.kids
    ensures (forall s | s in sources :: KeysOrdinary(s.kids)) ==> KeysOrdinary(FromAll(sources, seen))
  {
    if sources != [] {
      var rest := sources[1..];
      var tail := FromAll(rest, seen + Keys(sources[0].kids));
      FromOneKeeps(sources[0].kids, seen);
      FromAllKeeps(rest, seen + Keys(sources[0].kids));
      forall x | x in FromAll(sources, seen)
        ensures exists s :: s in sources && x in s.kids
      {
        if x in tail {
          var s :| s in rest && x in s.kids;
          assert s in sources;
        }
      }
      if forall s | s in sources :: KeysOrdinary(s.kids) {
        FromOneFinds(sources[0].kids, seen, "");
        KeysOrdinaryConcat(FromOne(sources[0].kids, seen), tail);
      }
    }
  }

  // Resolution leaves no merge key.
  lemma {:induction false} ResolvedHasNoMergeKeys(t: Tree)
    requires Sane(t) && NoKeyNamesMerge(t)
    ensures NoMergeKeys(Resolved(t))
    decreases Size(t), 1
  {
    match t.node.kind
    case Alias =>
      KidIsSmaller(t.kids, 0);
      ResolvedHasNoMergeKeys(t.kids[0]);
    case Mapping =>
      NodeEntriesDecode(t.kids);
      OwnHasNoMergeKeys(t.kids);
      OwnKeysOrdinary(t.kids);
      var own := Own(t.kids);
      FromAllKeeps(Sources(t.kids), Keys(own));
      KeysOrdinaryConcat(own, FromAll(Sources(t.kids), Keys(own)));
    case _ =>
      forall i | 0 <= i < |t.kids|
        ensures NoMergeKeys(ResolvedAll(t.kids)[i])
      {
        KidIsSmaller(t.kids, i);
        ResolvedAllAt(t.kids, i);
        ResolvedHasNoMergeKeys(t.kids[i]);
      }
  }

  lemma {:induction false} OwnHasNoMergeKeys(kids: seq<Tree>)
    requires AllSane(kids) && EntriesDecode(kids) && forall i | 0 <= i < |kids| :: NoKeyNamesMerge(kids[i])
    ensures AllNoMergeKeys(Own(kids))
    ensures forall s | s in Sources(kids) :: KeysOrdinary(s.kids) && AllNoMergeKeys(s.kids)
    decreases SumSize(kids), 2
  {
    if |kids| >= 2 {
      PairSize(kids);
      OwnHasNoMergeKeys(kids[2..]);
      ResolvedHasNoMergeKeys(kids[0]);
      ResolvedHasNoMergeKeys(kids[1]);
      TargetSettles(kids[0]);
      if IsMergeKey(kids[0]) {
        SuppliedAreMappings(kids[0], kids[1]);
        assert forall s | s in Supplied(Resolved(kids[1])) :: s.node.kind.Mapping? && NoMergeKeys(s);
      }
    }
  }

  // And it leaves one in a mapping, everything under which is as it should be, exactly when a key of that mapping is an
  // alias of a merge key: the rewrite looks at the tag of the key as written, and puts the target in its place.
  lemma MergeKeySurvives(t: Tree)
    requires Sane(t) && t.node.kind.Mapping? && forall i | 0 <= i < |t.kids| :: NoKeyNamesMerge(t.kids[i])
    ensures NoMergeKeys(Resolved(t)) <==> OwnKeysPlain(t.kids)
  {
    if OwnKeysPlain(t.kids) {
      ResolvedHasNoMergeKeys(t);
    } else if NoMergeKeys(Resolved(t)) {
      KeysOrdinaryBefore(Own(t.kids), FromAll(Sources(t.kids), Keys(Own(t.kids))));
      OwnKeysOrdinary(t.kids);
    }
  }

  // What the preflight checked of the written sources holds of the rewritten ones.
  lemma SuppliedAreMappings(k: Tree, v: Tree)
    requires Sane(v) && EntryDecodes(k, v) && IsMergeKey(k)
    ensures forall s | s in Supplied(Resolved(v)) :: s.node.kind.Mapping?
  {
    var u := Target(v);
    TargetSettles(v);
    if !u.node.kind.Mapping? {
      assert u in Candidates(v) || u.node.kind.Sequence?;
      forall i | 0 <= i < |u.kids|
        ensures ResolvedAll(u.kids)[i].node.kind.Mapping?
      {
        assert u.kids[i] in Candidates(v);
        TargetSettles(u.kids[i]);
        ResolvedAllAt(u.kids, i);
      }
    }
  }

  // Resolution never enlarges the unfolding.

  ghost function EntrySizes(sources: seq<Tree>): nat {
    if sources == [] then 0 else SumSize(sources[0].kids) + EntrySizes(sources[1..])
  }

  lemma {:induction false} EntrySizesConcat(xs: seq<Tree>, ys: seq<Tree>)
    ensures EntrySizes(xs + ys) == EntrySizes(xs) + EntrySizes(ys)
  {
    if xs == [] {
      assert xs + ys == ys;
    } else {
      assert (xs + ys)[1..] == xs[1..] + ys;
      EntrySizesConcat(xs[1..], ys);
    }
  }

  lemma {:induction false} EntriesFit(sources: seq<Tree>)
    ensures EntrySizes(sources) <= SumSize(sources)
  {
    if sources != [] {
      EntriesFit(sources[1..]);
    }
  }

  lemma {:induction false} FromOneFits(kids: seq<Tree>, seen: set<string>)
    ensures SumSize(FromOne(kids, seen)) <= SumSize(kids)
  {
    if |kids| >= 2 {
      PairSize(kids);
      if kids[0].node.value in seen {
        FromOneFits(kids[2..], seen);
      } else {
        FromOneFits(kids[2..], seen + {kids[0].node.value});
        SumSizeConcat(kids[..2], FromOne(kids[2..], seen + {kids[0].node.value}));
        SumSizeConcat(kids[..2], kids[2..]);
        assert kids == kids[..2] + kids[2..];
      }
    }
  }

  lemma {:induction false} FromAllFits(sources: seq<Tree>, seen: set<string>)
    ensures SumSize(FromAll(sources, seen)) <= EntrySizes(sources)
  {
    if sources != [] {
      FromOneFits(sources[0].kids, seen);
      FromAllFits(sources[1..], seen + Keys(sources[0].kids));
      SumSizeConcat(FromOne(sources[0].kids, seen), FromAll(sources[1..], seen + Keys(sources[0].kids)));
    }
  }

  lemma {:induction false} ResolvedFits(t: Tree)
    ensures Size(Resolved(t)) <= Size(t)
    decreases Size(t), 1
  {
    match t.node.kind
    case Alias =>
      if t.kids != [] {
        KidIsSmaller(t.kids, 0);
        ResolvedFits(t.kids[0]);
      }
    case Mapping =>
      var own := Own(t.kids);
      OwnFits(t.kids);
      FromAllFits(Sources(t.kids), Keys(own));
      SumSizeConcat(own, FromAll(Sources(t.kids), Keys(own)));
    case _ => AllFit(t.kids);
  }

  lemma {:induction false} AllFit(ts: seq<Tree>)
    ensures SumSize(ResolvedAll(ts)) <= SumSize(ts)
    decreases SumSize(ts), 2
  {
    if ts != [] {
      ResolvedFits(ts[0]);
      AllFit(ts[1..]);
    }
  }

  lemma {:induction false} OwnFits(kids: seq<Tree>)
    ensures SumSize(Own(kids)) + EntrySizes(Sources(kids)) <= SumSize(kids)
    decreases SumSize(kids), 2
  {
    if |kids| >= 2 {
      PairSize(kids);
      OwnFits(kids[2..]);
      ResolvedFits(kids[0]);
      ResolvedFits(kids[1]);
      if IsMergeKey(kids[0]) {
        var v := Resolved(kids[1]);
        EntrySizesConcat(Supplied(v), Sources(kids[2..]));
        EntriesFit(v.kids);
        assert EntrySizes([v]) == SumSize(v.kids);
      } else {
        var pair := [Resolved(kids[0]), Resolved(kids[1])];
        SumSizeConcat(pair, Own(kids[2..]));
        PairSize(pair);
      }
    }
  }
}
