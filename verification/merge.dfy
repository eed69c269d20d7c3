// What resolving aliases and merge keys does to a document, as a function on its unfolding, and what it must not
// change.
//
// `Find` and `Read` say what the written document means: an alias is its target, a mapping's own entry wins, and
// otherwise the first source in document order that carries the key supplies it, read by the same rule. `PlainFind` and
// `PlainRead` are a reader that knows nothing of aliases or merge keys. ResolutionPreservesMeaning joins the two.
module Merge {
  import opened YamlGraph
  import opened Preflight

  datatype Option<+T> = None | Some(value: T)

  ghost predicate IsMergeKey(k: Tree) {
    k.node.tag == MERGE_TAG
  }

  // The rewrite.

  ghost function Resolved(t: Tree): Tree
    decreases Size(t), 1
  {
    match t.node.kind
    case Alias => if t.kids == [] then t else KidIsSmaller(t.kids, 0); Resolved(t.kids[0])
    case Mapping =>
      var own := Own(t.kids);
      Tree(t.node, own + FromAll(Sources(t.kids), Keys(own)))
    case _ => Tree(t.node, ResolvedAll(t.kids))
  }

  ghost function ResolvedAll(ts: seq<Tree>): (rs: seq<Tree>)
    ensures |rs| == |ts|
    decreases SumSize(ts), 2
  {
    if ts == [] then [] else [Resolved(ts[0])] + ResolvedAll(ts[1..])
  }

  // The entries a mapping writes itself.
  ghost function Own(kids: seq<Tree>): (own: seq<Tree>)
    ensures |own| % 2 == 0
    decreases SumSize(kids), 2
  {
    if |kids| < 2 then []
    else
      PairSize(kids);
      var rest := Own(kids[2..]);
      if IsMergeKey(kids[0]) then rest else [Resolved(kids[0]), Resolved(kids[1])] + rest
  }

  // The mappings it merges in, already rewritten, in document order.
  ghost function Sources(kids: seq<Tree>): seq<Tree>
    decreases SumSize(kids), 2
  {
    if |kids| < 2 then []
    else
      PairSize(kids);
      var rest := Sources(kids[2..]);
      if IsMergeKey(kids[0]) then Supplied(Resolved(kids[1])) + rest else rest
  }

  ghost function Supplied(value: Tree): seq<Tree> {
    if value.node.kind.Mapping? then [value] else value.kids
  }

  ghost function Keys(kids: seq<Tree>): set<string> {
    if |kids| < 2 then {} else {kids[0].node.value} + Keys(kids[2..])
  }

  // The entries of one source whose keys are new.
  ghost function FromOne(kids: seq<Tree>, seen: set<string>): (out: seq<Tree>) {
    if |kids| < 2 then []
    else if kids[0].node.value in seen then FromOne(kids[2..], seen)
    else kids[..2] + FromOne(kids[2..], seen + {kids[0].node.value})
  }

  ghost function FromAll(sources: seq<Tree>, seen: set<string>): seq<Tree> {
    if sources == [] then []
    else FromOne(sources[0].kids, seen) + FromAll(sources[1..], seen + Keys(sources[0].kids))
  }

  lemma PairSize(kids: seq<Tree>)
    requires |kids| >= 2
    ensures SumSize(kids) == Size(kids[0]) + Size(kids[1]) + SumSize(kids[2..])
  {
    assert kids[1..][1..] == kids[2..];
  }

  // The two readers.

  ghost function Map(o: Option<Tree>): Option<Tree> {
    match o
    case None => None
    case Some(t) => Some(Resolved(t))
  }

  ghost function PlainFind(kids: seq<Tree>, key: string): (found: Option<Tree>)
    ensures found.Some? ==> Size(found.value) <= SumSize(kids)
  {
    if |kids| < 2 then None
    else
      PairSize(kids);
      if kids[0].node.value == key then Some(kids[1]) else PlainFind(kids[2..], key)
  }

  // The value a mapping has for a key.
  ghost function Find(m: Tree, key: string): (found: Option<Tree>)
    ensures found.Some? ==> Size(found.value) < Size(m)
    decreases Size(m), 0
  {
    var own := FindOwn(m.kids, key);
    if own.Some? then own else FindMerged(m.kids, key)
  }

  ghost function FindOwn(kids: seq<Tree>, key: string): (found: Option<Tree>)
    ensures found.Some? ==> Size(found.value) <= SumSize(kids)
  {
    if |kids| < 2 then None
    else
      PairSize(kids);
      if !IsMergeKey(kids[0]) && Target(kids[0]).node.value == key then Some(kids[1]) else FindOwn(kids[2..], key)
  }

  ghost function FindMerged(kids: seq<Tree>, key: string): (found: Option<Tree>)
    ensures found.Some? ==> Size(found.value) <= SumSize(kids)
    decreases SumSize(kids), 2
  {
    if |kids| < 2 then None
    else
      PairSize(kids);
      var here := if IsMergeKey(kids[0]) then FindListed(Listed(kids[1]), key) else None;
      if here.Some? then here else FindMerged(kids[2..], key)
  }

  ghost function FindListed(sources: seq<Tree>, key: string): (found: Option<Tree>)
    ensures found.Some? ==> Size(found.value) <= SumSize(sources)
    decreases SumSize(sources), 1
  {
    if sources == [] then None
    else
      var here := Find(Target(sources[0]), key);
      if here.Some? then here else FindListed(sources[1..], key)
  }

  datatype Step = Key(name: string) | Index(i: nat)

  ghost function Read(t: Tree, path: seq<Step>): Option<Tree>
    decreases |path|
  {
    var u := Target(t);
    if path == [] then Some(u)
    else match path[0]
      case Key(name) =>
        if u.node.kind.Mapping? then
          match Find(u, name)
          case None => None
          case Some(v) => Read(v, path[1..])
        else None
      case Index(i) =>
        if u.node.kind.Sequence? && i < |u.kids| then Read(u.kids[i], path[1..]) else None
  }

  ghost function PlainRead(t: Tree, path: seq<Step>): Option<Tree>
    decreases |path|
  {
    if path == [] then Some(t)
    else match path[0]
      case Key(name) =>
        if t.node.kind.Mapping? then
          match PlainFind(t.kids, name)
          case None => None
          case Some(v) => PlainRead(v, path[1..])
        else None
      case Index(i) =>
        if t.node.kind.Sequence? && i < |t.kids| then PlainRead(t.kids[i], path[1..]) else None
  }

  // Facts about the rewrite.

  // Every alias in the tree names something.
  ghost predicate AliasesNamed(t: Tree) {
    (t.node.kind.Alias? ==> |t.kids| == 1) && forall i | 0 <= i < |t.kids| :: AliasesNamed(t.kids[i])
  }

  lemma {:induction false} TargetSettles(t: Tree)
    requires AliasesNamed(t)
    ensures !Target(t).node.kind.Alias? && AliasesNamed(Target(t))
    ensures Resolved(t) == Resolved(Target(t)) && Resolved(t).node == Target(t).node
    ensures Decodes(t) ==> Decodes(Target(t))
    decreases t
  {
    if t.node.kind.Alias? {
      TargetSettles(t.kids[0]);
    }
  }

  lemma {:induction false} PlainFindConcat(xs: seq<Tree>, ys: seq<Tree>, key: string)
    requires |xs| % 2 == 0
    ensures PlainFind(xs + ys, key) == if PlainFind(xs, key).Some? then PlainFind(xs, key) else PlainFind(ys, key)
  {
    if xs == [] {
      assert xs + ys == ys;
    } else {
      assert (xs + ys)[2..] == xs[2..] + ys;
      PlainFindConcat(xs[2..], ys, key);
    }
  }

  lemma {:induction false} KeysAreFound(kids: seq<Tree>, key: string)
    ensures key in Keys(kids) <==> PlainFind(kids, key).Some?
  {
    if |kids| >= 2 {
      KeysAreFound(kids[2..], key);
    }
  }

  lemma {:induction false} FromOneFinds(kids: seq<Tree>, seen: set<string>, key: string)
    ensures |FromOne(kids, seen)| % 2 == 0
    ensures PlainFind(FromOne(kids, seen), key) == if key in seen then None else PlainFind(kids, key)
  {
    if |kids| >= 2 {
      if kids[0].node.value in seen {
        FromOneFinds(kids[2..], seen, key);
      } else {
        FromOneFinds(kids[2..], seen + {kids[0].node.value}, key);
        PlainFindConcat(kids[..2], FromOne(kids[2..], seen + {kids[0].node.value}), key);
        assert PlainFind(kids[..2], key) == if kids[0].node.value == key then Some(kids[1]) else None;
      }
    }
  }

  ghost function PlainFirst(sources: seq<Tree>, key: string): Option<Tree> {
    if sources == [] then None
    else if PlainFind(sources[0].kids, key).Some? then PlainFind(sources[0].kids, key)
    else PlainFirst(sources[1..], key)
  }

  lemma {:induction false} PlainFirstConcat(xs: seq<Tree>, ys: seq<Tree>, key: string)
    ensures PlainFirst(xs + ys, key) == if PlainFirst(xs, key).Some? then PlainFirst(xs, key) else PlainFirst(ys, key)
  {
    if xs == [] {
      assert xs + ys == ys;
    } else {
      assert (xs + ys)[1..] == xs[1..] + ys;
      PlainFirstConcat(xs[1..], ys, key);
    }
  }

  lemma {:induction false} FromAllFinds(sources: seq<Tree>, seen: set<string>, key: string)
    ensures |FromAll(sources, seen)| % 2 == 0
    ensures PlainFind(FromAll(sources, seen), key) == if key in seen then None else PlainFirst(sources, key)
  {
    if sources != [] {
      FromOneFinds(sources[0].kids, seen, key);
      KeysAreFound(sources[0].kids, key);
      FromAllFinds(sources[1..], seen + Keys(sources[0].kids), key);
      PlainFindConcat(FromOne(sources[0].kids, seen), FromAll(sources[1..], seen + Keys(sources[0].kids)), key);
    }
  }

  // Meaning.

  // What the parser and the preflight leave: aliases that name something, and constraints that hold.
  ghost predicate Sane(t: Tree) {
    AliasesNamed(t) && Decodes(t)
  }

  ghost predicate AllSane(ts: seq<Tree>) {
    forall i | 0 <= i < |ts| :: Sane(ts[i])
  }

  ghost predicate EntriesDecode(kids: seq<Tree>) {
    |kids| >= 2 ==> EntryDecodes(kids[0], kids[1]) && EntriesDecode(kids[2..])
  }

  lemma {:induction false} NodeEntriesDecode(kids: seq<Tree>)
    requires forall i {:trigger kids[2 * i]} | 0 <= i < |kids| / 2 :: EntryDecodes(kids[2 * i], kids[2 * i + 1])
    ensures EntriesDecode(kids)
  {
    if |kids| >= 2 {
      assert EntryDecodes(kids[2 * 0], kids[2 * 0 + 1]);
      var rest := kids[2..];
      forall i {:trigger rest[2 * i]} | 0 <= i < |rest| / 2
        ensures EntryDecodes(rest[2 * i], rest[2 * i + 1])
      {
        assert rest[2 * i] == kids[2 * (i + 1)] && rest[2 * i + 1] == kids[2 * (i + 1) + 1];
      }
      NodeEntriesDecode(rest);
    }
  }

  lemma {:induction false} OwnFinds(kids: seq<Tree>, key: string)
    requires AllSane(kids)
    ensures PlainFind(Own(kids), key) == Map(FindOwn(kids, key))
  {
    if |kids| >= 2 {
      TargetSettles(kids[0]);
      OwnFinds(kids[2..], key);
      var pair := [Resolved(kids[0]), Resolved(kids[1])];
      assert (pair + Own(kids[2..]))[2..] == Own(kids[2..]);
    }
  }

  // One mapping: its rewritten entries give each key the value the written ones mean.
  lemma {:induction false} FindResolved(m: Tree, key: string)
    requires m.node.kind.Mapping? && Sane(m)
    ensures PlainFind(Resolved(m).kids, key) == Map(Find(m, key))
    decreases Size(m), 0
  {
    var own := Own(m.kids);
    OwnFinds(m.kids, key);
    PlainFindConcat(own, FromAll(Sources(m.kids), Keys(own)), key);
    FromAllFinds(Sources(m.kids), Keys(own), key);
    KeysAreFound(own, key);
    NodeEntriesDecode(m.kids);
    MergedResolved(m.kids, key);
  }

  lemma {:induction false} MergedResolved(kids: seq<Tree>, key: string)
    requires AllSane(kids) && EntriesDecode(kids)
    ensures PlainFirst(Sources(kids), key) == Map(FindMerged(kids, key))
    decreases SumSize(kids), 2
  {
    if |kids| >= 2 {
      PairSize(kids);
      MergedResolved(kids[2..], key);
      if IsMergeKey(kids[0]) {
        var v := kids[1];
        var u := Target(v);
        TargetSettles(v);
        PlainFirstConcat(Supplied(Resolved(v)), Sources(kids[2..]), key);
        if u.node.kind.Mapping? {
          assert Listed(v) == [u] && Supplied(Resolved(v)) == [Resolved(u)];
          FindResolved(u, key);
          assert FindListed([u], key) == Find(u, key);
          assert PlainFirst([Resolved(u)], key) == PlainFind(Resolved(u).kids, key);
        } else {
          assert u in Candidates(v) || u.node.kind.Sequence?;
          assert forall i | 0 <= i < |u.kids| :: u.kids[i] in Candidates(v);
          ListedResolved(u.kids, key);
        }
      }
    }
  }

  lemma {:induction false} ListedResolved(sources: seq<Tree>, key: string)
    requires AllSane(sources)
    requires forall i | 0 <= i < |sources| :: Target(sources[i]).node.kind.Mapping?
    ensures PlainFirst(ResolvedAll(sources), key) == Map(FindListed(sources, key))
    decreases SumSize(sources), 1
  {
    if sources != [] {
      TargetSettles(sources[0]);
      FindResolved(Target(sources[0]), key);
      ListedResolved(sources[1..], key);
    }
  }

  lemma {:induction false} ResolvedAllAt(ts: seq<Tree>, i: nat)
    requires i < |ts|
    ensures ResolvedAll(ts)[i] == Resolved(ts[i])
  {
    if i > 0 {
      ResolvedAllAt(ts[1..], i - 1);
    }
  }

  lemma {:induction false} FoundIsSane(m: Tree, key: string)
    requires Sane(m) && Find(m, key).Some?
    ensures Sane(Find(m, key).value)
    decreases Size(m), 0
  {
    FoundOwnIsSane(m.kids, key);
    if FindOwn(m.kids, key).None? {
      FoundMergedIsSane(m.kids, key);
    }
  }

  lemma {:induction false} FoundOwnIsSane(kids: seq<Tree>, key: string)
    requires AllSane(kids)
    ensures FindOwn(kids, key).Some? ==> Sane(FindOwn(kids, key).value)
  {
    if |kids| >= 2 {
      FoundOwnIsSane(kids[2..], key);
    }
  }

  lemma {:induction false} FoundMergedIsSane(kids: seq<Tree>, key: string)
    requires AllSane(kids)
    ensures FindMerged(kids, key).Some? ==> Sane(FindMerged(kids, key).value)
    decreases SumSize(kids), 2
  {
    if |kids| >= 2 {
      PairSize(kids);
      TargetSettles(kids[1]);
      FoundMergedIsSane(kids[2..], key);
      if IsMergeKey(kids[0]) {
        FoundListedIsSane(Listed(kids[1]), key);
      }
    }
  }

  lemma {:induction false} FoundListedIsSane(sources: seq<Tree>, key: string)
    requires AllSane(sources)
    ensures FindListed(sources, key).Some? ==> Sane(FindListed(sources, key).value)
    decreases SumSize(sources), 1
  {
    if sources != [] {
      TargetSettles(sources[0]);
      if Find(Target(sources[0]), key).Some? {
        FoundIsSane(Target(sources[0]), key);
      } else {
        FoundListedIsSane(sources[1..], key);
      }
    }
  }

  // Along every path of keys and indices, a plain reader of the rewritten document reaches exactly the node the written
  // document means, and nothing where that means nothing.
  lemma {:induction false} ResolutionPreservesMeaning(t: Tree, path: seq<Step>)
    requires Sane(t)
    ensures PlainRead(Resolved(t), path) == Map(Read(t, path))
    decreases |path|
  {
    var u := Target(t);
    TargetSettles(t);
    if path != [] {
      match path[0]
      case Key(name) =>
        if u.node.kind.Mapping? {
          FindResolved(u, name);
          if Find(u, name).Some? {
            FoundIsSane(u, name);
            ResolutionPreservesMeaning(Find(u, name).value, path[1..]);
          }
        }
      case Index(i) =>
        if u.node.kind.Sequence? && i < |u.kids| {
          ResolvedAllAt(u.kids, i);
          ResolutionPreservesMeaning(u.kids[i], path[1..]);
        }
    }
  }
}
