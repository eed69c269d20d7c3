// enrich: what the schema generator reads out of Go sources, added to from the schema upstream publishes.
module Enrich {
  import opened FieldSchema

  // A schema under construction. Fields are updated in place, and children attached from one schema to another.
  class FieldNode<K(==)> {
    var typ: Type
    var children: map<K, FieldNode<K>>
    var required: seq<K>
    var enums: seq<K>
    var open: bool
    var deprecated: Option<K>
    var doc: Option<K>
    var extensionRef: Option<K>

    ghost function Own(): Field<K>
      reads this
    {
      Field(typ, map[], required, enums, open, deprecated, doc, extensionRef)
    }
  }

  // Fields are followed through snapshots: what each holds itself, and the fields under its keys.

  datatype State<K> = State(own: Field<K>, kids: map<K, FieldNode<K>>)

  type Heap<K> = map<FieldNode<K>, State<K>>

  ghost predicate Current<K>(h: Heap<K>)
    reads h.Keys
  {
    forall n | n in h :: n.children == h[n].kids && n.Own() == h[n].own
  }

  // Which field holds which, all the way down.
  datatype Tree<K> = Tree(node: FieldNode<K>, kids: map<K, Tree<K>>)

  ghost function Nodes<K>(t: Tree<K>): set<FieldNode<K>>
    decreases t
  {
    {t.node} + set k, n | k in t.kids && n in Nodes(t.kids[k]) :: n
  }

  // No field is held twice.
  ghost predicate Apart<K>(t: Tree<K>)
    decreases t
  {
    && (forall k | k in t.kids :: t.node !in Nodes(t.kids[k]) && Apart(t.kids[k]))
    && (forall j, k | j in t.kids && k in t.kids && j != k :: Nodes(t.kids[j]) !! Nodes(t.kids[k]))
  }

  ghost predicate Shows<K>(h: Heap<K>, t: Tree<K>)
    decreases t
  {
    && t.node in h
    && h[t.node].kids.Keys == t.kids.Keys
    && forall k | k in t.kids :: h[t.node].kids[k] == t.kids[k].node && Shows(h, t.kids[k])
  }

  // What the schema says that a tree of fields makes up.
  ghost function Says<K>(h: Heap<K>, t: Tree<K>): Field<K>
    decreases t
  {
    OwnIn(h, t.node).(children := map k | k in t.kids :: Says(h, t.kids[k]))
  }

  ghost function OwnIn<K>(h: Heap<K>, n: FieldNode<K>): Field<K> {
    if n in h then h[n].own else Field(Unstated, map[], [], [], false, None, None, None)
  }

  lemma SaysFromKids<K>(h: Heap<K>, t: Tree<K>, f: Field<K>)
    requires t.node in h && h[t.node].kids.Keys == t.kids.Keys == f.children.Keys
    requires h[t.node].own.(children := f.children) == f
    requires forall k | k in t.kids ::
               h[t.node].kids[k] == t.kids[k].node && Shows(h, t.kids[k]) && Says(h, t.kids[k]) == f.children[k]
    ensures Shows(h, t) && Says(h, t) == f
  {
    assert Says(h, t).children == f.children;
  }

  // A tree none of whose fields changes says what it said.
  lemma {:induction false} SaysTheSame<K>(h: Heap<K>, g: Heap<K>, t: Tree<K>)
    requires Shows(h, t) && forall n | n in Nodes(t) && n in h :: n in g && g[n] == h[n]
    ensures Shows(g, t) && Says(g, t) == Says(h, t)
    decreases t
  {
    forall k | k in t.kids
      ensures Shows(g, t.kids[k]) && Says(g, t.kids[k]) == Says(h, t.kids[k])
    {
      SaysTheSame(h, g, t.kids[k]);
    }
    assert t.node in Nodes(t);
    SaysFromKids(g, t, Says(h, t));
  }

  ghost function OpenAfter<K>(p: Field<K>, s: Field<K>): bool {
    s.open || (p.open && s.children.Keys <= p.children.Keys)
  }

  ghost function Enriched<K>(p: Field<K>, s: Field<K>): Field<K>
    decreases p
  {
    Field(p.typ,
          map k | k in p.children.Keys + s.children.Keys ::
            if k !in s.children then p.children[k]
            else if k !in p.children then s.children[k]
            else Enriched(p.children[k], s.children[k]),
          p.required, if p.enums == [] then s.enums else p.enums, OpenAfter(p, s), p.deprecated,
          if p.doc.None? then s.doc else p.doc, if p.extensionRef.None? then s.extensionRef else p.extensionRef)
  }

  // What enrich makes of the two fields at a path.
  function At<K>(f: Field<K>, path: seq<K>): Option<Field<K>> {
    if path == [] then Some(f)
    else if path[0] in f.children then At(f.children[path[0]], path[1..])
    else None
  }

  lemma {:induction false} EnrichedAt<K>(p: Field<K>, s: Field<K>, path: seq<K>)
    ensures At(Enriched(p, s), path) ==
      match (At(p, path), At(s, path))
      case (Some(a), Some(b)) => Some(Enriched(a, b))
      case (Some(a), None) => Some(a)
      case (None, b) => b
    decreases path
  {
    if path != [] && path[0] in p.children && path[0] in s.children {
      EnrichedAt(p.children[path[0]], s.children[path[0]], path[1..]);
    }
  }

  // Nothing the primary states is lost or retyped, at any path.
  lemma {:induction false} NothingIsLost<K>(p: Field<K>, s: Field<K>, path: seq<K>)
    requires At(p, path).Some?
    ensures At(Enriched(p, s), path).Some?
    ensures var was, now := At(p, path).value, At(Enriched(p, s), path).value;
            && now.typ == was.typ && now.required == was.required && now.deprecated == was.deprecated
            && (was.doc.Some? ==> now.doc == was.doc) && (was.enums != [] ==> now.enums == was.enums)
            && (was.extensionRef.Some? ==> now.extensionRef == was.extensionRef)
            && was.children.Keys <= now.children.Keys
  {
    EnrichedAt(p, s, path);
  }

  // At a path both describe, the keys are those of either, an open map is closed exactly when the secondary is closed
  // there and names a key the primary lacks, and what the primary leaves unsaid is taken from the secondary.
  lemma {:induction false} WhereBothSpeak<K>(p: Field<K>, s: Field<K>, path: seq<K>)
    requires At(p, path).Some? && At(s, path).Some?
    ensures At(Enriched(p, s), path).Some?
    ensures var a, b, now := At(p, path).value, At(s, path).value, At(Enriched(p, s), path).value;
            && now.children.Keys == a.children.Keys + b.children.Keys
            && (a.open ==> (!now.open <==> !b.open && exists k :: k in b.children && k !in a.children))
            && (!a.open ==> now.open == b.open)
            && (a.doc.None? ==> now.doc == b.doc) && (a.enums == [] ==> now.enums == b.enums)
            && (a.extensionRef.None? ==> now.extensionRef == b.extensionRef)
  {
    EnrichedAt(p, s, path);
  }

  lemma {:induction false} EnrichedByItself<K>(s: Field<K>)
    ensures Enriched(s, s) == s
    decreases s
  {
    forall k | k in s.children
      ensures Enriched(s.children[k], s.children[k]) == s.children[k]
    {
      EnrichedByItself(s.children[k]);
    }
    assert Enriched(s, s).children == s.children;
  }

  lemma {:induction false} EnrichedTwice<K>(p: Field<K>, s: Field<K>)
    ensures Enriched(Enriched(p, s), s) == Enriched(p, s)
    decreases p
  {
    var e := Enriched(p, s);
    forall k | k in e.children
      ensures k in s.children ==> Enriched(e.children[k], s.children[k]) == e.children[k]
    {
      if k in s.children {
        if k in p.children {
          EnrichedTwice(p.children[k], s.children[k]);
        } else {
          EnrichedByItself(s.children[k]);
        }
      }
    }
    assert Enriched(e, s).children == e.children;
  }

  // settleOpenness.
  method SettleOpenness<K(==)>(p: FieldNode<K>, s: FieldNode<K>)
    modifies p`open
    ensures p.open == (old(s.open) || (old(p.open) && s.children.Keys <= p.children.Keys))
  {
    if s.open {
      p.open := true;
      return;
    }
    if !p.open || s.children == map[] {
      return;
    }
    var todo := s.children.Keys;
    while todo != {}
      invariant todo <= s.children.Keys && p.open == old(p.open) && s.open == old(s.open)
      invariant forall k | k in s.children.Keys - todo :: k in p.children
      decreases todo
    {
      var name :| name in todo;
      if name !in p.children {
        p.open := false;
        return;
      }
      todo := todo - {name};
    }
  }

  // Where the fields end up: those of the primary stay, those of the secondary that it lacks are attached to it.
  ghost function EnrichedTree<K>(p: Tree<K>, s: Tree<K>): Tree<K>
    decreases p
  {
    Tree(p.node, map k | k in p.kids.Keys + s.kids.Keys ::
      if k !in s.kids then p.kids[k] else if k !in p.kids then s.kids[k] else EnrichedTree(p.kids[k], s.kids[k]))
  }

  // Where the two may share fields: at a key, the whole tree under it or nothing. Two trees with no field in common may
  // be merged, and so may a tree and one that was merged into it before.
  ghost predicate Mergeable<K>(p: Tree<K>, s: Tree<K>)
    decreases p, 1
  {
    p == s || Separable(p, s)
  }

  ghost predicate Separable<K>(p: Tree<K>, s: Tree<K>)
    decreases p, 0
  {
    && p.node !in Nodes(s) && s.node !in Nodes(p)
    && (forall j, k | j in p.kids && k in s.kids && j != k :: Nodes(p.kids[j]) !! Nodes(s.kids[k]))
    && (forall k | k in p.kids && k in s.kids :: Mergeable(p.kids[k], s.kids[k]))
  }

  // The fields that merging may change.
  ghost function Changed<K>(p: Tree<K>, s: Tree<K>): set<FieldNode<K>>
    decreases p
  {
    if p == s then {}
    else {p.node} + set k, n | k in p.kids && k in s.kids && n in Changed(p.kids[k], s.kids[k]) :: n
  }

  lemma {:induction false} ChangedWithin<K>(p: Tree<K>, s: Tree<K>)
    ensures Changed(p, s) <= Nodes(p)
    decreases p
  {
    forall k | k in p.kids && k in s.kids
      ensures Changed(p.kids[k], s.kids[k]) <= Nodes(p.kids[k])
    {
      ChangedWithin(p.kids[k], s.kids[k]);
    }
  }

  lemma {:induction false} SecondaryUnchanged<K>(p: Tree<K>, s: Tree<K>)
    requires Apart(p) && Apart(s) && Mergeable(p, s)
    ensures Changed(p, s) !! Nodes(s)
    decreases p
  {
    if p != s {
      forall k | k in p.kids && k in s.kids
        ensures Changed(p.kids[k], s.kids[k]) !! Nodes(s)
      {
        SecondaryUnchanged(p.kids[k], s.kids[k]);
        ChangedWithin(p.kids[k], s.kids[k]);
        forall n | n in Changed(p.kids[k], s.kids[k])
          ensures n !in Nodes(s)
        {
          assert n in Nodes(p.kids[k]);
        }
      }
    }
  }

  lemma {:induction false} DisjointAreMergeable<K>(p: Tree<K>, s: Tree<K>)
    requires Nodes(p) !! Nodes(s)
    ensures Separable(p, s)
    decreases p
  {
    assert p.node in Nodes(p) && s.node in Nodes(s);
    forall j, k | j in p.kids && k in s.kids
      ensures Nodes(p.kids[j]) !! Nodes(s.kids[k])
    {
      assert Nodes(p.kids[j]) <= Nodes(p) && Nodes(s.kids[k]) <= Nodes(s);
    }
    forall k | k in p.kids && k in s.kids
      ensures Mergeable(p.kids[k], s.kids[k])
    {
      DisjointAreMergeable(p.kids[k], s.kids[k]);
    }
  }

  lemma {:induction false} TreeByItself<K>(t: Tree<K>)
    ensures EnrichedTree(t, t) == t
    decreases t
  {
    forall k | k in t.kids
      ensures EnrichedTree(t.kids[k], t.kids[k]) == t.kids[k]
    {
      TreeByItself(t.kids[k]);
    }
    assert EnrichedTree(t, t).kids == t.kids;
  }

  lemma {:induction false} EnrichedNodes<K>(p: Tree<K>, s: Tree<K>)
    ensures Nodes(EnrichedTree(p, s)) <= Nodes(p) + Nodes(s)
    decreases p
  {
    forall k | k in p.kids && k in s.kids
      ensures Nodes(EnrichedTree(p.kids[k], s.kids[k])) <= Nodes(p.kids[k]) + Nodes(s.kids[k])
    {
      EnrichedNodes(p.kids[k], s.kids[k]);
    }
  }

  // A child of the primary, and what it says, when the keys in `todo` of the secondary have not been dealt with.

  ghost function ChildTree<K>(p: Tree<K>, s: Tree<K>, todo: set<K>, k: K): Tree<K>
    requires k in p.kids || k in s.kids
  {
    if k !in p.kids then s.kids[k]
    else if k !in s.kids || k in todo then p.kids[k]
    else EnrichedTree(p.kids[k], s.kids[k])
  }

  ghost function ChildSays<K>(was: Field<K>, add: Field<K>, todo: set<K>, k: K): Field<K>
    requires k in was.children || k in add.children
  {
    if k !in was.children then add.children[k]
    else if k !in add.children || k in todo then was.children[k]
    else Enriched(was.children[k], add.children[k])
  }

  // The fields a child is made up of: its own, and those of the secondary under the same key.
  lemma ChildNodes<K>(p: Tree<K>, s: Tree<K>, todo: set<K>, k: K, n: FieldNode<K>)
    requires k in p.kids || k in s.kids
    requires n in Nodes(ChildTree(p, s, todo, k))
    ensures (k in p.kids && n in Nodes(p.kids[k])) || (k in s.kids && n in Nodes(s.kids[k]))
  {
    if k in p.kids && k in s.kids {
      EnrichedNodes(p.kids[k], s.kids[k]);
    }
  }

  // A field of one child is neither the primary nor a field of another of its children.
  lemma ChildIsApart<K>(p: Tree<K>, s: Tree<K>, todo: set<K>, k: K, n: FieldNode<K>)
    requires Apart(p) && Apart(s) && Separable(p, s)
    requires k in p.kids || k in s.kids
    requires n in Nodes(ChildTree(p, s, todo, k))
    ensures n != p.node
    ensures forall j | j != k && j in p.kids :: n !in Nodes(p.kids[j])
    ensures forall j | j != k && j in s.kids :: n !in Nodes(s.kids[j])
  {
    ChildNodes(p, s, todo, k, n);
    assert k in s.kids && n in Nodes(s.kids[k]) ==> n in Nodes(s);
  }

  // The enriched tree holds no field twice either, so it can be enriched in turn.
  lemma {:induction false} EnrichedIsApart<K>(p: Tree<K>, s: Tree<K>)
    requires Apart(p) && Apart(s) && Mergeable(p, s)
    ensures Apart(EnrichedTree(p, s))
    decreases p
  {
    if p == s {
      TreeByItself(p);
      return;
    }
    var e := EnrichedTree(p, s);
    var todo: set<K> := {};
    forall k | k in e.kids
      ensures e.kids[k] == ChildTree(p, s, todo, k) && Apart(e.kids[k]) && p.node !in Nodes(e.kids[k])
    {
      if k in p.kids && k in s.kids {
        EnrichedIsApart(p.kids[k], s.kids[k]);
      }
      if p.node in Nodes(e.kids[k]) {
        ChildIsApart(p, s, todo, k, p.node);
      }
    }
    forall j, k | j in e.kids && k in e.kids && j != k
      ensures Nodes(e.kids[j]) !! Nodes(e.kids[k])
    {
      forall n | n in Nodes(e.kids[j])
        ensures n !in Nodes(e.kids[k])
      {
        ChildIsApart(p, s, todo, j, n);
        if n in Nodes(e.kids[k]) {
          ChildNodes(p, s, todo, k, n);
        }
      }
    }
  }

  // The loop over the secondary's keys, `todo` of which are still to be dealt with. The primary's own values are left
  // alone.
  ghost predicate Merging<K>(h: Heap<K>, tp: Tree<K>, ts: Tree<K>, was: Field<K>, add: Field<K>, todo: set<K>) {
    && Shows(h, ts) && Says(h, ts) == add
    && tp.node in h && h[tp.node].own.(children := was.children) == was
    && was.children.Keys == tp.kids.Keys
    && (forall k | k in h[tp.node].kids :: k in tp.kids || (k in ts.kids && k !in todo))
    && (forall k | k in tp.kids :: ChildDone(h, tp, ts, was, add, todo, k))
    && (forall k | k in ts.kids && k !in todo :: ChildDone(h, tp, ts, was, add, todo, k))
  }

  ghost predicate ChildDone<K>(h: Heap<K>, tp: Tree<K>, ts: Tree<K>, was: Field<K>, add: Field<K>, todo: set<K>, k: K) {
    && tp.node in h && k in h[tp.node].kids && was.children.Keys == tp.kids.Keys && add.children.Keys == ts.kids.Keys
    && (k in tp.kids || k in ts.kids)
    && h[tp.node].kids[k] == ChildTree(tp, ts, todo, k).node
    && Shows(h, ChildTree(tp, ts, todo, k))
    && Says(h, ChildTree(tp, ts, todo, k)) == ChildSays(was, add, todo, k)
  }

  // Dealing with one key leaves every other child as it was.
  lemma OtherChild<K>(h: Heap<K>, g: Heap<K>, tp: Tree<K>, ts: Tree<K>, was: Field<K>, add: Field<K>, todo: set<K>,
                      name: K, k: K)
    requires Apart(tp) && Apart(ts) && Separable(tp, ts)
    requires name in ts.kids && ChildDone(h, tp, ts, was, add, todo, k) && k != name
    requires tp.node in g && k in g[tp.node].kids && g[tp.node].kids[k] == h[tp.node].kids[k]
    requires g.Keys == h.Keys
    requires forall n | n in h && n != tp.node && (name in tp.kids ==> n !in Changed(tp.kids[name], ts.kids[name])) ::
               g[n] == h[n]
    ensures ChildDone(g, tp, ts, was, add, todo - {name}, k)
  {
    if name in tp.kids {
      ChangedWithin(tp.kids[name], ts.kids[name]);
    }
    var t := ChildTree(tp, ts, todo, k);
    assert t == ChildTree(tp, ts, todo - {name}, k);
    forall n | n in Nodes(t) && n in h
      ensures g[n] == h[n]
    {
      ChildIsApart(tp, ts, todo, k, n);
    }
    SaysTheSame(h, g, t);
  }

  // When every key of the secondary has been dealt with, the children are those of the enriched tree.

  lemma LastChild<K>(h: Heap<K>, tp: Tree<K>, ts: Tree<K>, was: Field<K>, add: Field<K>, k: K)
    requires ChildDone(h, tp, ts, was, add, {}, k)
    ensures k in EnrichedTree(tp, ts).kids && k in Enriched(was, add).children
    ensures var t := EnrichedTree(tp, ts).kids[k];
            h[tp.node].kids[k] == t.node && Shows(h, t) && Says(h, t) == Enriched(was, add).children[k]
  {
    assert EnrichedTree(tp, ts).kids[k] == ChildTree(tp, ts, {}, k);
    assert Enriched(was, add).children[k] == ChildSays(was, add, {}, k);
  }

  lemma AllMerged<K>(h: Heap<K>, tp: Tree<K>, ts: Tree<K>, was: Field<K>, add: Field<K>)
    requires add.children.Keys == ts.kids.Keys
    requires Merging(h, tp, ts, was, add, {})
    ensures Shows(h, EnrichedTree(tp, ts))
    ensures Says(h, EnrichedTree(tp, ts)) == was.(children := Enriched(was, add).children)
  {
    var e, f := EnrichedTree(tp, ts), was.(children := Enriched(was, add).children);
    assert e.kids.Keys == f.children.Keys;
    forall k | k in e.kids
      ensures k in h[tp.node].kids
      ensures h[tp.node].kids[k] == e.kids[k].node && Shows(h, e.kids[k]) && Says(h, e.kids[k]) == f.children[k]
    {
      assert ChildDone(h, tp, ts, was, add, {}, k);
      LastChild(h, tp, ts, was, add, k);
    }
    assert h[tp.node].kids.Keys == e.kids.Keys;
    SaysFromKids(h, e, f);
  }

  lemma FirstChild<K>(h: Heap<K>, tp: Tree<K>, ts: Tree<K>, k: K)
    requires Shows(h, tp) && k in tp.kids
    ensures ChildDone(h, tp, ts, Says(h, tp), Says(h, ts), ts.kids.Keys, k)
  {
    assert ChildTree(tp, ts, ts.kids.Keys, k) == tp.kids[k];
  }

  lemma NoneMerged<K>(h: Heap<K>, tp: Tree<K>, ts: Tree<K>, was: Field<K>, add: Field<K>)
    requires Shows(h, tp) && Shows(h, ts) && was == Says(h, tp) && add == Says(h, ts)
    ensures Merging(h, tp, ts, was, add, ts.kids.Keys)
  {
    forall k | k in tp.kids
      ensures ChildDone(h, tp, ts, was, add, ts.kids.Keys, k)
    {
      FirstChild(h, tp, ts, k);
    }
  }

  method Enrich<K(==)>(p: FieldNode<K>, s: FieldNode<K>, ghost h: Heap<K>, ghost tp: Tree<K>, ghost ts: Tree<K>)
    returns (ghost g: Heap<K>)
    requires Current(h) && tp.node == p && ts.node == s && Shows(h, tp) && Shows(h, ts)
    requires Apart(tp) && Apart(ts) && Mergeable(tp, ts)
    modifies Nodes(tp)
    ensures Current(g) && g.Keys == h.Keys && forall n | n in h && n !in Changed(tp, ts) :: g[n] == h[n]
    ensures Shows(g, EnrichedTree(tp, ts))
    ensures Says(g, EnrichedTree(tp, ts)) == Enriched(Says(h, tp), Says(h, ts))
    decreases tp, 4
  {
    ghost var was, add := Says(h, tp), Says(h, ts);
    g := EnrichOwn(p, s, h, tp, ts);
    g := EnrichChildren(p, s, g, tp, ts, add);
  }

  // Everything enrich does but for the children.
  method EnrichOwn<K(==)>(p: FieldNode<K>, s: FieldNode<K>, ghost h: Heap<K>, ghost tp: Tree<K>, ghost ts: Tree<K>)
    returns (ghost g: Heap<K>)
    requires Current(h) && tp.node == p && ts.node == s && Shows(h, tp) && Shows(h, ts)
    requires Apart(tp) && Apart(ts) && Mergeable(tp, ts)
    modifies p
    ensures Current(g) && g.Keys == h.Keys && forall n | n in h && n != p :: g[n] == h[n]
    ensures tp == ts ==> g == h
    ensures Shows(g, tp) && Shows(g, ts) && Says(g, ts) == Says(h, ts)
    ensures Says(g, tp) == Enriched(Says(h, tp), Says(h, ts)).(children := Says(h, tp).children)
  {
    SettleOwn(p, s);
    g := h[p := State(p.Own(), p.children)];
    OwnSettled(h, g, tp, ts);
  }

  lemma OwnSettled<K>(h: Heap<K>, g: Heap<K>, tp: Tree<K>, ts: Tree<K>)
    requires Shows(h, tp) && Shows(h, ts) && Apart(tp) && Mergeable(tp, ts)
    requires g == h[tp.node := State(OwnAfter(h[tp.node], h[ts.node]), h[tp.node].kids)]
    ensures tp == ts ==> g == h
    ensures Shows(g, tp) && Shows(g, ts) && Says(g, ts) == Says(h, ts)
    ensures Says(g, tp) == Enriched(Says(h, tp), Says(h, ts)).(children := Says(h, tp).children)
  {
    OwnChanged(h, g, tp);
    if tp != ts {
      SaysTheSame(h, g, ts);
    } else {
      assert OwnAfter(h[tp.node], h[tp.node]) == h[tp.node].own;
      assert g == h;
    }
    assert Says(h, tp).children.Keys == h[tp.node].kids.Keys && Says(h, ts).children.Keys == h[ts.node].kids.Keys;
  }

  // A field's own values once the secondary's have been taken in.
  ghost function OwnAfter<K>(p: State<K>, s: State<K>): Field<K> {
    p.own.(doc := if p.own.doc.None? then s.own.doc else p.own.doc,
           enums := if p.own.enums == [] then s.own.enums else p.own.enums,
           extensionRef := if p.own.extensionRef.None? then s.own.extensionRef else p.own.extensionRef,
           open := s.own.open || (p.own.open && s.kids.Keys <= p.kids.Keys))
  }

  method SettleOwn<K(==)>(p: FieldNode<K>, s: FieldNode<K>)
    modifies p
    ensures p.children == old(p.children)
    ensures p.Own() == old(OwnAfter(State(p.Own(), p.children), State(s.Own(), s.children)))
  {
    if p.doc.None? {
      p.doc := s.doc;
    }
    if p.enums == [] {
      p.enums := s.enums;
    }
    if p.extensionRef.None? {
      p.extensionRef := s.extensionRef;
    }
    SettleOpenness(p, s);
  }

  // A field whose own values change, and not its children, still shows the same tree.
  lemma OwnChanged<K>(h: Heap<K>, g: Heap<K>, t: Tree<K>)
    requires Shows(h, t) && Apart(t)
    requires t.node in g && g[t.node].kids == h[t.node].kids
    requires forall n | n in h && n != t.node :: n in g && g[n] == h[n]
    ensures Shows(g, t) && Says(g, t) == g[t.node].own.(children := Says(h, t).children)
  {
    forall k | k in t.kids
      ensures Shows(g, t.kids[k]) && Says(g, t.kids[k]) == Says(h, t.kids[k])
    {
      SaysTheSame(h, g, t.kids[k]);
    }
    SaysFromKids(g, t, g[t.node].own.(children := Says(h, t).children));
  }

  method EnrichChildren<K(==)>(p: FieldNode<K>, s: FieldNode<K>, ghost h: Heap<K>, ghost tp: Tree<K>, ghost ts: Tree<K>,
                               ghost add: Field<K>) returns (ghost g: Heap<K>)
    requires Current(h) && tp.node == p && ts.node == s && Shows(h, tp) && Shows(h, ts) && Says(h, ts) == add
    requires Apart(tp) && Apart(ts) && Mergeable(tp, ts)
    modifies Nodes(tp)
    ensures Current(g) && g.Keys == h.Keys && forall n | n in h && n !in Changed(tp, ts) :: g[n] == h[n]
    ensures Shows(g, EnrichedTree(tp, ts))
    ensures Says(g, EnrichedTree(tp, ts)) == Says(h, tp).(children := Enriched(Says(h, tp), add).children)
    decreases tp, 3
  {
    ghost var was := Says(h, tp);
    if tp != ts {
      NoneMerged(h, tp, ts, was, add);
    }
    g := MergeKeys(p, s, h, tp, ts, was, add);
    if tp != ts {
      AllMerged(g, tp, ts, was, add);
    } else {
      TreeByItself(tp);
      EnrichedByItself(was);
    }
  }

  method MergeKeys<K(==)>(p: FieldNode<K>, s: FieldNode<K>, ghost h: Heap<K>, ghost tp: Tree<K>, ghost ts: Tree<K>,
                          ghost was: Field<K>, ghost add: Field<K>) returns (ghost g: Heap<K>)
    requires Current(h) && tp.node == p && ts.node == s
    requires Apart(tp) && Apart(ts) && Mergeable(tp, ts)
    requires Underway(h, tp, ts, was, add, ts.kids.Keys)
    modifies Nodes(tp)
    ensures Current(g) && g.Keys == h.Keys && forall n | n in h && n !in Changed(tp, ts) :: g[n] == h[n]
    ensures Underway(g, tp, ts, was, add, {}) && (tp == ts ==> g == h)
    decreases tp, 2
  {
    var todo := s.children.Keys;
    g := h;
    while todo != {}
      invariant todo <= ts.kids.Keys
      invariant Current(g) && g.Keys == h.Keys && forall n | n in h && n !in Changed(tp, ts) :: g[n] == h[n]
      invariant Underway(g, tp, ts, was, add, todo) && (tp == ts ==> g == h)
      decreases todo
    {
      var name :| name in todo;
      g := MergeKey(p, s, name, g, tp, ts, was, add, todo);
      todo := todo - {name};
    }
  }

  // The same, or the two trees are one and nothing changes.
  ghost predicate Underway<K>(h: Heap<K>, tp: Tree<K>, ts: Tree<K>, was: Field<K>, add: Field<K>, todo: set<K>) {
    if tp == ts then Shows(h, tp) && was == add == Says(h, tp) else Merging(h, tp, ts, was, add, todo)
  }

  // One turn of the loop.
  method MergeKey<K(==)>(p: FieldNode<K>, s: FieldNode<K>, name: K, ghost h: Heap<K>, ghost tp: Tree<K>,
                         ghost ts: Tree<K>, ghost was: Field<K>, ghost add: Field<K>, ghost todo: set<K>)
    returns (ghost g: Heap<K>)
    requires Current(h) && tp.node == p && ts.node == s
    requires Apart(tp) && Apart(ts) && Mergeable(tp, ts)
    requires name in ts.kids && name in todo
    requires Underway(h, tp, ts, was, add, todo)
    modifies Nodes(tp)
    ensures Current(g) && g.Keys == h.Keys && forall n | n in h && n !in Changed(tp, ts) :: g[n] == h[n]
    ensures Underway(g, tp, ts, was, add, todo - {name}) && (tp == ts ==> g == h)
    decreases tp, 1
  {
    KeyPending(h, tp, ts, was, add, todo, name);
    g := MergeField(p, s, name, h, tp, ts, was, add);
    KeyTurned(h, g, tp, ts, was, add, todo, name);
  }

  // The body of the loop: a child both have is enriched, one the primary lacks is attached to it.
  method MergeField<K(==)>(p: FieldNode<K>, s: FieldNode<K>, name: K, ghost h: Heap<K>, ghost tp: Tree<K>,
                           ghost ts: Tree<K>, ghost was: Field<K>, ghost add: Field<K>) returns (ghost g: Heap<K>)
    requires Current(h) && tp.node == p && ts.node == s && p in h && s in h
    requires name in ts.kids && was.children.Keys == tp.kids.Keys && add.children.Keys == ts.kids.Keys
    requires Pending(h, tp, ts, was, add, name)
    modifies p, if name in tp.kids then Nodes(tp.kids[name]) else {}
    ensures Current(g) && KeyStep(h, g, tp, ts, was, add, name)
    decreases tp, 0
  {
    if name in p.children {
      g := Enrich(p.children[name], s.children[name], h, tp.kids[name], ts.kids[name]);
    } else {
      p.children := p.children[name := s.children[name]];
      g := h[p := State(p.Own(), p.children)];
    }
  }

  // What is known of a key that has not been dealt with.
  ghost predicate Pending<K>(h: Heap<K>, tp: Tree<K>, ts: Tree<K>, was: Field<K>, add: Field<K>, name: K)
    requires tp.node in h && ts.node in h && was.children.Keys == tp.kids.Keys && add.children.Keys == ts.kids.Keys
    requires name in ts.kids
  {
    && name in h[ts.node].kids && h[ts.node].kids[name] == ts.kids[name].node
    && Shows(h, ts.kids[name]) && Says(h, ts.kids[name]) == add.children[name]
    && (name in h[tp.node].kids <==> name in tp.kids)
    && (name in tp.kids ==>
          && h[tp.node].kids[name] == tp.kids[name].node
          && Shows(h, tp.kids[name]) && Says(h, tp.kids[name]) == was.children[name]
          && Apart(tp.kids[name]) && Apart(ts.kids[name]) && Mergeable(tp.kids[name], ts.kids[name])
          && tp.node !in Nodes(tp.kids[name]))
  }

  lemma KeyPending<K>(h: Heap<K>, tp: Tree<K>, ts: Tree<K>, was: Field<K>, add: Field<K>, todo: set<K>, name: K)
    requires Apart(tp) && Apart(ts) && Mergeable(tp, ts)
    requires name in ts.kids && name in todo && Underway(h, tp, ts, was, add, todo)
    ensures ts.node in h && add.children.Keys == ts.kids.Keys && Pending(h, tp, ts, was, add, name)
    ensures tp.node in Nodes(tp) && name in tp.kids ==> Nodes(tp.kids[name]) <= Nodes(tp)
  {
    if name in tp.kids {
      assert tp != ts ==> ChildDone(h, tp, ts, was, add, todo, name);
      assert Nodes(tp.kids[name]) <= Nodes(tp);
    }
  }

  // What one turn does to the snapshot.
  ghost predicate KeyStep<K>(h: Heap<K>, g: Heap<K>, tp: Tree<K>, ts: Tree<K>, was: Field<K>, add: Field<K>, name: K)
    requires tp.node in h && name in ts.kids && was.children.Keys == tp.kids.Keys && add.children.Keys == ts.kids.Keys
  {
    && g.Keys == h.Keys
    && (forall n | n in h && n != tp.node
                    && (name in tp.kids ==> n !in Changed(tp.kids[name], ts.kids[name])) :: g[n] == h[n])
    && g[tp.node] == (if name in tp.kids then h[tp.node]
                      else State(h[tp.node].own, h[tp.node].kids[name := ts.kids[name].node]))
    && (name in tp.kids ==>
          && Shows(g, EnrichedTree(tp.kids[name], ts.kids[name]))
          && Says(g, EnrichedTree(tp.kids[name], ts.kids[name])) == Enriched(was.children[name], add.children[name]))
  }

  lemma KeyTurned<K>(h: Heap<K>, g: Heap<K>, tp: Tree<K>, ts: Tree<K>, was: Field<K>, add: Field<K>, todo: set<K>,
                     name: K)
    requires Apart(tp) && Apart(ts) && Mergeable(tp, ts)
    requires name in ts.kids && name in todo && Underway(h, tp, ts, was, add, todo)
    requires tp.node in h && was.children.Keys == tp.kids.Keys && add.children.Keys == ts.kids.Keys
    requires KeyStep(h, g, tp, ts, was, add, name)
    ensures Underway(g, tp, ts, was, add, todo - {name}) && (tp == ts ==> g == h)
    ensures forall n | n in h && n !in Changed(tp, ts) :: g[n] == h[n]
  {
    if tp == ts {
      assert g == h;
    } else {
      KeyMerged(h, g, tp, ts, was, add, todo, name);
    }
  }

  lemma KeyMerged<K>(h: Heap<K>, g: Heap<K>, tp: Tree<K>, ts: Tree<K>, was: Field<K>, add: Field<K>, todo: set<K>,
                     name: K)
    requires Apart(tp) && Apart(ts) && Separable(tp, ts)
    requires name in ts.kids && name in todo && Merging(h, tp, ts, was, add, todo)
    requires add.children.Keys == ts.kids.Keys && KeyStep(h, g, tp, ts, was, add, name)
    ensures Merging(g, tp, ts, was, add, todo - {name})
  {
    SecondaryStays(h, g, tp, ts, was, add, todo, name);
    NewChild(h, g, tp, ts, was, add, todo, name);
    OthersMerged(h, g, tp, ts, was, add, todo, name);
  }

  lemma OthersMerged<K>(h: Heap<K>, g: Heap<K>, tp: Tree<K>, ts: Tree<K>, was: Field<K>, add: Field<K>, todo: set<K>,
                        name: K)
    requires Apart(tp) && Apart(ts) && Separable(tp, ts)
    requires Merging(h, tp, ts, was, add, todo)
    requires name in ts.kids && add.children.Keys == ts.kids.Keys && KeyStep(h, g, tp, ts, was, add, name)
    ensures forall k | k != name && k in tp.kids :: ChildDone(g, tp, ts, was, add, todo - {name}, k)
    ensures forall k | k != name && k in ts.kids && k !in todo :: ChildDone(g, tp, ts, was, add, todo - {name}, k)
  {
    forall k | k != name && (k in tp.kids || k in ts.kids) && (k in tp.kids || k !in todo)
      ensures ChildDone(g, tp, ts, was, add, todo - {name}, k)
    {
      assert ChildDone(h, tp, ts, was, add, todo, k);
      OtherChild(h, g, tp, ts, was, add, todo, name, k);
    }
  }

  lemma SecondaryStays<K>(h: Heap<K>, g: Heap<K>, tp: Tree<K>, ts: Tree<K>, was: Field<K>, add: Field<K>, todo: set<K>,
                          name: K)
    requires Apart(tp) && Apart(ts) && Separable(tp, ts) && Merging(h, tp, ts, was, add, todo)
    requires name in ts.kids && add.children.Keys == ts.kids.Keys && KeyStep(h, g, tp, ts, was, add, name)
    ensures Shows(g, ts) && Says(g, ts) == add
  {
    SecondaryUnchanged(tp, ts);
    assert name in tp.kids ==> Changed(tp.kids[name], ts.kids[name]) <= Changed(tp, ts);
    SaysTheSame(h, g, ts);
  }

  lemma NewChild<K>(h: Heap<K>, g: Heap<K>, tp: Tree<K>, ts: Tree<K>, was: Field<K>, add: Field<K>, todo: set<K>,
                    name: K)
    requires Merging(h, tp, ts, was, add, todo) && Shows(g, ts) && Says(g, ts) == add
    requires name in ts.kids && name in todo
    requires add.children.Keys == ts.kids.Keys && KeyStep(h, g, tp, ts, was, add, name)
    ensures ChildDone(g, tp, ts, was, add, todo - {name}, name)
  {
    if name in tp.kids {
      assert ChildDone(h, tp, ts, was, add, todo, name);
    }
  }

  // A second run, on what the first left: it meets the fields that the first attached, shared with the secondary.
  // Enrich covers it all the same, and it changes neither the tree nor what it says.
  lemma SecondRun<K>(h: Heap<K>, g: Heap<K>, p: Tree<K>, s: Tree<K>)
    requires Apart(p) && Apart(s) && Nodes(p) !! Nodes(s) && Shows(h, s)
    requires g.Keys == h.Keys && forall n | n in h && n !in Changed(p, s) :: g[n] == h[n]
    requires Says(g, EnrichedTree(p, s)) == Enriched(Says(h, p), Says(h, s))
    ensures Apart(EnrichedTree(p, s)) && Mergeable(EnrichedTree(p, s), s) && Shows(g, s)
    ensures EnrichedTree(EnrichedTree(p, s), s) == EnrichedTree(p, s)
    ensures Enriched(Says(g, EnrichedTree(p, s)), Says(g, s)) == Says(g, EnrichedTree(p, s))
  {
    DisjointAreMergeable(p, s);
    SecondaryUnchanged(p, s);
    SaysTheSame(h, g, s);
    EnrichedIsApart(p, s);
    MergeableAgain(p, s);
    TreeTwice(p, s);
    EnrichedTwice(Says(h, p), Says(h, s));
  }

  lemma {:induction false} TreeTwice<K>(p: Tree<K>, s: Tree<K>)
    ensures EnrichedTree(EnrichedTree(p, s), s) == EnrichedTree(p, s)
    decreases p
  {
    var e := EnrichedTree(p, s);
    forall k | k in e.kids && k in s.kids
      ensures EnrichedTree(e.kids[k], s.kids[k]) == e.kids[k]
    {
      if k in p.kids {
        TreeTwice(p.kids[k], s.kids[k]);
      } else {
        TreeByItself(s.kids[k]);
      }
    }
    assert EnrichedTree(e, s).kids == e.kids;
  }

  lemma {:induction false} MergeableAgain<K>(p: Tree<K>, s: Tree<K>)
    requires Apart(p) && Apart(s) && Separable(p, s)
    ensures Separable(EnrichedTree(p, s), s)
    decreases p
  {
    var e := EnrichedTree(p, s);
    forall k | k in e.kids
      ensures e.kids[k] == ChildTree(p, s, {}, k)
    {
    }
    forall k | k in e.kids
      ensures s.node !in Nodes(e.kids[k])
    {
      if s.node in Nodes(e.kids[k]) {
        ChildNodes(p, s, {}, k, s.node);
      }
    }
    forall j, k | j in e.kids && k in s.kids && j != k
      ensures Nodes(e.kids[j]) !! Nodes(s.kids[k])
    {
      forall n | n in Nodes(e.kids[j])
        ensures n !in Nodes(s.kids[k])
      {
        ChildIsApart(p, s, {}, j, n);
      }
    }
    forall k | k in e.kids && k in s.kids
      ensures Mergeable(e.kids[k], s.kids[k])
    {
      if k in p.kids {
        if p.kids[k] == s.kids[k] {
          TreeByItself(s.kids[k]);
        } else {
          MergeableAgain(p.kids[k], s.kids[k]);
        }
      }
    }
  }
}
