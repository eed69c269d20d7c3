// The walk told from the settings' side: which values it visits, and under which field of the schema, and that an event
// is raised exactly for what is the matter with a visited value itself.
module Visited {
  import opened FieldSchema
  import opened FieldWalk

  // What the type check makes of a value, type by type: it lets the walk go on, skips what only the decoder could say,
  // or finds the value invalid.
  lemma WhatPasses<N, K>(c: Context<K>, f: Field<K>, n: Doc<N, K>, path: Path<K>)
    ensures var (said, go) := TypeEvents(c, f, n, path);
            var listed := n.shape.Scalar? && f.enums != [] ==> n.value in f.enums;
            var converts := n.shape.Scalar? && n.tag.Str? && c.weak == Some(true) && c.quoted(f.typ, n.value).Some?;
            var undecided := n.tag.Str? && c.weak.None? && c.quoted(f.typ, n.value).Some?;
            if f.typ.Unstated? || (f.typ.MapType? && f.open && f.children == map[]) then go && said == []
            else if n.shape.Scalar? && c.expands(n.value) then !go && said == []
            else match f.typ
              case MapType => Verdict(said, go, n, path, f, n.shape.Mapping?, listed)
              case ListType => Verdict(said, go, n, path, f, n.shape.Sequence?, listed)
              case Text => Verdict(said, go, n, path, f, n.shape.Scalar? && n.tag.Str?, listed)
              case Boolean =>
                if undecided then !go && said == [Skipped(path, UnknownDecoder)]
                else Verdict(said, go, n, path, f, n.tag.Bool? || converts, listed)
              case Integer =>
                if undecided then !go && said == [Skipped(path, UnknownDecoder)]
                else
                  var whole := n.tag.Float? && n.shape.Scalar? && c.wholeFits(n.value);
                  Verdict(said, go, n, path, f, n.tag.Int? || whole || converts, listed)
              case Decimal =>
                if undecided then !go && said == [Skipped(path, UnknownDecoder)]
                else Verdict(said, go, n, path, f, n.tag.Float? || n.tag.Int? || converts, listed)
              case Duration =>
                var isDuration :=
                  if n.tag.Null? then true
                  else if !n.shape.Scalar? then false
                  else if n.tag.Int? then c.isInt64(n.value)
                  else if n.tag.Float? then c.wholeFits(n.value)
                  else c.isDuration(n.value);
                Verdict(said, go, n, path, f, isDuration, listed)
              case _ => Verdict(said, go, n, path, f, true, listed)
  {
  }

  ghost predicate Verdict<N, K>(said: seq<Event<N, K>>, go: bool, n: Doc<N, K>, path: Path<K>, f: Field<K>,
                                typed: bool, listed: bool)
  {
    && (go <==> typed && listed)
    && said == (if go then [] else [Invalid(n.id, path, if typed then OneOf(f.enums) else OfType(f.typ))])
  }

  // Each fold has the events of its parts, and no others.

  lemma {:induction false} InEntries<N, K>(c: Context<K>, f: Field<K>, entries: seq<Entry<N, K>>, path: Path<K>,
                                          x: Event<N, K>)
    ensures x in EntriesEvents(c, f, entries, path) <==> exists e | e in entries :: x in EntryEvents(c, f, e, path)
    decreases entries
  {
    if entries != [] {
      var before, e := entries[..|entries| - 1], entries[|entries| - 1];
      InEntries(c, f, before, path, x);
      assert entries == before + [e];
      if x in EntriesEvents(c, f, before, path) {
        var y :| y in before && x in EntryEvents(c, f, y, path);
        assert y in entries;
      } else if y :| y in entries && x in EntryEvents(c, f, y, path) {
        assert y == e || y in before;
      }
      assert e in entries;
    }
  }

  lemma {:induction false} InItems<N, K>(c: Context<K>, f: Field<K>, items: seq<Doc<N, K>>, path: Path<K>,
                                        x: Event<N, K>)
    ensures x in ItemsEvents(c, f, items, path) <==>
            exists i | 0 <= i < |items| :: x in WalkEvents(c, f, items[i], path + [Index(i)])
    decreases items
  {
    if items != [] {
      var last := |items| - 1;
      InItems(c, f, items[..last], path, x);
    }
  }

  lemma {:induction false} InRequired<N, K>(required: seq<K>, present: set<K>, node: N, path: Path<K>, x: Event<N, K>)
    ensures x in RequiredEvents(required, present, node, path) <==>
            exists k | k in required :: k !in present && x == Required(k, node, path + [Key(k)])
  {
    if required != [] {
      var last := |required| - 1;
      InRequired(required[..last], present, node, path, x);
      assert required == required[..last] + [required[last]];
    }
  }

  lemma {:induction false} InSection<N, K>(c: Context<K>, schema: Schema<K>, kind: Kind, components: seq<Entry<N, K>>,
                                          x: Event<N, K>)
    ensures x in SectionEvents(c, schema, kind, components) <==>
            exists e | e in components :: x in ComponentEvents(c, schema, kind, e)
  {
    if components != [] {
      var before, e := components[..|components| - 1], components[|components| - 1];
      InSection(c, schema, kind, before, x);
      assert components == before + [e];
      if x in SectionEvents(c, schema, kind, before) {
        var y :| y in before && x in ComponentEvents(c, schema, kind, y);
        assert y in components;
      } else if y :| y in components && x in ComponentEvents(c, schema, kind, y) {
        assert y == e || y in before;
      }
      assert e in components;
    }
  }

  lemma {:induction false} InKinds<N, K>(c: Context<K>, schema: Schema<K>, root: Option<Doc<N, K>>, kinds: seq<Kind>,
                                        x: Event<N, K>)
    ensures x in KindsEvents(c, schema, root, kinds) <==>
            exists kind | kind in kinds :: x in SectionEvents(c, schema, kind, Components(c, root, kind))
  {
    if kinds != [] {
      var before, kind := kinds[..|kinds| - 1], kinds[|kinds| - 1];
      InKinds(c, schema, root, before, x);
      assert kinds == before + [kind];
      if x in KindsEvents(c, schema, root, before) {
        var k :| k in before && x in SectionEvents(c, schema, k, Components(c, root, k));
        assert k in kinds;
      } else if k :| k in kinds && x in SectionEvents(c, schema, k, Components(c, root, k)) {
        assert k == kind || k in before;
      }
      assert kind in kinds;
    }
  }

  lemma InFile<N(!new), K(!new)>(c: Context<K>, schema: Schema<K>, root: Option<Doc<N, K>>, x: Event<N, K>)
    requires c.ready
    ensures x in FileEvents(c, schema, root) <==>
            exists kind, e | e in Components(c, root, kind) :: x in ComponentEvents(c, schema, kind, e)
  {
    InKinds(c, schema, root, KINDS, x);
    forall kind: Kind
      ensures kind in KINDS
    {
      EveryKindIsListed(kind);
    }
    forall kind: Kind {:trigger Components(c, root, kind)}
      ensures x in SectionEvents(c, schema, kind, Components(c, root, kind)) <==>
              exists e | e in Components(c, root, kind) :: x in ComponentEvents(c, schema, kind, e)
    {
      InSection(c, schema, kind, Components(c, root, kind), x);
    }
  }

  lemma EveryKindIsListed(kind: Kind)
    ensures kind in KINDS
  {
    match kind
    case Receiver => assert KINDS[0] == kind;
    case Processor => assert KINDS[1] == kind;
    case Exporter => assert KINDS[2] == kind;
    case Extension => assert KINDS[3] == kind;
    case Connector => assert KINDS[4] == kind;
  }

  // The value a walk comes to by taking these entries and items in turn, the field it is checked against, and its path.
  datatype Visit<N, K> = Visit(field: Field<K>, value: Doc<N, K>, path: Path<K>)

  ghost function VisitedAt<N, K>(c: Context<K>, f: Field<K>, d: Doc<N, K>, path: Path<K>, turns: seq<nat>)
    : Option<Visit<N, K>>
    decreases |turns|
  {
    var n := Resolve(d, 16);
    if n.shape.Alias? then None
    else if turns == [] then Some(Visit(f, n, path))
    else if n.tag.Null? || !TypeEvents(c, f, n, path).1 then None
    else match n.shape
      case Mapping(entries) =>
        if (f.typ.MapType? || f.typ.Unstated?) && turns[0] < |entries| && entries[turns[0]].key in f.children then
          var e := entries[turns[0]];
          VisitedAt(c, f.children[e.key], e.node, path + [Key(e.key)], turns[1..])
        else None
      case Sequence(items) =>
        if f.typ.ListType? && turns[0] < |items| && c.item in f.children then
          VisitedAt(c, f.children[c.item], items[turns[0]], path + [Index(turns[0])], turns[1..])
        else None
      case _ => None
  }

  // What is raised for a visited value itself.
  ghost predicate IsRaised<N, K>(c: Context<K>, v: Visit<N, K>, x: Event<N, K>) {
    var f, n, at := v.field, v.value, v.path;
    var entered := !n.tag.Null? && TypeEvents(c, f, n, at).1;
    match x
    case Unknown(key, node, path, described) =>
      && entered && n.shape.Mapping? && (f.typ.MapType? || f.typ.Unstated?)
      && !f.open && f.children != map[] && key !in f.children
      && path == at + [Key(key)] && described == f.children.Keys
      && exists e | e in n.shape.entries :: e.key == key && e.keyNode == node
    case Required(key, node, path) =>
      && key in f.required && node == n.id && path == at + [Key(key)]
      && (n.tag.Null? || (entered && n.shape.Mapping? && (f.typ.MapType? || f.typ.Unstated?)
                          && forall e | e in n.shape.entries :: e.key != key))
    case Invalid(_, _, _) => !n.tag.Null? && x in TypeEvents(c, f, n, at).0
    case Deprecated(key, node, path, note) =>
      && entered && n.shape.Mapping? && (f.typ.MapType? || f.typ.Unstated?)
      && key in f.children && f.children[key].deprecated == Some(note) && path == at + [Key(key)]
      && exists e | e in n.shape.entries :: e.key == key && e.keyNode == node
    case Skipped(path, reason) =>
      && path == at
      && match reason
         case OpenSchema => f.open || (f.children == map[] && (f.typ.Unstated? || f.typ.MapType?))
         case MissingSchema => entered && n.shape.Sequence? && f.typ.ListType? && c.item !in f.children
         case UnknownDecoder => !n.tag.Null? && x in TypeEvents(c, f, n, at).0
  }

  ghost predicate RaisedAt<N, K>(c: Context<K>, f: Field<K>, d: Doc<N, K>, path: Path<K>, turns: seq<nat>,
                                 x: Event<N, K>)
  {
    VisitedAt(c, f, d, path, turns).Some? && IsRaised(c, VisitedAt(c, f, d, path, turns).value, x)
  }

  // The entry or item taken next.
  lemma TakeEntry<N, K>(c: Context<K>, f: Field<K>, d: Doc<N, K>, path: Path<K>, i: nat, turns: seq<nat>)
    requires var n := Resolve(d, 16);
             && n.shape.Mapping? && !n.tag.Null? && TypeEvents(c, f, n, path).1 && (f.typ.MapType? || f.typ.Unstated?)
             && i < |n.shape.entries| && n.shape.entries[i].key in f.children
    ensures var e := Resolve(d, 16).shape.entries[i];
            VisitedAt(c, f, d, path, [i] + turns) ==
            VisitedAt(c, f.children[e.key], e.node, path + [Key(e.key)], turns)
  {
    assert ([i] + turns)[1..] == turns;
  }

  lemma TakeItem<N, K>(c: Context<K>, f: Field<K>, d: Doc<N, K>, path: Path<K>, i: nat, turns: seq<nat>)
    requires var n := Resolve(d, 16);
             && n.shape.Sequence? && !n.tag.Null? && TypeEvents(c, f, n, path).1 && f.typ.ListType?
             && i < |n.shape.items| && c.item in f.children
    ensures VisitedAt(c, f, d, path, [i] + turns) ==
            VisitedAt(c, f.children[c.item], Resolve(d, 16).shape.items[i], path + [Index(i)], turns)
  {
    assert ([i] + turns)[1..] == turns;
  }

  // An event is raised exactly for what is the matter with a visited value.
  lemma {:induction false} RaisedIsVisited<N(!new), K(!new)>(c: Context<K>, f: Field<K>, d: Doc<N, K>, path: Path<K>,
                                                            x: Event<N, K>)
    ensures x in WalkEvents(c, f, d, path) <==> exists turns :: RaisedAt(c, f, d, path, turns, x)
    decreases d
  {
    if x in WalkEvents(c, f, d, path) {
      var turns := RaisedSomewhere(c, f, d, path, x);
    }
    if turns :| RaisedAt(c, f, d, path, turns, x) {
      VisitedIsRaised(c, f, d, path, turns, x);
    }
  }

  lemma {:induction false} RaisedSomewhere<N(!new), K(!new)>(c: Context<K>, f: Field<K>, d: Doc<N, K>, path: Path<K>,
                                                            x: Event<N, K>) returns (turns: seq<nat>)
    requires x in WalkEvents(c, f, d, path)
    ensures RaisedAt(c, f, d, path, turns, x)
    decreases d
  {
    var n := Resolve(d, 16);
    turns := [];
    if !IsRaised(c, Visit(f, n, path), x) {
      match n.shape
      case Mapping(entries) =>
        var i := RaisedInEntry(c, f, n, path, x);
        var e := entries[i];
        var rest := RaisedSomewhere(c, f.children[e.key], e.node, path + [Key(e.key)], x);
        TakeEntry(c, f, d, path, i, rest);
        turns := [i] + rest;
      case Sequence(items) =>
        var i := RaisedInItem(c, f, n, path, x);
        var rest := RaisedSomewhere(c, f.children[c.item], items[i], path + [Index(i)], x);
        TakeItem(c, f, d, path, i, rest);
        turns := [i] + rest;
      case _ =>
        RaisedInside(c, f, n, path, x);
        assert false;
    }
  }

  // What is not raised for the value itself is raised inside it.
  lemma RaisedInside<N, K>(c: Context<K>, f: Field<K>, n: Doc<N, K>, path: Path<K>, x: Event<N, K>)
    requires x in OpenEvents(f, path) + ValueEvents(c, f, n, path) && !IsRaised(c, Visit(f, n, path), x)
    ensures !n.tag.Null? && TypeEvents(c, f, n, path).1 && x in InnerEvents(c, f, n, path)
  {
    if n.tag.Null? {
      InRequired(f.required, {}, n.id, path, x);
    }
  }

  lemma RaisedInEntry<N, K>(c: Context<K>, f: Field<K>, n: Doc<N, K>, path: Path<K>, x: Event<N, K>) returns (i: nat)
    requires n.shape.Mapping?
    requires x in OpenEvents(f, path) + ValueEvents(c, f, n, path) && !IsRaised(c, Visit(f, n, path), x)
    ensures !n.tag.Null? && TypeEvents(c, f, n, path).1 && (f.typ.MapType? || f.typ.Unstated?)
    ensures i < |n.shape.entries| && n.shape.entries[i].key in f.children
    ensures var e := n.shape.entries[i]; x in WalkEvents(c, f.children[e.key], e.node, path + [Key(e.key)])
  {
    var entries := n.shape.entries;
    RaisedInside(c, f, n, path, x);
    InEntries(c, f, entries, path, x);
    InRequired(f.required, KeysOf(entries), n.id, path, x);
    var e :| e in entries && x in EntryEvents(c, f, e, path);
    i :| 0 <= i < |entries| && entries[i] == e;
  }

  lemma RaisedInItem<N, K>(c: Context<K>, f: Field<K>, n: Doc<N, K>, path: Path<K>, x: Event<N, K>) returns (i: nat)
    requires n.shape.Sequence?
    requires x in OpenEvents(f, path) + ValueEvents(c, f, n, path) && !IsRaised(c, Visit(f, n, path), x)
    ensures !n.tag.Null? && TypeEvents(c, f, n, path).1 && f.typ.ListType?
    ensures i < |n.shape.items| && c.item in f.children
    ensures x in WalkEvents(c, f.children[c.item], n.shape.items[i], path + [Index(i)])
  {
    RaisedInside(c, f, n, path, x);
    InItems(c, f.children[c.item], n.shape.items, path, x);
    i :| 0 <= i < |n.shape.items| && x in WalkEvents(c, f.children[c.item], n.shape.items[i], path + [Index(i)]);
  }

  lemma {:induction false} VisitedIsRaised<N(!new), K(!new)>(c: Context<K>, f: Field<K>, d: Doc<N, K>, path: Path<K>,
                                                            turns: seq<nat>, x: Event<N, K>)
    requires RaisedAt(c, f, d, path, turns, x)
    ensures x in WalkEvents(c, f, d, path)
    decreases d
  {
    var n := Resolve(d, 16);
    if turns == [] {
      RaisedHere(c, f, n, path, x);
    } else {
      match n.shape
      case Mapping(entries) =>
        var e := entries[turns[0]];
        VisitedIsRaised(c, f.children[e.key], e.node, path + [Key(e.key)], turns[1..], x);
        InEntries(c, f, entries, path, x);
        assert e in entries && x in EntryEvents(c, f, e, path);
        InnerIsWalked(c, f, n, path, x);
      case Sequence(items) =>
        var i := turns[0];
        VisitedIsRaised(c, f.children[c.item], items[i], path + [Index(i)], turns[1..], x);
        InItems(c, f.children[c.item], items, path, x);
        InnerIsWalked(c, f, n, path, x);
    }
  }

  lemma InnerIsWalked<N, K>(c: Context<K>, f: Field<K>, n: Doc<N, K>, path: Path<K>, x: Event<N, K>)
    requires !n.tag.Null? && TypeEvents(c, f, n, path).1 && x in InnerEvents(c, f, n, path)
    ensures x in OpenEvents(f, path) + ValueEvents(c, f, n, path)
  {
  }

  lemma RaisedHere<N, K>(c: Context<K>, f: Field<K>, n: Doc<N, K>, path: Path<K>, x: Event<N, K>)
    requires IsRaised(c, Visit(f, n, path), x)
    ensures x in OpenEvents(f, path) + ValueEvents(c, f, n, path)
  {
    if n.tag.Null? {
      InRequired(f.required, {}, n.id, path, x);
    } else if n.shape.Mapping? {
      InEntries(c, f, n.shape.entries, path, x);
      InRequired(f.required, KeysOf(n.shape.entries), n.id, path, x);
      if e :| e in n.shape.entries && (x.Unknown? || x.Deprecated?) && e.key == x.key && e.keyNode == x.node {
        assert x in EntryEvents(c, f, e, path);
      }
    }
  }

  // The same for a whole file: what is raised in the settings of a declared component, or that it has no schema.
  lemma RaisedInFile<N(!new), K(!new)>(c: Context<K>, schema: Schema<K>, root: Option<Doc<N, K>>, x: Event<N, K>)
    ensures x in FileEvents(c, schema, root) <==>
            && c.ready
            && exists kind, e | e in Components(c, root, kind) ::
                 var path := [Key(c.section(kind)), Key(e.key)];
                 var at := (kind, c.typeOf(e.key));
                 if at in schema && schema[at].Some? then
                   exists turns :: RaisedAt(c, schema[at].value, e.node, path, turns, x)
                 else x == Skipped(path, MissingSchema)
  {
    if c.ready {
      InFile(c, schema, root, x);
      forall kind, e | e in Components(c, root, kind)
        ensures x in ComponentEvents(c, schema, kind, e) <==>
                var path := [Key(c.section(kind)), Key(e.key)];
                var at := (kind, c.typeOf(e.key));
                if at in schema && schema[at].Some? then
                  exists turns :: RaisedAt(c, schema[at].value, e.node, path, turns, x)
                else x == Skipped(path, MissingSchema)
      {
        var at := (kind, c.typeOf(e.key));
        if at in schema && schema[at].Some? {
          RaisedIsVisited(c, schema[at].value, e.node, [Key(c.section(kind)), Key(e.key)], x);
        }
      }
    }
  }
}
