// Partial schemas never add findings: a schema that says less about some settings raises no finding that the fuller
// schema would not.
module PartialSchemas {
  import opened FieldSchema
  import opened FieldWalk
  import opened Visited
  import opened Conformance

  // A finding of any of the four field rules.
  predicate Reported<N, K>(e: Event<N, K>) {
    !e.Skipped?
  }

  ghost predicate NoMore<N(!new), K(!new)>(loose: seq<Event<N, K>>, full: seq<Event<N, K>>) {
    forall e | e in loose && Reported(e) :: e in full
  }

  // A field that says nothing: no type, no keys, nothing required. Its enumeration is never looked at.
  predicate Unconstrained<K>(f: Field<K>) {
    f.typ.Unstated? && f.children == map[] && f.required == []
  }

  // `g` says no more than `f`: any field inside may have become unconstrained, and any map may have been opened and
  // have lost some of its children.
  ghost predicate Looser<K(!new)>(g: Field<K>, f: Field<K>)
    decreases f
  {
    Unconstrained(g) || LooserInside(g, f)
  }

  ghost predicate LooserInside<K(!new)>(g: Field<K>, f: Field<K>)
    decreases f, 0
  {
    && g.typ == f.typ && g.enums == f.enums
    && (forall k | k in g.required :: k in f.required)
    && (f.open ==> g.open)
    && (if g.open then g.children.Keys <= f.children.Keys else g.children.Keys == f.children.Keys)
    && forall k | k in g.children ::
         && k in f.children && Looser(g.children[k], f.children[k])
         && (g.children[k].deprecated.Some? ==> g.children[k].deprecated == f.children[k].deprecated)
  }

  lemma {:induction false} LoosenedAddsNothing<N(!new), K(!new)>(
    c: Context<K>, g: Field<K>, f: Field<K>, d: Doc<N, K>, path: Path<K>)
    requires Looser(g, f)
    ensures NoMore(WalkEvents(c, g, d, path), WalkEvents(c, f, d, path))
    decreases d, 1
  {
    var n := Resolve(d, MAX_SETTINGS_DEPTH);
    if n.shape.Alias? {
    } else if Unconstrained(g) {
      UnconstrainedFindsNothing(c, g, n, path);
    } else if n.tag.Null? {
      FewerRequired(g.required, f.required, {}, n.id, path);
    } else {
      LoosenedInside(c, g, f, d, path);
      assert NoMore(ValueEvents(c, g, n, path), ValueEvents(c, f, n, path)) by {
        SameVerdict(c, g, f, n, path);
      }
    }
  }

  lemma UnconstrainedFindsNothing<N(!new), K(!new)>(c: Context<K>, g: Field<K>, n: Doc<N, K>, path: Path<K>)
    requires Unconstrained(g)
    ensures ValueEvents(c, g, n, path) == []
  {
    if n.shape.Mapping? {
      var events := EntriesEvents(c, g, n.shape.entries, path);
      if events != [] {
        InEntries(c, g, n.shape.entries, path, events[0]);
      }
    }
  }

  lemma FewerRequired<N(!new), K(!new)>(few: seq<K>, many: seq<K>, present: set<K>, node: N, path: Path<K>)
    requires forall k | k in few :: k in many
    ensures NoMore(RequiredEvents(few, present, node, path), RequiredEvents(many, present, node, path))
  {
    forall e | e in RequiredEvents(few, present, node, path)
      ensures e in RequiredEvents(many, present, node, path)
    {
      InRequired(few, present, node, path, e);
      InRequired(many, present, node, path, e);
    }
  }

  // The type check reports the same of both, except where the looser one states no shape at all.
  lemma SameVerdict<N(!new), K(!new)>(c: Context<K>, g: Field<K>, f: Field<K>, n: Doc<N, K>, path: Path<K>)
    requires LooserInside(g, f)
    ensures StatesNoShape(g) || TypeEvents(c, g, n, path) == TypeEvents(c, f, n, path)
    ensures StatesNoShape(g) && n.shape.Mapping? ==> TypeEvents(c, f, n, path).1
    ensures StatesNoShape(g) && !n.shape.Mapping? ==> ValueEvents(c, g, n, path) == [] || n.tag.Null?
  {
    assert f.typ.MapType? ==> DecodeScalar(c, n, f.typ) == n;
  }

  lemma {:induction false} LoosenedInside<N(!new), K(!new)>(
    c: Context<K>, g: Field<K>, f: Field<K>, d: Doc<N, K>, path: Path<K>)
    requires LooserInside(g, f)
    ensures var n := Resolve(d, MAX_SETTINGS_DEPTH);
            NoMore(InnerEvents(c, g, n, path), InnerEvents(c, f, n, path))
    decreases d, 0
  {
    var n := Resolve(d, MAX_SETTINGS_DEPTH);
    match n.shape
    case Mapping(entries) =>
      forall e | e in entries
        ensures NoMore(EntryEvents(c, g, e, path), EntryEvents(c, f, e, path))
      {
        if e.key in g.children {
          LoosenedAddsNothing(c, g.children[e.key], f.children[e.key], e.node, path + [Key(e.key)]);
        }
      }
      FewerRequired(g.required, f.required, KeysOf(entries), n.id, path);
      forall e | e in EntriesEvents(c, g, entries, path) && Reported(e)
        ensures e in EntriesEvents(c, f, entries, path)
      {
        InEntries(c, g, entries, path, e);
        InEntries(c, f, entries, path, e);
      }
    case Sequence(items) =>
      if g.typ.ListType? && c.item in g.children {
        LoosenedItems(c, g, f, items, path);
        forall e | e in ItemsEvents(c, g.children[c.item], items, path) && Reported(e)
          ensures e in ItemsEvents(c, f.children[c.item], items, path)
        {
          InItems(c, g.children[c.item], items, path, e);
          InItems(c, f.children[c.item], items, path, e);
        }
      }
    case _ =>
  }

  lemma {:induction false} LoosenedItems<N(!new), K(!new)>(
    c: Context<K>, g: Field<K>, f: Field<K>, items: seq<Doc<N, K>>, path: Path<K>)
    requires LooserInside(g, f) && c.item in g.children
    ensures forall i | 0 <= i < |items| ::
              NoMore(WalkEvents(c, g.children[c.item], items[i], path + [Index(i)]),
                     WalkEvents(c, f.children[c.item], items[i], path + [Index(i)]))
    decreases items
  {
    forall i | 0 <= i < |items|
      ensures NoMore(WalkEvents(c, g.children[c.item], items[i], path + [Index(i)]),
                     WalkEvents(c, f.children[c.item], items[i], path + [Index(i)]))
    {
      LoosenedAddsNothing(c, g.children[c.item], f.children[c.item], items[i], path + [Index(i)]);
    }
  }

  // The same for whole schemas, which may also lose what they say of a component.

  ghost predicate LooserSchema<K(!new)>(loose: Schema<K>, full: Schema<K>) {
    forall k | k in loose && loose[k].Some? ::
      k in full && full[k].Some? && Looser(loose[k].value, full[k].value)
  }

  lemma PartialSchemasAddNothing<N(!new), K(!new)>(
    c: Context<K>, loose: Schema<K>, full: Schema<K>, root: Option<Doc<N, K>>)
    requires LooserSchema(loose, full)
    ensures NoMore(FileEvents(c, loose, root), FileEvents(c, full, root))
  {
    forall x | x in FileEvents(c, loose, root) && Reported(x)
      ensures x in FileEvents(c, full, root)
    {
      InFile(c, loose, root, x);
      var kind, e :| e in Components(c, root, kind) && x in ComponentEvents(c, loose, kind, e);
      if FieldsOf(c, loose, kind, e).Some? {
        LoosenedAddsNothing(c, FieldsOf(c, loose, kind, e).value, FieldsOf(c, full, kind, e).value, e.node,
                            [Key(c.section(kind)), Key(e.key)]);
      }
      InFile(c, full, root, x);
    }
  }
}
