// FieldWalker: the walk over a component's settings that the four field rules and the coverage report share.
module FieldWalk {
  import opened FieldSchema

  datatype Reason = MissingSchema | OpenSchema | UnknownDecoder

  datatype Want<K> = OfType(typ: Type) | OneOf(values: seq<K>)

  datatype Event<N, K> =
    | Unknown(key: K, node: N, path: Path<K>, described: set<K>)
    | Required(key: K, node: N, path: Path<K>)
    | Invalid(node: N, path: Path<K>, want: Want<K>)
    | Deprecated(key: K, node: N, path: Path<K>, note: K)
    | Skipped(path: Path<K>, reason: Reason)

  // Which callback an event goes to; a rule leaves the ones it does not care about unset.
  datatype Callback = OnUnknown | OnRequired | OnInvalid | OnDeprecated | OnSkipped

  function CallbackOf<N, K>(e: Event<N, K>): Callback {
    match e
    case Unknown(_, _, _, _) => OnUnknown
    case Required(_, _, _) => OnRequired
    case Invalid(_, _, _) => OnInvalid
    case Deprecated(_, _, _, _) => OnDeprecated
    case Skipped(_, _) => OnSkipped
  }

  function Heard<N, K>(callbacks: set<Callback>, events: seq<Event<N, K>>): seq<Event<N, K>> {
    if events == [] then []
    else (if CallbackOf(events[0]) in callbacks then [events[0]] else []) + Heard(callbacks, events[1..])
  }

  lemma {:induction false} HeardConcat<N, K>(callbacks: set<Callback>, a: seq<Event<N, K>>, b: seq<Event<N, K>>)
    ensures Heard(callbacks, a + b) == Heard(callbacks, a) + Heard(callbacks, b)
  {
    if a == [] {
      assert a + b == b;
    } else {
      var head := if CallbackOf(a[0]) in callbacks then [a[0]] else [];
      assert (a + b)[1..] == a[1..] + b;
      HeardConcat(callbacks, a[1..], b);
      Associates(head, Heard(callbacks, a[1..]), Heard(callbacks, b));
    }
  }

  lemma Associates<T>(a: seq<T>, b: seq<T>, c: seq<T>)
    ensures a + (b + c) == a + b + c
  {
  }

  lemma HeardStep<N, K>(callbacks: set<Callback>, was: seq<Event<N, K>>, a: seq<Event<N, K>>, b: seq<Event<N, K>>)
    ensures was + Heard(callbacks, a) + Heard(callbacks, b) == was + Heard(callbacks, a + b)
  {
    HeardConcat(callbacks, a, b);
  }

  lemma {:induction false} HeardIsFilter<N, K>(callbacks: set<Callback>, events: seq<Event<N, K>>)
    ensures forall e :: e in Heard(callbacks, events) <==> e in events && CallbackOf(e) in callbacks
  {
    if events != [] {
      assert events == [events[0]] + events[1..];
      HeardIsFilter(callbacks, events[1..]);
    }
  }

  // Everything a walk has to say about a value.

  predicate StatesNoShape<K>(f: Field<K>) {
    f.typ.MapType? && f.open && f.children == map[]
  }

  predicate IsOpen<K>(f: Field<K>) {
    f.open || (f.typ.Unstated? && f.children == map[]) || (f.typ.MapType? && f.children == map[])
  }

  predicate DecoderDecides<N, K>(c: Context<K>, f: Field<K>, n: Doc<N, K>) {
    && n.tag.Str?
    && (f.typ.Integer? || f.typ.Decimal? || f.typ.Boolean?)
    && c.weak.None?
    && MatchesType(c, f.typ, DecodeQuoted(c, n, f.typ))
  }

  // checkType: what it reports, and whether the walk goes on into the value.
  ghost function TypeEvents<N, K>(c: Context<K>, f: Field<K>, n: Doc<N, K>, path: Path<K>): (seq<Event<N, K>>, bool) {
    if f.typ.Unstated? || StatesNoShape(f) then ([], true)
    else if n.shape.Scalar? && c.expands(n.value) then ([], false)
    else if DecoderDecides(c, f, n) then ([Skipped(path, UnknownDecoder)], false)
    else if !MatchesType(c, f.typ, DecodeScalar(c, n, f.typ)) then ([Invalid(n.id, path, OfType(f.typ))], false)
    else if f.enums != [] && n.shape.Scalar? && n.value !in f.enums then ([Invalid(n.id, path, OneOf(f.enums))], false)
    else ([], true)
  }

  ghost function RequiredEvents<N, K>(required: seq<K>, present: set<K>, node: N, path: Path<K>): seq<Event<N, K>> {
    if required == [] then []
    else
      var last := |required| - 1;
      RequiredEvents(required[..last], present, node, path) + MissingEvents(required[last], present, node, path)
  }

  ghost function MissingEvents<N, K>(key: K, present: set<K>, node: N, path: Path<K>): seq<Event<N, K>> {
    if key in present then [] else [Required(key, node, path + [Key(key)])]
  }

  ghost function WalkEvents<N, K>(c: Context<K>, f: Field<K>, d: Doc<N, K>, path: Path<K>): seq<Event<N, K>>
    decreases d, 3
  {
    var n := Resolve(d, MAX_SETTINGS_DEPTH);
    if n.shape.Alias? then [] else OpenEvents(f, path) + ValueEvents(c, f, n, path)
  }

  ghost function OpenEvents<N, K>(f: Field<K>, path: Path<K>): seq<Event<N, K>> {
    if IsOpen(f) then [Skipped(path, OpenSchema)] else []
  }

  ghost function ValueEvents<N, K>(c: Context<K>, f: Field<K>, n: Doc<N, K>, path: Path<K>): seq<Event<N, K>>
    decreases n, 2
  {
    if n.tag.Null? then RequiredEvents(f.required, {}, n.id, path)
    else
      var (said, go) := TypeEvents(c, f, n, path);
      if go then said + InnerEvents(c, f, n, path) else said
  }

  ghost function InnerEvents<N, K>(c: Context<K>, f: Field<K>, n: Doc<N, K>, path: Path<K>): seq<Event<N, K>>
    decreases n, 1
  {
    match n.shape
    case Mapping(entries) =>
      if f.typ.MapType? || f.typ.Unstated? then
        EntriesEvents(c, f, entries, path) + RequiredEvents(f.required, KeysOf(entries), n.id, path)
      else []
    case Sequence(items) =>
      if !f.typ.ListType? then []
      else if c.item !in f.children then [Skipped(path, MissingSchema)]
      else ItemsEvents(c, f.children[c.item], items, path)
    case _ => []
  }

  ghost function EntriesEvents<N, K>(c: Context<K>, f: Field<K>, entries: seq<Entry<N, K>>, path: Path<K>)
    : seq<Event<N, K>>
    decreases entries
  {
    if entries == [] then []
    else
      var before, e := entries[..|entries| - 1], entries[|entries| - 1];
      EntriesEvents(c, f, before, path) + EntryEvents(c, f, e, path)
  }

  ghost function EntryEvents<N, K>(c: Context<K>, f: Field<K>, e: Entry<N, K>, path: Path<K>): seq<Event<N, K>>
    decreases e
  {
    var at := path + [Key(e.key)];
    if e.key in f.children then
      NoteEvents(f, e, at) + WalkEvents(c, f.children[e.key], e.node, at)
    else if !f.open && f.children != map[] then
      [Unknown(e.key, e.keyNode, at, f.children.Keys)]
    else []
  }

  ghost function NoteEvents<N, K>(f: Field<K>, e: Entry<N, K>, at: Path<K>): seq<Event<N, K>>
    requires e.key in f.children
  {
    match f.children[e.key].deprecated
    case Some(note) => [Deprecated(e.key, e.keyNode, at, note)]
    case None => []
  }

  ghost function ItemsEvents<N, K>(c: Context<K>, f: Field<K>, items: seq<Doc<N, K>>, path: Path<K>): seq<Event<N, K>>
    decreases items
  {
    if items == [] then []
    else
      var last := |items| - 1;
      ItemsEvents(c, f, items[..last], path) + WalkEvents(c, f, items[last], path + [Index(last)])
  }

  ghost function ComponentEvents<N, K>(c: Context<K>, schema: Schema<K>, kind: Kind, e: Entry<N, K>): seq<Event<N, K>> {
    var path := [Key(c.section(kind)), Key(e.key)];
    match FieldsOf(c, schema, kind, e)
    case Some(f) => WalkEvents(c, f, e.node, path)
    case None => [Skipped(path, MissingSchema)]
  }

  function FieldsOf<N, K>(c: Context<K>, schema: Schema<K>, kind: Kind, e: Entry<N, K>): Option<Field<K>> {
    if (kind, c.typeOf(e.key)) in schema then schema[(kind, c.typeOf(e.key))] else None
  }

  ghost function SectionEvents<N, K>(c: Context<K>, schema: Schema<K>, kind: Kind,
                                     components: seq<Entry<N, K>>): seq<Event<N, K>>
  {
    if components == [] then []
    else
      var last := |components| - 1;
      SectionEvents(c, schema, kind, components[..last]) + ComponentEvents(c, schema, kind, components[last])
  }

  ghost function KindsEvents<N, K>(c: Context<K>, schema: Schema<K>, root: Option<Doc<N, K>>,
                                   kinds: seq<Kind>): seq<Event<N, K>>
  {
    if kinds == [] then []
    else
      var last := |kinds| - 1;
      KindsEvents(c, schema, root, kinds[..last]) +
      SectionEvents(c, schema, kinds[last], Components(c, root, kinds[last]))
  }

  ghost function FileEvents<N, K>(c: Context<K>, schema: Schema<K>, root: Option<Doc<N, K>>): seq<Event<N, K>> {
    if c.ready then KindsEvents(c, schema, root, KINDS) else []
  }

  // One turn of each loop.

  lemma KindsSnoc<N, K>(c: Context<K>, schema: Schema<K>, root: Option<Doc<N, K>>, kinds: seq<Kind>, i: nat)
    requires i < |kinds|
    ensures KindsEvents(c, schema, root, kinds[..i + 1])
         == KindsEvents(c, schema, root, kinds[..i]) + SectionEvents(c, schema, kinds[i], Components(c, root, kinds[i]))
  {
    assert kinds[..i + 1][..i] == kinds[..i];
  }

  lemma SectionSnoc<N, K>(c: Context<K>, schema: Schema<K>, kind: Kind, components: seq<Entry<N, K>>, i: nat)
    requires i < |components|
    ensures SectionEvents(c, schema, kind, components[..i + 1])
         == SectionEvents(c, schema, kind, components[..i]) + ComponentEvents(c, schema, kind, components[i])
  {
    assert components[..i + 1][..i] == components[..i];
  }

  lemma KeysSnoc<N, K>(entries: seq<Entry<N, K>>, e: Entry<N, K>)
    ensures KeysOf(entries + [e]) == KeysOf(entries) + {e.key}
  {
    assert e in entries + [e];
    assert forall x | x in entries :: x in entries + [e];
  }

  lemma EntriesSnoc<N, K>(c: Context<K>, f: Field<K>, entries: seq<Entry<N, K>>, i: nat, path: Path<K>)
    requires i < |entries|
    ensures EntriesEvents(c, f, entries[..i + 1], path)
         == EntriesEvents(c, f, entries[..i], path) + EntryEvents(c, f, entries[i], path)
  {
    assert entries[..i + 1][..i] == entries[..i];
  }

  lemma ItemsSnoc<N, K>(c: Context<K>, item: Field<K>, items: seq<Doc<N, K>>, i: nat, path: Path<K>)
    requires i < |items|
    ensures ItemsEvents(c, item, items[..i + 1], path)
         == ItemsEvents(c, item, items[..i], path) + WalkEvents(c, item, items[i], path + [Index(i)])
  {
    assert items[..i + 1][..i] == items[..i];
  }

  lemma RequiredSnoc<N, K>(required: seq<K>, i: nat, present: set<K>, node: N, path: Path<K>)
    requires i < |required|
    ensures RequiredEvents(required[..i + 1], present, node, path)
         == RequiredEvents(required[..i], present, node, path) + MissingEvents(required[i], present, node, path)
  {
    assert required[..i + 1][..i] == required[..i];
  }

  class FieldWalker<N(==), K(==)> {
    const c: Context<K>
    const schema: Schema<K>
    const callbacks: set<Callback>
    var events: seq<Event<N, K>>

    constructor (c: Context<K>, schema: Schema<K>, callbacks: set<Callback>)
      ensures this.c == c && this.schema == schema && this.callbacks == callbacks && events == []
    {
      this.c := c;
      this.schema := schema;
      this.callbacks := callbacks;
      events := [];
    }

    // A walk of the whole file, from a walker that has heard nothing yet or anything else.
    method WalkComponents(root: Option<Doc<N, K>>)
      modifies this
      ensures events == old(events) + Heard(callbacks, FileEvents(c, schema, root))
    {
      if !c.ready {
        return;
      }
      for i := 0 to |KINDS|
        invariant events == old(events) + Heard(callbacks, KindsEvents(c, schema, root, KINDS[..i]))
      {
        var components := Components(c, root, KINDS[i]);
        KindsSnoc(c, schema, root, KINDS, i);
        HeardStep(callbacks, old(events), KindsEvents(c, schema, root, KINDS[..i]),
                  SectionEvents(c, schema, KINDS[i], components));
        WalkSection(KINDS[i], components);
      }
      assert KINDS[..|KINDS|] == KINDS;
    }

    method WalkSection(kind: Kind, components: seq<Entry<N, K>>)
      modifies this
      ensures events == old(events) + Heard(callbacks, SectionEvents(c, schema, kind, components))
    {
      for i := 0 to |components|
        invariant events == old(events) + Heard(callbacks, SectionEvents(c, schema, kind, components[..i]))
      {
        var e := components[i];
        var path := [Key(c.section(kind)), Key(e.key)];
        SectionSnoc(c, schema, kind, components, i);
        HeardStep(callbacks, old(events), SectionEvents(c, schema, kind, components[..i]),
                  ComponentEvents(c, schema, kind, e));
        var fields := FieldsOf(c, schema, kind, e);
        if fields.Some? {
          Walk(fields.value, e.node, path);
        } else {
          Fire(Skipped(path, MissingSchema));
        }
      }
      assert components[..|components|] == components;
    }

    method Fire(e: Event<N, K>)
      modifies this
      ensures events == old(events) + Heard(callbacks, [e])
    {
      if CallbackOf(e) in callbacks {
        events := events + [e];
      }
      assert [e][1..] == [];
    }

    method Walk(f: Field<K>, d: Doc<N, K>, path: Path<K>)
      modifies this
      ensures events == old(events) + Heard(callbacks, WalkEvents(c, f, d, path))
      decreases d, 3
    {
      var n := Resolve(d, MAX_SETTINGS_DEPTH);
      if n.shape.Alias? {
        return;
      }
      HeardStep(callbacks, events, OpenEvents(f, path), ValueEvents(c, f, n, path));
      if IsOpen(f) {
        Fire(Skipped(path, OpenSchema));
      }
      Value(f, n, path);
    }

    // The rest of walk, once it is known what the value is.
    method Value(f: Field<K>, n: Doc<N, K>, path: Path<K>)
      modifies this
      ensures events == old(events) + Heard(callbacks, ValueEvents(c, f, n, path))
      decreases n, 2
    {
      if n.tag.Null? {
        CheckRequired(f, {}, n, path);
        return;
      }
      HeardStep(callbacks, events, TypeEvents(c, f, n, path).0, InnerEvents(c, f, n, path));
      var go := CheckType(f, n, path);
      if go {
        Inner(f, n, path);
      }
    }

    method Inner(f: Field<K>, n: Doc<N, K>, path: Path<K>)
      modifies this
      ensures events == old(events) + Heard(callbacks, InnerEvents(c, f, n, path))
      decreases n, 1
    {
      match f.typ
      case MapType => WalkMap(f, n, path);
      case Unstated => WalkMap(f, n, path);
      case ListType => WalkList(f, n, path);
      case _ =>
    }

    method WalkMap(f: Field<K>, n: Doc<N, K>, path: Path<K>)
      requires f.typ.MapType? || f.typ.Unstated?
      modifies this
      ensures events == old(events) + Heard(callbacks, InnerEvents(c, f, n, path))
      decreases n, 0
    {
      if !n.shape.Mapping? {
        return;
      }
      var present := WalkEntries(f, n.shape.entries, path);
      HeardStep(callbacks, old(events), EntriesEvents(c, f, n.shape.entries, path),
                RequiredEvents(f.required, present, n.id, path));
      CheckRequired(f, present, n, path);
    }

    // walkMap's loop: every entry is visited, and the keys written are collected.
    method WalkEntries(f: Field<K>, entries: seq<Entry<N, K>>, path: Path<K>) returns (present: set<K>)
      modifies this
      ensures present == KeysOf(entries)
      ensures events == old(events) + Heard(callbacks, EntriesEvents(c, f, entries, path))
      decreases entries
    {
      present := {};
      for i := 0 to |entries|
        invariant present == KeysOf(entries[..i])
        invariant events == old(events) + Heard(callbacks, EntriesEvents(c, f, entries[..i], path))
      {
        KeysSnoc(entries[..i], entries[i]);
        EntriesSnoc(c, f, entries, i, path);
        HeardStep(callbacks, old(events), EntriesEvents(c, f, entries[..i], path), EntryEvents(c, f, entries[i], path));
        assert entries[..i + 1] == entries[..i] + [entries[i]];
        present := present + {entries[i].key};
        Visit(f, entries[i], path);
      }
      assert entries[..|entries|] == entries;
    }

    method Visit(f: Field<K>, e: Entry<N, K>, path: Path<K>)
      modifies this
      ensures events == old(events) + Heard(callbacks, EntryEvents(c, f, e, path))
      decreases e
    {
      var at := path + [Key(e.key)];
      if e.key in f.children {
        var child := f.children[e.key];
        HeardStep(callbacks, events, NoteEvents(f, e, at), WalkEvents(c, child, e.node, at));
        if child.deprecated.Some? {
          Fire(Deprecated(e.key, e.keyNode, at, child.deprecated.value));
        }
        Walk(child, e.node, at);
      } else if !f.open && f.children != map[] {
        Fire(Unknown(e.key, e.keyNode, at, f.children.Keys));
      }
    }

    method WalkList(f: Field<K>, n: Doc<N, K>, path: Path<K>)
      requires f.typ.ListType?
      modifies this
      ensures events == old(events) + Heard(callbacks, InnerEvents(c, f, n, path))
      decreases n, 0
    {
      if !n.shape.Sequence? {
        return;
      }
      if c.item !in f.children {
        Fire(Skipped(path, MissingSchema));
        return;
      }
      WalkItems(f.children[c.item], n.shape.items, path);
    }

    method WalkItems(item: Field<K>, items: seq<Doc<N, K>>, path: Path<K>)
      modifies this
      ensures events == old(events) + Heard(callbacks, ItemsEvents(c, item, items, path))
      decreases items
    {
      for i := 0 to |items|
        invariant events == old(events) + Heard(callbacks, ItemsEvents(c, item, items[..i], path))
      {
        ItemsSnoc(c, item, items, i, path);
        HeardStep(callbacks, old(events), ItemsEvents(c, item, items[..i], path),
                  WalkEvents(c, item, items[i], path + [Index(i)]));
        Walk(item, items[i], path + [Index(i)]);
      }
      assert items[..|items|] == items;
    }

    method CheckRequired(f: Field<K>, present: set<K>, n: Doc<N, K>, path: Path<K>)
      modifies this
      ensures events == old(events) + Heard(callbacks, RequiredEvents(f.required, present, n.id, path))
    {
      for i := 0 to |f.required|
        invariant events == old(events) + Heard(callbacks, RequiredEvents(f.required[..i], present, n.id, path))
      {
        var key := f.required[i];
        RequiredSnoc(f.required, i, present, n.id, path);
        HeardStep(callbacks, old(events), RequiredEvents(f.required[..i], present, n.id, path),
                  MissingEvents(key, present, n.id, path));
        if key !in present {
          Fire(Required(key, n.id, path + [Key(key)]));
        }
      }
      assert f.required[..|f.required|] == f.required;
    }

    method CheckType(f: Field<K>, n: Doc<N, K>, path: Path<K>) returns (go: bool)
      modifies this
      ensures go == TypeEvents(c, f, n, path).1
      ensures events == old(events) + Heard(callbacks, TypeEvents(c, f, n, path).0)
    {
      if f.typ.Unstated? || StatesNoShape(f) {
        return true;
      }
      if n.shape.Scalar? && c.expands(n.value) {
        return false;
      }
      if DecoderDecides(c, f, n) {
        Fire(Skipped(path, UnknownDecoder));
        return false;
      }
      if !MatchesType(c, f.typ, DecodeScalar(c, n, f.typ)) {
        Fire(Invalid(n.id, path, OfType(f.typ)));
        return false;
      }
      if f.enums != [] && n.shape.Scalar? && n.value !in f.enums {
        Fire(Invalid(n.id, path, OneOf(f.enums)));
        return false;
      }
      return true;
    }
  }
}
