// What the field rules decide: on a configuration the coverage report calls complete, the rules that are switched on
// find nothing exactly when every component meets what they stand for; on any configuration, a component that does is
// never reported by them.
module Conformance {
  import opened FieldSchema
  import opened FieldWalk
  import opened Visited
  import opened Coverages

  // The rules that find a value wrong; deprecated-field finds it dated.
  const FAULTS := {OnUnknown, OnRequired, OnInvalid}

  // What the rules with these callbacks stand for: a value has the stated type and is one of those listed, a mapping
  // writes every required key and no key that is not described, and everything inside does the same. Null stands for an
  // unset value.
  ghost predicate Meets<N, K>(c: Context<K>, rules: set<Callback>, f: Field<K>, d: Doc<N, K>)
    decreases d, 1
  {
    var n := Meant(d);
    if n.tag.Null? then
      OnRequired in rules ==> f.required == []
    else
      && (OnInvalid in rules ==> IsA(c, f.typ, n) && (f.enums != [] && n.shape.Scalar? ==> n.value in f.enums))
      && MeetsInside(c, rules, f, n)
  }

  ghost predicate MeetsInside<N, K>(c: Context<K>, rules: set<Callback>, f: Field<K>, n: Doc<N, K>)
    decreases n, 0
  {
    match n.shape
    case Mapping(entries) =>
      IsEntered(f, n) ==>
        && (OnRequired in rules ==> forall k | k in f.required :: k in KeysOf(entries))
        && (forall e | e in entries ::
              if e.key in f.children then Meets(c, rules, f.children[e.key], e.node)
              else OnUnknown in rules ==> f.open || f.children == map[])
    case Sequence(items) =>
      IsEntered(f, n) && c.item in f.children ==> forall x | x in items :: Meets(c, rules, f.children[c.item], x)
    case _ => true
  }

  // Values a field of this type describes the inside of.
  predicate IsEntered<N, K>(f: Field<K>, n: Doc<N, K>) {
    || (n.shape.Mapping? && (f.typ.MapType? || f.typ.Unstated?))
    || (n.shape.Sequence? && f.typ.ListType?)
  }

  // The meaning of a schema.
  ghost predicate Conforms<N, K>(c: Context<K>, f: Field<K>, d: Doc<N, K>) {
    Meets(c, FAULTS, f, d)
  }

  // What rules stand for depends on which of the three are among them; fewer of them stand for less.
  lemma {:induction false} MeetsFewer<N, K>(c: Context<K>, more: set<Callback>, rules: set<Callback>, f: Field<K>,
                                           d: Doc<N, K>)
    requires Meets(c, more, f, d) && rules * FAULTS <= more
    ensures Meets(c, rules, f, d)
    decreases d
  {
    var n := Meant(d);
    if !n.tag.Null? {
      match n.shape
      case Mapping(entries) =>
        forall e | e in entries && e.key in f.children && (f.typ.MapType? || f.typ.Unstated?)
          ensures Meets(c, rules, f.children[e.key], e.node)
        {
          MeetsFewer(c, more, rules, f.children[e.key], e.node);
        }
      case Sequence(items) =>
        if f.typ.ListType? && c.item in f.children {
          forall x | x in items
            ensures Meets(c, rules, f.children[c.item], x)
          {
            MeetsFewer(c, more, rules, f.children[c.item], x);
          }
        }
      case _ =>
    }
  }

  // A field that states its keys and an enumeration, and no type. Its enumeration is never looked at: see
  // EnumsNeedAType.
  predicate NeedsType<K>(f: Field<K>) {
    f.typ.Unstated? && !f.open && f.children != map[] && f.enums != []
  }

  // No field that a walk goes into needs a type.
  ghost predicate WellShaped<K(!new)>(c: Context<K>, f: Field<K>) {
    && !NeedsType(f)
    && (!f.open && (f.typ.MapType? || f.typ.Unstated?) ==> forall k | k in f.children :: WellShaped(c, f.children[k]))
    && (!f.open && f.typ.ListType? && c.item in f.children ==> WellShaped(c, f.children[c.item]))
  }

  // Whatever the schema's shape: every scalar under a field without a type is one of those the field lists, if it lists
  // any.
  ghost predicate UntypedEnumsMet<N, K>(c: Context<K>, f: Field<K>, d: Doc<N, K>)
    decreases d
  {
    var n := Meant(d);
    n.tag.Null? ||
    (
      && (f.typ.Unstated? && f.enums != [] && n.shape.Scalar? ==> n.value in f.enums)
      && (n.shape.Mapping? && (f.typ.MapType? || f.typ.Unstated?) ==>
            forall e | e in n.shape.entries && e.key in f.children :: UntypedEnumsMet(c, f.children[e.key], e.node))
      && (n.shape.Sequence? && f.typ.ListType? && c.item in f.children ==>
            forall x | x in n.shape.items :: UntypedEnumsMet(c, f.children[c.item], x))
    )
  }

  // An event one of unknown-field, required-field and invalid-value turns into a finding.
  predicate IsFinding<N, K>(e: Event<N, K>) {
    CallbackOf(e) in FAULTS
  }

  // None of these rules finds anything.
  ghost predicate Silent<N(!new), K(!new)>(rules: set<Callback>, events: seq<Event<N, K>>) {
    forall e | e in events && CallbackOf(e) in rules :: !IsFinding(e)
  }

  ghost predicate NoFinding<N(!new), K(!new)>(events: seq<Event<N, K>>) {
    forall e | e in events :: !IsFinding(e)
  }

  ghost predicate NoSkip<N(!new), K(!new)>(events: seq<Event<N, K>>) {
    forall e | e in events :: !e.Skipped?
  }

  lemma HeardNothing<N(!new), K(!new)>(rules: set<Callback>, events: seq<Event<N, K>>)
    ensures NoFinding(Heard(rules, events)) <==> Silent(rules, events)
  {
    HeardIsFilter(rules, events);
  }

  // No false positives.

  lemma {:induction false} MeetingIsNeverReported<N(!new), K(!new)>(
    c: Context<K>, rules: set<Callback>, f: Field<K>, d: Doc<N, K>, path: Path<K>)
    requires Meets(c, rules, f, d)
    ensures Silent(rules, WalkEvents(c, f, d, path))
    decreases d, 1
  {
    var n := Resolve(d, MAX_SETTINGS_DEPTH);
    ResolvedIsMeant(d, MAX_SETTINGS_DEPTH);
    if n.shape.Alias? {
    } else if n.tag.Null? {
      NullIsNeverReported(c, rules, f, n, path);
    } else {
      InsideIsNeverReported(c, rules, f, d, path);
      TypeIsNeverReported(c, rules, f, n, path);
    }
  }

  lemma NullIsNeverReported<N(!new), K(!new)>(
    c: Context<K>, rules: set<Callback>, f: Field<K>, n: Doc<N, K>, path: Path<K>)
    requires n.tag.Null? && (OnRequired in rules ==> f.required == [])
    ensures Silent(rules, ValueEvents(c, f, n, path))
  {
    forall x | x in RequiredEvents(f.required, {}, n.id, path)
      ensures CallbackOf(x) in rules ==> !IsFinding(x)
    {
      InRequired(f.required, {}, n.id, path, x);
    }
  }

  lemma TypeIsNeverReported<N(!new), K(!new)>(
    c: Context<K>, rules: set<Callback>, f: Field<K>, n: Doc<N, K>, path: Path<K>)
    requires !n.tag.Null? && Silent(rules, InnerEvents(c, f, n, path))
    requires OnInvalid in rules ==> IsA(c, f.typ, n) && (f.enums != [] && n.shape.Scalar? ==> n.value in f.enums)
    ensures Silent(rules, ValueEvents(c, f, n, path))
  {
    DecodingIsConversion(c, f.typ, n);
  }

  lemma {:induction false} InsideIsNeverReported<N(!new), K(!new)>(
    c: Context<K>, rules: set<Callback>, f: Field<K>, d: Doc<N, K>, path: Path<K>)
    requires Meets(c, rules, f, d) && !Meant(d).tag.Null?
    ensures Silent(rules, InnerEvents(c, f, Meant(d), path))
    decreases d, 0
  {
    var n := Meant(d);
    match n.shape
    case Mapping(entries) =>
      forall e | e in entries && e.key in f.children && (f.typ.MapType? || f.typ.Unstated?)
        ensures Silent(rules, WalkEvents(c, f.children[e.key], e.node, path + [Key(e.key)]))
      {
        MeetingIsNeverReported(c, rules, f.children[e.key], e.node, path + [Key(e.key)]);
      }
      EntriesAreNeverReported(c, rules, f, n, path);
    case Sequence(items) =>
      if f.typ.ListType? && c.item in f.children {
        var item := f.children[c.item];
        forall i | 0 <= i < |items|
          ensures Silent(rules, WalkEvents(c, item, items[i], path + [Index(i)]))
        {
          MeetingIsNeverReported(c, rules, item, items[i], path + [Index(i)]);
        }
        forall x | x in ItemsEvents(c, item, items, path) && CallbackOf(x) in rules
          ensures !IsFinding(x)
        {
          InItems(c, item, items, path, x);
        }
      }
    case _ =>
  }

  lemma EntriesAreNeverReported<N(!new), K(!new)>(
    c: Context<K>, rules: set<Callback>, f: Field<K>, n: Doc<N, K>, path: Path<K>)
    requires n.shape.Mapping?
    requires f.typ.MapType? || f.typ.Unstated? ==>
               && (OnRequired in rules ==> forall k | k in f.required :: k in KeysOf(n.shape.entries))
               && (forall e | e in n.shape.entries ::
                     if e.key in f.children then
                       Silent(rules, WalkEvents(c, f.children[e.key], e.node, path + [Key(e.key)]))
                     else OnUnknown in rules ==> f.open || f.children == map[])
    ensures Silent(rules, InnerEvents(c, f, n, path))
  {
    var entries := n.shape.entries;
    forall x | x in InnerEvents(c, f, n, path) && CallbackOf(x) in rules
      ensures !IsFinding(x)
    {
      InEntries(c, f, entries, path, x);
      InRequired(f.required, KeysOf(entries), n.id, path, x);
    }
  }

  // No false negatives, where nothing was skipped.

  lemma {:induction false} EntrySettled<N, K>(c: Context<K>, entries: seq<Entry<N, K>>, path: Path<K>, depth: nat,
                                             e: Entry<N, K>)
    requires EntriesSkips(c, entries, path, depth) == [] && e in entries
    ensures RuntimeSkips(c, e.node, path + [Key(e.key)], depth + 1) == []
    decreases entries
  {
    var last := |entries| - 1;
    if e != entries[last] {
      assert entries == entries[..last] + [entries[last]];
      EntrySettled(c, entries[..last], path, depth, e);
    }
  }

  lemma {:induction false} ItemSettled<N, K>(c: Context<K>, items: seq<Doc<N, K>>, path: Path<K>, depth: nat, i: nat)
    requires ItemsSkips(c, items, path, depth) == [] && i < |items|
    ensures RuntimeSkips(c, items[i], path + [Index(i)], depth + 1) == []
    decreases items
  {
    var last := |items| - 1;
    if i < last {
      ItemSettled(c, items[..last], path, depth, i);
    }
  }

  // No event but those of rules that are off.
  ghost predicate Quiet<N(!new), K(!new)>(rules: set<Callback>, events: seq<Event<N, K>>) {
    NoSkip(events) && Silent(rules, events)
  }

  // A value nothing was skipped of, and on which these rules are silent, meets what they stand for.
  lemma {:induction false} UnreportedMeets<N(!new), K(!new)>(
    c: Context<K>, rules: set<Callback>, f: Field<K>, d: Doc<N, K>, path: Path<K>, at: Path<K>, depth: nat)
    requires Quiet(rules, WalkEvents(c, f, d, path))
    requires RuntimeSkips(c, d, at, depth) == []
    requires OnInvalid in rules ==> UntypedEnumsMet(c, f, d)
    ensures Meets(c, rules, f, d)
    decreases d, 1
  {
    var n := Meant(d);
    ResolvedIsMeant(d, MAX_SETTINGS_DEPTH);
    NothingOpen(c, f, d, path);
    if n.tag.Null? {
      if f.required != [] {
        InRequired(f.required, {}, n.id, path, Required(f.required[0], n.id, path + [Key(f.required[0])]));
        assert Required(f.required[0], n.id, path + [Key(f.required[0])]) in WalkEvents(c, f, d, path);
      }
    } else {
      TypeWasMet(c, rules, f, n, path);
      UnreportedInside(c, rules, f, d, path, at, depth);
    }
  }

  lemma {:induction false} UnreportedInside<N(!new), K(!new)>(
    c: Context<K>, rules: set<Callback>, f: Field<K>, d: Doc<N, K>, path: Path<K>, at: Path<K>, depth: nat)
    requires var n := Meant(d);
             && n == Resolve(d, MAX_SETTINGS_DEPTH) && !n.tag.Null? && !IsOpen(f)
             && (IsEntered(f, n) ==> Quiet(rules, InnerEvents(c, f, n, path)))
    requires RuntimeSkips(c, d, at, depth) == []
    requires OnInvalid in rules ==> UntypedEnumsMet(c, f, d)
    ensures MeetsInside(c, rules, f, Meant(d))
    decreases d, 0
  {
    var n := Meant(d);
    match n.shape
    case Mapping(entries) =>
      if f.typ.MapType? || f.typ.Unstated? {
        UnreportedKeys(c, rules, f, n, path);
        forall e | e in entries && e.key in f.children
          ensures Meets(c, rules, f.children[e.key], e.node)
        {
          EntrySettled(c, entries, at, depth, e);
          UnreportedMeets(c, rules, f.children[e.key], e.node, path + [Key(e.key)], at + [Key(e.key)], depth + 1);
        }
      }
    case Sequence(items) =>
      if f.typ.ListType? && c.item in f.children {
        forall i | 0 <= i < |items|
          ensures Meets(c, rules, f.children[c.item], items[i])
        {
          ItemSettled(c, items, at, depth, i);
          UnreportedItem(c, rules, f, n, path, i);
          UnreportedMeets(c, rules, f.children[c.item], items[i], path + [Index(i)], at + [Index(i)], depth + 1);
        }
      }
    case _ =>
  }

  lemma NothingOpen<N(!new), K(!new)>(c: Context<K>, f: Field<K>, d: Doc<N, K>, path: Path<K>)
    requires NoSkip(WalkEvents(c, f, d, path)) && !Resolve(d, MAX_SETTINGS_DEPTH).shape.Alias?
    ensures !IsOpen(f) && NoSkip(ValueEvents(c, f, Resolve(d, MAX_SETTINGS_DEPTH), path))
  {
    assert IsOpen(f) ==> Skipped(path, OpenSchema) in WalkEvents(c, f, d, path);
  }

  // Where nothing is open or expands, the type check lets the walk into every value of the right shape, and into
  // nothing else when invalid-value is on and silent.
  lemma TypeWasMet<N(!new), K(!new)>(c: Context<K>, rules: set<Callback>, f: Field<K>, n: Doc<N, K>, path: Path<K>)
    requires !IsOpen(f) && !n.tag.Null? && (n.shape.Scalar? ==> !c.expands(n.value))
    requires Quiet(rules, ValueEvents(c, f, n, path))
    ensures IsEntered(f, n) ==> Quiet(rules, InnerEvents(c, f, n, path))
    ensures OnInvalid in rules ==> IsA(c, f.typ, n)
    ensures OnInvalid in rules && !f.typ.Unstated? && f.enums != [] && n.shape.Scalar? ==> n.value in f.enums
  {
    var (said, go) := TypeEvents(c, f, n, path);
    DecodingIsConversion(c, f.typ, n);
    if said != [] {
      assert said[0] in ValueEvents(c, f, n, path);
    }
  }

  lemma UnreportedKeys<N(!new), K(!new)>(c: Context<K>, rules: set<Callback>, f: Field<K>, n: Doc<N, K>, path: Path<K>)
    requires n.shape.Mapping? && (f.typ.MapType? || f.typ.Unstated?) && !IsOpen(f)
    requires Quiet(rules, InnerEvents(c, f, n, path))
    ensures OnRequired in rules ==> forall k | k in f.required :: k in KeysOf(n.shape.entries)
    ensures forall e | e in n.shape.entries ::
              if e.key in f.children then
                Quiet(rules, WalkEvents(c, f.children[e.key], e.node, path + [Key(e.key)]))
              else OnUnknown !in rules
  {
    var entries := n.shape.entries;
    forall k | k in f.required
      ensures OnRequired in rules ==> k in KeysOf(entries)
    {
      var x := Required(k, n.id, path + [Key(k)]);
      InRequired(f.required, KeysOf(entries), n.id, path, x);
      assert x in RequiredEvents(f.required, KeysOf(entries), n.id, path) ==> x in InnerEvents(c, f, n, path);
    }
    forall e | e in entries
      ensures if e.key in f.children then Quiet(rules, WalkEvents(c, f.children[e.key], e.node, path + [Key(e.key)]))
              else OnUnknown !in rules
    {
      forall x | x in EntryEvents(c, f, e, path)
        ensures x in InnerEvents(c, f, n, path)
      {
        InEntries(c, f, entries, path, x);
      }
      assert e.key !in f.children ==>
               Unknown(e.key, e.keyNode, path + [Key(e.key)], f.children.Keys) in EntryEvents(c, f, e, path);
    }
  }

  lemma UnreportedItem<N(!new), K(!new)>(
    c: Context<K>, rules: set<Callback>, f: Field<K>, n: Doc<N, K>, path: Path<K>, i: nat)
    requires n.shape.Sequence? && f.typ.ListType? && c.item in f.children && i < |n.shape.items|
    requires Quiet(rules, InnerEvents(c, f, n, path))
    ensures Quiet(rules, WalkEvents(c, f.children[c.item], n.shape.items[i], path + [Index(i)]))
  {
    forall x | x in WalkEvents(c, f.children[c.item], n.shape.items[i], path + [Index(i)])
      ensures x in InnerEvents(c, f, n, path)
    {
      InItems(c, f.children[c.item], n.shape.items, path, x);
    }
  }

  // The enumerations of fields without a type.

  lemma {:induction false} MeetingMeetsEnums<N, K>(c: Context<K>, rules: set<Callback>, f: Field<K>, d: Doc<N, K>)
    requires Meets(c, rules, f, d) && OnInvalid in rules
    ensures UntypedEnumsMet(c, f, d)
    decreases d
  {
    var n := Meant(d);
    if !n.tag.Null? {
      match n.shape
      case Mapping(entries) =>
        forall e | e in entries && e.key in f.children && (f.typ.MapType? || f.typ.Unstated?)
          ensures UntypedEnumsMet(c, f.children[e.key], e.node)
        {
          MeetingMeetsEnums(c, rules, f.children[e.key], e.node);
        }
      case Sequence(items) =>
        if f.typ.ListType? && c.item in f.children {
          forall x | x in items
            ensures UntypedEnumsMet(c, f.children[c.item], x)
          {
            MeetingMeetsEnums(c, rules, f.children[c.item], x);
          }
        }
      case _ =>
    }
  }

  // A well-shaped schema leaves none to be met: where one is stated without a type, the walk skips.
  lemma {:induction false} WellShapedMeetsEnums<N(!new), K(!new)>(
    c: Context<K>, f: Field<K>, d: Doc<N, K>, path: Path<K>, at: Path<K>, depth: nat)
    requires WellShaped(c, f) && NoSkip(WalkEvents(c, f, d, path))
    requires RuntimeSkips(c, d, at, depth) == []
    ensures UntypedEnumsMet(c, f, d)
    decreases d
  {
    var n := Meant(d);
    ResolvedIsMeant(d, MAX_SETTINGS_DEPTH);
    NothingOpen(c, f, d, path);
    if !n.tag.Null? {
      TypeWasMet(c, {}, f, n, path);
      match n.shape
      case Mapping(entries) =>
        if f.typ.MapType? || f.typ.Unstated? {
          UnreportedKeys(c, {}, f, n, path);
          forall e | e in entries && e.key in f.children
            ensures UntypedEnumsMet(c, f.children[e.key], e.node)
          {
            EntrySettled(c, entries, at, depth, e);
            WellShapedMeetsEnums(c, f.children[e.key], e.node, path + [Key(e.key)], at + [Key(e.key)], depth + 1);
          }
        }
      case Sequence(items) =>
        if f.typ.ListType? && c.item in f.children {
          forall i | 0 <= i < |items|
            ensures UntypedEnumsMet(c, f.children[c.item], items[i])
          {
            ItemSettled(c, items, at, depth, i);
            UnreportedItem(c, {}, f, n, path, i);
            WellShapedMeetsEnums(c, f.children[c.item], items[i], path + [Index(i)], at + [Index(i)], depth + 1);
          }
        }
      case _ =>
    }
  }

  // One field: silence over scalars means conforming exactly when the field does not need a type.
  lemma EnumsNeedAType<N(!new), K(!new)>(c: Context<K>, f: Field<K>, id: N, other: K)
    requires other !in f.enums && !c.expands(other)
    ensures (forall d: Doc<N, K> | d.shape.Scalar? && Quiet(FAULTS, WalkEvents(c, f, d, []))
                                    && RuntimeSkips(c, d, [], 0) == [] ::
               Conforms(c, f, d))
            <==> !NeedsType(f)
  {
    if NeedsType(f) {
      EnumIsIgnored(c, f, Doc(id, Str, other, Scalar), []);
    } else {
      forall d: Doc<N, K> | d.shape.Scalar? && Quiet(FAULTS, WalkEvents(c, f, d, [])) && RuntimeSkips(c, d, [], 0) == []
        ensures Conforms(c, f, d)
      {
        assert Meant(d) == d && Resolve(d, MAX_SETTINGS_DEPTH) == d;
        NothingOpen(c, f, d, []);
        UnreportedMeets(c, FAULTS, f, d, [], [], 0);
      }
    }
  }

  lemma EnumIsIgnored<N(!new), K(!new)>(c: Context<K>, f: Field<K>, d: Doc<N, K>, path: Path<K>)
    requires NeedsType(f)
    requires d.shape.Scalar? && !d.tag.Null? && d.value !in f.enums && !c.expands(d.value)
    ensures WalkEvents(c, f, d, path) == [] && RuntimeSkips(c, d, path, 0) == [] && !Conforms(c, f, d)
  {
    assert Resolve(d, MAX_SETTINGS_DEPTH) == d && Meant(d) == d;
    assert TypeEvents(c, f, d, path) == ([], true) && InnerEvents(c, f, d, path) == [];
    assert ValueEvents(c, f, d, path) == [];
  }

  // A whole file.

  // Every declared component has a schema and meets it.
  ghost predicate FileMeets<N(!new), K(!new)>(
    c: Context<K>, rules: set<Callback>, schema: Schema<K>, root: Option<Doc<N, K>>) {
    forall kind, e | e in Components(c, root, kind) ::
      FieldsOf(c, schema, kind, e).Some? && Meets(c, rules, FieldsOf(c, schema, kind, e).value, e.node)
  }

  ghost predicate FileConforms<N(!new), K(!new)>(c: Context<K>, schema: Schema<K>, root: Option<Doc<N, K>>) {
    FileMeets(c, FAULTS, schema, root)
  }

  ghost predicate FileEnumsMet<N(!new), K(!new)>(c: Context<K>, schema: Schema<K>, root: Option<Doc<N, K>>) {
    forall kind, e | e in Components(c, root, kind) && FieldsOf(c, schema, kind, e).Some? ::
      UntypedEnumsMet(c, FieldsOf(c, schema, kind, e).value, e.node)
  }

  // The schemas of the components the file declares are well shaped.
  ghost predicate FileWellShaped<N(!new), K(!new)>(c: Context<K>, schema: Schema<K>, root: Option<Doc<N, K>>) {
    forall kind, e | e in Components(c, root, kind) && FieldsOf(c, schema, kind, e).Some? ::
      WellShaped(c, FieldsOf(c, schema, kind, e).value)
  }

  lemma {:induction false} SectionIsEntry<N, K>(c: Context<K>, entries: seq<Entry<N, K>>, kind: Kind)
    ensures Section(c, entries, kind).Some? ==>
              exists e :: e in entries && e.key == c.section(kind) && Section(c, entries, kind) == Some(e.node)
  {
    if entries != [] && entries[|entries| - 1].key != c.section(kind) {
      SectionIsEntry(c, entries[..|entries| - 1], kind);
    }
  }

  // The scan for runtime values that starts at the root reaches every component's settings.
  lemma ComponentSettled<N, K>(c: Context<K>, root: Option<Doc<N, K>>, kind: Kind, e: Entry<N, K>)
    requires root.Some? ==> RuntimeSkips(c, root.value, [], 0) == []
    requires e in Components(c, root, kind)
    ensures RuntimeSkips(c, e.node, [Key(c.section(kind)), Key(e.key)], 2) == []
  {
    var entries := root.value.shape.entries;
    SectionIsEntry(c, entries, kind);
    var section :| section in entries && section.key == c.section(kind)
              && Section(c, entries, kind) == Some(section.node);
    EntrySettled(c, entries, [], 0, section);
    assert [] + [Key(c.section(kind))] == [Key(c.section(kind))];
    EntrySettled(c, section.node.shape.entries, [Key(c.section(kind))], 1, e);
    assert [Key(c.section(kind))] + [Key(e.key)] == [Key(c.section(kind)), Key(e.key)];
  }

  lemma {:induction false} SkipsOfNothing<N, K>(events: seq<Event<N, K>>)
    requires SkipsOf(events) == []
    ensures forall x | x in events :: !x.Skipped?
  {
    if events != [] {
      assert events == events[..|events| - 1] + [events[|events| - 1]];
      SkipsOfNothing(events[..|events| - 1]);
    }
  }

  lemma CompleteSkipsNothing<N(!new), K(!new)>(c: Context<K>, schema: Schema<K>, root: Option<Doc<N, K>>,
                                               rules: seq<Rule>)
    requires StatusOf(c, schema, root, rules).Complete?
    ensures c.ready && NoSkip(FileEvents(c, schema, root))
    ensures root.Some? ==> RuntimeSkips(c, root.value, [], 0) == []
  {
    var heard := Heard({OnSkipped}, FileEvents(c, schema, root));
    assert SkipsOf(heard) == [];
    SkipsOfNothing(heard);
    HeardIsFilter({OnSkipped}, FileEvents(c, schema, root));
    forall x | x in FileEvents(c, schema, root)
      ensures !x.Skipped?
    {
      assert x.Skipped? ==> x in heard;
    }
  }

  // A report that is complete means the enabled rules decide, whichever they are and whatever the schema: together with
  // the enumerations of fields without a type, when invalid-value is one of them, their silence is exactly that every
  // component has a schema and meets what they stand for.
  lemma CompleteMeansExact<N(!new), K(!new)>(c: Context<K>, schema: Schema<K>, root: Option<Doc<N, K>>,
                                             rules: seq<Rule>)
    requires StatusOf(c, schema, root, rules).Complete?
    ensures var on := Enabled(rules);
            NoFinding(Heard(on, FileEvents(c, schema, root)))
            && (OnInvalid in on ==> FileEnumsMet(c, schema, root)) <==>
            FileMeets(c, on, schema, root)
  {
    var on := Enabled(rules);
    CompleteSkipsNothing(c, schema, root, rules);
    HeardNothing(on, FileEvents(c, schema, root));
    if Silent(on, FileEvents(c, schema, root)) && (OnInvalid in on ==> FileEnumsMet(c, schema, root)) {
      forall kind, e | e in Components(c, root, kind)
        ensures FieldsOf(c, schema, kind, e).Some? && Meets(c, on, FieldsOf(c, schema, kind, e).value, e.node)
      {
        QuietComponentMeets(c, on, schema, root, kind, e);
      }
    }
    if FileMeets(c, on, schema, root) {
      MeetingFileIsNeverReported(c, on, schema, root);
      if OnInvalid in on {
        forall kind, e | e in Components(c, root, kind)
          ensures UntypedEnumsMet(c, FieldsOf(c, schema, kind, e).value, e.node)
        {
          MeetingMeetsEnums(c, on, FieldsOf(c, schema, kind, e).value, e.node);
        }
      }
    }
  }

  // With the three rules that find faults all on, and no declared component's schema in need of a type, silence is
  // conformance.
  lemma CompleteMeansConforming<N(!new), K(!new)>(
    c: Context<K>, schema: Schema<K>, root: Option<Doc<N, K>>, rules: seq<Rule>)
    requires StatusOf(c, schema, root, rules).Complete? && FAULTS <= Enabled(rules)
    requires FileWellShaped(c, schema, root)
    ensures NoFinding(Heard(Enabled(rules), FileEvents(c, schema, root))) <==> FileConforms(c, schema, root)
  {
    var on := Enabled(rules);
    CompleteSkipsNothing(c, schema, root, rules);
    CompleteMeansExact(c, schema, root, rules);
    forall kind, e | e in Components(c, root, kind) && FieldsOf(c, schema, kind, e).Some?
      ensures UntypedEnumsMet(c, FieldsOf(c, schema, kind, e).value, e.node)
    {
      QuietComponent(c, {}, schema, root, kind, e);
      ComponentSettled(c, root, kind, e);
      var path := [Key(c.section(kind)), Key(e.key)];
      WellShapedMeetsEnums(c, FieldsOf(c, schema, kind, e).value, e.node, path, path, 2);
    }
    forall kind, e | e in Components(c, root, kind) && FieldsOf(c, schema, kind, e).Some?
      ensures Meets(c, on, FieldsOf(c, schema, kind, e).value, e.node) <==>
              Conforms(c, FieldsOf(c, schema, kind, e).value, e.node)
    {
      var f := FieldsOf(c, schema, kind, e).value;
      if Meets(c, on, f, e.node) {
        MeetsFewer(c, on, FAULTS, f, e.node);
      }
      if Conforms(c, f, e.node) {
        MeetsFewer(c, FAULTS, on, f, e.node);
      }
    }
  }

  lemma QuietComponent<N(!new), K(!new)>(
    c: Context<K>, rules: set<Callback>, schema: Schema<K>, root: Option<Doc<N, K>>, kind: Kind, e: Entry<N, K>)
    requires c.ready && Quiet(rules, FileEvents(c, schema, root)) && e in Components(c, root, kind)
    ensures FieldsOf(c, schema, kind, e).Some? && Quiet(rules, ComponentEvents(c, schema, kind, e))
  {
    var path := [Key(c.section(kind)), Key(e.key)];
    forall x | x in ComponentEvents(c, schema, kind, e)
      ensures x in FileEvents(c, schema, root)
    {
      InFile(c, schema, root, x);
    }
    assert FieldsOf(c, schema, kind, e).None? ==> ComponentEvents(c, schema, kind, e) == [Skipped(path, MissingSchema)];
    assert FieldsOf(c, schema, kind, e).None? ==> Skipped(path, MissingSchema) in ComponentEvents(c, schema, kind, e);
  }

  lemma QuietComponentMeets<N(!new), K(!new)>(
    c: Context<K>, rules: set<Callback>, schema: Schema<K>, root: Option<Doc<N, K>>, kind: Kind, e: Entry<N, K>)
    requires c.ready && Quiet(rules, FileEvents(c, schema, root)) && e in Components(c, root, kind)
    requires root.Some? ==> RuntimeSkips(c, root.value, [], 0) == []
    requires OnInvalid in rules ==> FileEnumsMet(c, schema, root)
    ensures FieldsOf(c, schema, kind, e).Some? && Meets(c, rules, FieldsOf(c, schema, kind, e).value, e.node)
  {
    var path := [Key(c.section(kind)), Key(e.key)];
    QuietComponent(c, rules, schema, root, kind, e);
    ComponentSettled(c, root, kind, e);
    UnreportedMeets(c, rules, FieldsOf(c, schema, kind, e).value, e.node, path, path, 2);
  }

  // A file that meets what some rules stand for is never reported by them, however partial the schema or the report.
  lemma MeetingFileIsNeverReported<N(!new), K(!new)>(
    c: Context<K>, rules: set<Callback>, schema: Schema<K>, root: Option<Doc<N, K>>)
    requires FileMeets(c, rules, schema, root)
    ensures Silent(rules, FileEvents(c, schema, root))
  {
    forall x | x in FileEvents(c, schema, root) && CallbackOf(x) in rules
      ensures !IsFinding(x)
    {
      InFile(c, schema, root, x);
      var kind, e :| e in Components(c, root, kind) && x in ComponentEvents(c, schema, kind, e);
      MeetingIsNeverReported(c, rules, FieldsOf(c, schema, kind, e).value, e.node, [Key(c.section(kind)), Key(e.key)]);
    }
  }

  // A conforming file is never reported, whichever rules are on.
  lemma ConformingIsNeverReported<N(!new), K(!new)>(
    c: Context<K>, rules: set<Callback>, schema: Schema<K>, root: Option<Doc<N, K>>)
    requires FileConforms(c, schema, root)
    ensures NoFinding(Heard(rules, FileEvents(c, schema, root)))
  {
    forall kind, e | e in Components(c, root, kind)
      ensures Meets(c, rules, FieldsOf(c, schema, kind, e).value, e.node)
    {
      MeetsFewer(c, FAULTS, rules, FieldsOf(c, schema, kind, e).value, e.node);
    }
    MeetingFileIsNeverReported(c, rules, schema, root);
    HeardNothing(rules, FileEvents(c, schema, root));
  }
}
