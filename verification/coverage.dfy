// The coverage report: what of a configuration the field rules could not check, and what follows when it is nothing.
module Coverages {
  import opened FieldSchema
  import opened FieldWalk

  datatype Why = NoSchema | NoShape | NoDecoder | RuntimeValue | UnresolvedStructure

  datatype Skip<K> = Skip(path: Path<K>, why: Why)

  datatype Status = Complete | Partial | NotChecked

  // A configured rule: which of the four field rules it is, if it is one, and whether its severity is anything but off.
  datatype Rule = Rule(field: Option<Callback>, on: bool)

  // The field rules that are switched on, by what they listen to.
  ghost function Enabled(rules: seq<Rule>): set<Callback> {
    set r | r in rules && r.on && r.field.Some? && r.field.value != OnSkipped :: r.field.value
  }

  function SkipOf<N, K>(e: Event<N, K>): Skip<K>
    requires e.Skipped?
  {
    Skip(e.path, match e.reason
      case MissingSchema => NoSchema
      case OpenSchema => NoShape
      case UnknownDecoder => NoDecoder)
  }

  // runtimeValues.

  ghost function RuntimeSkips<N, K>(c: Context<K>, d: Doc<N, K>, path: Path<K>, depth: nat): seq<Skip<K>>
    decreases d, 1
  {
    var n := Resolve(d, MAX_SETTINGS_DEPTH);
    if depth > MAX_SETTINGS_DEPTH || n.shape.Alias? then [Skip(path, UnresolvedStructure)]
    else match n.shape
      case Scalar => if c.expands(n.value) then [Skip(path, RuntimeValue)] else []
      case Mapping(entries) => EntriesSkips(c, entries, path, depth)
      case Sequence(items) => ItemsSkips(c, items, path, depth)
      case _ => []
  }

  ghost function EntriesSkips<N, K>(c: Context<K>, entries: seq<Entry<N, K>>, path: Path<K>, depth: nat): seq<Skip<K>>
    decreases entries
  {
    if entries == [] then []
    else
      var before, e := entries[..|entries| - 1], entries[|entries| - 1];
      EntriesSkips(c, before, path, depth) + EntrySkips(c, e, path, depth)
  }

  ghost function EntrySkips<N, K>(c: Context<K>, e: Entry<N, K>, path: Path<K>, depth: nat): seq<Skip<K>>
    decreases e
  {
    RuntimeSkips(c, e.node, path + [Key(e.key)], depth + 1)
  }

  ghost function ItemsSkips<N, K>(c: Context<K>, items: seq<Doc<N, K>>, path: Path<K>, depth: nat): seq<Skip<K>>
    decreases items
  {
    if items == [] then []
    else
      var last := |items| - 1;
      ItemsSkips(c, items[..last], path, depth) + RuntimeSkips(c, items[last], path + [Index(last)], depth + 1)
  }

  lemma EnabledOneMore(rules: seq<Rule>, i: nat)
    requires i < |rules|
    ensures forall r :: r in Enabled(rules[..i + 1]) <==>
                        r in Enabled(rules[..i]) || (rules[i].on && rules[i].field == Some(r) && r != OnSkipped)
  {
    assert rules[..i + 1] == rules[..i] + [rules[i]];
    assert forall x | x in rules[..i] :: x in rules[..i + 1];
  }

  class Coverage<N(==), K(==)> {
    const c: Context<K>
    var status: Status
    var fieldRules: seq<Callback>
    var skipped: seq<Skip<K>>

    // coverage.
    constructor (c: Context<K>, schema: Schema<K>, root: Option<Doc<N, K>>, rules: seq<Rule>)
      ensures this.c == c
      ensures forall r :: r in fieldRules <==> r in Enabled(rules)
      ensures skipped == AllSkips(c, schema, root)
      ensures status == StatusOf(c, schema, root, rules)
    {
      this.c := c;
      status := Complete;
      fieldRules := [];
      skipped := [];
      new;
      ListRules(rules);
      Report(schema, root);
      assert fieldRules == [] <==> Enabled(rules) == {} by {
        assert fieldRules != [] ==> fieldRules[0] in fieldRules;
      }
      Settle();
    }

    method ListRules(rules: seq<Rule>)
      requires fieldRules == []
      modifies this`fieldRules
      ensures forall r :: r in fieldRules <==> r in Enabled(rules)
    {
      for i := 0 to |rules|
        invariant forall r :: r in fieldRules <==> r in Enabled(rules[..i])
      {
        EnabledOneMore(rules, i);
        if rules[i].field.Some? && rules[i].field.value != OnSkipped && rules[i].on {
          fieldRules := fieldRules + [rules[i].field.value];
        }
      }
      assert rules[..|rules|] == rules;
    }

    method Report(schema: Schema<K>, root: Option<Doc<N, K>>)
      requires skipped == []
      modifies this`skipped
      ensures skipped == AllSkips(c, schema, root)
    {
      FieldSkips(schema, root);
      ghost var walked := skipped;
      assert walked == WalkSkips(c, schema, root);
      if c.weak.None? && c.ready {
        skipped := skipped + [Skip([], NoDecoder)];
      }
      assert skipped == walked + if c.weak.None? && c.ready then [Skip([], NoDecoder)] else [];
      if root.Some? {
        RuntimeValues(root.value, [], 0);
      }
    }

    method Settle()
      requires status.Complete?
      modifies this`status
      ensures status == if !c.ready || fieldRules == [] then NotChecked else if skipped != [] then Partial else Complete
    {
      if skipped != [] {
        status := Partial;
      }
      if !c.ready || fieldRules == [] {
        status := NotChecked;
      }
    }

    // What a walk of the file skips, or the missing schema.
    method FieldSkips(schema: Schema<K>, root: Option<Doc<N, K>>)
      modifies this`skipped
      ensures skipped == old(skipped) + WalkSkips(c, schema, root)
    {
      if c.ready {
        var walker := new FieldWalker<N, K>(c, schema, {OnSkipped});
        walker.WalkComponents(root);
        assert walker.events == Heard({OnSkipped}, FileEvents(c, schema, root));
        Collect(walker.events);
      } else {
        skipped := skipped + [Skip([], NoSchema)];
      }
    }

    method Collect(events: seq<Event<N, K>>)
      modifies this`skipped
      ensures skipped == old(skipped) + SkipsOf(events)
    {
      for i := 0 to |events|
        invariant skipped == old(skipped) + SkipsOf(events[..i])
      {
        assert events[..i + 1][..i] == events[..i];
        if events[i].Skipped? {
          skipped := skipped + [SkipOf(events[i])];
        }
      }
      assert events[..|events|] == events;
    }

    method RuntimeValues(d: Doc<N, K>, path: Path<K>, depth: nat)
      modifies this`skipped
      ensures skipped == old(skipped) + RuntimeSkips(c, d, path, depth)
      decreases d
    {
      var n := Resolve(d, MAX_SETTINGS_DEPTH);
      if depth > MAX_SETTINGS_DEPTH || n.shape.Alias? {
        skipped := skipped + [Skip(path, UnresolvedStructure)];
        return;
      }
      match n.shape
      case Scalar =>
        if c.expands(n.value) {
          skipped := skipped + [Skip(path, RuntimeValue)];
        }
      case Mapping(entries) => EntriesValues(entries, path, depth);
      case Sequence(items) => ItemsValues(items, path, depth);
      case _ =>
    }

    method EntriesValues(entries: seq<Entry<N, K>>, path: Path<K>, depth: nat)
      modifies this`skipped
      ensures skipped == old(skipped) + EntriesSkips(c, entries, path, depth)
      decreases entries
    {
      for i := 0 to |entries|
        invariant skipped == old(skipped) + EntriesSkips(c, entries[..i], path, depth)
      {
        var e := entries[i];
        assert entries[..i + 1][..i] == entries[..i];
        assert (entries decreases to e) && (e decreases to e.node);
        RuntimeValues(e.node, path + [Key(e.key)], depth + 1);
      }
      assert entries[..|entries|] == entries;
    }

    method ItemsValues(items: seq<Doc<N, K>>, path: Path<K>, depth: nat)
      modifies this`skipped
      ensures skipped == old(skipped) + ItemsSkips(c, items, path, depth)
      decreases items
    {
      for i := 0 to |items|
        invariant skipped == old(skipped) + ItemsSkips(c, items[..i], path, depth)
      {
        assert items[..i + 1][..i] == items[..i];
        RuntimeValues(items[i], path + [Index(i)], depth + 1);
      }
      assert items[..|items|] == items;
    }
  }

  ghost function SkipsOf<N, K>(events: seq<Event<N, K>>): seq<Skip<K>> {
    if events == [] then []
    else
      var last := |events| - 1;
      SkipsOf(events[..last]) + if events[last].Skipped? then [SkipOf(events[last])] else []
  }

  ghost function WalkSkips<N, K>(c: Context<K>, schema: Schema<K>, root: Option<Doc<N, K>>): seq<Skip<K>> {
    if c.ready then SkipsOf(Heard({OnSkipped}, FileEvents(c, schema, root))) else [Skip([], NoSchema)]
  }

  ghost function AllSkips<N, K>(c: Context<K>, schema: Schema<K>, root: Option<Doc<N, K>>): seq<Skip<K>> {
    WalkSkips(c, schema, root)
    + (if c.weak.None? && c.ready then [Skip([], NoDecoder)] else [])
    + if root.Some? then RuntimeSkips(c, root.value, [], 0) else []
  }

  ghost function StatusOf<N, K>(c: Context<K>, schema: Schema<K>, root: Option<Doc<N, K>>, rules: seq<Rule>)
    : Status {
    if !c.ready || Enabled(rules) == {} then NotChecked
    else if AllSkips(c, schema, root) != [] then Partial else Complete
  }

  // The status: a report is complete exactly when a schema was resolved, a field rule is on, the decoder is known, and
  // neither the walk nor the settings held anything that could not be checked.
  lemma CompleteMeansChecked<N(!new), K(!new)>(c: Context<K>, schema: Schema<K>, root: Option<Doc<N, K>>,
                                               rules: seq<Rule>)
    ensures StatusOf(c, schema, root, rules).NotChecked? <==>
            !c.ready || forall r | r in rules && r.on :: r.field.None? || r.field == Some(OnSkipped)
    ensures StatusOf(c, schema, root, rules).Complete? <==>
            && c.ready && c.weak.Some?
            && (exists r | r in rules && r.on :: r.field.Some? && r.field != Some(OnSkipped))
            && (forall x | x in FileEvents(c, schema, root) :: !x.Skipped?)
            && (root.Some? ==> forall x, turns :: !HeldAt(c, root.value, [], 0, turns, x))
  {
    SomeRuleIsOn(rules);
    if c.ready {
      NothingIsSkipped(c, schema, root);
    }
    if root.Some? {
      NothingIsHeld(c, root.value);
    }
  }

  lemma SomeRuleIsOn(rules: seq<Rule>)
    ensures Enabled(rules) == {} <==> forall r | r in rules && r.on :: r.field.None? || r.field == Some(OnSkipped)
  {
    assert forall r | r in rules && r.on && r.field.Some? && r.field != Some(OnSkipped) ::
        r.field.value in Enabled(rules);
  }

  lemma NothingIsSkipped<N(!new), K(!new)>(c: Context<K>, schema: Schema<K>, root: Option<Doc<N, K>>)
    requires c.ready
    ensures WalkSkips(c, schema, root) == [] <==> forall x | x in FileEvents(c, schema, root) :: !x.Skipped?
  {
    var events := FileEvents(c, schema, root);
    var heard := Heard({OnSkipped}, events);
    assert WalkSkips(c, schema, root) == SkipsOf(heard);
    HeardIsFilter({OnSkipped}, events);
    SkipsOfEvents(heard);
    if forall x | x in heard :: !x.Skipped? {
      forall x | x in events
        ensures !x.Skipped?
      {
        assert x.Skipped? ==> x in heard;
      }
    }
  }

  lemma NothingIsHeld<N(!new), K(!new)>(c: Context<K>, d: Doc<N, K>)
    ensures RuntimeSkips(c, d, [], 0) == [] <==> forall x, turns :: !HeldAt(c, d, [], 0, turns, x)
  {
    var skips := RuntimeSkips(c, d, [], 0);
    if skips != [] {
      RuntimeIsHeld(c, d, [], 0, skips[0]);
    } else {
      forall x, turns
        ensures !HeldAt(c, d, [], 0, turns, x)
      {
        RuntimeIsHeld(c, d, [], 0, x);
      }
    }
  }

  lemma {:induction false} SkipsOfEvents<N, K>(events: seq<Event<N, K>>)
    ensures SkipsOf(events) == [] <==> forall x | x in events :: !x.Skipped?
  {
    if events != [] {
      assert events == events[..|events| - 1] + [events[|events| - 1]];
      SkipsOfEvents(events[..|events| - 1]);
    }
  }

  // The value at so many entries and items in turn, and its path.
  ghost function SettingAt<N, K>(d: Doc<N, K>, path: Path<K>, turns: seq<nat>): Option<(Doc<N, K>, Path<K>)>
    decreases |turns|
  {
    var n := Resolve(d, 16);
    if turns == [] then Some((n, path))
    else match n.shape
      case Mapping(entries) =>
        if turns[0] < |entries| then
          SettingAt(entries[turns[0]].node, path + [Key(entries[turns[0]].key)], turns[1..])
        else None
      case Sequence(items) =>
        if turns[0] < |items| then SettingAt(items[turns[0]], path + [Index(turns[0])], turns[1..]) else None
      case _ => None
  }

  // What cannot be known of the value there: text only settled at runtime, and what is too deep or never settles.
  ghost predicate HeldAt<N, K>(c: Context<K>, d: Doc<N, K>, path: Path<K>, depth: nat, turns: seq<nat>, x: Skip<K>) {
    && SettingAt(d, path, turns).Some?
    && (turns == [] || depth + |turns| <= 17)
    && var (n, at) := SettingAt(d, path, turns).value;
       var deep := depth + |turns| > 16 || n.shape.Alias?;
       && x.path == at
       && if deep then x.why.UnresolvedStructure?
          else x.why.RuntimeValue? && n.shape.Scalar? && c.expands(n.value)
  }

  lemma {:induction false} RuntimeIsHeld<N(!new), K(!new)>(c: Context<K>, d: Doc<N, K>, path: Path<K>, depth: nat,
                                                          x: Skip<K>)
    ensures x in RuntimeSkips(c, d, path, depth) <==> exists turns :: HeldAt(c, d, path, depth, turns, x)
  {
    if x in RuntimeSkips(c, d, path, depth) {
      var turns := HeldSomewhere(c, d, path, depth, x);
    }
    if turns :| HeldAt(c, d, path, depth, turns, x) {
      HeldIsSkipped(c, d, path, depth, turns, x);
    }
  }

  lemma {:induction false} HeldSomewhere<N(!new), K(!new)>(c: Context<K>, d: Doc<N, K>, path: Path<K>, depth: nat,
                                                          x: Skip<K>) returns (turns: seq<nat>)
    requires x in RuntimeSkips(c, d, path, depth)
    ensures HeldAt(c, d, path, depth, turns, x)
    decreases d
  {
    var n := Resolve(d, 16);
    turns := [];
    if depth <= 16 {
      match n.shape
      case Mapping(entries) =>
        InEntriesSkips(c, entries, path, depth, x);
        var i :| 0 <= i < |entries| && x in EntrySkips(c, entries[i], path, depth);
        var rest := HeldSomewhere(c, entries[i].node, path + [Key(entries[i].key)], depth + 1, x);
        assert ([i] + rest)[1..] == rest;
        turns := [i] + rest;
      case Sequence(items) =>
        InItemsSkips(c, items, path, depth, x);
        var i :| 0 <= i < |items| && x in RuntimeSkips(c, items[i], path + [Index(i)], depth + 1);
        var rest := HeldSomewhere(c, items[i], path + [Index(i)], depth + 1, x);
        assert ([i] + rest)[1..] == rest;
        turns := [i] + rest;
      case _ =>
    }
  }

  lemma {:induction false} HeldIsSkipped<N(!new), K(!new)>(c: Context<K>, d: Doc<N, K>, path: Path<K>, depth: nat,
                                                          turns: seq<nat>, x: Skip<K>)
    requires HeldAt(c, d, path, depth, turns, x)
    ensures x in RuntimeSkips(c, d, path, depth)
    decreases d
  {
    var n := Resolve(d, 16);
    if turns != [] {
      match n.shape
      case Mapping(entries) =>
        var e := entries[turns[0]];
        HeldIsSkipped(c, e.node, path + [Key(e.key)], depth + 1, turns[1..], x);
        assert x in EntrySkips(c, e, path, depth);
        InEntriesSkips(c, entries, path, depth, x);
      case Sequence(items) =>
        HeldIsSkipped(c, items[turns[0]], path + [Index(turns[0])], depth + 1, turns[1..], x);
        InItemsSkips(c, items, path, depth, x);
    }
  }

  lemma {:induction false} InEntriesSkips<N, K>(c: Context<K>, entries: seq<Entry<N, K>>, path: Path<K>, depth: nat,
                                               x: Skip<K>)
    ensures x in EntriesSkips(c, entries, path, depth) <==>
            exists i | 0 <= i < |entries| :: x in EntrySkips(c, entries[i], path, depth)
    decreases entries
  {
    if entries != [] {
      InEntriesSkips(c, entries[..|entries| - 1], path, depth, x);
    }
  }

  lemma {:induction false} InItemsSkips<N, K>(c: Context<K>, items: seq<Doc<N, K>>, path: Path<K>, depth: nat,
                                             x: Skip<K>)
    ensures x in ItemsSkips(c, items, path, depth) <==>
            exists i | 0 <= i < |items| :: x in RuntimeSkips(c, items[i], path + [Index(i)], depth + 1)
    decreases items
  {
    if items != [] {
      InItemsSkips(c, items[..|items| - 1], path, depth, x);
    }
  }

  // What the report lists as not checked.
  lemma SkippedAre<N(!new), K(!new)>(c: Context<K>, schema: Schema<K>, root: Option<Doc<N, K>>, x: Skip<K>)
    ensures x in AllSkips(c, schema, root) <==>
            || (!c.ready && x == Skip([], NoSchema))
            || (c.ready && c.weak.None? && x == Skip([], NoDecoder))
            || (root.Some? && exists turns :: HeldAt(c, root.value, [], 0, turns, x))
            || (c.ready && Skipped(x.path, ReasonFor(x.why)) in FileEvents(c, schema, root)
                && (x.why.NoSchema? || x.why.NoShape? || x.why.NoDecoder?))
  {
    if root.Some? {
      RuntimeIsHeld(c, root.value, [], 0, x);
    }
    if c.ready {
      HeardIsFilter({OnSkipped}, FileEvents(c, schema, root));
      InSkips(Heard({OnSkipped}, FileEvents(c, schema, root)), x);
    }
  }

  function ReasonFor(why: Why): Reason {
    match why
    case NoSchema => MissingSchema
    case NoShape => OpenSchema
    case _ => UnknownDecoder
  }

  lemma {:induction false} InSkips<N, K>(events: seq<Event<N, K>>, x: Skip<K>)
    ensures x in SkipsOf(events) <==>
            Skipped(x.path, ReasonFor(x.why)) in events && (x.why.NoSchema? || x.why.NoShape? || x.why.NoDecoder?)
  {
    if events != [] {
      assert events == events[..|events| - 1] + [events[|events| - 1]];
      InSkips(events[..|events| - 1], x);
    }
  }
}
