// A parsed collector config, and the index that resolves references from its service block to declarations.
module ConfigIndex {
  datatype Kind = Receiver | Processor | Exporter | Extension | Connector

  datatype ID = ID(typ: string, name: string)

  datatype Component = Component(id: ID, kind: Kind)

  // The four flags say whether the pipeline itself, or one of its lists, is an expansion instead of being written out.
  datatype Pipeline = Pipeline(
    key: string, signal: string, receivers: seq<ID>, processors: seq<ID>, exporters: seq<ID>,
    dynamicNode: bool, dynamicReceivers: bool, dynamicProcessors: bool, dynamicExporters: bool)

  // `expands` says which identifiers hold a confmap expansion, so that what they name is only known at startup.
  datatype File = File(
    sections: map<Kind, seq<Component>>, extensions: seq<ID>, extensionRefs: seq<ID>,
    pipelines: seq<Pipeline>, dynamicPipelines: bool, expands: ID -> bool)

  datatype Option<+T> = None | Some(value: T)

  // What the parser guarantees of a file: components sit in the section of their kind.
  ghost predicate WellFormed(f: File) {
    forall k | k in f.sections :: forall c | c in f.sections[k] :: c.kind == k
  }

  // Resolution, read off the file.

  ghost predicate Declares(f: File, k: Kind, id: ID) {
    k in f.sections && exists c :: c in f.sections[k] && c.id == id
  }

  // The kind of declaration behind a reference from a pipeline slot: the slot's own, and failing that a connector in
  // the two slots that take one.
  ghost function Backing(f: File, slot: Kind, id: ID): Option<Kind> {
    if f.expands(id) then None
    else if Declares(f, slot, id) then Some(slot)
    else if (slot.Receiver? || slot.Exporter?) && Declares(f, Connector, id) then Some(Connector)
    else None
  }

  function Refs(p: Pipeline, slot: Kind): seq<ID> {
    match slot
    case Receiver => p.receivers
    case Processor => p.processors
    case Exporter => p.exporters
    case _ => []
  }

  // The pipeline feeds the connector, or is fed by it, according to the slot.
  ghost predicate Wires(f: File, p: Pipeline, slot: Kind, id: ID) {
    p in f.pipelines && id in Refs(p, slot) && Backing(f, slot, id) == Some(Connector)
  }

  ghost predicate UsedBy(f: File, p: Pipeline, slot: Kind, k: Kind, id: ID) {
    (slot.Receiver? || slot.Processor? || slot.Exporter?) && id in Refs(p, slot) && Backing(f, slot, id) == Some(k)
  }

  ghost predicate IsUsed(f: File, k: Kind, id: ID) {
    || (k.Extension? && id in f.extensions && !f.expands(id))
    || (k.Extension? && id in f.extensionRefs)
    || exists p, slot :: p in f.pipelines && UsedBy(f, p, slot, k, id)
  }

  // The same without the slots: what a reference stands for, and when a component counts as used.
  lemma ResolvesTo(f: File, slot: Kind, id: ID, k: Kind)
    ensures Backing(f, slot, id) == Some(k) <==>
            && !f.expands(id)
            && k in f.sections && (exists c :: c in f.sections[k] && c.id == id)
            && (k == slot
                || (k == Connector && (slot == Receiver || slot == Exporter)
                    && !(slot in f.sections && exists c :: c in f.sections[slot] && c.id == id)))
  {
  }

  lemma UsedIsReferenced(f: File, k: Kind, id: ID)
    ensures IsUsed(f, k, id) <==>
            || (k == Extension && (id in f.extensionRefs || (id in f.extensions && !f.expands(id))))
            || exists p | p in f.pipelines ::
                 || (id in p.receivers && Backing(f, Receiver, id) == Some(k))
                 || (id in p.processors && Backing(f, Processor, id) == Some(k))
                 || (id in p.exporters && Backing(f, Exporter, id) == Some(k))
  {
    if p :| p in f.pipelines && (|| (id in p.receivers && Backing(f, Receiver, id) == Some(k))
                                 || (id in p.processors && Backing(f, Processor, id) == Some(k))
                                 || (id in p.exporters && Backing(f, Exporter, id) == Some(k))) {
      assert UsedBy(f, p, Receiver, k, id) || UsedBy(f, p, Processor, k, id) || UsedBy(f, p, Exporter, k, id);
    }
  }

  // Which pipelines a connector feeds, and which feed it.
  lemma WiresAre(f: File, p: Pipeline, id: ID)
    ensures Wires(f, p, Receiver, id) <==>
              p in f.pipelines && id in p.receivers && Backing(f, Receiver, id) == Some(Connector)
    ensures Wires(f, p, Exporter, id) <==>
              p in f.pipelines && id in p.exporters && Backing(f, Exporter, id) == Some(Connector)
  {
  }

  predicate AnyExpansion(f: File, refs: seq<ID>) {
    exists i | 0 <= i < |refs| :: f.expands(refs[i])
  }

  // Whether an exporter reference may come from outside the file.
  predicate DynamicExporters(f: File) {
    f.dynamicPipelines
    || exists i | 0 <= i < |f.pipelines| ::
         f.pipelines[i].dynamicNode || f.pipelines[i].dynamicExporters || AnyExpansion(f, f.pipelines[i].exporters)
  }

  // A map of lists, read as nothing where it has no key.
  function At<K, V>(m: map<K, seq<V>>, k: K): seq<V> {
    if k in m then m[k] else []
  }

  class Index {
    const file: File
    var declared: map<Kind, map<ID, Component>>
    var used: map<Kind, set<ID>>
    var enabled: set<ID>
    var asReceiver: map<ID, seq<Pipeline>>
    var asExporter: map<ID, seq<Pipeline>>

    // The index answers exactly as reading the file would.
    ghost predicate Valid()
      reads this
    {
      && WellFormed(file)
      && DeclaredRight(Kinds())
      && (forall id, p :: p in At(asReceiver, id) <==> Wires(file, p, Receiver, id))
      && (forall id, p :: p in At(asExporter, id) <==> Wires(file, p, Exporter, id))
    }

    static ghost function Kinds(): set<Kind> {
      {Receiver, Processor, Exporter, Extension, Connector}
    }

    ghost predicate DeclaredRight(kinds: set<Kind>)
      reads this
    {
      forall k | k in kinds ::
        (k in declared <==> k in file.sections)
        && (k in declared ==> forall id :: id in declared[k] <==> Declares(file, k, id))
        && (k in declared ==> forall id | id in declared[k] :: declared[k][id] == Component(id, k))
    }

    // The used sets are exactly the references that resolve, and enabled exactly the extensions the service lists.
    ghost predicate UsageRight()
      reads this
    {
      && (forall k, id :: k in used && id in used[k] <==> IsUsed(file, k, id))
      && (forall id :: id in enabled <==> id in file.extensions && !file.expands(id))
    }

    constructor (f: File)
      requires WellFormed(f)
      ensures file == f && Valid() && UsageRight()
    {
      file := f;
      declared, used, enabled := map[], map[], {};
      asReceiver, asExporter := map[], map[];
      new;
      Declare();
      MarkExtensions();
      WireAll();
    }

    // The extensions the service lists, and those other components name in their settings.
    method MarkExtensions()
      requires enabled == {} && forall k, id :: !Used(k, id)
      modifies this`used, this`enabled
      ensures forall id :: id in enabled <==> id in file.extensions && !file.expands(id)
      ensures forall k, id :: Used(k, id) <==> k.Extension? && (id in enabled || id in file.extensionRefs)
    {
      for i := 0 to |file.extensions|
        invariant forall id :: id in enabled <==> id in file.extensions[..i] && !file.expands(id)
        invariant forall k, id :: Used(k, id) <==> k.Extension? && id in enabled
      {
        if !file.expands(file.extensions[i]) {
          enabled := enabled + {file.extensions[i]};
          MarkUsed(Extension, file.extensions[i]);
        }
      }
      assert file.extensions[..|file.extensions|] == file.extensions;
      for i := 0 to |file.extensionRefs|
        invariant forall id :: id in enabled <==> id in file.extensions && !file.expands(id)
        invariant forall k, id :: Used(k, id) <==> k.Extension? && (id in enabled || id in file.extensionRefs[..i])
      {
        MarkUsed(Extension, file.extensionRefs[i]);
      }
      assert file.extensionRefs[..|file.extensionRefs|] == file.extensionRefs;
    }

    ghost predicate UsedUpTo(i: nat, k: Kind, id: ID)
      requires i <= |file.pipelines|
    {
      exists j, slot :: 0 <= j < i && UsedBy(file, file.pipelines[j], slot, k, id)
    }

    // The wiring loop.
    method WireAll()
      requires WellFormed(file) && DeclaredRight(Kinds()) && asReceiver == map[] && asExporter == map[]
      requires forall id :: id in enabled <==> id in file.extensions && !file.expands(id)
      requires forall k, id :: Used(k, id) <==> k.Extension? && (id in enabled || id in file.extensionRefs)
      modifies this`used, this`asReceiver, this`asExporter
      ensures Valid() && UsageRight()
    {
      for i := 0 to |file.pipelines|
        invariant WiredUpTo(i)
        invariant forall k, id :: Used(k, id) <==> old(Used(k, id)) || UsedUpTo(i, k, id)
      {
        label Before:
        WirePipeline(i);
        forall k, id
          ensures Used(k, id) <==> old(Used(k, id)) || UsedUpTo(i + 1, k, id)
        {
          assert Used(k, id) <==>
                 old@Before(Used(k, id)) || exists slot :: UsedBy(file, file.pipelines[i], slot, k, id);
        }
      }
      assert file.pipelines[..|file.pipelines|] == file.pipelines;
      forall k, id
        ensures k in used && id in used[k] <==> IsUsed(file, k, id)
      {
        assert Used(k, id) <==> old(Used(k, id)) || UsedUpTo(|file.pipelines|, k, id);
        UsedUpToEnd(k, id);
      }
    }

    lemma UsedUpToEnd(k: Kind, id: ID)
      ensures UsedUpTo(|file.pipelines|, k, id) <==>
                exists p, slot :: p in file.pipelines && UsedBy(file, p, slot, k, id)
    {
      if p, slot :| p in file.pipelines && UsedBy(file, p, slot, k, id) {
        var j :| 0 <= j < |file.pipelines| && file.pipelines[j] == p;
        assert UsedBy(file, file.pipelines[j], slot, k, id);
      }
    }

    // Used.
    predicate Used(k: Kind, id: ID)
      reads this`used
    {
      k in used && id in used[k]
    }

    ghost predicate WiredUpTo(i: nat)
      reads this
      requires i <= |file.pipelines|
    {
      && (forall id, p :: p in At(asReceiver, id) <==> p in file.pipelines[..i] && Wires(file, p, Receiver, id))
      && (forall id, p :: p in At(asExporter, id) <==> p in file.pipelines[..i] && Wires(file, p, Exporter, id))
    }

    method MarkUsed(k: Kind, id: ID)
      modifies this`used
      ensures forall k', id' :: Used(k', id') <==> old(Used(k', id')) || (k' == k && id' == id)
    {
      var ids := if k in used then used[k] else {};
      used := used[k := ids + {id}];
    }

    // The first loop of NewIndex: a duplicate key keeps the last declaration.
    method Declare()
      requires declared == map[] && used == map[] && WellFormed(file)
      modifies this`declared, this`used
      ensures DeclaredRight(Kinds())
      ensures forall k, id :: !Used(k, id)
    {
      var kinds := file.sections.Keys;
      while kinds != {}
        invariant kinds <= file.sections.Keys
        invariant declared.Keys == file.sections.Keys - kinds
        invariant DeclaredRight(Kinds() - kinds)
        invariant forall k | k in used :: used[k] == {}
        decreases kinds
      {
        var kind :| kind in kinds;
        var byID: map<ID, Component> := map[];
        var components := file.sections[kind];
        for i := 0 to |components|
          invariant forall id :: id in byID <==> exists c :: c in components[..i] && c.id == id
          invariant forall id | id in byID :: byID[id] == Component(id, kind)
        {
          byID := byID[components[i].id := components[i]];
        }
        assert components[..|components|] == components;
        declared := declared[kind := byID];
        used := used[kind := {}];
        kinds := kinds - {kind};
      }
    }

    // Resolve.
    method Resolve(slot: Kind, id: ID) returns (r: Option<Component>)
      requires WellFormed(file) && DeclaredRight(Kinds())
      ensures r == match Backing(file, slot, id)
                   case None => None
                   case Some(k) => Some(Component(id, k))
    {
      if file.expands(id) {
        return None;
      }
      if slot in declared && id in declared[slot] {
        return Some(declared[slot][id]);
      }
      if slot.Receiver? || slot.Exporter? {
        if Connector in declared && id in declared[Connector] {
          return Some(declared[Connector][id]);
        }
      }
      return None;
    }

    // One turn of the wiring loop of NewIndex.
    method WirePipeline(i: nat)
      requires WellFormed(file) && DeclaredRight(Kinds()) && i < |file.pipelines| && WiredUpTo(i)
      modifies this`used, this`asReceiver, this`asExporter
      ensures WiredUpTo(i + 1)
      ensures forall k, id :: Used(k, id) <==>
                old(Used(k, id)) || exists slot :: UsedBy(file, file.pipelines[i], slot, k, id)
    {
      var p := file.pipelines[i];
      var slots := [Receiver, Processor, Exporter];
      for s := 0 to 3
        invariant WiredSlots(i, slots[..s])
        invariant forall k, id :: Used(k, id) <==>
                    old(Used(k, id)) || exists slot :: slot in slots[..s] && UsedBy(file, p, slot, k, id)
      {
        WireSlot(i, slots[..s], slots[s]);
        assert slots[..s + 1] == slots[..s] + [slots[s]];
      }
      assert slots[..3] == slots;
      assert file.pipelines[..i + 1] == file.pipelines[..i] + [p];
      assert forall slot, k, id | UsedBy(file, p, slot, k, id) :: slot in slots;
    }

    // Wiring is right for the first `i` pipelines, and for the slots of the next that are listed.
    ghost predicate WiredSlots(i: nat, slots: seq<Kind>)
      reads this
      requires i < |file.pipelines|
    {
      && (forall id, p :: p in At(asReceiver, id) <==>
            (p in file.pipelines[..i] || (p == file.pipelines[i] && Receiver in slots)) && Wires(file, p, Receiver, id))
      && (forall id, p :: p in At(asExporter, id) <==>
            (p in file.pipelines[..i] || (p == file.pipelines[i] && Exporter in slots)) && Wires(file, p, Exporter, id))
    }

    method WireSlot(i: nat, ghost slots: seq<Kind>, slot: Kind)
      requires WellFormed(file) && DeclaredRight(Kinds()) && i < |file.pipelines| && WiredSlots(i, slots)
      requires slot !in slots && (slot.Receiver? || slot.Processor? || slot.Exporter?)
      modifies this`used, this`asReceiver, this`asExporter
      ensures WiredSlots(i, slots + [slot])
      ensures forall k, id :: Used(k, id) <==> old(Used(k, id)) || UsedBy(file, file.pipelines[i], slot, k, id)
    {
      WireRefs(file.pipelines[i], slot, Refs(file.pipelines[i], slot));
    }

    // The references of one list of one pipeline.
    method WireRefs(p: Pipeline, slot: Kind, refs: seq<ID>)
      requires WellFormed(file) && DeclaredRight(Kinds())
      modifies this`used, this`asReceiver, this`asExporter
      ensures forall k, id :: Used(k, id) <==> old(Used(k, id)) || (id in refs && Backing(file, slot, id) == Some(k))
      ensures forall id, q :: q in At(asReceiver, id) <==>
                q in old(At(asReceiver, id)) ||
                  (slot.Receiver? && q == p && id in refs && Backing(file, slot, id) == Some(Connector))
      ensures forall id, q :: q in At(asExporter, id) <==>
                q in old(At(asExporter, id)) ||
                  (slot.Exporter? && q == p && id in refs && Backing(file, slot, id) == Some(Connector))
    {
      for j := 0 to |refs|
        invariant forall k, id :: Used(k, id) <==>
                    old(Used(k, id)) || (id in refs[..j] && Backing(file, slot, id) == Some(k))
        invariant forall id, q :: q in At(asReceiver, id) <==>
                    q in old(At(asReceiver, id)) ||
                      (slot.Receiver? && q == p && id in refs[..j] && Backing(file, slot, id) == Some(Connector))
        invariant forall id, q :: q in At(asExporter, id) <==>
                    q in old(At(asExporter, id)) ||
                      (slot.Exporter? && q == p && id in refs[..j] && Backing(file, slot, id) == Some(Connector))
      {
        assert refs[..j + 1] == refs[..j] + [refs[j]];
        WireRef(p, slot, refs[j]);
      }
      assert refs[..|refs|] == refs;
    }

    // One reference of one pipeline.
    method WireRef(p: Pipeline, slot: Kind, id: ID)
      requires WellFormed(file) && DeclaredRight(Kinds())
      modifies this`used, this`asReceiver, this`asExporter
      ensures forall k, x :: Used(k, x) <==> old(Used(k, x)) || (x == id && Backing(file, slot, id) == Some(k))
      ensures forall x, q :: q in At(asReceiver, x) <==>
                q in old(At(asReceiver, x)) ||
                  (slot.Receiver? && q == p && x == id && Backing(file, slot, id) == Some(Connector))
      ensures forall x, q :: q in At(asExporter, x) <==>
                q in old(At(asExporter, x)) ||
                  (slot.Exporter? && q == p && x == id && Backing(file, slot, id) == Some(Connector))
    {
      var c := Resolve(slot, id);
      if c.Some? {
        MarkUsed(c.value.kind, id);
        if c.value.kind.Connector? {
          match slot
          case Receiver => asReceiver := asReceiver[id := At(asReceiver, id) + [p]];
          case Exporter => asExporter := asExporter[id := At(asExporter, id) + [p]];
          case _ =>
        }
      }
    }
  }
}
