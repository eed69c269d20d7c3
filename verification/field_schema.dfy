// Component settings and the schemas they are checked against.
//
// Keys and scalar text are a type parameter K, node identities a type parameter N. The text of a scalar is only ever
// looked at through the functions of a Context, which stand for the libraries that read it.
module FieldSchema {
  const MAX_SETTINGS_DEPTH := 16

  datatype Option<+T> = None | Some(value: T)

  datatype Tag = Null | Str | Int | Float | Bool | OtherTag

  // A settings value, with what an alias names in the place of the alias.
  datatype Doc<N, K> = Doc(id: N, tag: Tag, value: K, shape: Shape<N, K>)

  datatype Shape<N, K> =
    | Scalar
    | Mapping(entries: seq<Entry<N, K>>)
    | Sequence(items: seq<Doc<N, K>>)
    | Alias(target: Doc<N, K>)

  datatype Entry<N, K> = Entry(keyNode: N, key: K, node: Doc<N, K>)

  datatype Step<K> = Key(key: K) | Index(index: nat)

  type Path<K> = seq<Step<K>>

  datatype Type = Unstated | MapType | ListType | Text | Integer | Decimal | Boolean | Duration | Unrecognised

  // What a schema says of one setting. Only the type, the keys, what is required, the enumeration, whether other keys
  // are accepted and the deprecation note bear on checking; the description and the extension role are for messages.
  datatype Field<K> = Field(
    typ: Type, children: map<K, Field<K>>, required: seq<K>, enums: seq<K>, open: bool, deprecated: Option<K>,
    doc: Option<K>, extensionRef: Option<K>)

  datatype Kind = Receiver | Processor | Exporter | Extension | Connector

  const KINDS := [Receiver, Processor, Exporter, Extension, Connector]

  // A schema: the fields of each component it lists, where it has them.
  type Schema<!K> = map<(Kind, K), Option<Field<K>>>

  // What else a run goes by: whether a schema with any component was resolved, what is known of
  // the target Collector's decoder (None, or whether it converts quoted scalars), and the libraries that read text.
  datatype Context<!K> = Context(
    ready: bool,
    weak: Option<bool>,
    item: K,                          // the key "item", under which a list's schema describes its elements
    section: Kind -> K,               // the top-level key that declares a kind
    typeOf: K -> K,                   // the component type in a component's key
    expands: K -> bool,               // text holding a confmap expansion
    quoted: (Type, K) -> Option<K>,   // quoted text read as a number or a boolean, and the canonical spelling of it
    isInt64: K -> bool,               // an integer literal that fits
    wholeFits: K -> bool,             // a floating-point literal whose whole part fits
    isDuration: K -> bool)

  // ResolveAlias: at most `hops` aliases are followed.
  function Resolve<N, K>(d: Doc<N, K>, hops: nat): (r: Doc<N, K>)
    ensures d nonincreases to r
    decreases d
  {
    if d.shape.Alias? && hops > 0 then Resolve(d.shape.target, hops - 1) else d
  }

  // What an alias stands for, however long the chain.
  function Meant<N, K>(d: Doc<N, K>): (r: Doc<N, K>)
    ensures !r.shape.Alias?
    ensures d nonincreases to r
    decreases d
  {
    if d.shape.Alias? then Meant(d.shape.target) else d
  }

  lemma {:induction false} ResolvedIsMeant<N, K>(d: Doc<N, K>, hops: nat)
    ensures !Resolve(d, hops).shape.Alias? ==> Resolve(d, hops) == Meant(d)
    decreases d
  {
    if d.shape.Alias? && hops > 0 {
      ResolvedIsMeant(d.shape.target, hops - 1);
    }
  }

  ghost function KeysOf<N, K>(entries: seq<Entry<N, K>>): set<K> {
    set e | e in entries :: e.key
  }

  // A parsed configuration: the root mapping, if the document is not empty. A kind's components are the entries of the
  // section that declares it, the last one written where there are several.

  function Section<N, K(==)>(c: Context<K>, entries: seq<Entry<N, K>>, kind: Kind): Option<Doc<N, K>> {
    if entries == [] then None
    else
      var last := entries[|entries| - 1];
      if last.key == c.section(kind) then Some(last.node) else Section(c, entries[..|entries| - 1], kind)
  }

  function Components<N, K(==)>(c: Context<K>, root: Option<Doc<N, K>>, kind: Kind): seq<Entry<N, K>> {
    if root.None? || !root.value.shape.Mapping? then []
    else match Section(c, root.value.shape.entries, kind)
      case Some(node) => if node.shape.Mapping? then node.shape.entries else []
      case None => []
  }

  // Readings of one scalar.

  predicate IntKnown<N, K>(c: Context<K>, d: Doc<N, K>) {
    || d.tag.Null?
    || (d.shape.Scalar? && !c.expands(d.value) &&
        ((d.tag.Int? && c.isInt64(d.value)) || (d.tag.Float? && c.wholeFits(d.value))))
  }

  predicate DurationKnown<N, K>(c: Context<K>, d: Doc<N, K>) {
    || d.tag.Null?
    || (d.shape.Scalar? && !c.expands(d.value) &&
        if d.tag.Int? || d.tag.Float? then IntKnown(c, d) else c.isDuration(d.value))
  }

  function DecodeQuoted<N, K>(c: Context<K>, d: Doc<N, K>, typ: Type): Doc<N, K> {
    var tag := match typ
      case Integer => Some(Int)
      case Decimal => Some(Float)
      case Boolean => Some(Bool)
      case _ => None;
    if tag.Some? && c.quoted(typ, d.value).Some? then
      d.(tag := tag.value, value := c.quoted(typ, d.value).value)
    else d
  }

  function DecodeScalar<N, K>(c: Context<K>, d: Doc<N, K>, typ: Type): Doc<N, K> {
    if d.shape.Scalar? && d.tag.Str? && !c.expands(d.value) && c.weak == Some(true) then DecodeQuoted(c, d, typ) else d
  }

  predicate MatchesType<N, K>(c: Context<K>, typ: Type, d: Doc<N, K>) {
    match typ
    case MapType => d.shape.Mapping?
    case ListType => d.shape.Sequence?
    case Text => d.shape.Scalar? && d.tag.Str?
    case Boolean => d.tag.Bool?
    case Integer => d.tag.Int? || (d.tag.Float? && IntKnown(c, d))
    case Decimal => d.tag.Float? || d.tag.Int?
    case Duration => DurationKnown(c, d)
    case _ => true
  }

  // What the Collector takes a value of a type to be. A floating-point literal is a whole number when its whole part
  // fits, and a number stands for so many nanoseconds.
  predicate IsA<N, K>(c: Context<K>, typ: Type, d: Doc<N, K>) {
    match typ
    case MapType => d.shape.Mapping?
    case ListType => d.shape.Sequence?
    case Text => d.shape.Scalar? && d.tag.Str?
    case Boolean => d.tag.Bool? || ConvertsTo(c, typ, d)
    case Integer => d.tag.Int? || (d.tag.Float? && IsWritten(c, d) && c.wholeFits(d.value)) || ConvertsTo(c, typ, d)
    case Decimal => d.tag.Float? || d.tag.Int? || ConvertsTo(c, typ, d)
    case Duration =>
      d.tag.Null? ||
      (IsWritten(c, d) &&
       match d.tag
       case Int => c.isInt64(d.value)
       case Float => c.wholeFits(d.value)
       case _ => c.isDuration(d.value))
    case _ => true
  }

  predicate IsWritten<N, K>(c: Context<K>, d: Doc<N, K>) {
    d.shape.Scalar? && !c.expands(d.value)
  }

  // A quoted scalar that a weakly typed decoder reads as a number or a boolean.
  predicate ConvertsTo<N, K>(c: Context<K>, typ: Type, d: Doc<N, K>) {
    && c.weak == Some(true)
    && IsWritten(c, d) && d.tag.Str?
    && c.quoted(typ, d.value).Some?
  }

  lemma DecodingIsConversion<N, K>(c: Context<K>, typ: Type, d: Doc<N, K>)
    ensures MatchesType(c, typ, DecodeScalar(c, d, typ)) <==> IsA(c, typ, d)
  {
  }
}
