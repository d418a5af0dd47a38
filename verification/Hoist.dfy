/** openapi/openapi.go: turning a cyclic graph of Go types into `$ref`
    components. Named structs are the only way a type graph may close a cycle,
    so a type is a finite tree whose `Named` leaves point back into `Program`. */
module Hoist {
  import opened Options
  import opened Schemas
  import Text

  datatype Kind =
    | String | Bool | Int8 | Int16 | Int32 | Int | Int64
    | Uint8 | Uint16 | Uint32 | Uint | Uint64 | Float32 | Float64
    | Other

  datatype GoType =
    | Basic(kind: Kind)
    | Time
    | RawMessage
    | Ptr(elem: GoType)
    | Slice(elem: GoType)
    | Array(elem: GoType)
    | Map(elem: GoType)
    | Anon(fields: seq<Field>)
    | Named(name: string)
    | Union(property: string, variants: seq<GoType>)

  /** One struct field. `limits` are the constraint tags already parsed. */
  datatype Field = Field(
    name: string,
    exported: bool,
    json: Option<string>,
    typ: GoType,
    desc: string,
    format: string,
    constant: string,
    limits: map<string, string>)

  /** Every named struct of the program, by name. */
  type Program = map<string, seq<Field>>

  // ------------------------------------------------------------- field tags

  /** `jsonFieldName`: the name in the document, or None for a field it skips. */
  function JsonName(f: Field): Option<string> {
    if f.json.None? || f.json.value == "" then Some(f.name)
    else
      var name := Text.Before(f.json.value, ',');
      if name == "-" then None
      else if name == "" then Some(f.name)
      else Some(name)
  }

  /** `fieldRequired`: the document lists the property as required. */
  predicate FieldRequired(f: Field) {
    if f.typ.Ptr? then false
    else if f.json.None? then true
    else
      forall opt | opt in Text.Split(Text.After(f.json.value, ','), ',') ::
        Text.TrimSpace(opt) != "omitempty" && Text.TrimSpace(opt) != "omitzero"
  }

  predicate Serialized(f: Field) {
    f.exported && JsonName(f).Some?
  }

  function Peel(t: GoType): (r: GoType)
    ensures !r.Ptr?
    ensures r == t || r < t
  {
    if t.Ptr? then Peel(t.elem) else t
  }

  /** The names a type mentions without following any of them. */
  function Mentions(t: GoType): set<string> {
    match t
    case Basic(_) => {}
    case Time => {}
    case RawMessage => {}
    case Ptr(e) => Mentions(e)
    case Slice(e) => Mentions(e)
    case Array(e) => Mentions(e)
    case Map(e) => Mentions(e)
    case Anon(fields) => FieldMentions(fields)
    case Named(n) => {n}
    case Union(_, vs) => TypesMention(vs)
  }

  function TypesMention(ts: seq<GoType>): set<string> {
    if ts == [] then {} else TypesMention(ts[..|ts| - 1]) + Mentions(ts[|ts| - 1])
  }

  function FieldMentions(fields: seq<Field>): set<string> {
    if fields == [] then {}
    else
      var f := fields[|fields| - 1];
      FieldMentions(fields[..|fields| - 1]) + (if Serialized(f) then Mentions(f.typ) else {})
  }

  // -------------------------------------------------- schemas, one at a time

  function Unsigned(s: Schema): Schema
    requires s.Schema?
  {
    s.(notes := map["minimum" := "0"])
  }

  /** The scalar cases of `inline`. */
  function KindSchema(kind: Kind): Schema {
    match kind
    case String => Typed("string", "")
    case Bool => Typed("boolean", "")
    case Int8 => Typed("integer", "")
    case Int16 => Typed("integer", "")
    case Int32 => Typed("integer", "int32")
    case Int => Typed("integer", "int64")
    case Int64 => Typed("integer", "int64")
    case Uint8 => Unsigned(Typed("integer", ""))
    case Uint16 => Unsigned(Typed("integer", ""))
    case Uint32 => Unsigned(Typed("integer", "int32"))
    case Uint => Unsigned(Typed("integer", "int64"))
    case Uint64 => Unsigned(Typed("integer", "int64"))
    case Float32 => Typed("number", "float")
    case Float64 => Typed("number", "double")
    case Other => Typed("object", "")
  }

  /** `applyFieldFormat` and the description: keywords set at the field, on
      whatever schema the field's type produced. */
  function Decorate(s: Schema, f: Field): Schema
    requires s.Schema?
  {
    s.(format := if f.format != "" then f.format else s.format,
       notes := s.notes
                + (if f.constant != "" then map["const" := f.constant] else map[])
                + f.limits
                + (if f.desc != "" then map["description" := f.desc] else map[]))
  }

  /** The name `discriminatorValue` compares with the discriminator property. */
  function TagName(f: Field): string {
    if f.json.None? then f.name
    else
      var tag := Text.Before(f.json.value, ',');
      if tag != "" && tag != "-" then tag else f.name
  }

  function ConstOf(fields: seq<Field>, property: string): string {
    if fields == [] then ""
    else if TagName(fields[0]) == property then fields[0].constant
    else ConstOf(fields[1..], property)
  }

  /** The fields of a struct type, or None for anything else. */
  function FieldsOf(p: Program, t: GoType): Option<seq<Field>> {
    match Peel(t)
    case Anon(fields) => Some(fields)
    case Named(n) => if n in p then Some(p[n]) else None
    case _ => None
  }

  /** `discriminatorValue`; only structs are ever asked. */
  function DiscriminatorValue(p: Program, t: GoType, property: string): string {
    match FieldsOf(p, t)
    case None => ""
    case Some(fields) => ConstOf(fields, property)
  }

  /** What the Go compiler guarantees (every name is declared) and what
      `discriminatorValue` needs (a union's variants are structs). */
  predicate WellTyped(p: Program, t: GoType) {
    match t
    case Basic(_) => true
    case Time => true
    case RawMessage => true
    case Ptr(e) => WellTyped(p, e)
    case Slice(e) => WellTyped(p, e)
    case Array(e) => WellTyped(p, e)
    case Map(e) => WellTyped(p, e)
    case Anon(fields) => FieldsWellTyped(p, fields)
    case Named(n) => n in p
    case Union(_, vs) => VariantsWellTyped(p, vs)
  }

  predicate VariantsWellTyped(p: Program, vs: seq<GoType>) {
    vs == [] || (
      && VariantsWellTyped(p, vs[..|vs| - 1])
      && WellTyped(p, vs[|vs| - 1])
      && FieldsOf(p, vs[|vs| - 1]).Some?)
  }

  predicate FieldsWellTyped(p: Program, fields: seq<Field>) {
    fields == [] || (
      && FieldsWellTyped(p, fields[..|fields| - 1])
      && WellTyped(p, fields[|fields| - 1].typ)
      && NewName(fields[..|fields| - 1], fields[|fields| - 1]))
  }

  /** A Go identifier; bytes beyond ASCII are those of letters. */
  predicate Identifier(s: string) {
    s != "" && forall c | c in s :: IsLetter(c) || Text.IsDigit(c) || c == '_'
  }

  predicate IsLetter(c: char) {
    'a' <= c <= 'z' || 'A' <= c <= 'Z' || c >= '\U{80}'
  }

  /** Exported fields of a struct differ in name. */
  predicate NewName(fields: seq<Field>, f: Field) {
    Identifier(f.name) && forall g | g in fields && g.exported && f.exported :: g.name != f.name
  }

  predicate ProgramWellTyped(p: Program) {
    forall n | n in p :: FieldsWellTyped(p, p[n])
  }

  /** The schema a type gets wherever it appears: no state, no recursion
      through names. */
  function SchemaOf(p: Program, t: GoType): (s: Schema)
    ensures s.Schema?
    decreases t, 2
  {
    match t
    case Basic(kind) => KindSchema(kind)
    case Time => Typed("string", "date-time")
    case RawMessage => EMPTY
    case Ptr(e) => SchemaOf(p, e)
    case Slice(e) => ArrayOf(SchemaOf(p, e))
    case Array(e) => ArrayOf(SchemaOf(p, e))
    case Map(e) => MapOf(SchemaOf(p, e))
    case Anon(fields) => StructOf(p, fields)
    case Named(n) => RefTo(n)
    case Union(property, vs) =>
      OneOf(VariantSchemas(p, vs), Discriminator(property, Mapping(p, property, vs)))
  }

  function VariantSchemas(p: Program, vs: seq<GoType>): (r: seq<Schema>)
    ensures |r| == |vs|
    decreases vs, 0
  {
    if vs == [] then []
    else VariantSchemas(p, vs[..|vs| - 1]) + [SchemaOf(p, vs[|vs| - 1])]
  }

  function Mapping(p: Program, property: string, vs: seq<GoType>): map<string, string>
    decreases vs, 0
  {
    if vs == [] then map[]
    else
      var v := vs[|vs| - 1];
      var m := Mapping(p, property, vs[..|vs| - 1]);
      var c := DiscriminatorValue(p, v, property);
      if c != "" then m[c := SchemaOf(p, v).ref] else m
  }

  function PropsOf(p: Program, fields: seq<Field>): map<string, Schema>
    decreases fields, 0
  {
    if fields == [] then map[]
    else
      var f := fields[|fields| - 1];
      var props := PropsOf(p, fields[..|fields| - 1]);
      if Serialized(f) then props[JsonName(f).value := Decorate(SchemaOf(p, f.typ), f)] else props
  }

  function RequiredOf(fields: seq<Field>): seq<string> {
    if fields == [] then []
    else
      var f := fields[|fields| - 1];
      RequiredOf(fields[..|fields| - 1])
      + (if Serialized(f) && FieldRequired(f) then [JsonName(f).value] else [])
  }

  function StructOf(p: Program, fields: seq<Field>): (s: Schema)
    ensures s.Schema?
    decreases fields, 1
  {
    ObjectOf(PropsOf(p, fields), RequiredOf(fields))
  }

  // ---------------------------------------------------------- reachability

  ghost predicate IsPath(p: Program, from: set<string>, path: seq<string>) {
    && path != []
    && path[0] in from
    && (forall i | 0 <= i < |path| - 1 ::
          path[i] in p && path[i + 1] in FieldMentions(p[path[i]]))
  }

  /** `n` is mentioned by a type of `from`, directly or through struct fields. */
  ghost predicate Reachable(p: Program, from: set<string>, n: string) {
    exists path :: IsPath(p, from, path) && path[|path| - 1] == n
  }

  lemma ReachDirect(p: Program, from: set<string>, n: string)
    requires n in from
    ensures Reachable(p, from, n)
  {
    assert IsPath(p, from, [n]);
  }

  lemma ReachVia(p: Program, from: set<string>, m: string, n: string)
    requires m in from && m in p && Reachable(p, FieldMentions(p[m]), n)
    ensures Reachable(p, from, n)
  {
    var path :| IsPath(p, FieldMentions(p[m]), path) && path[|path| - 1] == n;
    var longer := [m] + path;
    assert IsPath(p, from, longer) && longer[|longer| - 1] == n;
  }

  lemma ReachMore(p: Program, from: set<string>, more: set<string>, n: string)
    requires from <= more && Reachable(p, from, n)
    ensures Reachable(p, more, n)
  {
    var path :| IsPath(p, from, path) && path[|path| - 1] == n;
    assert IsPath(p, more, path);
  }

  /** A set closed under mentions holds everything it can reach. */
  lemma {:induction false} ClosedHoldsPath(p: Program, keys: set<string>, from: set<string>, path: seq<string>)
    requires from <= keys
    requires forall n | n in keys && n in p :: FieldMentions(p[n]) <= keys
    requires IsPath(p, from, path)
    ensures path[|path| - 1] in keys
    decreases |path|
  {
    if |path| > 1 {
      ClosedHoldsPath(p, keys, from, path[..|path| - 1]);
    }
  }

  // ------------------------------------------------- the hoisting algorithm

  /** What one call adds to the components: every type mentioned is there
      afterwards, nothing registered is touched, and whatever is new was reached
      from the mentions. */
  ghost predicate Grew(p: Program, before: map<string, Schema>, after: map<string, Schema>, from: set<string>) {
    && before.Keys <= after.Keys <= p.Keys
    && (forall n | n in before :: after[n] == before[n])
    && from <= after.Keys
    && (forall n | n in after && n !in before :: Reachable(p, from, n))
  }

  /** `n` carries its final schema, and everything that schema refers to is
      registered. */
  ghost predicate Complete(p: Program, components: map<string, Schema>, n: string)
    requires n in components
  {
    n in p && components[n] == StructOf(p, p[n]) && FieldMentions(p[n]) <= components.Keys
  }

  /** Every registered name is complete, except the placeholders in `pending`. */
  ghost predicate Consistent(p: Program, components: map<string, Schema>, pending: set<string>) {
    && pending <= components.Keys <= p.Keys
    && forall n | n in components && n !in pending :: Complete(p, components, n)
  }

  lemma PlaceholderConsistent(p: Program, components: map<string, Schema>, pending: set<string>, n: string)
    requires Consistent(p, components, pending) && n in p && n !in components
    ensures Consistent(p, components[n := EMPTY], pending + {n})
  {
    hide StructOf;
    var after := components[n := EMPTY];
    forall m | m in after && m !in pending + {n} ensures Complete(p, after, m) {
      assert Complete(p, components, m);
    }
  }

  lemma BodyConsistent(p: Program, before: map<string, Schema>, middle: map<string, Schema>,
                       pending: set<string>, n: string)
    requires n in p && n !in before && pending <= before.Keys
    requires Grew(p, before[n := EMPTY], middle, FieldMentions(p[n]))
    requires Consistent(p, middle, pending + {n})
    ensures Consistent(p, middle[n := StructOf(p, p[n])], pending)
  {
    hide StructOf;
    var after := middle[n := StructOf(p, p[n])];
    forall m | m in after && m !in pending ensures Complete(p, after, m) {
      if m != n {
        assert Complete(p, middle, m);
      }
    }
  }

  lemma GrewMore(p: Program, a: map<string, Schema>, b: map<string, Schema>, c: map<string, Schema>,
                 from1: set<string>, from2: set<string>)
    requires Grew(p, a, b, from1) && Grew(p, b, c, from2)
    ensures Grew(p, a, c, from1 + from2)
  {
    forall n | n in c && n !in a ensures Reachable(p, from1 + from2, n) {
      if n in b {
        ReachMore(p, from1, from1 + from2, n);
      } else {
        ReachMore(p, from2, from1 + from2, n);
      }
    }
  }

  lemma GrewNothing(p: Program, a: map<string, Schema>, from: set<string>)
    requires from <= a.Keys <= p.Keys
    ensures Grew(p, a, a, from)
  {
  }

  lemma GrewNamed(p: Program, a: map<string, Schema>, b: map<string, Schema>, n: string, s: Schema)
    requires n in p && n !in a
    requires Grew(p, a[n := EMPTY], b, FieldMentions(p[n]))
    ensures Grew(p, a, b[n := s], {n})
  {
    forall m | m in b[n := s] && m !in a ensures Reachable(p, {n}, m) {
      if m == n {
        ReachDirect(p, {n}, n);
      } else {
        ReachVia(p, {n}, n, m);
      }
    }
  }

  lemma GrewUnseen(p: Program, a: map<string, Schema>, b: map<string, Schema>, from: set<string>)
    requires Grew(p, a, b, from)
    ensures |p.Keys - b.Keys| <= |p.Keys - a.Keys|
  {
    FewerUnseen(p.Keys, a.Keys, b.Keys);
  }

  lemma FewerUnseen(all: set<string>, a: set<string>, b: set<string>)
    requires a <= b
    ensures |all - b| <= |all - a|
    ensures (exists n :: n in b && n !in a && n in all) ==> |all - b| < |all - a|
  {
    var x, y := all - b, all - a;
    Subset(x, y);
    if n :| n in b && n !in a && n in all {
      Subset(x, y - {n});
    }
  }

  lemma {:induction false} Subset(x: set<string>, y: set<string>)
    requires x <= y
    ensures |x| <= |y|
  {
    if x != {} {
      var e :| e in x;
      Subset(x - {e}, y - {e});
    }
  }

  lemma VariantStep(p: Program, property: string, vs: seq<GoType>, i: nat)
    requires i < |vs|
    ensures VariantSchemas(p, vs[..i + 1]) == VariantSchemas(p, vs[..i]) + [SchemaOf(p, vs[i])]
    ensures TypesMention(vs[..i + 1]) == TypesMention(vs[..i]) + Mentions(vs[i])
    ensures Mapping(p, property, vs[..i + 1])
         == var c := DiscriminatorValue(p, vs[i], property);
            var m := Mapping(p, property, vs[..i]);
            if c != "" then m[c := SchemaOf(p, vs[i]).ref] else m
  {
    var pre := vs[..i + 1];
    assert pre[..|pre| - 1] == vs[..i] && pre[|pre| - 1] == vs[i];
  }

  lemma VariantEnds(p: Program, property: string, vs: seq<GoType>)
    ensures VariantSchemas(p, vs[..0]) == [] && TypesMention(vs[..0]) == {} && Mapping(p, property, vs[..0]) == map[]
    ensures vs[..|vs|] == vs
    ensures OneOf(VariantSchemas(p, vs), Discriminator(property, Mapping(p, property, vs)))
         == SchemaOf(p, Union(property, vs))
  {
  }

  lemma FieldStep(p: Program, fields: seq<Field>, i: nat)
    requires i < |fields|
    ensures var f := fields[i];
            && Serialized(f) == (f.exported && JsonName(f).Some?)
            && FieldMentions(fields[..i + 1])
               == (if Serialized(f) then FieldMentions(fields[..i]) + Mentions(f.typ) else FieldMentions(fields[..i]))
            && RequiredOf(fields[..i + 1])
               == (if Serialized(f) && FieldRequired(f)
                   then RequiredOf(fields[..i]) + [JsonName(f).value]
                   else RequiredOf(fields[..i]))
            && PropsOf(p, fields[..i + 1])
               == if Serialized(f)
                  then PropsOf(p, fields[..i])[JsonName(f).value := Decorate(SchemaOf(p, f.typ), f)]
                  else PropsOf(p, fields[..i])
  {
    var pre := fields[..i + 1];
    assert pre[..|pre| - 1] == fields[..i] && pre[|pre| - 1] == fields[i];
  }

  lemma FieldEnds(p: Program, fields: seq<Field>)
    ensures PropsOf(p, fields[..0]) == map[] && RequiredOf(fields[..0]) == [] && FieldMentions(fields[..0]) == {}
    ensures fields[..|fields|] == fields
    ensures ObjectOf(PropsOf(p, fields), RequiredOf(fields)) == StructOf(p, fields)
  {
  }

  class SchemaBuilder {
    const p: Program
    var components: map<string, Schema>
    /** Names whose placeholder has not been replaced yet. */
    ghost var pending: set<string>

    constructor (p: Program)
      requires ProgramWellTyped(p)
      ensures Valid() && this.p == p && components == map[] && pending == {}
    {
      this.p := p;
      components := map[];
      pending := {};
    }

    ghost predicate Valid()
      reads this
    {
      ProgramWellTyped(p) && Consistent(p, components, pending)
    }

    /** `schema`, with the composite cases of `inline`. */
    method SchemaFor(t: GoType) returns (s: Schema)
      requires Valid() && WellTyped(p, t)
      modifies this
      ensures Valid() && pending == old(pending)
      ensures s == SchemaOf(p, t)
      ensures Grew(p, old(components), components, Mentions(t))
      decreases |p.Keys - components.Keys|, t, 2
    {
      hide StructOf, FieldMentions, FieldsWellTyped, Consistent, Grew;
      Bounds();
      GrewNothing(p, components, {});
      match t
      case Basic(kind) => s := KindSchema(kind);
      case Time => s := Typed("string", "date-time");
      case RawMessage => s := EMPTY;
      case Ptr(e) => s := SchemaFor(e);
      case Slice(e) =>
        var elem := SchemaFor(e);
        s := ArrayOf(elem);
      case Array(e) =>
        var elem := SchemaFor(e);
        s := ArrayOf(elem);
      case Map(e) =>
        var elem := SchemaFor(e);
        s := MapOf(elem);
      case Anon(fields) => s := StructSchema(fields);
      case Named(n) =>
        if n !in components {
          Register(n);
        } else {
          GrewNothing(p, components, {n});
        }
        s := RefTo(n);
      case Union(property, vs) => s := UnionSchema(property, vs);
    }

    /** The named-struct branch of `schema`: the placeholder goes in before the
        body is built, so a cycle finds it and stops. */
    method Register(n: string)
      requires Valid() && n in p && n !in components
      modifies this
      ensures Valid() && pending == old(pending)
      ensures Grew(p, old(components), components, {n})
      decreases |p.Keys - components.Keys|, Named(n), 1
    {
      hide StructOf, FieldMentions, FieldsWellTyped, Grew, Consistent;
      Bounds();
      PlaceholderConsistent(p, components, pending, n);
      FewerUnseen(p.Keys, components.Keys, components[n := EMPTY].Keys);
      components := components[n := EMPTY];
      pending := pending + {n};
      var body := StructSchema(p[n]);
      GrewNamed(p, old(components), components, n, body);
      BodyConsistent(p, old(components), components, old(pending), n);
      components := components[n := body];
      pending := pending - {n};
    }

    lemma Bounds()
      requires Valid()
      ensures pending <= components.Keys <= p.Keys
    {
    }

    /** `unionSchema` */
    method UnionSchema(property: string, vs: seq<GoType>) returns (s: Schema)
      requires Valid() && VariantsWellTyped(p, vs)
      modifies this
      ensures Valid() && pending == old(pending)
      ensures s == SchemaOf(p, Union(property, vs))
      ensures Grew(p, old(components), components, TypesMention(vs))
      decreases |p.Keys - components.Keys|, vs, 1
    {
      hide *;
      VariantEnds(p, property, vs);
      Bounds();
      GrewNothing(p, components, {});
      var oneOf: seq<Schema> := [];
      var mapping: map<string, string> := map[];
      for i := 0 to |vs|
        invariant Valid() && pending == old(pending)
        invariant oneOf == VariantSchemas(p, vs[..i])
        invariant mapping == Mapping(p, property, vs[..i])
        invariant Grew(p, old(components), components, TypesMention(vs[..i]))
      {
        VariantsPrefix(p, vs, i + 1);
        VariantStep(p, property, vs, i);
        GrewUnseen(p, old(components), components, TypesMention(vs[..i]));
        ghost var before := components;
        var ref := SchemaFor(vs[i]);
        GrewMore(p, old(components), before, components, TypesMention(vs[..i]), Mentions(vs[i]));
        oneOf := oneOf + [ref];
        var c := DiscriminatorValue(p, vs[i], property);
        if c != "" {
          mapping := mapping[c := ref.ref];
        }
      }
      s := OneOf(oneOf, Discriminator(property, mapping));
    }

    /** `structSchema` */
    method StructSchema(fields: seq<Field>) returns (s: Schema)
      requires Valid() && FieldsWellTyped(p, fields)
      modifies this
      ensures Valid() && pending == old(pending)
      ensures s == StructOf(p, fields)
      ensures Grew(p, old(components), components, FieldMentions(fields))
      decreases |p.Keys - components.Keys|, fields, 1
    {
      hide *;
      FieldEnds(p, fields);
      Bounds();
      GrewNothing(p, components, {});
      var props: map<string, Schema> := map[];
      var required: seq<string> := [];
      for i := 0 to |fields|
        invariant Valid() && pending == old(pending)
        invariant props == PropsOf(p, fields[..i])
        invariant required == RequiredOf(fields[..i])
        invariant Grew(p, old(components), components, FieldMentions(fields[..i]))
      {
        FieldsPrefix(p, fields, i + 1);
        FieldStep(p, fields, i);
        var f := fields[i];
        if f.exported {
          var name := JsonName(f);
          if name.Some? {
            GrewUnseen(p, old(components), components, FieldMentions(fields[..i]));
            ghost var before := components;
            var field := SchemaFor(f.typ);
            GrewMore(p, old(components), before, components, FieldMentions(fields[..i]), Mentions(f.typ));
            props := props[name.value := Decorate(field, f)];
            if FieldRequired(f) {
              required := required + [name.value];
            }
          }
        }
      }
      s := ObjectOf(props, required);
    }
  }

  lemma {:induction false} VariantsPrefix(p: Program, vs: seq<GoType>, i: nat)
    requires i <= |vs| && VariantsWellTyped(p, vs)
    ensures VariantsWellTyped(p, vs[..i])
    ensures i > 0 ==> WellTyped(p, vs[i - 1]) && FieldsOf(p, vs[i - 1]).Some?
  {
    if i == |vs| {
      assert vs[..i] == vs;
    } else {
      VariantsPrefix(p, vs[..|vs| - 1], i);
      assert vs[..|vs| - 1][..i] == vs[..i];
    }
  }

  lemma {:induction false} FieldsPrefix(p: Program, fields: seq<Field>, i: nat)
    requires i <= |fields| && FieldsWellTyped(p, fields)
    ensures FieldsWellTyped(p, fields[..i])
    ensures i > 0 ==> WellTyped(p, fields[i - 1].typ)
  {
    if i == |fields| {
      assert fields[..i] == fields;
    } else {
      FieldsPrefix(p, fields[..|fields| - 1], i);
      assert fields[..|fields| - 1][..i] == fields[..i];
    }
  }

  /** The components a whole document needs, defined without any algorithm. */
  ghost function Hoisted(p: Program, from: set<string>): map<string, Schema> {
    map n | n in p && Reachable(p, from, n) :: StructOf(p, p[n])
  }

  /** From an empty builder, every sequence of calls ends with exactly the
      reachable named structs, each with its own schema: no placeholder is left
      and no order of visits shows. */
  lemma HoistedExactly(p: Program, components: map<string, Schema>, from: set<string>)
    requires Consistent(p, components, {})
    requires Grew(p, map[], components, from)
    ensures components == Hoisted(p, from)
  {
    hide StructOf, Reachable;
    forall n ensures n in components <==> n in p && Reachable(p, from, n) {
      if n in p && Reachable(p, from, n) {
        ReachableRegistered(p, components, from, n);
      }
    }
    forall n | n in components ensures components[n] == StructOf(p, p[n]) {
      assert Complete(p, components, n);
    }
  }

  lemma ReachableRegistered(p: Program, components: map<string, Schema>, from: set<string>, n: string)
    requires Consistent(p, components, {}) && from <= components.Keys
    requires Reachable(p, from, n)
    ensures n in components
  {
    var path :| IsPath(p, from, path) && path[|path| - 1] == n;
    forall m | m in components.Keys && m in p ensures FieldMentions(p[m]) <= components.Keys {
      assert Complete(p, components, m);
    }
    ClosedHoldsPath(p, components.Keys, from, path);
  }

  /** `Generator.Spec`, as far as schemas go: one builder, every type of every
      endpoint in turn. */
  method BuildDocument(p: Program, roots: seq<GoType>) returns (schemas: seq<Schema>, components: map<string, Schema>)
    requires ProgramWellTyped(p)
    requires forall t | t in roots :: WellTyped(p, t)
    ensures |schemas| == |roots|
    ensures forall i | 0 <= i < |roots| :: schemas[i] == SchemaOf(p, roots[i])
    ensures components == Hoisted(p, TypesMention(roots))
  {
    hide Grew, Consistent, Reachable, SchemaOf, Hoisted, WellTyped, ProgramWellTyped;
    var b := new SchemaBuilder(p);
    b.Bounds();
    GrewNothing(p, b.components, {});
    schemas := [];
    for i := 0 to |roots|
      invariant b.Valid() && b.p == p && b.pending == {}
      invariant |schemas| == i && forall j | 0 <= j < i :: schemas[j] == SchemaOf(p, roots[j])
      invariant Grew(p, map[], b.components, TypesMention(roots[..i]))
    {
      ghost var before := b.components;
      var s := b.SchemaFor(roots[i]);
      GrewMore(p, map[], before, b.components, TypesMention(roots[..i]), Mentions(roots[i]));
      assert roots[..i + 1][..i] == roots[..i];
      schemas := schemas + [s];
    }
    assert roots[..|roots|] == roots;
    components := b.components;
    HoistedExactly(p, components, TypesMention(roots));
  }

  lemma {:induction false} MentionsUnordered(ts: seq<GoType>, n: string)
    ensures n in TypesMention(ts) <==> exists t :: t in ts && n in Mentions(t)
  {
    if ts != [] {
      var last := ts[|ts| - 1];
      MentionsUnordered(ts[..|ts| - 1], n);
      assert ts == ts[..|ts| - 1] + [last];
      assert last in ts;
    }
  }

  /** The order in which endpoints are visited does not reach the document. */
  lemma VisitOrderIrrelevant(p: Program, ts: seq<GoType>, us: seq<GoType>)
    requires forall t :: t in ts <==> t in us
    ensures Hoisted(p, TypesMention(ts)) == Hoisted(p, TypesMention(us))
  {
    forall n ensures n in TypesMention(ts) <==> n in TypesMention(us) {
      MentionsUnordered(ts, n);
      MentionsUnordered(us, n);
    }
    assert TypesMention(ts) == TypesMention(us);
  }

  // -------------------------------------------------- what the document means

  /** A schema or type written out as a tree, following references. `Cut` marks
      where the depth ran out, `Dangling` a reference to nothing. */
  datatype Tree =
    | Absent
    | Cut
    | Dangling
    | At(site: Schema, target: Tree)
    | Node(head: Schema, props: map<string, Tree>, items: Tree, addl: Tree, oneOf: seq<Tree>)

  /** A schema's own keywords, without its sub-schemas. */
  function Head(s: Schema): Schema
    requires s.Schema?
  {
    s.(props := map[], items := NoSchema, addl := NoSchema, oneOf := [])
  }

  function Target(s: Schema): Option<string>
    requires s.Schema?
  {
    if Text.HasPrefix(s.ref, REF_PREFIX) then Some(s.ref[|REF_PREFIX|..]) else None
  }

  /** Follow every `$ref`, spending one unit of depth per reference and per
      object level. */
  function Unfold(components: map<string, Schema>, s: Schema, depth: nat): Tree
    decreases depth, s
  {
    if s.NoSchema? then Absent
    else if s.ref != "" then
      if depth == 0 then Cut
      else
        match Target(s)
        case None => Dangling
        case Some(n) =>
          if n in components then At(Head(s), Unfold(components, components[n], depth - 1)) else Dangling
    else if s.props != map[] && depth == 0 then Cut
    else
      Node(Head(s),
           map k | k in s.props :: Unfold(components, s.props[k], depth - 1),
           Unfold(components, s.items, depth),
           Unfold(components, s.addl, depth),
           seq(|s.oneOf|, i requires 0 <= i < |s.oneOf| => Unfold(components, s.oneOf[i], depth)))
  }

  function DecorateTree(t: Tree, f: Field): Tree
  {
    match t
    case At(site, target) => if site.Schema? then At(Decorate(site, f), target) else t
    case Node(head, props, items, addl, oneOf) =>
      if head.Schema? then Node(Decorate(head, f), props, items, addl, oneOf) else t
    case _ => t
  }

  function Leaf(s: Schema): Tree {
    Node(s, map[], Absent, Absent, [])
  }

  /** The same tree read straight off the Go types, writing each struct out
      where it is used. */
  function Inline(p: Program, t: GoType, depth: nat): Tree
    decreases depth, t, 2
  {
    match t
    case Basic(kind) => Leaf(KindSchema(kind))
    case Time => Leaf(Typed("string", "date-time"))
    case RawMessage => Leaf(EMPTY)
    case Ptr(e) => Inline(p, e, depth)
    case Slice(e) => Node(Typed("array", ""), map[], Inline(p, e, depth), Absent, [])
    case Array(e) => Node(Typed("array", ""), map[], Inline(p, e, depth), Absent, [])
    case Map(e) => Node(Typed("object", ""), map[], Absent, Inline(p, e, depth), [])
    case Anon(fields) => InlineStruct(p, fields, depth)
    case Named(n) =>
      if depth == 0 then Cut
      else if n in p then At(RefTo(n), InlineStruct(p, p[n], depth - 1)) else Dangling
    case Union(property, vs) =>
      Node(OneOf([], Discriminator(property, Mapping(p, property, vs))), map[], Absent, Absent,
           InlineVariants(p, vs, depth))
  }

  function InlineVariants(p: Program, vs: seq<GoType>, depth: nat): seq<Tree>
    decreases depth, vs, 0
  {
    if vs == [] then []
    else InlineVariants(p, vs[..|vs| - 1], depth) + [Inline(p, vs[|vs| - 1], depth)]
  }

  function InlineStruct(p: Program, fields: seq<Field>, depth: nat): Tree
    decreases depth, fields, 1
  {
    var head := ObjectOf(map[], RequiredOf(fields));
    if JsonNames(fields) == {} then Leaf(head)
    else if depth == 0 then Cut
    else Node(head, InlineProps(p, fields, depth - 1), Absent, Absent, [])
  }

  function InlineProps(p: Program, fields: seq<Field>, depth: nat): (r: map<string, Tree>)
    decreases depth, fields, 0
  {
    if fields == [] then map[]
    else
      var f := fields[|fields| - 1];
      var props := InlineProps(p, fields[..|fields| - 1], depth);
      if Serialized(f) then props[JsonName(f).value := DecorateTree(Inline(p, f.typ, depth), f)] else props
  }

  /** The property names a struct puts on the wire. */
  function JsonNames(fields: seq<Field>): set<string> {
    if fields == [] then {}
    else
      var f := fields[|fields| - 1];
      JsonNames(fields[..|fields| - 1]) + (if Serialized(f) then {JsonName(f).value} else {})
  }

  lemma UnfoldDecorated(components: map<string, Schema>, s: Schema, f: Field, depth: nat)
    requires s.Schema?
    ensures Unfold(components, Decorate(s, f), depth) == DecorateTree(Unfold(components, s, depth), f)
  {
    var d := Decorate(s, f);
    assert d.ref == s.ref && d.props == s.props && d.items == s.items && d.addl == s.addl && d.oneOf == s.oneOf;
    assert Head(d) == Decorate(Head(s), f);
  }

  lemma UnfoldRef(components: map<string, Schema>, n: string, depth: nat)
    requires n in components
    ensures Unfold(components, RefTo(n), depth)
         == if depth == 0 then Cut else At(RefTo(n), Unfold(components, components[n], depth - 1))
  {
    var s := RefTo(n);
    assert s.ref[..|REF_PREFIX|] == REF_PREFIX && s.ref[|REF_PREFIX|..] == n;
    assert Target(s) == Some(n);
    assert Head(s) == s;
  }

  lemma UnfoldLeaf(components: map<string, Schema>, s: Schema, depth: nat)
    requires s.Schema? && s.ref == "" && s.props == map[] && s.items.NoSchema? && s.addl.NoSchema? && s.oneOf == []
    ensures Unfold(components, s, depth) == Leaf(s)
  {
    assert Head(s) == s;
  }

  lemma UnfoldScalars(components: map<string, Schema>, depth: nat)
    ensures forall kind :: Unfold(components, KindSchema(kind), depth) == Leaf(KindSchema(kind))
    ensures Unfold(components, Typed("string", "date-time"), depth) == Leaf(Typed("string", "date-time"))
    ensures Unfold(components, EMPTY, depth) == Leaf(EMPTY)
  {
    hide Unfold, Leaf;
    forall kind ensures Unfold(components, KindSchema(kind), depth) == Leaf(KindSchema(kind)) {
      UnfoldLeaf(components, KindSchema(kind), depth);
    }
    UnfoldLeaf(components, Typed("string", "date-time"), depth);
    UnfoldLeaf(components, EMPTY, depth);
  }

  lemma UnfoldContainers(components: map<string, Schema>, s: Schema, depth: nat)
    ensures Unfold(components, ArrayOf(s), depth)
         == Node(Typed("array", ""), map[], Unfold(components, s, depth), Absent, [])
    ensures Unfold(components, MapOf(s), depth)
         == Node(Typed("object", ""), map[], Absent, Unfold(components, s, depth), [])
  {
    assert Head(ArrayOf(s)) == Typed("array", "") && Head(MapOf(s)) == Typed("object", "");
  }

  lemma UnfoldObject(components: map<string, Schema>, props: map<string, Schema>, required: seq<string>, depth: nat)
    ensures Unfold(components, ObjectOf(props, required), depth)
         == if props == map[] then Leaf(ObjectOf(map[], required))
            else if depth == 0 then Cut
            else Node(ObjectOf(map[], required), map k | k in props :: Unfold(components, props[k], depth - 1),
                      Absent, Absent, [])
  {
    var s := ObjectOf(props, required);
    assert Head(s) == ObjectOf(map[], required);
  }

  lemma {:induction false} PropNames(p: Program, fields: seq<Field>, depth: nat)
    ensures PropsOf(p, fields).Keys == JsonNames(fields) == InlineProps(p, fields, depth).Keys
  {
    if fields != [] {
      PropNames(p, fields[..|fields| - 1], depth);
    }
  }

  /** The components are a faithful stand-in for the type graph: following their
      references to any depth gives what writing the structs out in place gives. */
  lemma {:induction false} UnfoldIsInline(p: Program, components: map<string, Schema>, t: GoType, depth: nat)
    requires forall n | n in components :: Complete(p, components, n)
    requires Mentions(t) <= components.Keys
    ensures Unfold(components, SchemaOf(p, t), depth) == Inline(p, t, depth)
    decreases depth, t, 2
  {
    hide Complete, Unfold;
    match t
    case Basic(kind) => UnfoldScalars(components, depth);
    case Time => UnfoldScalars(components, depth);
    case RawMessage => UnfoldScalars(components, depth);
    case Ptr(e) => UnfoldIsInline(p, components, e, depth);
    case Slice(e) =>
      UnfoldIsInline(p, components, e, depth);
      UnfoldContainers(components, SchemaOf(p, e), depth);
    case Array(e) =>
      UnfoldIsInline(p, components, e, depth);
      UnfoldContainers(components, SchemaOf(p, e), depth);
    case Map(e) =>
      UnfoldIsInline(p, components, e, depth);
      UnfoldContainers(components, SchemaOf(p, e), depth);
    case Anon(fields) => UnfoldIsInlineStruct(p, components, fields, depth);
    case Named(n) =>
      UnfoldRef(components, n, depth);
      CompleteParts(p, components, n);
      if depth > 0 {
        UnfoldIsInlineStruct(p, components, p[n], depth - 1);
      }
    case Union(property, vs) =>
      UnfoldIsInlineVariants(p, components, vs, depth);
      UnfoldUnion(components, VariantSchemas(p, vs), Discriminator(property, Mapping(p, property, vs)), depth);
  }

  lemma CompleteParts(p: Program, components: map<string, Schema>, n: string)
    requires n in components && Complete(p, components, n)
    ensures n in p && components[n] == StructOf(p, p[n]) && FieldMentions(p[n]) <= components.Keys
  {
  }

  lemma UnfoldUnion(components: map<string, Schema>, variants: seq<Schema>, disc: Discriminator, depth: nat)
    ensures Unfold(components, OneOf(variants, disc), depth)
         == Node(OneOf([], disc), map[], Absent, Absent,
                 seq(|variants|, i requires 0 <= i < |variants| => Unfold(components, variants[i], depth)))
  {
    var s := OneOf(variants, disc);
    assert s.oneOf == variants && Head(s) == OneOf([], disc);
    var u := Unfold(components, s, depth);
    assert u.Node?;
    assert u.oneOf
        == seq(|variants|, i requires 0 <= i < |variants| => Unfold(components, variants[i], depth));
  }

  lemma {:induction false} UnfoldIsInlineVariants(p: Program, components: map<string, Schema>, vs: seq<GoType>,
                                                  depth: nat)
    requires forall n | n in components :: Complete(p, components, n)
    requires TypesMention(vs) <= components.Keys
    ensures var ss := VariantSchemas(p, vs);
            seq(|ss|, i requires 0 <= i < |ss| => Unfold(components, ss[i], depth)) == InlineVariants(p, vs, depth)
    decreases depth, vs, 0
  {
    hide Complete, Unfold;
    if vs != [] {
      UnfoldIsInlineVariants(p, components, vs[..|vs| - 1], depth);
      UnfoldIsInline(p, components, vs[|vs| - 1], depth);
    }
  }

  lemma UnfoldIsInlineStruct(p: Program, components: map<string, Schema>, fields: seq<Field>, depth: nat)
    requires forall n | n in components :: Complete(p, components, n)
    requires FieldMentions(fields) <= components.Keys
    ensures Unfold(components, StructOf(p, fields), depth) == InlineStruct(p, fields, depth)
    decreases depth, fields, 1
  {
    hide Complete, Unfold;
    PropNames(p, fields, 0);
    UnfoldObject(components, PropsOf(p, fields), RequiredOf(fields), depth);
    if PropsOf(p, fields) != map[] && depth > 0 {
      UnfoldIsInlineProps(p, components, fields, depth - 1);
    }
  }

  lemma {:induction false} UnfoldIsInlineProps(p: Program, components: map<string, Schema>, fields: seq<Field>,
                                               depth: nat)
    requires forall n | n in components :: Complete(p, components, n)
    requires FieldMentions(fields) <= components.Keys
    ensures InlineProps(p, fields, depth)
         == map k | k in PropsOf(p, fields) :: Unfold(components, PropsOf(p, fields)[k], depth)
    decreases depth, fields, 0
  {
    hide Complete, Unfold;
    PropNames(p, fields, depth);
    if fields != [] {
      var f := fields[|fields| - 1];
      UnfoldIsInlineProps(p, components, fields[..|fields| - 1], depth);
      if Serialized(f) {
        UnfoldIsInline(p, components, f.typ, depth);
        UnfoldDecorated(components, SchemaOf(p, f.typ), f, depth);
      }
    }
  }

  lemma {:induction false} MentionsKnown(p: Program, t: GoType)
    requires WellTyped(p, t)
    ensures Mentions(t) <= p.Keys
    decreases t, 1
  {
    match t
    case Basic(kind) =>
    case Time =>
    case RawMessage =>
    case Ptr(e) => MentionsKnown(p, e);
    case Slice(e) => MentionsKnown(p, e);
    case Array(e) => MentionsKnown(p, e);
    case Map(e) => MentionsKnown(p, e);
    case Anon(fields) => FieldMentionsKnown(p, fields);
    case Named(n) =>
    case Union(_, vs) => TypeMentionsKnown(p, vs);
  }

  lemma {:induction false} TypeMentionsKnown(p: Program, vs: seq<GoType>)
    requires VariantsWellTyped(p, vs)
    ensures TypesMention(vs) <= p.Keys
    decreases vs, 0
  {
    if vs != [] {
      TypeMentionsKnown(p, vs[..|vs| - 1]);
      MentionsKnown(p, vs[|vs| - 1]);
    }
  }

  lemma {:induction false} FieldMentionsKnown(p: Program, fields: seq<Field>)
    requires FieldsWellTyped(p, fields)
    ensures FieldMentions(fields) <= p.Keys
    decreases fields, 0
  {
    if fields != [] {
      FieldMentionsKnown(p, fields[..|fields| - 1]);
      MentionsKnown(p, fields[|fields| - 1].typ);
    }
  }

  /** Every reference in the document resolves. */
  lemma HoistedComplete(p: Program, from: set<string>)
    requires ProgramWellTyped(p)
    ensures var components := Hoisted(p, from);
            forall n | n in components :: Complete(p, components, n)
    ensures from * p.Keys <= Hoisted(p, from).Keys
  {
    var components := Hoisted(p, from);
    forall n | n in components ensures Complete(p, components, n) {
      FieldMentionsKnown(p, p[n]);
      var path :| IsPath(p, from, path) && path[|path| - 1] == n;
      forall m | m in FieldMentions(p[n]) ensures m in components {
        var longer := path + [m];
        assert forall i | 0 <= i < |longer| - 1 :: i < |path| - 1 || (i == |path| - 1 && longer[i] == n);
        assert IsPath(p, from, longer) && longer[|longer| - 1] == m;
      }
    }
    forall n | n in from && n in p ensures n in components {
      ReachDirect(p, from, n);
    }
  }

  /** Every type of a document means in the document what it means in Go. */
  lemma HoistingPreservesMeaning(p: Program, roots: seq<GoType>, t: GoType, depth: nat)
    requires ProgramWellTyped(p)
    requires t in roots && WellTyped(p, t)
    ensures Unfold(Hoisted(p, TypesMention(roots)), SchemaOf(p, t), depth) == Inline(p, t, depth)
  {
    hide Complete, Hoisted;
    var from := TypesMention(roots);
    HoistedComplete(p, from);
    MentionsKnown(p, t);
    forall n | n in Mentions(t) ensures n in from { MentionsUnordered(roots, n); }
    UnfoldIsInline(p, Hoisted(p, from), t, depth);
  }
}
