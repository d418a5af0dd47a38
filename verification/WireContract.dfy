/** The two compilers end to end: Go types to OpenAPI components
    (openapi/openapi.go), components to client declarations
    (clientgen/schema.go). */
module WireContract {
  import opened Options
  import opened Schemas
  import opened Hoist
  import opened Meaning
  import R = Registry
  import Text

  // ------------------------------------------- what the server's types say

  /** `isValidTag` of encoding/json. */
  predicate ValidName(name: string) {
    name != "" && forall c | c in name :: IsLetter(c) || Text.IsDigit(c) || c in "!#$%&()*+-./:;<=>?@[]^_{|}~ "
  }

  predicate TagNamed(f: Field) {
    f.json.Some? && f.json.value != "-" && ValidName(Text.Before(f.json.value, ','))
  }

  /** The name encoding/json has for a field. */
  function WireName(f: Field): Option<string> {
    if f.json == Some("-") then None
    else if TagNamed(f) then Some(Text.Before(f.json.value, ','))
    else Some(f.name)
  }

  /** Whether it writes the field: of fields with one name only one named by its
      tag, if no other is. */
  predicate Written(fields: seq<Field>, i: nat)
    requires i < |fields|
  {
    && fields[i].exported && WireName(fields[i]).Some?
    && forall j | 0 <= j < |fields| && j != i && fields[j].exported && WireName(fields[j]) == WireName(fields[i]) ::
         TagNamed(fields[i]) && !TagNamed(fields[j])
  }

  predicate HasOption(f: Field, option: string) {
    f.json.Some? && option in Text.Split(Text.After(f.json.value, ','), ',')
  }

  predicate CanBeEmpty(t: GoType) {
    t.Basic? || t.RawMessage? || t.Ptr? || t.Slice? || t.Map? || t.Union?
  }

  /** It never leaves the field out. */
  predicate AlwaysWritten(f: Field) {
    !HasOption(f, "omitzero") && !(HasOption(f, "omitempty") && CanBeEmpty(f.typ))
  }

  predicate IsScalarKind(t: GoType) {
    t.Basic? && !t.kind.Other?
  }

  /** It writes the value, behind at most one pointer, into a JSON string. */
  predicate Quoted(f: Field) {
    HasOption(f, "string") && (IsScalarKind(f.typ) || (f.typ.Ptr? && IsScalarKind(f.typ.elem)))
  }

  /** The constant of the field written under `property`, among the first `n`. */
  function WrittenConst(fields: seq<Field>, property: string, n: nat): string
    requires n <= |fields|
  {
    if n == 0 then ""
    else if Written(fields, n - 1) && WireName(fields[n - 1]) == Some(property) then fields[n - 1].constant
    else WrittenConst(fields, property, n - 1)
  }

  /** What a variant has under the property of its union: its constant, or "" where
      it promises none. */
  function WireConst(p: Program, v: GoType, property: string): string {
    match FieldsOf(p, v)
    case None => ""
    case Some(fields) => WrittenConst(fields, property, |fields|)
  }

  /** The structs a union may hold, with what they have under its property. */
  function Cases(p: Program, property: string, vs: seq<GoType>, depth: nat): seq<Case>
    decreases depth, 1, vs, 0
  {
    if vs == [] then []
    else
      var v := Peel(vs[|vs| - 1]);
      Cases(p, property, vs[..|vs| - 1], depth)
      + [Case(if v.Named? then v.name else "", WireConst(p, vs[|vs| - 1], property),
              if v.Named? then NamedShape(p, v.name, depth, Server) else Anything)]
  }

  /** The variant a discriminator value selects; a later variant wins. */
  function VariantTypes(p: Program, property: string, vs: seq<GoType>): map<string, GoType> {
    if vs == [] then map[]
    else
      var v := vs[|vs| - 1];
      var m := VariantTypes(p, property, vs[..|vs| - 1]);
      var c := DiscriminatorValue(p, v, property);
      if c != "" then m[c := Peel(v)] else m
  }

  function Override(format: string, tag: string): string {
    if tag != "" then tag else format
  }

  /** Who says what a Go type puts on the wire: the server that encodes it, or
      the document, where a field's `format` tag has its say. */
  datatype Reading = Server | Document

  /** What encoding/json writes for a kind. */
  function GoScalar(kind: Kind): Shape {
    match kind
    case String => Characters
    case Bool => Boolean
    case Int8 => Signed(8)
    case Int16 => Signed(16)
    case Int32 => Signed(32)
    case Int => Signed(64)
    case Int64 => Signed(64)
    case Uint8 => NonNegative(8)
    case Uint16 => NonNegative(16)
    case Uint32 => NonNegative(32)
    case Uint => NonNegative(64)
    case Uint64 => NonNegative(64)
    case Float32 => Floating(32)
    case Float64 => Floating(64)
    case Other => Anything
  }

  function BasicShape(kind: Kind, format: string, says: Reading): Shape {
    if says.Server? then GoScalar(kind)
    else if kind.Other? then Dictionary(Anything)
    else ScalarShape(KindSchema(kind).typ, Override(KindSchema(kind).format, format))
  }

  function TimeShape(format: string, says: Reading): Shape {
    if says.Server? then Instant else ScalarShape("string", Override("date-time", format))
  }

  /** The shape of a Go type on the wire. */
  function TypeShape(p: Program, t: GoType, format: string, depth: nat, says: Reading): Shape
    decreases depth, 1, t, 2
  {
    match t
    case Basic(kind) => BasicShape(kind, format, says)
    case Time => TimeShape(format, says)
    case RawMessage => Anything
    case Ptr(e) => TypeShape(p, e, format, depth, says)
    case Slice(e) => if says.Server? && e == Basic(Uint8) then Binary else Listing(TypeShape(p, e, "", depth, says))
    case Array(e) => Listing(TypeShape(p, e, "", depth, says))
    case Map(e) => Dictionary(TypeShape(p, e, "", depth, says))
    case Anon(fields) => FieldsShape(p, fields, depth, says)
    case Named(n) => NamedShape(p, n, depth, says)
    case Union(property, vs) =>
      if says.Server? then Choice(property, Cases(p, property, vs, depth))
      else
        var types := VariantTypes(p, property, vs);
        Tagged(property,
               map c | c in types ::
                 if types[c].Named? then Variety(types[c].name, NamedShape(p, types[c].name, depth, says))
                 else Variety("", Anything))
  }

  function NamedShape(p: Program, n: string, depth: nat, says: Reading): Shape
    decreases depth, 0
  {
    if depth == 0 then Shape.Cut
    else if n in p then FieldsShape(p, p[n], depth - 1, says)
    else Anything
  }

  /** A document calls a struct without properties any object. */
  function FieldsShape(p: Program, fields: seq<Field>, depth: nat, says: Reading): Shape
    decreases depth, 1, fields, 1
  {
    if says.Document? && JsonNames(fields) == {} then Dictionary(Anything)
    else if depth == 0 then Shape.Cut
    else Record(if says.Server? then ServerProps(p, fields, |fields|, depth - 1) else FieldProps(p, fields, depth - 1))
  }

  /** The properties a document lists. */
  function FieldProps(p: Program, fields: seq<Field>, depth: nat): map<string, Prop>
    decreases depth, 1, fields, 0
  {
    if fields == [] then map[]
    else
      var f := fields[|fields| - 1];
      var props := FieldProps(p, fields[..|fields| - 1], depth);
      if Serialized(f)
      then props[JsonName(f).value := Prop(FieldRequired(f), TypeShape(p, f.typ, f.format, depth, Document))]
      else props
  }

  /** The properties encoding/json writes of the first `n` fields. */
  function ServerProps(p: Program, fields: seq<Field>, n: nat, depth: nat): map<string, Prop>
    requires n <= |fields|
    decreases depth, 1, fields, 0, n
  {
    if n == 0 then map[]
    else
      var f, props := fields[n - 1], ServerProps(p, fields, n - 1, depth);
      if Written(fields, n - 1) then props[WireName(f).value := Prop(AlwaysWritten(f), FieldShape(p, f, depth))]
      else props
  }

  function FieldShape(p: Program, f: Field, depth: nat): Shape
    decreases depth, 1, f, 0
  {
    if Quoted(f) then Characters else TypeShape(p, f.typ, f.format, depth, Server)
  }

  // ---------------------------------------------------- what the tags say

  /** The document's name is the one on the wire unless the tag begins with "-,"
      or names the field in a way encoding/json does not take. */
  lemma NameKeptExactly(f: Field)
    ensures WireName(f) == JsonName(f) <==>
              f.json.None? || f.json.value == "" ||
              var name := Text.Before(f.json.value, ',');
              if name == "-" then f.json.value == "-" else name == "" || ValidName(name) || name == f.name
  {
    assert Text.Before("-", ',') == "-" by { assert Text.IndexOf("-", ',') == -1; }
    assert Text.Before("", ',') == "" by { assert Text.IndexOf("", ',') == -1; }
  }

  /** `json:"-,"` names a field "-" on the wire; the document leaves it out. */
  lemma DashIsDropped(f: Field)
    requires f.exported && f.json == Some("-,")
    ensures WireName(f) == Some("-") && JsonName(f) == None
  {
    assert Text.Before("-,", ',') == "-" by { assert Text.IndexOf("-,", ',') == 1; }
  }

  predicate Padded(f: Field) {
    f.json.Some? && exists option | option in Text.Split(Text.After(f.json.value, ','), ',') ::
      (Text.TrimSpace(option) == "omitempty" || Text.TrimSpace(option) == "omitzero")
      && option != "omitempty" && option != "omitzero"
  }

  /** A required field is always written. One that is always written is not
      required exactly when it is a pointer, when it is marked `omitempty` though
      never empty, or when blanks keep encoding/json from seeing the mark. */
  lemma RequiredIsWritten(f: Field)
    ensures FieldRequired(f) ==> AlwaysWritten(f)
    ensures AlwaysWritten(f) ==> (!FieldRequired(f) <==> f.typ.Ptr? || HasOption(f, "omitempty") || Padded(f))
  {
    hide Text.Split, Text.After, Text.TrimSpace;
    LettersAreTrim("omitempty");
    LettersAreTrim("omitzero");
  }

  lemma LettersAreTrim(s: string)
    requires forall c | c in s :: 'a' <= c <= 'z'
    ensures Text.TrimSpace(s) == s
  {
    var n := |s|;
    assert n >= 1 ==> s[0] in s && s[n - 1] in s;
    assert n >= 2 ==> s[..2][0] in s && s[n - 2..][0] in s;
    assert n >= 3 ==> s[..3][0] in s && s[n - 3..][0] in s;
    assert Text.HeadSpace(s) == 0 && Text.TailSpace(s) == 0;
  }

  // ------------------------------------------------- what a client can use

  /** Distinct documented names in every struct, and unions a client can dispatch:
      named variants, at least one with a discriminator value. */
  predicate Usable(p: Program, t: GoType) {
    match t
    case Basic(_) => true
    case Time => true
    case RawMessage => true
    case Ptr(e) => Usable(p, e)
    case Slice(e) => Usable(p, e)
    case Array(e) => Usable(p, e)
    case Map(e) => Usable(p, e)
    case Anon(fields) => FieldsUsable(p, fields)
    case Named(_) => true
    case Union(property, vs) =>
      property != "" && vs != [] && Mapping(p, property, vs) != map[] && forall v | v in vs :: Peel(v).Named?
  }

  predicate FieldsUsable(p: Program, fields: seq<Field>) {
    fields == [] || (
      var f, front := fields[|fields| - 1], fields[..|fields| - 1];
      && FieldsUsable(p, front)
      && (Serialized(f) ==> Usable(p, f.typ) && JsonName(f).value !in JsonNames(front)))
  }

  predicate ProgramUsable(p: Program) {
    forall n | n in p :: FieldsUsable(p, p[n])
  }

  // ------------------------------------------ the document says the same

  lemma {:induction false} MappingIsVariants(p: Program, property: string, vs: seq<GoType>)
    requires forall v | v in vs :: Peel(v).Named?
    ensures Mapping(p, property, vs).Keys == VariantTypes(p, property, vs).Keys
    ensures forall c | c in Mapping(p, property, vs) ::
              var t := VariantTypes(p, property, vs)[c];
              t.Named? && t.name in TypesMention(vs) && Mapping(p, property, vs)[c] == RefKey(t.name)
  {
    if vs != [] {
      var n := |vs| - 1;
      MappingIsVariants(p, property, vs[..n]);
      PeelRef(p, vs[n]);
    }
  }

  lemma {:induction false} PeelRef(p: Program, t: GoType)
    requires Peel(t).Named?
    ensures SchemaOf(p, t).ref == RefKey(Peel(t).name) && Mentions(t) == {Peel(t).name}
  {
    match t
    case Ptr(e) => PeelRef(p, e);
    case Named(n) => assert RefTo(n).ref == RefKey(n);
  }

  lemma RefMeansNamed(p: Program, components: map<string, Schema>, n: string, depth: nat)
    requires forall m | m in components :: Complete(p, components, m)
    requires ProgramUsable(p) && n in components
    ensures RefShape(components, RefKey(n), depth) == NamedShape(p, n, depth, Document)
    decreases depth, 0
  {
    hide Complete, FieldsUsable;
    assert RefKey(n)[..|REF_PREFIX|] == REF_PREFIX && RefKey(n)[|REF_PREFIX|..] == n;
    if depth > 0 {
      CompleteParts(p, components, n);
      StructMeansFields(p, components, p[n], depth - 1);
    }
  }

  /** `s` is what `SchemaOf` gives `t`, under a field's format and notes. */
  predicate Formatted(s: Schema, p: Program, t: GoType, format: string) {
    var o := SchemaOf(p, t);
    s.Schema? && s == o.(format := Override(o.format, format), notes := s.notes)
  }

  lemma {:induction false} TypeMeans(p: Program, components: map<string, Schema>, t: GoType, s: Schema,
                                     format: string, depth: nat)
    requires forall m | m in components :: Complete(p, components, m)
    requires ProgramUsable(p) && Usable(p, t) && Mentions(t) <= components.Keys && Formatted(s, p, t, format)
    ensures SchemaShape(components, s, depth) == TypeShape(p, t, format, depth, Document)
    decreases depth, 2, t, 2
  {
    hide Complete, FieldsUsable, RefShape, NamedShape;
    match t
    case Basic(_) => ScalarMeans(p, components, t, s, format, depth);
    case Time => ScalarMeans(p, components, t, s, format, depth);
    case RawMessage => ScalarMeans(p, components, t, s, format, depth);
    case Ptr(e) => TypeMeans(p, components, e, s, format, depth);
    case Slice(e) => TypeMeans(p, components, e, SchemaOf(p, e), "", depth);
    case Array(e) => TypeMeans(p, components, e, SchemaOf(p, e), "", depth);
    case Map(e) => TypeMeans(p, components, e, SchemaOf(p, e), "", depth);
    case Anon(fields) =>
      StructMeansFields(p, components, fields, depth);
      AnonShape(p, components, fields, s, depth);
    case Named(n) => RefMeansNamed(p, components, n, depth);
    case Union(property, vs) => UnionMeans(p, components, property, vs, depth);
  }

  lemma ScalarMeans(p: Program, components: map<string, Schema>, t: GoType, s: Schema, format: string, depth: nat)
    requires (t.Basic? || t.Time? || t.RawMessage?) && Formatted(s, p, t, format)
    ensures SchemaShape(components, s, depth) == TypeShape(p, t, format, depth, Document)
  {
    if t.Time? {
      PlainScalar(components, s, depth);
    } else if t.Basic? {
      KindIsScalar(t.kind);
      if !t.kind.Other? {
        hide KindSchema, ScalarShape, R.IsScalar;
        PlainScalar(components, s, depth);
      }
    }
  }

  lemma KindIsScalar(kind: Kind)
    ensures var k := KindSchema(kind);
            k.Schema? && k.ref == "" && k.disc.None? && (R.IsScalar(k.typ) <==> !kind.Other?)
  {
  }

  lemma AnonShape(p: Program, components: map<string, Schema>, fields: seq<Field>, s: Schema, depth: nat)
    requires var o := StructOf(p, fields); s.Schema? && s == o.(format := s.format, notes := s.notes)
    ensures SchemaShape(components, s, depth) == ComponentShape(components, StructOf(p, fields), depth)
  {
    var o := StructOf(p, fields);
    if s.props != map[] && depth > 0 {
      assert ObjectShape(components, s, depth) == ObjectShape(components, o, depth);
    }
  }

  lemma RefersTo(n: string)
    ensures Referent(RefKey(n)) == n
  {
    assert RefKey(n)[..|REF_PREFIX|] == REF_PREFIX && RefKey(n)[|REF_PREFIX|..] == n;
  }

  lemma UnionMeans(p: Program, components: map<string, Schema>, property: string, vs: seq<GoType>, depth: nat)
    requires forall m | m in components :: Complete(p, components, m)
    requires ProgramUsable(p) && Usable(p, Union(property, vs)) && TypesMention(vs) <= components.Keys
    ensures UnionShape(components, Discriminator(property, Mapping(p, property, vs)), depth)
         == TypeShape(p, Union(property, vs), "", depth, Document)
    decreases depth, 1
  {
    hide Complete, RefShape, NamedShape;
    MappingIsVariants(p, property, vs);
    var m, types := Mapping(p, property, vs), VariantTypes(p, property, vs);
    forall c | c in m
      ensures Referent(m[c]) == types[c].name
      ensures RefShape(components, m[c], depth) == NamedShape(p, types[c].name, depth, Document)
    {
      RefersTo(types[c].name);
      RefMeansNamed(p, components, types[c].name, depth);
    }
  }

  lemma StructMeansFields(p: Program, components: map<string, Schema>, fields: seq<Field>, depth: nat)
    requires forall m | m in components :: Complete(p, components, m)
    requires ProgramUsable(p) && FieldsUsable(p, fields) && FieldMentions(fields) <= components.Keys
    ensures ComponentShape(components, StructOf(p, fields), depth) == FieldsShape(p, fields, depth, Document)
    decreases depth, 2, fields, 1
  {
    PropNames(p, fields, 0);
    hide *;
    if depth > 0 {
      RecordMeans(p, components, fields, depth - 1);
    }
    FieldsShapeIs(p, components, fields, depth);
  }

  lemma RecordMeans(p: Program, components: map<string, Schema>, fields: seq<Field>, depth: nat)
    requires forall m | m in components :: Complete(p, components, m)
    requires ProgramUsable(p) && FieldsUsable(p, fields) && FieldMentions(fields) <= components.Keys
    ensures ObjectShape(components, StructOf(p, fields), depth + 1) == Record(FieldProps(p, fields, depth))
    decreases depth, 2, fields, 1
  {
    hide *;
    PropsMean(p, components, fields, depth);
    PropsAlways(p, fields, depth);
    RecordIs(p, components, fields, depth);
  }

  lemma FieldsShapeIs(p: Program, components: map<string, Schema>, fields: seq<Field>, depth: nat)
    requires PropsOf(p, fields).Keys == JsonNames(fields)
    requires depth > 0 ==> ObjectShape(components, StructOf(p, fields), depth) == Record(FieldProps(p, fields,
            depth - 1))
    ensures ComponentShape(components, StructOf(p, fields), depth) == FieldsShape(p, fields, depth, Document)
  {
    hide PropsOf, JsonNames, FieldProps, RequiredOf;
  }

  lemma RecordIs(p: Program, components: map<string, Schema>, fields: seq<Field>, depth: nat)
    requires PropsOf(p, fields).Keys == FieldProps(p, fields, depth).Keys
    requires forall k | k in PropsOf(p, fields) ::
               FieldProps(p, fields, depth)[k].shape == SchemaShape(components, PropsOf(p, fields)[k], depth)
    requires forall k | k in FieldProps(p, fields, depth) ::
               FieldProps(p, fields, depth)[k].always == (k in RequiredOf(fields))
    ensures ObjectShape(components, StructOf(p, fields), depth + 1) == Record(FieldProps(p, fields, depth))
  {
    hide SchemaShape, PropsOf, RequiredOf, FieldProps;
  }

  /** Under distinct names, `required` lists exactly the required fields. */
  lemma {:induction false} RequiredExactly(p: Program, fields: seq<Field>)
    requires FieldsUsable(p, fields)
    ensures forall k | k in RequiredOf(fields) :: k in JsonNames(fields)
    ensures forall f | f in fields && Serialized(f) ::
              JsonName(f).value in JsonNames(fields) && (JsonName(f).value in RequiredOf(fields) <==> FieldRequired(f))
  {
    if fields != [] {
      RequiredExactly(p, fields[..|fields| - 1]);
    }
  }

  lemma PropsStep(p: Program, fields: seq<Field>, depth: nat)
    ensures if fields == [] then PropsOf(p, fields) == map[] && FieldProps(p, fields, depth) == map[]
            else
              var f, front := fields[|fields| - 1], fields[..|fields| - 1];
              var props, wire := PropsOf(p, front), FieldProps(p, front, depth);
              if Serialized(f) then
                var shape := TypeShape(p, f.typ, f.format, depth, Document);
                && PropsOf(p, fields) == props[JsonName(f).value := Decorate(SchemaOf(p, f.typ), f)]
                && FieldProps(p, fields, depth) == wire[JsonName(f).value := Prop(FieldRequired(f), shape)]
              else PropsOf(p, fields) == props && FieldProps(p, fields, depth) == wire
  {
    hide Decorate, SchemaOf, JsonName, TypeShape, FieldRequired;
  }

  lemma LastUsable(p: Program, fields: seq<Field>)
    requires FieldsUsable(p, fields) && fields != []
    ensures var f, front := fields[|fields| - 1], fields[..|fields| - 1];
            && FieldsUsable(p, front) && FieldMentions(front) <= FieldMentions(fields)
            && (Serialized(f) ==> Usable(p, f.typ) && Mentions(f.typ) <= FieldMentions(fields))
  {
    hide Usable, Mentions, JsonName;
  }

  lemma {:induction false} PropsMean(p: Program, components: map<string, Schema>, fields: seq<Field>, depth: nat)
    requires forall m | m in components :: Complete(p, components, m)
    requires ProgramUsable(p) && FieldsUsable(p, fields) && FieldMentions(fields) <= components.Keys
    ensures PropsOf(p, fields).Keys == FieldProps(p, fields, depth).Keys
    ensures forall k | k in PropsOf(p, fields) ::
              FieldProps(p, fields, depth)[k].shape == SchemaShape(components, PropsOf(p, fields)[k], depth)
    decreases depth, 2, fields, 0
  {
    hide Complete, SchemaShape, TypeShape, Usable, ProgramUsable, FieldRequired, Decorate, SchemaOf, JsonName,
         Formatted,
         PropsOf, FieldProps, Serialized;
    PropsStep(p, fields, depth);
    if fields != [] {
      var n := |fields| - 1;
      var f := fields[n];
      LastUsable(p, fields);
      PropsMean(p, components, fields[..n], depth);
      if Serialized(f) {
        FieldFormatted(p, f);
        TypeMeans(p, components, f.typ, Decorate(SchemaOf(p, f.typ), f), f.format, depth);
      }
    }
  }

  /** A property is always there exactly when its schema requires it. */
  lemma {:induction false} PropsAlways(p: Program, fields: seq<Field>, depth: nat)
    requires FieldsUsable(p, fields)
    ensures FieldProps(p, fields, depth).Keys == JsonNames(fields)
    ensures forall k | k in FieldProps(p, fields, depth) ::
              FieldProps(p, fields, depth)[k].always == (k in RequiredOf(fields))
  {
    hide TypeShape, FieldRequired;
    if fields != [] {
      var n := |fields| - 1;
      PropsAlways(p, fields[..n], depth);
      RequiredExactly(p, fields);
      RequiredExactly(p, fields[..n]);
      assert fields == fields[..n] + [fields[n]];
    }
  }

  lemma FieldFormatted(p: Program, f: Field)
    ensures Formatted(Decorate(SchemaOf(p, f.typ), f), p, f.typ, f.format)
  {
  }

  // ------------------------------------------------ keywords beside the shape

  predicate IsUnsigned(kind: Kind) {
    kind == Uint8 || kind == Uint16 || kind == Uint32 || kind == Uint || kind == Uint64
  }

  lemma {:induction false} TypeNotes(p: Program, t: GoType)
    ensures SchemaOf(p, t).notes ==
            if Peel(t).Basic? && IsUnsigned(Peel(t).kind) then map["minimum" := "0"] else map[]
  {
    hide PropsOf, RequiredOf, VariantSchemas, Mapping;
    if t.Ptr? {
      TypeNotes(p, t.elem);
    }
  }

  /** A property carries its description, the limits of its tags and its constant,
      and zero for a minimum if it is unsigned; what a tag says itself goes before
      what its type says. */
  lemma NotesExactly(p: Program, f: Field, k: string)
    ensures var notes := Decorate(SchemaOf(p, f.typ), f).notes;
            var unsigned := Peel(f.typ).Basic? && IsUnsigned(Peel(f.typ).kind);
            if k == "description" && f.desc != "" then k in notes && notes[k] == f.desc
            else if k in f.limits then k in notes && notes[k] == f.limits[k]
            else if k == "const" && f.constant != "" then k in notes && notes[k] == f.constant
            else if k == "minimum" && unsigned then k in notes && notes[k] == "0"
            else k !in notes
  {
    hide SchemaOf;
    TypeNotes(p, f.typ);
  }
}
