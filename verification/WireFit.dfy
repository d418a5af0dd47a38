/** Whether what a server writes is what its client can read: a client type may
    be wider than the server's, and where the document narrows it, it is not. */
module WireFit {
  import opened Options
  import opened Schemas
  import opened Hoist
  import opened Meaning
  import opened WireContract
  import Text

  // ------------------------------------------------------------ scalar values

  /** A JSON scalar; a number with a fraction counts by the width of the float it
      takes. */
  datatype Scalar = Integer(n: int) | Fraction(width: nat) | Truth(b: bool) | Letters(s: string)

  /** The layout of a time in RFC 3339. */
  predicate IsInstant(s: string) {
    |s| >= 20 && s[4] == '-' && s[7] == '-' && s[10] == 'T' && s[13] == ':' && s[16] == ':'
  }

  predicate IsBase64(s: string) {
    forall c | c in s :: 'A' <= c <= 'Z' || 'a' <= c <= 'z' || '0' <= c <= '9' || c == '+' || c == '/' || c == '='
  }

  predicate Accepts(shape: Shape, v: Scalar) {
    match shape
    case Boolean => v.Truth?
    case Characters => v.Letters?
    case Instant => v.Letters? && IsInstant(v.s)
    case Binary => v.Letters? && IsBase64(v.s)
    case Whole(low, high) => v.Integer? && low <= v.n <= high
    case Floating(width) => v.Fraction? && v.width <= width
    case _ => false
  }

  ghost predicate ScalarFits(server: Shape, client: Shape) {
    forall v | Accepts(server, v) :: Accepts(client, v)
  }

  /** What a client reads before it picks a variant is text. */
  predicate TagReads(variant: Shape, property: string) {
    variant.Record? && property in variant.props ==>
      var tag := variant.props[property].shape; tag.Characters? || tag.Instant? || tag.Binary?
  }

  /** Every value of `server` is one of `client`, as far as `server` goes. A client
      looks for the tag of a union under the union's property; it keeps what comes
      under a value it does not know, and takes what comes under one it knows for
      the variant of that value. */
  ghost predicate Fits(server: Shape, client: Shape)
    decreases server
  {
    client.Anything? ||
    match server
    case Cut => true
    case Anything => false
    case Listing(elem) => client.Listing? && Fits(elem, client.elem)
    case Dictionary(value) => client.Dictionary? && Fits(value, client.value)
    case Record(props) =>
      if client.Dictionary? then forall k | k in props :: Fits(props[k].shape, client.value)
      else
        && client.Record? && props.Keys == client.props.Keys
        && forall k | k in props ::
             (client.props[k].always ==> props[k].always) && Fits(props[k].shape, client.props[k].shape)
    case Choice(property, cases) =>
      && client.Tagged? && property == client.property && ValidName(property) && property != "-"
      && forall i | 0 <= i < |cases| ::
           && TagReads(cases[i].shape, property)
           && (cases[i].value != "" ==>
                 && Listed(cases[i], client.variants)
                 && Fits(cases[i].shape, client.variants[cases[i].value].shape))
    case Tagged(_, _) => server == client
    case _ => ScalarFits(server, client)
  }

  predicate Listed(c: Case, variants: map<string, Variety>) {
    c.value in variants && variants[c.value].variant == c.variant
  }

  // ----------------------------------------------------------- kind by kind

  lemma {:induction false} TwoToGrows(a: nat, b: nat)
    requires a < b
    ensures TwoTo(a) < TwoTo(b)
  {
    if a + 1 < b {
      TwoToGrows(a, b - 1);
    }
  }

  lemma SignedFits(a: nat, b: nat)
    requires a > 0 && b > 0
    ensures ScalarFits(Signed(a), Signed(b)) <==> a <= b
  {
    if a < b {
      TwoToGrows(a - 1, b - 1);
    } else if b < a {
      TwoToGrows(b - 1, a - 1);
      assert Accepts(Signed(a), Integer(TwoTo(a - 1) - 1));
    }
  }

  lemma NonNegativeFits(a: nat, b: nat)
    requires b > 0
    ensures ScalarFits(NonNegative(a), Signed(b)) <==> a < b
  {
    if a + 1 < b {
      TwoToGrows(a, b - 1);
    } else if b <= a {
      TwoToGrows(b - 1, a);
      assert Accepts(NonNegative(a), Integer(TwoTo(a) - 1));
    }
  }

  lemma FloatingFits(a: nat, b: nat)
    ensures ScalarFits(Floating(a), Floating(b)) <==> a <= b
  {
    assert Accepts(Floating(a), Fraction(a));
  }

  const MOMENT: string := "2006-01-02T15:04:05Z"

  lemma TextFits()
    ensures ScalarFits(Instant, Characters) && !ScalarFits(Characters, Instant)
    ensures !ScalarFits(Characters, Binary) && !ScalarFits(Instant, Binary)
  {
    hide IsInstant, IsBase64;
    assert IsInstant(MOMENT) && !IsBase64(MOMENT) && !IsInstant("") by { MomentIs(); }
    assert Accepts(Characters, Letters("")) && !Accepts(Instant, Letters(""));
    assert Accepts(Characters, Letters(MOMENT)) && Accepts(Instant, Letters(MOMENT));
    assert !Accepts(Binary, Letters(MOMENT));
  }

  lemma MomentIs()
    ensures IsInstant(MOMENT) && !IsBase64(MOMENT) && !IsInstant("")
  {
    assert MOMENT[4] == '-' && MOMENT[4] in MOMENT;
  }

  /** The kinds and format tags whose values the client's scalar holds. */
  predicate KindHeld(kind: Kind, format: string) {
    match kind
    case String => format != "date-time" && format != "binary"
    case Int => format != "int32"
    case Int64 => format != "int32"
    case Uint32 => format != "" && format != "int32"
    case Uint => false
    case Uint64 => false
    case Float64 => format != "float"
    case Other => false
    case _ => true
  }

  /** A client scalar holds every value of the server's exactly where the document
      neither narrows nor reinterprets the kind: an unsigned kind of 64 bits, one
      of 32 bits that no tag widens, a kind with values of any type, and a tag
      that asks for less than the kind has. */
  lemma ScalarHeldExactly(kind: Kind, format: string)
    ensures Fits(BasicShape(kind, format, Server), BasicShape(kind, format, Document)) <==> KindHeld(kind, format)
  {
    hide TwoTo, Signed, NonNegative, Accepts, ScalarFits;
    TextFits();
    WidthsFit(kind);
    Ranges();
    assert ScalarFits(Boolean, Boolean) && ScalarFits(Characters, Characters) by { Reflexive(); }
  }

  lemma Reflexive()
    ensures forall s :: ScalarFits(s, s)
  {
  }

  lemma Ranges()
    ensures forall bits: nat | bits > 0 :: Signed(bits).Whole? && NonNegative(bits).Whole?
  {
  }

  function Bits(kind: Kind): nat {
    match kind
    case Int8 => 8
    case Uint8 => 8
    case Int16 => 16
    case Uint16 => 16
    case Int32 => 32
    case Uint32 => 32
    case _ => 64
  }

  lemma WidthsFit(kind: Kind)
    ensures ScalarFits(Signed(Bits(kind)), Signed(32)) <==> Bits(kind) <= 32
    ensures ScalarFits(Signed(Bits(kind)), Signed(64))
    ensures ScalarFits(NonNegative(Bits(kind)), Signed(32)) <==> Bits(kind) < 32
    ensures ScalarFits(NonNegative(Bits(kind)), Signed(64)) <==> Bits(kind) < 64
    ensures ScalarFits(Floating(32), Floating(32)) && ScalarFits(Floating(32), Floating(64))
    ensures ScalarFits(Floating(64), Floating(64)) && !ScalarFits(Floating(64), Floating(32))
  {
    SignedFits(Bits(kind), 32);
    SignedFits(Bits(kind), 64);
    NonNegativeFits(Bits(kind), 32);
    NonNegativeFits(Bits(kind), 64);
    FloatingFits(32, 32);
    FloatingFits(32, 64);
    FloatingFits(64, 64);
    FloatingFits(64, 32);
  }

  predicate IsInteger(kind: Kind) {
    match kind
    case String => false
    case Bool => false
    case Float32 => false
    case Float64 => false
    case Other => false
    case _ => true
  }

  /** The document says of an integer or a number exactly how wide it is, where
      OpenAPI has a format for that, and of nothing else. */
  lemma FormatIsWidth(kind: Kind)
    ensures var s := KindSchema(kind);
            && (s.typ == "integer" <==> IsInteger(kind)) && (s.typ == "number" <==> kind == Float32 || kind == Float64)
            && (s.typ == "string" <==> kind == String) && (s.typ == "boolean" <==> kind == Bool)
            && (s.format == "int32" <==> IsInteger(kind) && Bits(kind) == 32)
            && (s.format == "int64" <==> IsInteger(kind) && Bits(kind) == 64)
            && (s.format == "float" <==> kind == Float32) && (s.format == "double" <==> kind == Float64)
            && (s.format in ["", "int32", "int64", "float", "double"])
  {
  }

  /** A client string holds every time; only "binary" asks for something else. */
  lemma TimeHeldExactly(format: string)
    ensures Fits(TimeShape(format, Server), TimeShape(format, Document)) <==> format != "binary"
  {
    hide Accepts, ScalarFits;
    TextFits();
    Reflexive();
  }

  /** A `uint32` field: the client declares an `int32`, and a value the server may
      well send does not fit it. */
  lemma Uint32DoesNotFit()
    ensures BasicShape(Uint32, "", Document) == Signed(32)
    ensures Accepts(BasicShape(Uint32, "", Server), Integer(3_000_000_000))
    ensures !Accepts(BasicShape(Uint32, "", Document), Integer(3_000_000_000))
  {
    assert TwoTo(8) == 256;
    assert TwoTo(16) == 256 * TwoTo(8);
    assert TwoTo(24) == 256 * TwoTo(16);
    assert TwoTo(31) == 128 * TwoTo(24);
  }

  // --------------------------------------------------------- fields and bytes

  /** A quoted value reads as a string, so only a string holds it. */
  lemma QuotedHeldExactly(kind: Kind, format: string)
    requires !kind.Other?
    ensures Fits(Characters, BasicShape(kind, format, Document)) <==> kind.String? && KindHeld(kind, format)
  {
    hide TwoTo, Signed, NonNegative, ScalarFits;
    TextFits();
    Ranges();
    LettersFit(BasicShape(kind, format, Document));
  }

  lemma LettersFit(client: Shape)
    ensures ScalarFits(Characters, Characters)
    ensures client.Boolean? || client.Whole? || client.Floating? || client.Listing? ==>
              !ScalarFits(Characters, client) && !ScalarFits(Binary, client)
  {
    assert Accepts(Characters, Letters("")) && Accepts(Binary, Letters(""));
  }

  /** A field of a scalar type is held exactly where its kind and tag allow it. */
  lemma FieldHeldExactly(p: Program, f: Field, depth: nat)
    requires f.typ.Basic?
    ensures FieldFits(p, f, depth) <==> FieldHeld(p, f)
  {
    hide Quoted, KindHeld, BasicShape, Fits;
    if Quoted(f) {
      QuotedShape(p, f, depth);
      QuotedHeldExactly(ScalarKind(f), f.format);
    } else {
      ScalarHeldExactly(f.typ.kind, f.format);
      assert FieldShape(p, f, depth) == BasicShape(f.typ.kind, f.format, Server);
      assert Held(p, f.typ, f.format) == KindHeld(f.typ.kind, f.format);
    }
  }

  /** `[]byte` is a string on the wire and a list of integers in the document. */
  lemma BytesDoNotFit(p: Program, depth: nat)
    ensures TypeShape(p, Slice(Basic(Uint8)), "", depth, Server) == Binary
    ensures TypeShape(p, Slice(Basic(Uint8)), "", depth, Document) == Listing(Signed(64))
    ensures !TypeFits(p, Slice(Basic(Uint8)), "", depth)
  {
    LettersFit(Listing(Signed(64)));
  }

  /** `json:"id,string"` on an `int64`. */
  lemma QuotedDoesNotFit(p: Program, f: Field, depth: nat)
    requires f.json == Some("id,string") && f.typ == Basic(Int64) && f.format == ""
    ensures FieldShape(p, f, depth) == Characters && TypeShape(p, f.typ, f.format, depth, Document) == Signed(64)
    ensures !FieldFits(p, f, depth)
  {
    StringOption(f);
    hide Fits, HasOption, BasicShape;
    QuotedShape(p, f, depth);
    QuotedInt64();
  }

  lemma QuotedInt64()
    ensures BasicShape(Int64, "", Document) == Signed(64) && !Fits(Characters, BasicShape(Int64, "", Document))
  {
    hide Fits, TwoTo;
    QuotedHeldExactly(Int64, "");
  }

  lemma StringOption(f: Field)
    requires f.json == Some("id,string")
    ensures HasOption(f, "string")
  {
    hide Text.Split, Text.IndexOf;
    Text.IndexOfAt("id", ',', "string");
    assert "id" + [','] + "string" == "id,string";
    assert Text.After("id,string", ',') == "string";
    Text.SplitNothing("string", ',');
    assert Text.Split("string", ',') == ["string"];
  }

  // ------------------------------------------------------------ type by type

  predicate Held(p: Program, t: GoType, format: string) {
    match t
    case Basic(kind) => KindHeld(kind, format)
    case Time => format != "binary"
    case RawMessage => true
    case Ptr(e) => Held(p, e, format)
    case Slice(e) => e != Basic(Uint8) && Held(p, e, "")
    case Array(e) => Held(p, e, "")
    case Map(e) => Held(p, e, "")
    case Anon(fields) => FieldsHeld(p, fields)
    case Named(_) => true
    case Union(property, vs) => UnionHeld(p, property, vs)
  }

  function ScalarKind(f: Field): Kind
    requires Quoted(f)
  {
    if f.typ.Ptr? then f.typ.elem.kind else f.typ.kind
  }

  predicate FieldHeld(p: Program, f: Field) {
    if Quoted(f) then ScalarKind(f).String? && KindHeld(ScalarKind(f), f.format)
    else Held(p, f.typ, f.format)
  }

  /** encoding/json writes the fields the document lists, under its names. */
  predicate NamesKept(fields: seq<Field>) {
    forall i | 0 <= i < |fields| ::
      && Written(fields, i) == Serialized(fields[i])
      && (Serialized(fields[i]) ==> WireName(fields[i]) == JsonName(fields[i]))
  }

  predicate FieldsHeld(p: Program, fields: seq<Field>) {
    JsonNames(fields) == {} ||
      (NamesKept(fields) && forall i | 0 <= i < |fields| && Serialized(fields[i]) :: FieldHeld(p, fields[i]))
  }

  /** The field a discriminator value is in is text, whichever variant it is. */
  predicate TagIsText(p: Program, v: GoType, property: string) {
    match FieldsOf(p, v)
    case None => true
    case Some(fields) =>
      forall i | 0 <= i < |fields| && Written(fields, i) && WireName(fields[i]).value == property ::
        TextField(fields[i])
  }

  predicate TextField(f: Field) {
    Quoted(f) || TextType(Peel(f.typ))
  }

  predicate TextType(t: GoType) {
    t == Basic(String) || t.Time? || t == Slice(Basic(Uint8))
  }

  /** Its property is one encoding/json reads, its tags are text, and the document
      lists every variant under the constant it has on the wire. */
  predicate UnionHeld(p: Program, property: string, vs: seq<GoType>) {
    && ValidName(property) && property != "-"
    && forall v | v in vs :: TagIsText(p, v, property) && ListsVariant(p, property, vs, v)
  }

  predicate ListsVariant(p: Program, property: string, vs: seq<GoType>, v: GoType) {
    var c, m := WireConst(p, v, property), VariantTypes(p, property, vs);
    c != "" ==> c in m && m[c] == Peel(v)
  }

  /** A set of structs that mention no other. */
  ghost predicate Closed(p: Program, names: set<string>) {
    forall n | n in names :: n in p && FieldMentions(p[n]) <= names
  }

  ghost predicate AllHeld(p: Program, names: set<string>) {
    forall n | n in names && n in p :: FieldsHeld(p, p[n])
  }

  ghost predicate TypeFits(p: Program, t: GoType, format: string, depth: nat) {
    Fits(TypeShape(p, t, format, depth, Server), TypeShape(p, t, format, depth, Document))
  }

  ghost predicate FieldFits(p: Program, f: Field, depth: nat) {
    Fits(FieldShape(p, f, depth), TypeShape(p, f.typ, f.format, depth, Document))
  }

  ghost predicate NamedFits(p: Program, n: string, depth: nat) {
    Fits(NamedShape(p, n, depth, Server), NamedShape(p, n, depth, Document))
  }

  // ---- fields by index

  lemma {:induction false} ServerPropsAt(p: Program, fields: seq<Field>, depth: nat, i: nat, n: nat)
    requires i < n <= |fields| && Written(fields, i)
    ensures var f, props := fields[i], ServerProps(p, fields, n, depth);
            && WireName(f).value in props
            && props[WireName(f).value] == Prop(AlwaysWritten(f), FieldShape(p, f, depth))
  {
    hide AlwaysWritten, FieldShape, WireName;
    if i < n - 1 {
      ServerPropsAt(p, fields, depth, i, n - 1);
      assert Written(fields, n - 1) ==> WireName(fields[n - 1]) != WireName(fields[i]);
    }
  }

  lemma {:induction false} ServerPropFrom(p: Program, fields: seq<Field>, depth: nat, k: string,
                                          n: nat) returns (i: nat)
    requires n <= |fields| && k in ServerProps(p, fields, n, depth)
    ensures i < n && Written(fields, i) && WireName(fields[i]) == Some(k)
  {
    hide AlwaysWritten, FieldShape, WireName;
    if Written(fields, n - 1) && WireName(fields[n - 1]) == Some(k) {
      i := n - 1;
    } else {
      i := ServerPropFrom(p, fields, depth, k, n - 1);
    }
  }

  lemma {:induction false} FieldPropsAt(p: Program, fields: seq<Field>, depth: nat, i: nat)
    requires FieldsUsable(p, fields) && i < |fields| && Serialized(fields[i])
    ensures var f := fields[i];
            && JsonName(f).value in FieldProps(p, fields, depth) && Usable(p, f.typ)
            && FieldProps(p, fields, depth)[JsonName(f).value]
               == Prop(FieldRequired(f), TypeShape(p, f.typ, f.format, depth, Document))
  {
    hide TypeShape, FieldRequired, Usable;
    var n := |fields| - 1;
    if i < n {
      FieldPropsAt(p, fields[..n], depth, i);
      JsonNamesAt(fields[..n], i);
    }
  }

  lemma {:induction false} JsonNamesAt(fields: seq<Field>, i: nat)
    requires i < |fields| && Serialized(fields[i])
    ensures JsonName(fields[i]).value in JsonNames(fields)
  {
    if i < |fields| - 1 {
      JsonNamesAt(fields[..|fields| - 1], i);
    }
  }

  lemma {:induction false} JsonNameFrom(fields: seq<Field>, k: string) returns (i: nat)
    requires k in JsonNames(fields)
    ensures i < |fields| && Serialized(fields[i]) && JsonName(fields[i]) == Some(k)
  {
    var n := |fields| - 1;
    if Serialized(fields[n]) && JsonName(fields[n]).value == k {
      i := n;
    } else {
      i := JsonNameFrom(fields[..n], k);
    }
  }

  lemma {:induction false} FieldPropNames(p: Program, fields: seq<Field>, depth: nat)
    ensures FieldProps(p, fields, depth).Keys == JsonNames(fields)
  {
    hide TypeShape;
    if fields != [] {
      FieldPropNames(p, fields[..|fields| - 1], depth);
    }
  }

  lemma {:induction false} MentionsAt(fields: seq<Field>, i: nat)
    requires i < |fields| && Serialized(fields[i])
    ensures Mentions(fields[i].typ) <= FieldMentions(fields)
  {
    if i < |fields| - 1 {
      MentionsAt(fields[..|fields| - 1], i);
    }
  }

  // ---- what is held fits

  lemma {:induction false} HeldFits(p: Program, names: set<string>, t: GoType, format: string, depth: nat)
    requires Closed(p, names) && AllHeld(p, names) && ProgramUsable(p)
    requires Usable(p, t) && Held(p, t, format) && Mentions(t) <= names
    ensures TypeFits(p, t, format, depth)
    decreases depth, 2, t, 2
  {
    hide Closed, AllHeld, ProgramUsable, FieldsUsable, NamedShape, FieldsShape, BasicShape, TimeShape, KindHeld,
         FieldsHeld, UnionHeld;
    match t
    case Basic(kind) => ScalarHeldExactly(kind, format);
    case Time => TimeHeldExactly(format);
    case RawMessage =>
    case Ptr(e) => HeldFits(p, names, e, format, depth);
    case Slice(e) => HeldFits(p, names, e, "", depth);
    case Array(e) => HeldFits(p, names, e, "", depth);
    case Map(e) => HeldFits(p, names, e, "", depth);
    case Anon(fields) => FieldsFit(p, names, fields, depth);
    case Named(n) => NamedHeldFits(p, names, n, depth);
    case Union(property, vs) => UnionFits(p, names, property, vs, format, depth);
  }

  lemma NamedHeldFits(p: Program, names: set<string>, n: string, depth: nat)
    requires Closed(p, names) && AllHeld(p, names) && ProgramUsable(p) && n in names
    ensures NamedFits(p, n, depth)
    decreases depth, 0, 0
  {
    hide FieldsUsable, FieldsHeld, FieldsShape;
    if depth > 0 {
      FieldsFit(p, names, p[n], depth - 1);
    }
  }

  lemma FieldsFit(p: Program, names: set<string>, fields: seq<Field>, depth: nat)
    requires Closed(p, names) && AllHeld(p, names) && ProgramUsable(p)
    requires FieldsUsable(p, fields) && FieldsHeld(p, fields) && FieldMentions(fields) <= names
    ensures Fits(FieldsShape(p, fields, depth, Server), FieldsShape(p, fields, depth, Document))
    decreases depth, 2, fields, 1
  {
    hide Closed, AllHeld, ProgramUsable, FieldsUsable, FieldProps, ServerProps, JsonNames, NamesKept, FieldHeld;
    if depth > 0 && JsonNames(fields) != {} {
      PropsFit(p, names, fields, depth - 1);
    }
  }

  ghost predicate PropFits(a: Prop, b: Prop) {
    (b.always ==> a.always) && Fits(a.shape, b.shape)
  }

  ghost predicate PropsFitAt(p: Program, fields: seq<Field>, depth: nat) {
    var a, b := ServerProps(p, fields, |fields|, depth), FieldProps(p, fields, depth);
    a.Keys == b.Keys && forall k | k in a :: PropFits(a[k], b[k])
  }

  lemma PropsFit(p: Program, names: set<string>, fields: seq<Field>, depth: nat)
    requires Closed(p, names) && AllHeld(p, names) && ProgramUsable(p)
    requires FieldsUsable(p, fields) && FieldMentions(fields) <= names
    requires NamesKept(fields) && forall i | 0 <= i < |fields| && Serialized(fields[i]) :: FieldHeld(p, fields[i])
    ensures PropsFitAt(p, fields, depth)
    decreases depth, 2, fields, 0
  {
    hide Closed, AllHeld, ProgramUsable, FieldsUsable, FieldProps, ServerProps, TypeShape, FieldShape, Fits, FieldHeld,
         Serialized, WireName, JsonName, Written, AlwaysWritten, FieldRequired;
    KeptNames(p, fields, depth);
    forall k | k in ServerProps(p, fields, |fields|, depth)
      ensures PropFits(ServerProps(p, fields, |fields|, depth)[k], FieldProps(p, fields, depth)[k])
    {
      var i := JsonNameFrom(fields, k);
      ServerPropsAt(p, fields, depth, i, |fields|);
      FieldPropsAt(p, fields, depth, i);
      MentionsAt(fields, i);
      RequiredIsWritten(fields[i]);
      FieldHeldFits(p, names, fields[i], depth);
    }
  }

  lemma KeptNames(p: Program, fields: seq<Field>, depth: nat)
    requires NamesKept(fields)
    ensures ServerProps(p, fields, |fields|, depth).Keys == JsonNames(fields) == FieldProps(p, fields, depth).Keys
  {
    hide FieldProps, ServerProps, WireName, JsonName, Written, Serialized;
    FieldPropNames(p, fields, depth);
    forall k | k in JsonNames(fields) ensures k in ServerProps(p, fields, |fields|, depth) {
      var i := JsonNameFrom(fields, k);
      ServerPropsAt(p, fields, depth, i, |fields|);
    }
    forall k | k in ServerProps(p, fields, |fields|, depth) ensures k in JsonNames(fields) {
      var i := ServerPropFrom(p, fields, depth, k, |fields|);
      JsonNamesAt(fields, i);
    }
  }

  lemma QuotedShape(p: Program, f: Field, depth: nat)
    requires Quoted(f)
    ensures FieldShape(p, f, depth) == Characters && !ScalarKind(f).Other?
    ensures TypeShape(p, f.typ, f.format, depth, Document) == BasicShape(ScalarKind(f), f.format, Document)
  {
    hide HasOption, BasicShape;
    assert f.typ.Ptr? ==>
        TypeShape(p, f.typ.elem, f.format, depth, Document) == BasicShape(f.typ.elem.kind, f.format, Document);
  }

  lemma FieldHeldFits(p: Program, names: set<string>, f: Field, depth: nat)
    requires Closed(p, names) && AllHeld(p, names) && ProgramUsable(p)
    requires Usable(p, f.typ) && FieldHeld(p, f) && Mentions(f.typ) <= names
    ensures FieldFits(p, f, depth)
    decreases depth, 2, f, 3
  {
    hide Closed, AllHeld, ProgramUsable, Usable, Held, KindHeld, BasicShape, Fits, HasOption;
    if Quoted(f) {
      QuotedShape(p, f, depth);
      QuotedHeldExactly(ScalarKind(f), f.format);
    } else {
      HeldFits(p, names, f.typ, f.format, depth);
    }
  }

  // ---- unions

  lemma {:induction false} CaseIs(p: Program, property: string, vs: seq<GoType>, depth: nat, i: nat)
    requires i < |vs| && forall v | v in vs :: Peel(v).Named?
    ensures |Cases(p, property, vs, depth)| == |vs|
    ensures Cases(p, property, vs, depth)[i] ==
            Case(Peel(vs[i]).name, WireConst(p, vs[i], property),
                 NamedShape(p, Peel(vs[i]).name, depth, Server))
  {
    hide NamedShape, WireConst;
    var n := |vs| - 1;
    if i < n {
      CaseIs(p, property, vs[..n], depth, i);
    } else {
      CasesLength(p, property, vs[..n], depth);
    }
  }

  lemma {:induction false} CasesLength(p: Program, property: string, vs: seq<GoType>, depth: nat)
    ensures |Cases(p, property, vs, depth)| == |vs|
  {
    hide NamedShape, WireConst;
    if vs != [] {
      CasesLength(p, property, vs[..|vs| - 1], depth);
    }
  }

  lemma {:induction false} VariantMentioned(vs: seq<GoType>, i: nat)
    requires i < |vs|
    ensures Mentions(vs[i]) <= TypesMention(vs)
  {
    if i < |vs| - 1 {
      VariantMentioned(vs[..|vs| - 1], i);
    }
  }

  lemma CaseFits(p: Program, names: set<string>, property: string, vs: seq<GoType>, depth: nat, i: nat)
    requires Closed(p, names) && AllHeld(p, names) && ProgramUsable(p) && i < |vs|
    requires Usable(p, Union(property, vs)) && UnionHeld(p, property, vs) && TypesMention(vs) <= names
    ensures |Cases(p, property, vs, depth)| == |vs|
    ensures var c, types := Cases(p, property, vs, depth)[i], VariantTypes(p, property, vs);
            && TagReads(c.shape, property)
            && (c.value != "" ==>
                  && c.value in types && types[c.value].Named? && types[c.value].name == c.variant
                  && Fits(c.shape, NamedShape(p, c.variant, depth, Document)))
    decreases depth, 0, 1
  {
    hide Closed, AllHeld, ProgramUsable, NamedShape, WireConst, VariantTypes, Cases, TagReads, TagIsText, ValidName,
         Fits;
    CaseIs(p, property, vs, depth, i);
    assert vs[i] in vs;
    TagReadsText(p, vs[i], property, depth);
    if WireConst(p, vs[i], property) != "" {
      assert ListsVariant(p, property, vs, vs[i]);
      PeelRef(p, vs[i]);
      VariantMentioned(vs, i);
      NamedHeldFits(p, names, Peel(vs[i]).name, depth);
    }
  }

  lemma UnionFits(p: Program, names: set<string>, property: string, vs: seq<GoType>, format: string, depth: nat)
    requires Closed(p, names) && AllHeld(p, names) && ProgramUsable(p)
    requires Usable(p, Union(property, vs)) && UnionHeld(p, property, vs) && TypesMention(vs) <= names
    ensures TypeFits(p, Union(property, vs), format, depth)
    decreases depth, 1
  {
    CasesLength(p, property, vs, depth);
    forall i | 0 <= i < |vs|
      ensures var c, types := Cases(p, property, vs, depth)[i], VariantTypes(p, property, vs);
              && TagReads(c.shape, property)
              && (c.value != "" ==>
                    && c.value in types && types[c.value].Named? && types[c.value].name == c.variant
                    && Fits(c.shape, NamedShape(p, c.variant, depth, Document)))
    {
      CaseFits(p, names, property, vs, depth, i);
    }
    hide Closed, AllHeld, ProgramUsable, Usable, NamedShape, VariantTypes, Cases, TagReads, ValidName, ListsVariant,
         TagIsText;
  }

  lemma TagReadsText(p: Program, v: GoType, property: string, depth: nat)
    requires Peel(v).Named? && TagIsText(p, v, property)
    ensures TagReads(NamedShape(p, Peel(v).name, depth, Server), property)
  {
    hide Written, WireName, ServerProps, FieldShape, TextField, NamedShape, TypeShape;
    var n := Peel(v).name;
    var s := NamedShape(p, n, depth, Server);
    StructShape(p, n, depth);
    if s.Record? && property in s.props {
      var i := ServerPropFrom(p, p[n], depth - 2, property, |p[n]|);
      ServerPropsAt(p, p[n], depth - 2, i, |p[n]|);
      TextShape(p, p[n][i], depth - 2);
      assert FieldsOf(p, v) == Some(p[n]) && TextField(p[n][i]);
      assert IsText(s.props[property].shape);
    }
  }

  predicate IsText(s: Shape) {
    s.Characters? || s.Instant? || s.Binary?
  }

  lemma TextShape(p: Program, f: Field, depth: nat)
    ensures TextField(f) <==> IsText(FieldShape(p, f, depth))
  {
    hide Quoted, TypeShape;
    PeelShape(p, f.typ, f.format, depth);
    TextTypeShape(p, Peel(f.typ), f.format, depth);
  }

  lemma TextTypeShape(p: Program, t: GoType, format: string, depth: nat)
    requires !t.Ptr?
    ensures TextType(t) <==> IsText(TypeShape(p, t, format, depth, Server))
  {
    hide FieldProps, ServerProps, Cases, Signed, NonNegative;
    Ranges();
    match t
    case Basic(kind) => assert TypeShape(p, t, format, depth, Server) == GoScalar(kind);
    case Slice(e) => assert TypeShape(p, t, format, depth, Server).Binary? <==> e == Basic(Uint8);
    case Anon(fields) => assert TypeShape(p, t, format, depth, Server) == FieldsShape(p, fields, depth, Server);
    case Named(n) => StructShape(p, n, depth);
    case _ =>
  }

  lemma StructShape(p: Program, n: string, depth: nat)
    ensures var s := NamedShape(p, n, depth, Server);
            if s.Record? then depth > 1 && n in p && s == Record(ServerProps(p, p[n], |p[n]|, depth - 2))
            else s.Cut? || s.Anything?
  {
    hide ServerProps;
    if depth > 0 && n in p {
      var s := FieldsShape(p, p[n], depth - 1, Server);
      assert if depth == 1 then s.Cut? else s == Record(ServerProps(p, p[n], |p[n]|, depth - 2));
    }
  }

  lemma {:induction false} PeelShape(p: Program, t: GoType, format: string, depth: nat)
    ensures TypeShape(p, t, format, depth, Server) == TypeShape(p, Peel(t), format, depth, Server)
  {
    hide FieldsShape, NamedShape, Cases;
    if t.Ptr? {
      PeelShape(p, t.elem, format, depth);
    }
  }

  // ---- and only what is held

  lemma {:induction false} FitsHeld(p: Program, t: GoType, format: string)
    requires Usable(p, t) && WellTyped(p, t) && forall depth: nat :: TypeFits(p, t, format, depth)
    ensures Held(p, t, format)
    decreases t, 2
  {
    hide NamedShape, FieldsShape, BasicShape, TimeShape, KindHeld, FieldsUsable, FieldsHeld, UnionHeld, Cases,
         VariantTypes, FieldsWellTyped, VariantsWellTyped;
    assert TypeFits(p, t, format, 0);
    match t
    case Basic(kind) => ScalarHeldExactly(kind, format);
    case Time => TimeHeldExactly(format);
    case Ptr(e) =>
      forall depth: nat ensures TypeFits(p, e, format, depth) { assert TypeFits(p, t, format, depth); }
      FitsHeld(p, e, format);
    case Slice(e) =>
      LettersFit(TypeShape(p, t, format, 0, Document));
      if e != Basic(Uint8) {
        forall depth: nat ensures TypeFits(p, e, "", depth) { assert TypeFits(p, t, format, depth); }
        FitsHeld(p, e, "");
      }
    case Array(e) =>
      forall depth: nat ensures TypeFits(p, e, "", depth) { assert TypeFits(p, t, format, depth); }
      FitsHeld(p, e, "");
    case Map(e) =>
      forall depth: nat ensures TypeFits(p, e, "", depth) { assert TypeFits(p, t, format, depth); }
      FitsHeld(p, e, "");
    case Anon(fields) =>
      forall depth: nat
        ensures Fits(FieldsShape(p, fields, depth, Server), FieldsShape(p, fields, depth, Document))
      {
        assert TypeFits(p, t, format, depth);
      }
      FieldsFitHeld(p, fields);
    case Union(property, vs) =>
      assert TypeFits(p, t, format, 2);
      FitsUnionHeld(p, property, vs, format);
    case _ =>
  }

  lemma FitsUnionHeld(p: Program, property: string, vs: seq<GoType>, format: string)
    requires Usable(p, Union(property, vs)) && TypeFits(p, Union(property, vs), format, 2)
    ensures UnionHeld(p, property, vs)
  {
    hide NamedShape, WireConst, VariantTypes, Cases, TagReads, TagIsText, ValidName, Fits;
    var cases, types := Cases(p, property, vs, 2), VariantTypes(p, property, vs);
    MappingIsVariants(p, property, vs);
    assert forall c | c in types :: c in Mapping(p, property, vs);
    ChoiceFits(p, property, vs, format);
    CasesLength(p, property, vs, 2);
    forall v | v in vs ensures TagIsText(p, v, property) && ListsVariant(p, property, vs, v) {
      var i :| 0 <= i < |vs| && vs[i] == v;
      CaseIs(p, property, vs, 2, i);
      TextReadsTag(p, v, property);
      var c := WireConst(p, v, property);
      assert c != "" ==> c in types && types[c].Named? && types[c].name == cases[i].variant == Peel(v).name;
    }
  }

  lemma ChoiceFits(p: Program, property: string, vs: seq<GoType>, format: string)
    requires TypeFits(p, Union(property, vs), format, 2)
    requires forall c | c in VariantTypes(p, property, vs) :: VariantTypes(p, property, vs)[c].Named?
    ensures var cases, types := Cases(p, property, vs, 2), VariantTypes(p, property, vs);
            && ValidName(property) && property != "-"
            && forall i | 0 <= i < |cases| ::
                 && TagReads(cases[i].shape, property)
                 && (cases[i].value != "" ==>
                       cases[i].value in types && types[cases[i].value].Named?
                           && types[cases[i].value].name == cases[i].variant)
  {
    hide Cases, VariantTypes, TagReads, ValidName, NamedShape;
  }

  lemma TextReadsTag(p: Program, v: GoType, property: string)
    requires Peel(v).Named? && TagReads(NamedShape(p, Peel(v).name, 2, Server), property)
    ensures TagIsText(p, v, property)
  {
    hide WireName, ServerProps, FieldShape, TextField;
    var n := Peel(v).name;
    if n in p {
      forall i: nat | i < |p[n]| && Written(p[n], i) && WireName(p[n][i]) == Some(property)
        ensures TextField(p[n][i])
      {
        ServerPropsAt(p, p[n], 0, i, |p[n]|);
        TextShape(p, p[n][i], 0);
      }
    }
  }

  lemma FieldsFitHeld(p: Program, fields: seq<Field>)
    requires FieldsUsable(p, fields) && FieldsWellTyped(p, fields)
    requires forall depth: nat :: Fits(FieldsShape(p, fields, depth, Server), FieldsShape(p, fields, depth, Document))
    ensures FieldsHeld(p, fields)
    decreases fields, 1
  {
    hide FieldsUsable, FieldsWellTyped, FieldProps, ServerProps, JsonNames, NamesKept, FieldHeld, Serialized, JsonName,
         Written, WireName, FieldShape, TypeShape, FieldRequired, AlwaysWritten;
    if JsonNames(fields) != {} {
      forall depth: nat ensures PropsFitAt(p, fields, depth) {
        assert Fits(FieldsShape(p, fields, depth + 1, Server), FieldsShape(p, fields, depth + 1, Document));
      }
      assert PropsFitAt(p, fields, 0);
      SameNamesKept(p, fields);
      forall i | 0 <= i < |fields| && Serialized(fields[i]) ensures FieldHeld(p, fields[i]) {
        forall depth: nat ensures FieldFits(p, fields[i], depth) {
          assert PropsFitAt(p, fields, depth);
          PropFitsField(p, fields, depth, i);
        }
        FieldPropsAt(p, fields, 0, i);
        FieldTyped(p, fields, i);
        FitsFieldHeld(p, fields[i]);
      }
    }
  }

  lemma PropFitsField(p: Program, fields: seq<Field>, depth: nat, i: nat)
    requires FieldsUsable(p, fields) && NamesKept(fields) && PropsFitAt(p, fields, depth)
    requires i < |fields| && Serialized(fields[i])
    ensures FieldFits(p, fields[i], depth)
  {
    hide FieldsUsable, FieldProps, ServerProps, Fits, Written, WireName, JsonName, FieldShape, TypeShape;
    ServerPropsAt(p, fields, depth, i, |fields|);
    FieldPropsAt(p, fields, depth, i);
    var k := JsonName(fields[i]).value;
    assert PropFits(ServerProps(p, fields, |fields|, depth)[k], FieldProps(p, fields, depth)[k]);
  }

  lemma {:induction false} FieldTyped(p: Program, fields: seq<Field>, i: nat)
    requires FieldsWellTyped(p, fields) && i < |fields|
    ensures WellTyped(p, fields[i].typ) && Identifier(fields[i].name)
  {
    hide Identifier, WellTyped;
    if i < |fields| - 1 {
      FieldTyped(p, fields[..|fields| - 1], i);
    }
  }

  lemma FitsFieldHeld(p: Program, f: Field)
    requires Usable(p, f.typ) && WellTyped(p, f.typ) && forall depth: nat :: FieldFits(p, f, depth)
    ensures FieldHeld(p, f)
    decreases f, 3
  {
    hide Usable, WellTyped, KindHeld, BasicShape, Fits, HasOption, Held;
    assert FieldFits(p, f, 0);
    if Quoted(f) {
      QuotedShape(p, f, 0);
      QuotedHeldExactly(ScalarKind(f), f.format);
    } else {
      forall depth: nat ensures TypeFits(p, f.typ, f.format, depth) { assert FieldFits(p, f, depth); }
      FitsHeld(p, f.typ, f.format);
    }
  }

  /** Where the structs around it are held, a union is exactly when a client can
      read its tags and tell its variants by them. */
  lemma UnionHeldExactly(p: Program, names: set<string>, property: string, vs: seq<GoType>)
    requires Closed(p, names) && AllHeld(p, names) && ProgramUsable(p)
    requires Usable(p, Union(property, vs)) && TypesMention(vs) <= names
    ensures (forall depth: nat :: TypeFits(p, Union(property, vs), "", depth)) <==> UnionHeld(p, property, vs)
  {
    hide Closed, AllHeld, ProgramUsable, Usable, UnionHeld, Fits, TypeShape;
    if UnionHeld(p, property, vs) {
      forall depth: nat ensures TypeFits(p, Union(property, vs), "", depth) {
        UnionFits(p, names, property, vs, "", depth);
      }
    }
    if forall depth: nat :: TypeFits(p, Union(property, vs), "", depth) {
      assert TypeFits(p, Union(property, vs), "", 2);
      FitsUnionHeld(p, property, vs, "");
    }
  }

  /** A variant whose discriminator is a number: the client asks for a string. */
  lemma NumberedTagDoesNotFit(p: Program, n: string, i: nat, property: string)
    requires n in p && i < |p[n]| && Written(p[n], i) && WireName(p[n][i]) == Some(property)
    requires p[n][i].typ == Basic(Int) && !Quoted(p[n][i]) && Usable(p, Union(property, [Named(n)]))
    ensures !TypeFits(p, Union(property, [Named(n)]), "", 2)
  {
    hide Written, WireName, Quoted, Usable, Fits, TypeShape, ValidName;
    assert !TextField(p[n][i]);
    assert Named(n) in [Named(n)] && !TagIsText(p, Named(n), property);
    if TypeFits(p, Union(property, [Named(n)]), "", 2) {
      FitsUnionHeld(p, property, [Named(n)], "");
    }
  }

  // ---- names

  lemma {:induction false} NamesDiffer(p: Program, fields: seq<Field>, i: nat, j: nat)
    requires FieldsWellTyped(p, fields) && i < j < |fields| && fields[i].exported && fields[j].exported
    ensures fields[i].name != fields[j].name
  {
    hide Identifier, WellTyped;
    var n := |fields| - 1;
    if j < n {
      NamesDiffer(p, fields[..n], i, j);
    } else {
      assert fields[..n][i] in fields[..n];
    }
  }

  lemma {:induction false} JsonNamesDiffer(p: Program, fields: seq<Field>, i: nat, j: nat)
    requires FieldsUsable(p, fields) && i < j < |fields| && Serialized(fields[i]) && Serialized(fields[j])
    ensures JsonName(fields[i]) != JsonName(fields[j])
  {
    hide Usable, JsonName;
    var n := |fields| - 1;
    if j < n {
      JsonNamesDiffer(p, fields[..n], i, j);
    } else {
      JsonNamesAt(fields[..n], i);
    }
  }

  lemma IdentifierIsValid(name: string)
    requires Identifier(name)
    ensures ValidName(name) && name != "-"
  {
    assert Identifier(name) && name != "" ==> name[0] in name;
  }

  /** A documented name is "-" for no field; a field written under its documented
      name, or under another, is one or the other by its tag. */
  lemma NamesOf(p: Program, fields: seq<Field>, i: nat)
    requires FieldsWellTyped(p, fields) && i < |fields| && fields[i].exported
    ensures JsonName(fields[i]) != Some("-")
    ensures WireName(fields[i]).Some? ==> ValidName(WireName(fields[i]).value)
    ensures JsonName(fields[i]) == None ==> WireName(fields[i]) == None || WireName(fields[i]) == Some("-")
    ensures JsonName(fields[i]).Some? && JsonName(fields[i]) != WireName(fields[i]) ==>
              !ValidName(JsonName(fields[i]).value) && !TagNamed(fields[i])
                      && WireName(fields[i]) == Some(fields[i].name)
  {
    FieldTyped(p, fields, i);
    IdentifierIsValid(fields[i].name);
    hide Identifier, FieldsWellTyped;
    DashIsValid();
  }

  lemma DashIsValid()
    ensures ValidName("-") && Text.Before("-", ',') == "-"
  {
    assert '-' in "!#$%&()*+-./:;<=>?@[]^_{|}~ ";
    assert Text.IndexOf("-", ',') == -1;
  }

  /** Where as many names are written as documented, each field has the one the
      document gives it. */
  lemma SameNamesKept(p: Program, fields: seq<Field>)
    requires FieldsUsable(p, fields) && FieldsWellTyped(p, fields)
    requires ServerProps(p, fields, |fields|, 0).Keys == FieldProps(p, fields, 0).Keys
    ensures NamesKept(fields)
  {
    hide FieldsUsable, FieldsWellTyped, FieldProps, ServerProps, JsonName, WireName, Written, JsonNames, ValidName,
         TagNamed;
    FieldPropNames(p, fields, 0);
    forall i: nat | i < |fields|
      ensures Written(fields, i) == Serialized(fields[i])
      ensures Serialized(fields[i]) ==> WireName(fields[i]) == JsonName(fields[i])
    {
      if fields[i].exported {
        if JsonName(fields[i]).Some? {
          DocumentedIsWritten(p, fields, i);
        } else {
          SkippedIsNotWritten(p, fields, i);
        }
      } else {
        HiddenIsNotWritten(fields, i);
      }
    }
  }

  lemma HiddenIsNotWritten(fields: seq<Field>, i: nat)
    requires i < |fields| && !fields[i].exported
    ensures !Written(fields, i)
  {
  }

  lemma SkippedIsNotWritten(p: Program, fields: seq<Field>, i: nat)
    requires FieldsUsable(p, fields) && FieldsWellTyped(p, fields)
    requires ServerProps(p, fields, |fields|, 0).Keys == JsonNames(fields)
    requires i < |fields| && fields[i].exported && JsonName(fields[i]).None?
    ensures !Written(fields, i)
  {
    hide FieldsUsable, FieldsWellTyped, ServerProps, JsonName, WireName, Written, JsonNames, ValidName, TagNamed;
    NamesOf(p, fields, i);
    if Written(fields, i) {
      WrittenHasName(fields, i);
      ServerPropsAt(p, fields, 0, i, |fields|);
      var j := JsonNameFrom(fields, "-");
      NamesOf(p, fields, j);
    }
  }

  lemma WrittenHasName(fields: seq<Field>, i: nat)
    requires i < |fields| && Written(fields, i)
    ensures fields[i].exported && WireName(fields[i]).Some?
  {
  }

  lemma DocumentedIsWritten(p: Program, fields: seq<Field>, i: nat)
    requires FieldsUsable(p, fields) && FieldsWellTyped(p, fields)
    requires ServerProps(p, fields, |fields|, 0).Keys == JsonNames(fields)
    requires i < |fields| && Serialized(fields[i])
    ensures Written(fields, i) && WireName(fields[i]) == JsonName(fields[i])
  {
    hide FieldsUsable, FieldsWellTyped, ServerProps, JsonName, WireName, Written, JsonNames, ValidName, TagNamed;
    var n := JsonName(fields[i]).value;
    NamesOf(p, fields, i);
    JsonNamesAt(fields, i);
    var j := ServerPropFrom(p, fields, 0, n, |fields|);
    WrittenHasName(fields, j);
    NamesOf(p, fields, j);
    if j != i {
      if JsonName(fields[j]).Some? {
        if i < j { JsonNamesDiffer(p, fields, i, j); } else { JsonNamesDiffer(p, fields, j, i); }
        if i < j { NamesDiffer(p, fields, i, j); } else { NamesDiffer(p, fields, j, i); }
      }
      LosesToTag(fields, j, i);
    }
  }

  lemma LosesToTag(fields: seq<Field>, j: nat, i: nat)
    requires i < |fields| && j < |fields| && i != j && Written(fields, j) && fields[i].exported
    requires WireName(fields[i]) == WireName(fields[j])
    ensures TagNamed(fields[j]) && !TagNamed(fields[i])
  {
  }

  // ---- program by program

  /** A client's structs hold everything the server writes, to every depth, exactly
      when the fields of each are written under their documented names, each of a
      type, under a tag, whose values are held. */
  lemma HeldExactly(p: Program, names: set<string>)
    requires Closed(p, names) && ProgramUsable(p) && ProgramWellTyped(p)
    ensures (forall n, depth: nat | n in names :: NamedFits(p, n, depth)) <==> AllHeld(p, names)
  {
    hide FieldsHeld, FieldsUsable, FieldsShape, FieldsWellTyped;
    if AllHeld(p, names) {
      forall n, depth: nat | n in names ensures NamedFits(p, n, depth) { NamedHeldFits(p, names, n, depth); }
    }
    if forall n, depth: nat | n in names :: NamedFits(p, n, depth) {
      forall n | n in names && n in p ensures FieldsHeld(p, p[n]) {
        forall depth: nat ensures Fits(FieldsShape(p, p[n], depth, Server), FieldsShape(p, p[n], depth, Document)) {
          assert NamedFits(p, n, depth + 1);
        }
        FieldsFitHeld(p, p[n]);
      }
    }
  }
}
