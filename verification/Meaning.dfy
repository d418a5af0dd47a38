/** What a document and a generated client say about the wire, and that they
    say the same. A shape is cut off after a number of references followed and
    object levels entered, so that cyclic types have one at every depth. */
module Meaning {
  import opened Options
  import opened Schemas
  import opened Registry
  import opened Signature
  import Text

  datatype Shape =
    | Cut
    | Anything
    | Boolean
    | Characters
    | Instant
    | Binary
    | Whole(low: int, high: int)
    | Floating(width: nat)
    | Listing(elem: Shape)
    | Dictionary(value: Shape)
    | Record(props: map<string, Prop>)
    | Tagged(property: string, variants: map<string, Variety>)
    | Choice(property: string, cases: seq<Case>)

  /** A struct a server may write in a place, and the value of the place's
      property that goes with it; "" where none is fixed. */
  datatype Case = Case(variant: string, value: string, shape: Shape)

  /** What a discriminator value stands for: a struct, by the name of its component,
      and its shape. */
  datatype Variety = Variety(variant: string, shape: Shape)

  /** A property and whether it is in every encoded object. */
  datatype Prop = Prop(always: bool, shape: Shape)

  function TwoTo(bits: nat): (n: int)
    ensures n > 0
  {
    if bits == 0 then 1 else 2 * TwoTo(bits - 1)
  }

  /** The integers of `bits` bits; Go's `int` and `uint` have 64. */
  function Signed(bits: nat): Shape
    requires bits > 0
  {
    Whole(-TwoTo(bits - 1), TwoTo(bits - 1) - 1)
  }

  function NonNegative(bits: nat): Shape {
    Whole(0, TwoTo(bits) - 1)
  }

  // ------------------------------------------------------ of a document

  function ScalarShape(typ: string, format: string): Shape {
    match typ
    case "string" => if format == "date-time" then Instant else if format == "binary" then Binary else Characters
    case "boolean" => Boolean
    case "integer" => if format == "int32" then Signed(32) else Signed(64)
    case "number" => Floating(if format == "float" then 32 else 64)
    case _ => Anything
  }

  function Target(ref: string): Option<string> {
    if Text.HasPrefix(ref, REF_PREFIX) then Some(ref[|REF_PREFIX|..]) else None
  }

  /** The component a reference names, "" where it names none. */
  function Referent(ref: string): string {
    match Target(ref) case Some(n) => n case None => ""
  }

  function SchemaShape(components: map<string, Schema>, s: Schema, depth: nat): Shape
    decreases depth, 2, s
  {
    if s.NoSchema? then Anything
    else if s.ref != "" then RefShape(components, s.ref, depth)
    else if IsUnion(s) then UnionShape(components, s.disc.value, depth)
    else if s.typ == "array" then Listing(SchemaShape(components, s.items, depth))
    else if IsScalar(s.typ) then ScalarShape(s.typ, s.format)
    else if s.addl.Schema? then Dictionary(SchemaShape(components, s.addl, depth))
    else if s.props == map[] then if s.typ == "" then Anything else Dictionary(Anything)
    else ObjectShape(components, s, depth)
  }

  function RefShape(components: map<string, Schema>, ref: string, depth: nat): Shape
    decreases depth, 0
  {
    if depth == 0 then Cut
    else
      match Target(ref)
      case None => Anything
      case Some(n) => if n in components then ComponentShape(components, components[n], depth - 1) else Anything
  }

  function UnionShape(components: map<string, Schema>, disc: Discriminator, depth: nat): Shape
    decreases depth, 1
  {
    Tagged(disc.property,
           map v | v in disc.mapping ::
             Variety(Referent(disc.mapping[v]), RefShape(components, disc.mapping[v], depth)))
  }

  function ObjectShape(components: map<string, Schema>, s: Schema, depth: nat): Shape
    requires s.Schema?
    decreases depth, 0
  {
    if depth == 0 then Cut
    else Record(map k | k in s.props :: Prop(k in s.required, SchemaShape(components, s.props[k], depth - 1)))
  }

  function ComponentShape(components: map<string, Schema>, s: Schema, depth: nat): Shape
    decreases depth, 3
  {
    if IsStructSchema(s) then ObjectShape(components, s, depth)
    else if s.Schema? && IsUnion(s) then UnionShape(components, s.disc.value, depth)
    else SchemaShape(components, s, depth)
  }

  /** Alternatives without a discriminator property, or a discriminator without
      alternatives, say nothing. */
  lemma NoUnion(components: map<string, Schema>, oneOf: seq<Schema>, disc: Discriminator, depth: nat)
    ensures SchemaShape(components, OneOf(oneOf, disc), depth) ==
            if disc.property == "" || oneOf == [] then Anything else UnionShape(components, disc, depth)
  {
  }

  // -------------------------------------------------- of generated Go code

  function PrimShape(keyword: string): Shape {
    match keyword
    case "string" => Characters
    case "bool" => Boolean
    case "time.Time" => Instant
    case "int32" => Signed(32)
    case "float32" => Floating(32)
    case "float64" => Floating(64)
    case "int64" => Signed(64)
    case "int" => Signed(64)
    case _ => Anything
  }

  ghost function ExprShape(g: State, e: Expr, depth: nat): Shape
    decreases depth, 4, e
  {
    match e
    case Raw => Anything
    case AnyValue => Anything
    case Bytes => Binary
    case Prim(keyword) => PrimShape(keyword)
    case SliceOf(elem) => Listing(ExprShape(g, elem, depth))
    case DictOf(value) => Dictionary(ExprShape(g, value, depth))
    case PtrTo(target) => ExprShape(g, target, depth)
    case Name(n) => if n in g.byRef.Values then DeclaredShape(g, n, depth) else SyntheticShape(g, n, depth)
  }

  /** A name that stands for a component: following it is following a reference. */
  ghost function DeclaredShape(g: State, n: string, depth: nat): Shape
    decreases depth, 0
  {
    if depth == 0 then Cut
    else if n in g.types then DeclShape(g, g.types[n], depth - 1)
    else Anything
  }

  ghost function DeclShape(g: State, t: NamedType, depth: nat): Shape
    decreases depth, 6
  {
    match t
    case StructDecl(fields) => StructShape(g, fields, depth)
    case UnionDecl(property, variants) => VariantsShape(g, property, variants, depth)
    case AliasDecl(e) => ExprShape(g, e, depth)
  }

  /** A name the generator made up stands for the schema in place. */
  ghost function SyntheticShape(g: State, n: string, depth: nat): Shape
    decreases depth, 3
  {
    if n !in g.types then Anything
    else
      match g.types[n]
      case StructDecl(fields) => StructShape(g, fields, depth)
      case UnionDecl(property, variants) => VariantsShape(g, property, variants, depth)
      case AliasDecl(_) => Anything
  }

  ghost function StructShape(g: State, fields: seq<StructField>, depth: nat): Shape
    decreases depth, 0
  {
    if depth == 0 then Cut else Record(FieldShapes(g, fields, depth - 1))
  }

  ghost function FieldShapes(g: State, fields: seq<StructField>, depth: nat): map<string, Prop>
    decreases depth, 5, |fields|
  {
    if fields == [] then map[]
    else
      var f := fields[|fields| - 1];
      FieldShapes(g, fields[..|fields| - 1], depth)[f.jsonName := Prop(!f.omitEmpty, ExprShape(g, f.typ, depth))]
  }

  ghost function VariantsShape(g: State, property: string, variants: seq<Variant>, depth: nat): Shape
    decreases depth, 2
  {
    Tagged(property, VariantShapes(g, variants, depth))
  }

  ghost function VariantShapes(g: State, variants: seq<Variant>, depth: nat): map<string, Variety>
    decreases depth, 1, |variants|
  {
    if variants == [] then map[]
    else
      var v := variants[|variants| - 1];
      VariantShapes(g, variants[..|variants| - 1], depth)
      [v.value := Variety(ComponentNamed(g, v.typ), DeclaredShape(g, v.typ, depth))]
  }

  /** The component a declared name stands for. */
  ghost function ComponentNamed(g: State, n: string): string {
    if r :| r in g.byRef && g.byRef[r] == n then Referent(r) else ""
  }

  // ------------------------------------------------- schemas that stay apart

  /** A schema and every schema inside it that the client compiler looks at. */
  function Parts(s: Schema): set<Schema> {
    if s.NoSchema? then {s}
    else {s} + Parts(s.items) + Parts(s.addl) + set k, x | k in s.props && x in Parts(s.props[k]) :: x
  }

  /** The same of a component: its properties, where it is a struct with a name
      of its own. */
  function ComponentParts(s: Schema): set<Schema> {
    if IsStructSchema(s) then set k, x | k in s.props && x in Parts(s.props[k]) :: x else Parts(s)
  }

  /** `s` occurs in the document: in a component, or in a schema an operation
      uses. */
  ghost predicate Occurs(components: map<string, Schema>, uses: seq<Schema>, s: Schema) {
    || (exists k :: k in components && s in ComponentParts(components[k]))
    || (exists u :: u in uses && s in Parts(u))
  }

  ghost function Part(components: map<string, Schema>, uses: seq<Schema>): Schema -> bool {
    s => Occurs(components, uses, s)
  }

  lemma SelfPart(s: Schema)
    ensures s in Parts(s)
  {
  }

  lemma {:induction false} PartsWithin(s: Schema, x: Schema)
    requires x in Parts(s) && x.Schema?
    ensures x.items in Parts(s) && x.addl in Parts(s) && forall k | k in x.props :: x.props[k] in Parts(s)
  {
    if x == s {
      SelfPart(s.items);
      SelfPart(s.addl);
      forall k | k in s.props ensures s.props[k] in Parts(s) { SelfPart(s.props[k]); }
    } else if x in Parts(s.items) {
      PartsWithin(s.items, x);
    } else if x in Parts(s.addl) {
      PartsWithin(s.addl, x);
    } else {
      var k :| k in s.props && x in Parts(s.props[k]);
      PartsWithin(s.props[k], x);
    }
  }

  lemma PartsHereditary(components: map<string, Schema>, uses: seq<Schema>)
    ensures Hereditary(Part(components, uses))
  {
    hide Parts;
    forall s: Schema | s.Schema? && Occurs(components, uses, s)
      ensures Occurs(components, uses, s.items) && Occurs(components, uses, s.addl)
      ensures forall k | k in s.props :: Occurs(components, uses, s.props[k])
    {
      if u :| u in uses && s in Parts(u) {
        PartsWithin(u, s);
      } else {
        var j :| j in components && s in ComponentParts(components[j]);
        ComponentPartsWithin(components[j], s);
      }
    }
  }

  lemma ComponentPartsWithin(s: Schema, x: Schema)
    requires x in ComponentParts(s) && x.Schema?
    ensures x.items in ComponentParts(s) && x.addl in ComponentParts(s)
    ensures forall k | k in x.props :: x.props[k] in ComponentParts(s)
  {
    hide Parts;
    if IsStructSchema(s) {
      var k :| k in s.props && x in Parts(s.props[k]);
      PartsWithin(s.props[k], x);
    } else {
      PartsWithin(s, x);
    }
  }

  lemma ComponentsTame(components: map<string, Schema>, uses: seq<Schema>)
    ensures forall k | k in components :: TameComponent(components[k], Part(components, uses))
  {
    forall k | k in components ensures TameComponent(components[k], Part(components, uses)) {
      var s := components[k];
      if IsStructSchema(s) {
        forall j | j in s.props ensures Occurs(components, uses, s.props[j]) {
          SelfPart(s.props[j]);
          assert s.props[j] in ComponentParts(s);
        }
      } else {
        SelfPart(s);
        assert s in ComponentParts(s);
      }
    }
  }

  predicate ApartUnion(disc: Discriminator) {
    && ':' !in disc.property
    && forall v | v in disc.mapping :: '=' !in v && ',' !in v
  }

  /** The anonymous objects of the document have names and formats free of the
      signature's punctuation. */
  ghost predicate Readable(components: map<string, Schema>, uses: seq<Schema>) {
    forall s | Occurs(components, uses, s) && IsAnonymous(s) :: s.typ == "object" && Legible(ObjectForm(s))
  }

  /** So have its inline unions. */
  ghost predicate PlainUnions(components: map<string, Schema>, uses: seq<Schema>) {
    forall s | Occurs(components, uses, s) && s.Schema? && s.ref == "" && IsUnion(s) :: ApartUnion(s.disc.value)
  }

  /** Two unions dispatch on one property, by the same values, to the same
      variants. */
  ghost predicate SameVariants(components: map<string, Schema>, a: Discriminator, b: Discriminator) {
    && a.property == b.property && a.mapping.Keys == b.mapping.Keys
    && forall v, depth: nat | v in a.mapping ::
         && Referent(a.mapping[v]) == Referent(b.mapping[v])
         && RefShape(components, a.mapping[v], depth) == RefShape(components, b.mapping[v], depth)
  }

  ghost predicate SameValues(components: map<string, Schema>, a: Schema, b: Schema) {
    forall depth: nat :: SchemaShape(components, a, depth) == SchemaShape(components, b, depth)
  }

  ghost predicate SameRecords(components: map<string, Schema>, a: Schema, b: Schema)
    requires a.Schema? && b.Schema?
  {
    forall depth: nat :: ObjectShape(components, a, depth) == ObjectShape(components, b, depth)
  }

  /** What a form does not tell is the same in `a` and `b`: unions at the same
      places have the same variants, and schemas without a type, which no Go type
      makes, the same values. */
  ghost predicate SameInside(components: map<string, Schema>, a: Schema, b: Schema)
    decreases a
  {
    if a.NoSchema? || b.NoSchema? || a.ref != "" || b.ref != "" then true
    else if IsUnion(a) && IsUnion(b) then SameVariants(components, a.disc.value, b.disc.value)
    else if a.typ == "array" then SameInside(components, a.items, b.items)
    else if a.typ == "object" && a.addl.Schema? then SameInside(components, a.addl, b.addl)
    else if a.typ == "object" && a.props != map[] then
      forall k | k in a.props && k in b.props :: SameInside(components, a.props[k], b.props[k])
    else if a.typ == "" then SameValues(components, a, b)
    else true
  }

  ghost predicate SamePropsInside(components: map<string, Schema>, a: Schema, b: Schema)
    requires a.Schema? && b.Schema?
  {
    forall k | k in a.props && k in b.props :: SameInside(components, a.props[k], b.props[k])
  }

  /** Anonymous objects of one form are the same inside. */
  ghost predicate Consistent(components: map<string, Schema>, uses: seq<Schema>) {
    forall a, b | Occurs(components, uses, a) && Occurs(components, uses, b) && IsAnonymous(a) && IsAnonymous(b)
                  && ObjectForm(a) == ObjectForm(b) :: SamePropsInside(components, a, b)
  }

  // ----------------------------------------- equal forms mean the same shape

  lemma SortedSame(a: seq<string>, b: seq<string>, k: string)
    requires Text.Sort(a) == Text.Sort(b)
    ensures k in a <==> k in b
  {
    Text.SortForgetsOrder(a, b);
    assert k in multiset(a) <==> k in multiset(b);
  }

  lemma {:induction false} FormDecides(components: map<string, Schema>, a: Schema, b: Schema, depth: nat)
    requires FormOf(a) == FormOf(b) && SameInside(components, a, b)
    ensures SchemaShape(components, a, depth) == SchemaShape(components, b, depth)
    decreases depth, 1, a
  {
    if a.NoSchema? || a.ref != "" {
    } else if IsUnion(a) {
      UnionsDecide(components, a.disc.value, b.disc.value, depth);
    } else if a.typ == "array" {
      FormDecides(components, a.items, b.items, depth);
    } else if a.typ == "object" && a.addl.Schema? {
      FormDecides(components, a.addl, b.addl, depth);
    } else if a.typ == "object" && a.props != map[] {
      ObjectFormDecides(components, a, b, depth);
    }
  }

  lemma UnionsDecide(components: map<string, Schema>, a: Discriminator, b: Discriminator, depth: nat)
    requires SameVariants(components, a, b)
    ensures UnionShape(components, a, depth) == UnionShape(components, b, depth)
  {
    hide RefShape;
  }

  lemma ObjectFormDecides(components: map<string, Schema>, a: Schema, b: Schema, depth: nat)
    requires a.Schema? && b.Schema? && ObjectForm(a) == ObjectForm(b) && SamePropsInside(components, a, b)
    ensures ObjectShape(components, a, depth) == ObjectShape(components, b, depth)
    decreases depth, 0
  {
    hide *;
    if depth == 0 {
      NoDepth(components, a);
      NoDepth(components, b);
    } else {
      ObjectFormParts(a, b);
      PropsInside(components, a, b);
      PropsDecide(components, a.props, b.props, depth - 1);
      RecordsEqual(components, a, b, depth - 1);
    }
  }

  lemma PropsInside(components: map<string, Schema>, a: Schema, b: Schema)
    requires a.Schema? && b.Schema? && a.props.Keys == b.props.Keys && SamePropsInside(components, a, b)
    ensures forall k | k in a.props :: SameInside(components, a.props[k], b.props[k])
  {
  }

  lemma NoDepth(components: map<string, Schema>, s: Schema)
    requires s.Schema?
    ensures ObjectShape(components, s, 0) == Cut
  {
  }

  lemma PropsDecide(components: map<string, Schema>, a: map<string, Schema>, b: map<string, Schema>, depth: nat)
    requires a.Keys == b.Keys
    requires forall k | k in a :: FormOf(a[k]) == FormOf(b[k]) && SameInside(components, a[k], b[k])
    ensures forall k | k in a :: SchemaShape(components, a[k], depth) == SchemaShape(components, b[k], depth)
    decreases depth, 2
  {
    hide *;
    forall k | k in a ensures SchemaShape(components, a[k], depth) == SchemaShape(components, b[k], depth) {
      FormDecides(components, a[k], b[k], depth);
    }
  }

  lemma ObjectFormParts(a: Schema, b: Schema)
    requires a.Schema? && b.Schema? && ObjectForm(a) == ObjectForm(b)
    ensures a.props.Keys == b.props.Keys
    ensures forall k | k in a.props :: FormOf(a.props[k]) == FormOf(b.props[k])
    ensures forall k :: k in a.required <==> k in b.required
  {
    hide FormOf;
    assert a.props.Keys == ObjectForm(a).props.Keys == b.props.Keys;
    forall k | k in a.props ensures FormOf(a.props[k]) == FormOf(b.props[k]) {
      assert ObjectForm(a).props[k] == ObjectForm(b).props[k];
    }
    forall k ensures k in a.required <==> k in b.required {
      SortedSame(a.required, b.required, k);
    }
  }

  lemma RecordsEqual(components: map<string, Schema>, a: Schema, b: Schema, depth: nat)
    requires a.Schema? && b.Schema? && a.props.Keys == b.props.Keys
    requires forall k :: k in a.required <==> k in b.required
    requires forall k | k in a.props ::
               SchemaShape(components, a.props[k], depth) == SchemaShape(components, b.props[k], depth)
    ensures ObjectShape(components, a, depth + 1) == ObjectShape(components, b, depth + 1)
  {
    hide SchemaShape;
  }

  /** The other way: what has one shape to every depth is the same inside. */
  lemma {:induction false} ShapesDecide(components: map<string, Schema>, a: Schema, b: Schema)
    requires FormOf(a) == FormOf(b) && SameValues(components, a, b)
    ensures SameInside(components, a, b)
    decreases a
  {
    hide ObjectShape, UnionShape, RefShape, ObjectForm;
    if a.NoSchema? || a.ref != "" {
    } else if IsUnion(a) {
      ShapesDecideUnions(components, a, b);
    } else if a.typ == "array" {
      ItemsSame(components, a, b);
      ShapesDecide(components, a.items, b.items);
    } else if a.typ == "object" && a.addl.Schema? {
      ValuesSame(components, a, b);
      ShapesDecide(components, a.addl, b.addl);
    } else if a.typ == "object" && a.props != map[] {
      forall depth: nat ensures ObjectShape(components, a, depth) == ObjectShape(components, b, depth) {
        ObjectsSame(components, a, b, depth);
      }
      ObjectShapesDecide(components, a, b);
    }
  }

  lemma ItemsSame(components: map<string, Schema>, a: Schema, b: Schema)
    requires a.Schema? && b.Schema? && a.ref == b.ref == "" && !IsUnion(a) && !IsUnion(b) && a.typ == b.typ == "array"
    requires SameValues(components, a, b)
    ensures SameValues(components, a.items, b.items)
  {
    forall depth: nat ensures SchemaShape(components, a.items, depth) == SchemaShape(components, b.items, depth) {
      assert SchemaShape(components, a, depth) == SchemaShape(components, b, depth);
    }
  }

  lemma ValuesSame(components: map<string, Schema>, a: Schema, b: Schema)
    requires a.Schema? && b.Schema? && a.ref == b.ref == "" && !IsUnion(a) && !IsUnion(b) && a.typ == b.typ == "object"
    requires a.addl.Schema? && b.addl.Schema? && SameValues(components, a, b)
    ensures SameValues(components, a.addl, b.addl)
  {
    forall depth: nat ensures SchemaShape(components, a.addl, depth) == SchemaShape(components, b.addl, depth) {
      assert SchemaShape(components, a, depth) == SchemaShape(components, b, depth);
    }
  }

  lemma ObjectsSame(components: map<string, Schema>, a: Schema, b: Schema, depth: nat)
    requires a.Schema? && b.Schema? && a.ref == b.ref == "" && !IsUnion(a) && !IsUnion(b) && a.typ == b.typ == "object"
    requires a.addl.NoSchema? && b.addl.NoSchema? && a.props != map[] && b.props != map[]
    requires SameValues(components, a, b)
    ensures ObjectShape(components, a, depth) == ObjectShape(components, b, depth)
  {
    hide ObjectShape;
    assert SchemaShape(components, a, depth) == SchemaShape(components, b, depth);
  }

  lemma ShapesDecideUnions(components: map<string, Schema>, a: Schema, b: Schema)
    requires a.Schema? && b.Schema? && a.ref == b.ref == "" && IsUnion(a) && IsUnion(b)
    requires SameValues(components, a, b)
    ensures SameVariants(components, a.disc.value, b.disc.value)
  {
    hide RefShape;
    var x, y := a.disc.value, b.disc.value;
    forall depth: nat ensures UnionShape(components, x, depth) == UnionShape(components, y, depth) {
      assert SchemaShape(components, a, depth) == SchemaShape(components, b, depth);
    }
    assert UnionShape(components, x, 0).variants.Keys == x.mapping.Keys;
    assert UnionShape(components, y, 0).variants.Keys == y.mapping.Keys;
    forall v, depth: nat | v in x.mapping
      ensures Referent(x.mapping[v]) == Referent(y.mapping[v])
      ensures RefShape(components, x.mapping[v], depth) == RefShape(components, y.mapping[v], depth)
    {
      assert UnionShape(components, x, depth).variants[v] == UnionShape(components, y, depth).variants[v];
    }
  }

  lemma {:induction false} ObjectShapesDecide(components: map<string, Schema>, a: Schema, b: Schema)
    requires a.Schema? && b.Schema? && ObjectForm(a) == ObjectForm(b)
    requires SameRecords(components, a, b)
    ensures SamePropsInside(components, a, b)
    decreases a, 0
  {
    hide SchemaShape, FormOf, SameInside;
    ObjectFormParts(a, b);
    forall k | k in a.props && k in b.props ensures SameInside(components, a.props[k], b.props[k]) {
      forall depth: nat
        ensures SchemaShape(components, a.props[k], depth) == SchemaShape(components, b.props[k], depth)
      {
        PropSame(components, a, b, k, depth);
      }
      ShapesDecide(components, a.props[k], b.props[k]);
    }
  }

  lemma PropSame(components: map<string, Schema>, a: Schema, b: Schema, k: string, depth: nat)
    requires a.Schema? && b.Schema? && k in a.props && k in b.props
    requires ObjectShape(components, a, depth + 1) == ObjectShape(components, b, depth + 1)
    ensures SchemaShape(components, a.props[k], depth) == SchemaShape(components, b.props[k], depth)
  {
    hide SchemaShape;
    var x, y := ObjectShape(components, a, depth + 1), ObjectShape(components, b, depth + 1);
    assert x.props[k].shape == SchemaShape(components, a.props[k], depth);
    assert y.props[k].shape == SchemaShape(components, b.props[k], depth);
  }

  /** Of legible anonymous objects that share a declaration, the declaration fits
      both, to every depth, exactly when they are the same inside. */
  lemma SharedExactly(components: map<string, Schema>, a: Schema, b: Schema)
    requires IsAnonymous(a) && IsAnonymous(b) && Legible(ObjectForm(a)) && Legible(ObjectForm(b))
    requires ObjectSignature(a) == ObjectSignature(b)
    ensures SameRecords(components, a, b) <==> SamePropsInside(components, a, b)
  {
    hide SchemaShape, ObjectShape, ObjectForm, Legible, StructSignature, SamePropsInside;
    DropSame("struct:", StructSignature(a), StructSignature(b));
    SignatureDecidesShape(a, b);
    if SamePropsInside(components, a, b) {
      forall depth: nat ensures ObjectShape(components, a, depth) == ObjectShape(components, b, depth) {
        ObjectFormDecides(components, a, b, depth);
      }
    }
    if SameRecords(components, a, b) {
      ObjectShapesDecide(components, a, b);
    }
  }

  lemma SameSignatureSameShape(components: map<string, Schema>, uses: seq<Schema>, a: Schema, b: Schema, depth: nat)
    requires Readable(components, uses) && Consistent(components, uses)
    requires Occurs(components, uses, a) && Occurs(components, uses, b) && IsAnonymous(a) && IsAnonymous(b)
    requires ObjectSignature(a) == ObjectSignature(b)
    ensures ObjectShape(components, a, depth) == ObjectShape(components, b, depth)
  {
    hide SchemaShape, ObjectShape, ObjectForm, Legible, StructSignature, SamePropsInside, Occurs;
    DropSame("struct:", StructSignature(a), StructSignature(b));
    SignatureDecidesShape(a, b);
    ObjectFormDecides(components, a, b, depth);
  }

  /** In a document with types everywhere, one union to a discriminator property
      is enough. */
  lemma OneUnionPerProperty(components: map<string, Schema>, uses: seq<Schema>, unions: map<string, Discriminator>)
    requires forall s | Occurs(components, uses, s) && s.Schema? && s.ref == "" ::
               && (IsUnion(s) ==> s.disc.value.property in unions && unions[s.disc.value.property] == s.disc.value)
               && (!IsUnion(s) && s.typ == "" ==> s.addl.NoSchema? && s.props == map[])
    ensures Consistent(components, uses)
  {
    hide Occurs;
    PartsHereditary(components, uses);
    forall a, b | Occurs(components, uses, a) && Occurs(components, uses, b) && IsAnonymous(a) && IsAnonymous(b)
                  && ObjectForm(a) == ObjectForm(b)
      ensures SamePropsInside(components, a, b)
    {
      ObjectFormParts(a, b);
      forall k | k in a.props && k in b.props ensures SameInside(components, a.props[k], b.props[k]) {
        assert Part(components, uses)(a) && Part(components, uses)(b);
        OneUnionInside(components, uses, unions, a.props[k], b.props[k]);
      }
    }
  }

  lemma {:induction false} OneUnionInside(components: map<string, Schema>, uses: seq<Schema>, unions: map<string,
                                          Discriminator>, a: Schema, b: Schema)
    requires Hereditary(Part(components, uses))
    requires forall s | Occurs(components, uses, s) && s.Schema? && s.ref == "" ::
               && (IsUnion(s) ==> s.disc.value.property in unions && unions[s.disc.value.property] == s.disc.value)
               && (!IsUnion(s) && s.typ == "" ==> s.addl.NoSchema? && s.props == map[])
    requires Occurs(components, uses, a) && Occurs(components, uses, b) && FormOf(a) == FormOf(b)
    ensures SameInside(components, a, b)
    decreases a
  {
    hide Occurs, SchemaShape, RefShape;
    assert Part(components, uses)(a) && Part(components, uses)(b);
    if a.NoSchema? || a.ref != "" {
    } else if IsUnion(a) {
    } else if a.typ == "array" {
      OneUnionInside(components, uses, unions, a.items, b.items);
    } else if a.typ == "object" && a.addl.Schema? {
      OneUnionInside(components, uses, unions, a.addl, b.addl);
    } else if a.typ == "object" && a.props != map[] {
      ObjectFormParts(a, b);
      forall k | k in a.props && k in b.props ensures SameInside(components, a.props[k], b.props[k]) {
        OneUnionInside(components, uses, unions, a.props[k], b.props[k]);
      }
    } else if a.typ == "" {
      TypelessSame(components, a, b);
    }
  }

  lemma TypelessSame(components: map<string, Schema>, a: Schema, b: Schema)
    requires a.Schema? && b.Schema? && a.ref == b.ref == "" && !IsUnion(a) && !IsUnion(b) && a.typ == b.typ == ""
    requires a.addl.NoSchema? && b.addl.NoSchema? && a.props == b.props == map[]
    ensures SameValues(components, a, b)
  {
  }

  /** An object around a union, with nothing else in it. */
  function AroundUnion(name: string, disc: Discriminator): (s: Schema)
    ensures s.Schema? && IsAnonymous(s)
  {
    var props := map[name := OneOf([EMPTY], disc)];
    assert name in props;
    ObjectOf(props, [])
  }

  /** Of an inline union a signature keeps the property alone: objects around
      unions of different variants share one declaration. */
  lemma InlineUnionsCollide(components: map<string, Schema>, name: string, a: Discriminator, b: Discriminator)
    requires a.property == b.property != "" && a.mapping.Keys != b.mapping.Keys
    ensures ObjectSignature(AroundUnion(name, a)) == ObjectSignature(AroundUnion(name, b))
    ensures ObjectShape(components, AroundUnion(name, a), 1) != ObjectShape(components, AroundUnion(name, b), 1)
  {
    hide StructSignature, ObjectShape, WriteObject, UnionShape;
    var x, y := AroundUnion(name, a), AroundUnion(name, b);
    StructSignatureIsWritten(x);
    StructSignatureIsWritten(y);
    assert ObjectForm(x).props == ObjectForm(y).props;
    ShapeAround(components, name, a);
    ShapeAround(components, name, b);
  }

  lemma ShapeAround(components: map<string, Schema>, name: string, disc: Discriminator)
    requires disc.property != ""
    ensures var shape := ObjectShape(components, AroundUnion(name, disc), 1);
            && shape.Record? && name in shape.props && shape.props[name].shape.Tagged?
            && shape.props[name].shape.variants.Keys == disc.mapping.Keys
  {
    hide StructSignature, RefShape;
    var s := AroundUnion(name, disc);
    assert name in s.props && s.props[name] == OneOf([EMPTY], disc);
    assert SchemaShape(components, s.props[name], 0) == UnionShape(components, disc, 0);
  }

  // ------------------------------------------------ union signatures decide

  lemma {:induction false} VariantsTextCons(v: Variant, rest: seq<Variant>)
    ensures VariantsText([v] + rest) == (v.value + "=" + v.typ + ",") + VariantsText(rest)
  {
    var vs := [v] + rest;
    if rest == [] {
      assert vs[..0] == [] && vs[0] == v;
    } else {
      var n := |rest| - 1;
      assert vs[..|vs| - 1] == [v] + rest[..n] && vs[|vs| - 1] == rest[n];
      VariantsTextCons(v, rest[..n]);
      var last := rest[n].value + "=" + rest[n].typ + ",";
      assert (v.value + "=" + v.typ + ",") + VariantsText(rest[..n]) + last
          == (v.value + "=" + v.typ + ",") + (VariantsText(rest[..n]) + last);
    }
  }

  lemma VariantsTextFront(vs: seq<Variant>)
    requires vs != []
    ensures VariantsText(vs) == vs[0].value + "=" + (vs[0].typ + "," + VariantsText(vs[1..]))
  {
    hide VariantsText;
    VariantsTextCons(vs[0], vs[1..]);
    assert vs == [vs[0]] + vs[1..];
    var a, b, t := vs[0].value + "=", vs[0].typ + ",", VariantsText(vs[1..]);
    assert vs[0].value + "=" + vs[0].typ + "," == a + b;
    assert (a + b) + t == a + (b + t);
  }

  lemma {:induction false} VariantsTextDecides(a: seq<Variant>, b: seq<Variant>)
    requires forall v | v in a :: '=' !in v.value && ',' !in v.typ
    requires forall v | v in b :: '=' !in v.value && ',' !in v.typ
    requires VariantsText(a) == VariantsText(b)
    ensures a == b
  {
    if a == [] || b == [] {
      if a != [] { VariantsTextFront(a); }
      if b != [] { VariantsTextFront(b); }
    } else {
      VariantsTextFront(a);
      VariantsTextFront(b);
      assert a[0] in a && b[0] in b;
      Text.CutAt(a[0].value, b[0].value, '=', a[0].typ + "," + VariantsText(a[1..]),
          b[0].typ + "," + VariantsText(b[1..]));
      Text.CutAt(a[0].typ, b[0].typ, ',', VariantsText(a[1..]), VariantsText(b[1..]));
      VariantsTextDecides(a[1..], b[1..]);
      assert a == [a[0]] + a[1..] && b == [b[0]] + b[1..];
    }
  }

  lemma UnionSignatureParts(disc: Discriminator, byRef: map<string, string>)
    requires MappingResolves(disc, byRef)
    ensures UnionSignature(disc, byRef) == "union:" + (disc.property + ":" + VariantsText(VariantsOf(disc, byRef)))
  {
    hide VariantsText, VariantsOf;
  }

  lemma DropSame(p: string, a: string, b: string)
    requires p + a == p + b
    ensures a == b
  {
    assert (p + a)[|p|..] == a && (p + b)[|p|..] == b;
  }

  lemma UnionSignatureDecides(a: Discriminator, b: Discriminator, byRef: map<string, string>)
    requires MappingResolves(a, byRef) && MappingResolves(b, byRef)
    requires ApartUnion(a) && ApartUnion(b) && forall r | r in byRef :: ',' !in byRef[r]
    requires UnionSignature(a, byRef) == UnionSignature(b, byRef)
    ensures a.property == b.property && VariantsOf(a, byRef) == VariantsOf(b, byRef)
  {
    UnionSignatureParts(a, byRef);
    UnionSignatureParts(b, byRef);
    hide VariantsText, UnionSignature, VariantsFrom, Text.StrictlySorted;
    var x, y := VariantsOf(a, byRef), VariantsOf(b, byRef);
    DropSame("union:", a.property + ":" + VariantsText(x), b.property + ":" + VariantsText(y));
    Text.CutAt(a.property, b.property, ':', VariantsText(x), VariantsText(y));
    VariantsPlain(a, byRef, Text.SortedKeys(a.mapping.Keys));
    VariantsPlain(b, byRef, Text.SortedKeys(b.mapping.Keys));
    VariantsTextDecides(x, y);
  }

  lemma {:induction false} VariantsPlain(disc: Discriminator, byRef: map<string, string>, values: seq<string>)
    requires MappingResolves(disc, byRef) && forall v | v in values :: v in disc.mapping
    requires ApartUnion(disc) && forall r | r in byRef :: ',' !in byRef[r]
    ensures forall v | v in VariantsFrom(disc, byRef, values) :: '=' !in v.value && ',' !in v.typ
  {
    if values != [] {
      var n := |values| - 1;
      VariantsPlain(disc, byRef, values[..n]);
      assert values[n] in values;
      assert forall v | v in VariantsFrom(disc, byRef, values) ::
          v in VariantsFrom(disc, byRef, values[..n]) || v == Variant(values[n], byRef[disc.mapping[values[n]]]);
    }
  }

  // ---------------------------------------------- the client says the same

  /** A finished build of the document. */
  ghost predicate Generated(g: State, components: map<string, Schema>, uses: seq<Schema>) {
    Compiled(g, components) && WellKept(g, Part(components, uses))
  }

  /** Of a document whose signatures stay apart. */
  ghost predicate Faithful(g: State, components: map<string, Schema>, uses: seq<Schema>) {
    && Generated(g, components, uses)
    && (forall r | r in g.byRef :: ',' !in g.byRef[r])
    && Readable(components, uses) && Consistent(components, uses) && PlainUnions(components, uses)
  }

  lemma GeneratedRef(g: State, components: map<string, Schema>, uses: seq<Schema>, ref: string) returns (k: string)
    requires Generated(g, components, uses) && ref in g.byRef
    ensures k in components && ref == RefKey(k) && Target(ref) == Some(k)
    ensures var n := g.byRef[ref];
            && n in g.types && n in g.byRef.Values
            && ComponentOk(g.types[n], components[k], g.byRef, g.synthetic)
            && TameComponent(components[k], Part(components, uses))
  {
    ComponentsTame(components, uses);
    hide ComponentOk, SyntheticOk, TameComponent, Part;
    k :| k in components && ref == RefKey(k);
    assert ref[..|REF_PREFIX|] == REF_PREFIX && ref[|REF_PREFIX|..] == k;
    assert BuiltFrom(g, k, components);
  }

  lemma GeneratedSynthetic(g: State, components: map<string, Schema>, uses: seq<Schema>,
                           sig: string) returns (o: Schema)
    requires Generated(g, components, uses) && sig in g.synthetic
    ensures var n := g.synthetic[sig];
            && n in g.types && n in g.origin && g.origin[n] == o && n !in g.byRef.Values
            && SyntheticOk(sig, g.types[n], o, g.byRef, g.synthetic) && Occurs(components, uses, o)
  {
    hide ComponentOk, SyntheticOk, TameComponent, BuiltFrom, Occurs;
    assert g.synthetic[sig] in g.synthetic.Values;
    assert g.synthetic[sig] !in Pending(g);
    o := g.origin[g.synthetic[sig]];
    assert Part(components, uses)(o);
  }

  lemma OccursWithin(components: map<string, Schema>, uses: seq<Schema>, s: Schema)
    requires Occurs(components, uses, s) && s.Schema?
    ensures Occurs(components, uses, s.items) && Occurs(components, uses, s.addl)
    ensures forall k | k in s.props :: Occurs(components, uses, s.props[k])
  {
    PartsHereditary(components, uses);
    hide Occurs;
    assert Part(components, uses)(s);
    assert Part(components, uses)(s.items) && Part(components, uses)(s.addl);
    assert forall k | k in s.props :: Part(components, uses)(s.props[k]);
  }

  lemma TameOccurs(components: map<string, Schema>, uses: seq<Schema>, s: Schema)
    requires TameComponent(s, Part(components, uses))
    ensures if IsStructSchema(s) then forall k | k in s.props :: Occurs(components, uses, s.props[k])
            else Occurs(components, uses, s)
  {
    hide Occurs;
    if IsStructSchema(s) {
      assert forall k | k in s.props :: Part(components, uses)(s.props[k]);
    }
  }

  lemma ScalarExprMeans(g: State, components: map<string, Schema>, e: Expr, s: Schema, depth: nat)
    requires s.Schema? && s.ref == "" && !IsUnion(s) && IsScalar(s.typ) && e == ScalarType(s)
    ensures ExprShape(g, e, depth) == SchemaShape(components, s, depth)
  {
    PlainScalar(components, s, depth);
    hide SchemaShape, StringType, IntegerType, NumberType;
    if s.typ == "string" {
      StringShape(g, s.format, depth);
    } else if s.typ == "integer" {
      IntegerShape(g, s.format, depth);
    } else if s.typ == "number" {
      NumberShape(g, s.format, depth);
    }
  }

  lemma StringShape(g: State, format: string, depth: nat)
    ensures ExprShape(g, StringType(format), depth) == ScalarShape("string", format)
  {
  }

  lemma IntegerWidths()
    ensures PrimShape("int32") == Signed(32) && PrimShape("int64") == PrimShape("int") == Signed(64)
  {
  }

  lemma IntegerShape(g: State, format: string, depth: nat)
    ensures ExprShape(g, IntegerType(format), depth) == ScalarShape("integer", format)
  {
    IntegerWidths();
    hide PrimShape;
  }

  lemma NumberShape(g: State, format: string, depth: nat)
    ensures ExprShape(g, NumberType(format), depth) == ScalarShape("number", format)
  {
  }

  lemma PlainScalar(components: map<string, Schema>, s: Schema, depth: nat)
    requires s.Schema? && s.ref == "" && !IsUnion(s) && IsScalar(s.typ)
    ensures SchemaShape(components, s, depth) == ScalarShape(s.typ, s.format)
  {
    hide ScalarShape;
  }

  lemma {:induction false} ExprMeans(g: State, components: map<string, Schema>, uses: seq<Schema>, e: Expr, s: Schema,
                                     depth: nat)
    requires Faithful(g, components, uses) && Occurs(components, uses, s) && Denotes(e, s, g.byRef, g.synthetic)
    ensures ExprShape(g, e, depth) == SchemaShape(components, s, depth)
    decreases depth, 4, s
  {
    hide Faithful, Occurs, ObjectSignature, UnionSignature, VariantsOf, MappingResolves,
         ObjectShape, UnionShape, RefShape, SyntheticShape, DeclaredShape, ScalarShape, ScalarType, PrimShape;
    if s.Schema? {
      OccursWithin(components, uses, s);
    }
    if s.NoSchema? {
    } else if s.ref != "" {
      RefMeans(g, components, uses, s.ref, depth);
    } else if IsUnion(s) {
      SyntheticUnionMeans(g, components, uses, s, depth);
    } else if s.typ == "array" {
      ExprMeans(g, components, uses, e.elem, s.items, depth);
    } else if IsScalar(s.typ) {
      ScalarExprMeans(g, components, e, s, depth);
    } else if s.addl.Schema? {
      ExprMeans(g, components, uses, e.value, s.addl, depth);
    } else if s.props != map[] {
      SyntheticStructMeans(g, components, uses, s, depth);
    }
  }

  lemma RefMeans(g: State, components: map<string, Schema>, uses: seq<Schema>, ref: string, depth: nat)
    requires Faithful(g, components, uses) && ref in g.byRef
    ensures g.byRef[ref] in g.byRef.Values
    ensures DeclaredShape(g, g.byRef[ref], depth) == RefShape(components, ref, depth)
    decreases depth, 0
  {
    hide Generated, Readable, Consistent, PlainUnions, ComponentOk, TameComponent;
    var k := GeneratedRef(g, components, uses, ref);
    if depth > 0 {
      ComponentMeans(g, components, uses, g.types[g.byRef[ref]], components[k], depth - 1);
    }
  }

  lemma ComponentMeans(g: State, components: map<string, Schema>, uses: seq<Schema>, t: NamedType, s: Schema,
                       depth: nat)
    requires Faithful(g, components, uses) && ComponentOk(t, s, g.byRef, g.synthetic)
            && TameComponent(s, Part(components, uses))
    ensures DeclShape(g, t, depth) == ComponentShape(components, s, depth)
    decreases depth, 6
  {
    TameOccurs(components, uses, s);
    hide Faithful, FieldsOk, Denotes, Occurs, TameComponent;
    if s.Schema? {
      if IsStructSchema(s) {
        StructMeans(g, components, uses, t.fields, s, depth);
      } else if IsUnion(s) {
        VariantsMean(g, components, uses, s.disc.value, depth);
      } else {
        ExprMeans(g, components, uses, t.typ, s, depth);
      }
    }
  }

  lemma SortedProps(components: map<string, Schema>, s: Schema, depth: nat)
    requires s.Schema?
    ensures (map k | k in Text.SortedKeys(s.props.Keys) ::
            Prop(k in s.required, SchemaShape(components, s.props[k], depth)))
         == (map k | k in s.props :: Prop(k in s.required, SchemaShape(components, s.props[k], depth)))
  {
    hide SchemaShape, Text.StrictlySorted;
  }

  lemma StructMeans(g: State, components: map<string, Schema>, uses: seq<Schema>, fields: seq<StructField>, s: Schema,
                    depth: nat)
    requires Faithful(g, components, uses) && s.Schema? && FieldsOk(fields, s, g.byRef, g.synthetic)
    requires forall k | k in s.props :: Occurs(components, uses, s.props[k])
    ensures StructShape(g, fields, depth) == ObjectShape(components, s, depth)
    decreases depth, 0
  {
    hide Faithful, FieldsFrom, Occurs, Text.StrictlySorted, SchemaShape, FieldShapes;
    if depth > 0 {
      FieldsMean(g, components, uses, fields, s, Text.SortedKeys(s.props.Keys), depth - 1);
      SortedProps(components, s, depth - 1);
    }
  }

  lemma {:induction false} FieldsMean(g: State, components: map<string, Schema>, uses: seq<Schema>,
                                      fields: seq<StructField>, s: Schema, keys: seq<string>, depth: nat)
    requires Faithful(g, components, uses) && s.Schema? && forall k | k in keys :: k in s.props
    requires FieldsFrom(fields, s, keys, g.byRef, g.synthetic)
    requires forall k | k in s.props :: Occurs(components, uses, s.props[k])
    ensures FieldShapes(g, fields, depth)
         == map k | k in keys :: Prop(k in s.required, SchemaShape(components, s.props[k], depth))
    decreases depth, 5, |fields|
  {
    hide Faithful, Occurs, Denotes, SchemaShape, ExprShape;
    if fields != [] {
      var n := |fields| - 1;
      var f, key := fields[n], keys[n];
      assert keys == keys[..n] + [key];
      assert key in keys;
      FieldsFront(fields, s, keys, n, g.byRef, g.synthetic);
      FieldsMean(g, components, uses, fields[..n], s, keys[..n], depth);
      var bare := if key !in s.required && f.typ.PtrTo? then f.typ.target else f.typ;
      ExprMeans(g, components, uses, bare, s.props[key], depth);
      PointerShape(g, f.typ, bare, depth);
    }
  }

  lemma PointerShape(g: State, e: Expr, bare: Expr, depth: nat)
    requires e == bare || e == PtrTo(bare)
    ensures ExprShape(g, e, depth) == ExprShape(g, bare, depth)
  {
  }

  lemma FieldsFront(fields: seq<StructField>, s: Schema, keys: seq<string>, n: nat, byRef: map<string, string>,
                    syn: map<string, string>)
    requires s.Schema? && (forall k | k in keys :: k in s.props) && FieldsFrom(fields, s, keys, byRef, syn)
            && n < |keys|
    ensures FieldsFrom(fields[..n], s, keys[..n], byRef, syn) && FieldOk(fields[n], keys[n], s, byRef, syn)
  {
    hide FieldOk;
  }

  lemma VariantsMean(g: State, components: map<string, Schema>, uses: seq<Schema>, disc: Discriminator, depth: nat)
    requires Faithful(g, components, uses) && MappingResolves(disc, g.byRef)
    ensures VariantsShape(g, disc.property, VariantsOf(disc, g.byRef), depth) == UnionShape(components, disc, depth)
    decreases depth, 2
  {
    hide Faithful, Text.StrictlySorted, RefShape;
    VariantsMeanFrom(g, components, uses, disc, Text.SortedKeys(disc.mapping.Keys), depth);
  }

  lemma NamedBack(g: State, components: map<string, Schema>, uses: seq<Schema>, ref: string)
    requires Faithful(g, components, uses) && ref in g.byRef
    ensures ComponentNamed(g, g.byRef[ref]) == Referent(ref)
  {
    hide Compiled, ComponentsKept, SyntheticsKept, Readable, Consistent, PlainUnions, Referent;
  }

  lemma {:induction false} VariantsMeanFrom(g: State, components: map<string, Schema>, uses: seq<Schema>,
                                            disc: Discriminator, values: seq<string>, depth: nat)
    requires Faithful(g, components, uses) && MappingResolves(disc, g.byRef)
    requires forall v | v in values :: v in disc.mapping
    ensures VariantShapes(g, VariantsFrom(disc, g.byRef, values), depth)
         == map v | v in values :: Variety(Referent(disc.mapping[v]), RefShape(components, disc.mapping[v], depth))
    decreases depth, 1, |values|
  {
    hide Faithful, RefShape, DeclaredShape, Referent;
    if values != [] {
      var n := |values| - 1;
      var v := values[n];
      assert v in values && values == values[..n] + [v];
      VariantsMeanFrom(g, components, uses, disc, values[..n], depth);
      RefMeans(g, components, uses, disc.mapping[v], depth);
      NamedBack(g, components, uses, disc.mapping[v]);
      var all := VariantsFrom(disc, g.byRef, values);
      assert all[..|all| - 1] == VariantsFrom(disc, g.byRef, values[..n]);
    }
  }

  lemma SyntheticStructMeans(g: State, components: map<string, Schema>, uses: seq<Schema>, s: Schema, depth: nat)
    requires Faithful(g, components, uses) && IsAnonymous(s) && Occurs(components, uses, s)
            && ObjectSignature(s) in g.synthetic
    ensures g.synthetic[ObjectSignature(s)] !in g.byRef.Values
    ensures SyntheticShape(g, g.synthetic[ObjectSignature(s)], depth) == ObjectShape(components, s, depth)
    decreases depth, 3
  {
    hide Generated, Readable, Consistent, PlainUnions, Occurs, FieldsOk, ObjectSignature, SyntheticOk;
    var sig := ObjectSignature(s);
    var o := GeneratedSynthetic(g, components, uses, sig);
    SyntheticIsStruct(sig, g.types[g.synthetic[sig]], o, s, g.byRef, g.synthetic);
    OccursWithin(components, uses, o);
    StructMeans(g, components, uses, g.types[g.synthetic[sig]].fields, o, depth);
    SameSignatureSameShape(components, uses, o, s, depth);
  }

  lemma SyntheticIsStruct(sig: string, t: NamedType, o: Schema, s: Schema, byRef: map<string, string>,
                          syn: map<string, string>)
    requires s.Schema? && sig == ObjectSignature(s) && SyntheticOk(sig, t, o, byRef, syn)
    ensures o.Schema? && t.StructDecl? && IsAnonymous(o) && ObjectSignature(o) == sig
            && FieldsOk(t.fields, o, byRef, syn)
  {
    hide ObjectSignature, UnionSignature, FieldsOk;
    if t.UnionDecl? {
      SignatureKindsDiffer(s, o.disc.value, byRef);
    }
  }

  lemma SyntheticIsUnion(sig: string, t: NamedType, o: Schema, disc: Discriminator, byRef: map<string, string>,
                         syn: map<string, string>)
    requires MappingResolves(disc, byRef) && sig == UnionSignature(disc, byRef) && SyntheticOk(sig, t, o, byRef, syn)
    ensures o.Schema? && o.ref == "" && IsUnion(o) && MappingResolves(o.disc.value, byRef)
    ensures UnionSignature(o.disc.value, byRef) == sig
    ensures t == UnionDecl(o.disc.value.property, VariantsOf(o.disc.value, byRef))
  {
    hide ObjectSignature, UnionSignature, FieldsOk;
    if t.StructDecl? {
      SignatureKindsDiffer(o, disc, byRef);
    }
  }

  lemma SyntheticUnionMeans(g: State, components: map<string, Schema>, uses: seq<Schema>, s: Schema, depth: nat)
    requires Faithful(g, components, uses) && s.Schema? && s.ref == "" && IsUnion(s) && Occurs(components, uses, s)
    requires MappingResolves(s.disc.value, g.byRef) && UnionSignature(s.disc.value, g.byRef) in g.synthetic
    ensures g.synthetic[UnionSignature(s.disc.value, g.byRef)] !in g.byRef.Values
    ensures SyntheticShape(g, g.synthetic[UnionSignature(s.disc.value, g.byRef)], depth)
         == UnionShape(components, s.disc.value, depth)
    decreases depth, 3
  {
    hide SyntheticOk, UnionSignature, VariantsOf, UnionShape, Generated, Readable, Consistent, Occurs, ApartUnion;
    var disc := s.disc.value;
    var sig := UnionSignature(disc, g.byRef);
    var o := GeneratedSynthetic(g, components, uses, sig);
    SyntheticIsUnion(sig, g.types[g.synthetic[sig]], o, disc, g.byRef, g.synthetic);
    UnionSignatureDecides(o.disc.value, disc, g.byRef);
    VariantsMean(g, components, uses, disc, depth);
  }

  /** The generated declaration of every component has the component's shape, to
      every depth. */
  lemma ClientKeepsShape(g: State, components: map<string, Schema>, uses: seq<Schema>, k: string, depth: nat)
    requires Faithful(g, components, uses) && k in components
    ensures RefKey(k) in g.byRef
    ensures ExprShape(g, Name(g.byRef[RefKey(k)]), depth) == SchemaShape(components, RefTo(k), depth)
  {
    hide ComponentOk, SyntheticOk, TameComponent, DeclaredShape, RefShape;
    assert BuiltFrom(g, k, components);
    RefMeans(g, components, uses, RefKey(k), depth);
    assert RefTo(k).ref == RefKey(k) && RefKey(k) != "";
  }
}
