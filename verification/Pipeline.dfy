/** Server types in, client declarations out. */
module Pipeline {
  import opened Options
  import opened Schemas
  import opened Hoist
  import opened WireContract
  import opened WireFit
  import R = Registry
  import Meaning
  import Sharing
  import Names
  import ByValue
  import Absence
  import Text

  /** Every reference the client compiler will look up is there. */
  lemma {:induction false} TypeResolves(p: Program, t: GoType, s: Schema, format: string, byRef: map<string, string>)
    requires Usable(p, t) && Formatted(s, p, t, format)
    requires forall n | n in Mentions(t) :: RefKey(n) in byRef
    ensures R.Resolves(s, byRef)
    decreases t, 2
  {
    hide RefKey;
    match t
    case Basic(kind) =>
    case Time =>
    case RawMessage =>
    case Ptr(e) => TypeResolves(p, e, s, format, byRef);
    case Slice(e) => TypeResolves(p, e, SchemaOf(p, e), "", byRef);
    case Array(e) => TypeResolves(p, e, SchemaOf(p, e), "", byRef);
    case Map(e) => TypeResolves(p, e, SchemaOf(p, e), "", byRef);
    case Anon(fields) =>
      FieldsResolve(p, fields, byRef);
      AnonParts(p, fields, s, format);
    case Named(n) => assert RefTo(n).ref == RefKey(n);
    case Union(property, vs) => MappingIsVariants(p, property, vs);
  }

  lemma AnonParts(p: Program, fields: seq<Field>, s: Schema, format: string)
    requires Formatted(s, p, Anon(fields), format)
    ensures s.Schema? && s.ref == "" && !IsUnion(s) && s.typ == "object" && s.addl.NoSchema?
            && s.props == PropsOf(p, fields)
  {
    hide PropsOf, RequiredOf;
    assert SchemaOf(p, Anon(fields)) == StructOf(p, fields);
  }

  lemma {:induction false} FieldsResolve(p: Program, fields: seq<Field>, byRef: map<string, string>)
    requires FieldsUsable(p, fields)
    requires forall n | n in FieldMentions(fields) :: RefKey(n) in byRef
    ensures forall k | k in PropsOf(p, fields) :: R.Resolves(PropsOf(p, fields)[k], byRef)
    decreases fields, 1
  {
    hide RefKey, R.Resolves;
    if fields != [] {
      var n := |fields| - 1;
      var f := fields[n];
      FieldsResolve(p, fields[..n], byRef);
      if Serialized(f) {
        FieldFormatted(p, f);
        TypeResolves(p, f.typ, Decorate(SchemaOf(p, f.typ), f), f.format, byRef);
      }
    }
  }

  lemma DocumentResolves(p: Program, from: set<string>, byRef: map<string, string>)
    requires ProgramWellTyped(p) && ProgramUsable(p)
    requires byRef.Keys == R.RefKeys(Hoisted(p, from).Keys)
    ensures forall n | n in Hoisted(p, from) :: R.ComponentResolves(Hoisted(p, from)[n], byRef)
  {
    var components := Hoisted(p, from);
    HoistedComplete(p, from);
    hide Hoisted, FieldsUsable, Complete, R.ComponentResolves;
    forall n | n in components ensures R.ComponentResolves(components[n], byRef) {
      ComponentResolves(p, components, n, byRef);
    }
  }

  lemma ComponentResolves(p: Program, components: map<string, Schema>, n: string, byRef: map<string, string>)
    requires ProgramUsable(p) && n in components && Complete(p, components, n)
    requires byRef.Keys == R.RefKeys(components.Keys)
    ensures R.ComponentResolves(components[n], byRef)
  {
    hide RefKey, FieldsUsable;
    forall m | m in FieldMentions(p[n]) ensures RefKey(m) in byRef {
      assert RefKey(m) in R.RefKeys(components.Keys);
    }
    FieldsResolve(p, p[n], byRef);
    StructResolves(p, p[n], byRef);
  }

  lemma StructResolves(p: Program, fields: seq<Field>, byRef: map<string, string>)
    requires forall k | k in PropsOf(p, fields) :: R.Resolves(PropsOf(p, fields)[k], byRef)
    ensures R.ComponentResolves(StructOf(p, fields), byRef)
  {
    hide PropsOf;
  }

  // ------------------------------------------------ what operations use

  /** A type of a parameter, a body or a response, and what its name ends in if it
      needs one. */
  datatype Use = Use(typ: GoType, suffix: string)

  datatype Operation = Operation(id: string, uses: seq<Use>, takesParams: bool)

  function UseTypes(uses: seq<Use>): seq<GoType> {
    seq(|uses|, i requires 0 <= i < |uses| => uses[i].typ)
  }

  function TypesOf(ops: seq<Operation>): seq<GoType> {
    if ops == [] then [] else TypesOf(ops[..|ops| - 1]) + UseTypes(ops[|ops| - 1].uses)
  }

  function SchemasOf(p: Program, types: seq<GoType>): seq<Schema> {
    seq(|types|, i requires 0 <= i < |types| => SchemaOf(p, types[i]))
  }

  lemma {:induction false} TypeMentioned(types: seq<GoType>, i: nat)
    requires i < |types|
    ensures Mentions(types[i]) <= TypesMention(types)
  {
    if i < |types| - 1 {
      TypeMentioned(types[..|types| - 1], i);
    }
  }

  lemma UsesHoisted(p: Program, types: seq<GoType>, i: nat)
    requires ProgramWellTyped(p) && i < |types| && WellTyped(p, types[i])
    ensures Mentions(types[i]) <= Hoisted(p, TypesMention(types)).Keys
  {
    hide Hoisted;
    TypeMentioned(types, i);
    MentionsKnown(p, types[i]);
    HoistedComplete(p, TypesMention(types));
  }

  // ---------------------------------------------- nothing a compiler overlooks

  lemma {:induction false} SchemaLean(p: Program, t: GoType)
    ensures Sharing.Lean(SchemaOf(p, t))
    decreases t, 2
  {
    match t
    case Ptr(e) => SchemaLean(p, e);
    case Slice(e) => SchemaLean(p, e);
    case Array(e) => SchemaLean(p, e);
    case Map(e) => SchemaLean(p, e);
    case Anon(fields) => StructLean(p, fields);
    case _ =>
  }

  lemma {:induction false} FieldsLean(p: Program, fields: seq<Field>)
    ensures forall k | k in PropsOf(p, fields) :: Sharing.Lean(PropsOf(p, fields)[k])
    decreases fields, 1
  {
    hide Sharing.Lean, Decorate, JsonName;
    if fields != [] {
      var n := |fields| - 1;
      FieldsLean(p, fields[..n]);
      SchemaLean(p, fields[n].typ);
      DecorateLean(SchemaOf(p, fields[n].typ), fields[n]);
    }
  }

  lemma DecorateLean(s: Schema, f: Field)
    requires s.Schema? && Sharing.Lean(s)
    ensures Sharing.Lean(Decorate(s, f))
  {
  }

  lemma DocumentLean(p: Program, types: seq<GoType>)
    requires ProgramWellTyped(p)
    ensures Sharing.LeanDocument(Hoisted(p, TypesMention(types)), SchemasOf(p, types))
  {
    var components := Hoisted(p, TypesMention(types));
    HoistedComplete(p, TypesMention(types));
    hide Hoisted, Sharing.Lean, FieldMentions;
    forall k | k in components ensures Sharing.LeanComponent(components[k]) {
      assert Complete(p, components, k);
      StructLean(p, p[k]);
    }
    forall i | 0 <= i < |types| ensures Sharing.Lean(SchemasOf(p, types)[i]) {
      SchemaLean(p, types[i]);
    }
  }

  lemma StructLean(p: Program, fields: seq<Field>)
    ensures Sharing.LeanComponent(StructOf(p, fields)) && Sharing.Lean(StructOf(p, fields))
    decreases fields, 2
  {
    FieldsLean(p, fields);
    hide PropsOf, RequiredOf;
  }

  // ------------------------------------------------------- shapes on both ends

  /** The client's type for every struct, and for every type an operation uses, is
      what the document says of it, to every depth. */
  ghost predicate AsDocumented(g: R.State, p: Program, names: set<string>, types: seq<GoType>, exprs: seq<R.Expr>) {
    && (forall n, depth: nat | n in names :: ShapeAsDocumented(g, p, n, depth))
    && |exprs| == |types|
    && (forall i, depth: nat | 0 <= i < |types| :: UseAsDocumented(g, p, types[i], exprs[i], depth))
  }

  ghost predicate ShapeAsDocumented(g: R.State, p: Program, n: string, depth: nat) {
    RefKey(n) in g.byRef && Meaning.ExprShape(g, R.Name(g.byRef[RefKey(n)]), depth) == NamedShape(p, n, depth, Document)
  }

  ghost predicate UseAsDocumented(g: R.State, p: Program, t: GoType, e: R.Expr, depth: nat) {
    Meaning.ExprShape(g, e, depth) == TypeShape(p, t, "", depth, Document)
  }

  /** They hold what the server writes, to every depth. */
  ghost predicate HoldsWire(g: R.State, p: Program, names: set<string>, types: seq<GoType>, exprs: seq<R.Expr>) {
    && (forall n, depth: nat | n in names :: HoldsShape(g, p, n, depth))
    && |exprs| == |types|
    && (forall i, depth: nat | 0 <= i < |types| :: HoldsUse(g, p, types[i], exprs[i], depth))
  }

  ghost predicate HoldsShape(g: R.State, p: Program, n: string, depth: nat) {
    && RefKey(n) in g.byRef
    && Fits(NamedShape(p, n, depth, Server), Meaning.ExprShape(g, R.Name(g.byRef[RefKey(n)]), depth))
  }

  ghost predicate HoldsUse(g: R.State, p: Program, t: GoType, e: R.Expr, depth: nat) {
    Fits(TypeShape(p, t, "", depth, Server), Meaning.ExprShape(g, e, depth))
  }

  /** All types an operation uses are of this program, and of use to a client. */
  ghost predicate Fair(p: Program, types: seq<GoType>) {
    ProgramWellTyped(p) && ProgramUsable(p) && forall t | t in types :: WellTyped(p, t) && Usable(p, t)
  }

  lemma NamedIs(p: Program, n: string, depth: nat)
    ensures TypeShape(p, Named(n), "", depth, Document) == NamedShape(p, n, depth, Document)
  {
  }

  lemma NamedMeans(p: Program, components: map<string, Schema>, n: string, depth: nat)
    requires ProgramUsable(p) && n in components && forall m | m in components :: Complete(p, components, m)
    ensures Meaning.SchemaShape(components, RefTo(n), depth) == NamedShape(p, n, depth, Document)
  {
    hide Complete, FieldsUsable, NamedShape, Meaning.SchemaShape, RefKey;
    TypeMeans(p, components, Named(n), RefTo(n), "", depth);
    NamedIs(p, n, depth);
  }

  lemma UseMeans(p: Program, types: seq<GoType>, i: nat, depth: nat)
    requires Fair(p, types) && i < |types|
    ensures Meaning.SchemaShape(Hoisted(p, TypesMention(types)), SchemaOf(p, types[i]), depth)
         == TypeShape(p, types[i], "", depth, Document)
  {
    HoistedComplete(p, TypesMention(types));
    UsesHoisted(p, types, i);
    hide Hoisted, Complete, FieldsUsable, WellTyped, ProgramWellTyped, Meaning.SchemaShape, TypeShape;
    TypeMeans(p, Hoisted(p, TypesMention(types)), types[i], SchemaOf(p, types[i]), "", depth);
  }

  /** Where the parts of signatures can be read back, the client is what the
      document says exactly when anonymous objects that share a declaration are
      the same inside. */
  lemma DocumentedExactly(g: R.State, p: Program, types: seq<GoType>, exprs: seq<R.Expr>)
    requires Fair(p, types) && Legible(p, types)
            && Meaning.Generated(g, Hoisted(p, TypesMention(types)), SchemasOf(p, types))
    requires forall r | r in g.byRef :: ',' !in g.byRef[r]
    requires Expresses(g, p, types, exprs)
    ensures AsDocumented(g, p, Hoisted(p, TypesMention(types)).Keys, types, exprs) <==>
              Meaning.Consistent(Hoisted(p, TypesMention(types)), SchemasOf(p, types))
  {
    var components, uses := Hoisted(p, TypesMention(types)), SchemasOf(p, types);
    DocumentLean(p, types);
    hide Fair, Hoisted, AsDocumented, Meaning.Generated, Meaning.Readable, Meaning.PlainUnions, Meaning.Consistent,
         Sharing.LeanDocument, Sharing.SaysTheSame, R.Denotes;
    Sharing.SaysTheSameExactly(g, components, uses, exprs);
    SaysIsDocumented(g, p, types, exprs);
  }

  ghost predicate Legible(p: Program, types: seq<GoType>) {
    && Meaning.Readable(Hoisted(p, TypesMention(types)), SchemasOf(p, types))
    && Meaning.PlainUnions(Hoisted(p, TypesMention(types)), SchemasOf(p, types))
  }

  /** The expressions stand for the types' schemas. */
  ghost predicate Expresses(g: R.State, p: Program, types: seq<GoType>, exprs: seq<R.Expr>) {
    && |exprs| == |types|
    && forall i | 0 <= i < |types| :: R.Denotes(exprs[i], SchemaOf(p, types[i]), g.byRef, g.synthetic)
  }

  lemma SaysIsDocumented(g: R.State, p: Program, types: seq<GoType>, exprs: seq<R.Expr>)
    requires Fair(p, types) && |exprs| == |types|
    ensures Sharing.SaysTheSame(g, Hoisted(p, TypesMention(types)), SchemasOf(p, types), exprs) <==>
              AsDocumented(g, p, Hoisted(p, TypesMention(types)).Keys, types, exprs)
  {
    var components, uses := Hoisted(p, TypesMention(types)), SchemasOf(p, types);
    HoistedComplete(p, TypesMention(types));
    assert |uses| == |types| && forall i | 0 <= i < |types| :: uses[i] == SchemaOf(p, types[i]);
    hide Hoisted, SchemasOf, Complete, WellTyped, ProgramWellTyped, ProgramUsable, Usable, Meaning.SchemaShape,
         Meaning.ExprShape, TypeShape, NamedShape, SchemaOf, RefKey;
    forall n, depth: nat | n in components
      ensures Sharing.ComponentKept(g, components, n, depth) <==> ShapeAsDocumented(g, p, n, depth)
    {
      NamedMeans(p, components, n, depth);
    }
    forall i, depth: nat | 0 <= i < |types|
      ensures Meaning.SchemaShape(components, uses[i], depth) == TypeShape(p, types[i], "", depth, Document)
    {
      UseMeans(p, types, i, depth);
    }
    if AsDocumented(g, p, components.Keys, types, exprs) {
      forall i | 0 <= i < |types| ensures Sharing.UseKept(g, components, uses[i], exprs[i]) {
        forall depth: nat
          ensures Meaning.ExprShape(g, exprs[i], depth) == Meaning.SchemaShape(components, uses[i], depth)
        {
          assert UseAsDocumented(g, p, types[i], exprs[i], depth);
        }
      }
    }
    if Sharing.SaysTheSame(g, components, uses, exprs) {
      forall i, depth: nat | 0 <= i < |types| ensures UseAsDocumented(g, p, types[i], exprs[i], depth) {
        assert Sharing.UseKept(g, components, uses[i], exprs[i]);
      }
    }
  }

  lemma HoistedClosed(p: Program, from: set<string>)
    requires ProgramWellTyped(p)
    ensures Closed(p, Hoisted(p, from).Keys)
  {
    HoistedComplete(p, from);
    hide Hoisted, ProgramWellTyped, FieldMentions, StructOf;
    forall n | n in Hoisted(p, from).Keys ensures n in p && FieldMentions(p[n]) <= Hoisted(p, from).Keys {
      assert Complete(p, Hoisted(p, from), n);
    }
  }

  /** Every struct and every type used is held. */
  ghost predicate EverythingHeld(p: Program, names: set<string>, types: seq<GoType>) {
    AllHeld(p, names) && forall t | t in types :: Held(p, t, "")
  }

  /** A client that is what the document says holds all the server writes exactly
      when every type it writes is held. */
  lemma WireHeldExactly(g: R.State, p: Program, types: seq<GoType>, exprs: seq<R.Expr>)
    requires Fair(p, types) && AsDocumented(g, p, Hoisted(p, TypesMention(types)).Keys, types, exprs)
    ensures HoldsWire(g, p, Hoisted(p, TypesMention(types)).Keys, types, exprs) <==>
              EverythingHeld(p, Hoisted(p, TypesMention(types)).Keys, types)
  {
    var names := Hoisted(p, TypesMention(types)).Keys;
    HoistedClosed(p, TypesMention(types));
    HeldExactly(p, names);
    StructsHold(g, p, names, types, exprs);
    hide Hoisted, Closed, AllHeld, ProgramWellTyped, ProgramUsable, Usable, WellTyped, NamedShape, TypeShape,
         Meaning.ExprShape, Fits, Held, HoldsShape;
    if HoldsWire(g, p, names, types, exprs) {
      forall t | t in types ensures Held(p, t, "") {
        var i :| 0 <= i < |types| && types[i] == t;
        forall depth: nat ensures TypeFits(p, t, "", depth) {
          assert HoldsUse(g, p, types[i], exprs[i], depth) && UseAsDocumented(g, p, types[i], exprs[i], depth);
        }
        FitsHeld(p, t, "");
      }
    }
    if EverythingHeld(p, names, types) {
      forall i, depth: nat | 0 <= i < |types| ensures HoldsUse(g, p, types[i], exprs[i], depth) {
        UsesHoisted(p, types, i);
        HeldFits(p, names, types[i], "", depth);
        assert UseAsDocumented(g, p, types[i], exprs[i], depth);
      }
    }
  }

  lemma StructsHold(g: R.State, p: Program, names: set<string>, types: seq<GoType>, exprs: seq<R.Expr>)
    requires AsDocumented(g, p, names, types, exprs)
    ensures (forall n, depth: nat | n in names :: HoldsShape(g, p, n, depth)) <==>
              (forall n, depth: nat | n in names :: NamedFits(p, n, depth))
  {
    hide NamedShape, Meaning.ExprShape, Fits, RefKey;
    forall n, depth: nat | n in names ensures HoldsShape(g, p, n, depth) <==> NamedFits(p, n, depth) {
      assert ShapeAsDocumented(g, p, n, depth);
    }
    if forall n, depth: nat | n in names :: HoldsShape(g, p, n, depth) {
      forall n, depth: nat | n in names ensures NamedFits(p, n, depth) { assert HoldsShape(g, p, n, depth); }
    }
  }

  // ------------------------------------------------------ the fields of structs

  /** The generated struct of `n` has the documented names of `n`, each once, a field
      that tells when the property is missing where it may be, and
      `omitempty` exactly where the server may leave the field out. */
  ghost predicate SameFields(fields: seq<R.StructField>, server: seq<Field>) {
    && (set f | f in fields :: f.jsonName) == JsonNames(server)
    && (forall i, j | 0 <= i < j < |fields| ::
          fields[i].jsonName != fields[j].jsonName && fields[i].name != fields[j].name)
    && (forall f, s | f in fields && s in server && Serialized(s) && f.jsonName == JsonName(s).value ::
          f.omitEmpty == !FieldRequired(s))
    && (forall f | f in fields :: if f.omitEmpty then Absence.TellsMissing(f.typ) else !f.typ.PtrTo?)
  }

  /** `n`, if anything of it is on the wire, is a struct of the client's with its
      fields. */
  ghost predicate HasFields(g: R.State, p: Program, n: string) {
    && RefKey(n) in g.byRef && g.byRef[RefKey(n)] in g.types && n in p
    && (JsonNames(p[n]) != {} ==>
          var t := g.types[g.byRef[RefKey(n)]]; t.StructDecl? && SameFields(t.fields, p[n]))
  }

  lemma FieldsKept(g: R.State, p: Program, from: set<string>, uses: seq<Schema>, n: string)
    requires ProgramWellTyped(p) && ProgramUsable(p)
    requires Meaning.Generated(g, Hoisted(p, from), uses) && n in Hoisted(p, from)
    ensures HasFields(g, p, n)
  {
    var components := Hoisted(p, from);
    HoistedComplete(p, from);
    CompleteParts(p, components, n);
    assert R.BuiltFrom(g, n, components);
    var k := Meaning.GeneratedRef(g, components, uses, RefKey(n));
    RefInjective(k, n);
    hide Hoisted, Complete, FieldsUsable, Meaning.Generated, RefKey, R.FieldsFrom, SameFields;
    PropNames(p, p[n], 0);
    if JsonNames(p[n]) != {} {
      StructFieldsKept(g, p, p[n], g.types[g.byRef[RefKey(n)]].fields);
    }
  }

  lemma StructFieldsKept(g: R.State, p: Program, server: seq<Field>, fields: seq<R.StructField>)
    requires FieldsUsable(p, server)
    requires R.FieldsOk(fields, StructOf(p, server), g.byRef, g.synthetic)
    ensures SameFields(fields, server)
  {
    var s := StructOf(p, server);
    var keys := Text.SortedKeys(s.props.Keys);
    PropNames(p, server, 0);
    RequiredExactly(p, server);
    FieldNamesAre(fields, s, keys, g);
    R.SortedKeysLists(s.props.Keys);
    ListedNames(fields, keys, JsonNames(server));
    ListedRequired(fields, keys, s.required, server);
  }

  lemma ListedNames(fields: seq<R.StructField>, keys: seq<string>, names: set<string>)
    requires R.Lists(keys, names) && |fields| == |keys|
    requires forall i | 0 <= i < |keys| :: fields[i].jsonName == keys[i]
    ensures (set f | f in fields :: f.jsonName) == names
  {
    var all := set f | f in fields :: f.jsonName;
    forall k | k in names ensures k in all {
      var i :| 0 <= i < |keys| && keys[i] == k;
      assert fields[i] in fields && fields[i].jsonName == k;
    }
    forall f | f in fields ensures f.jsonName in names {
      var i :| 0 <= i < |fields| && fields[i] == f;
    }
  }

  lemma ListedRequired(fields: seq<R.StructField>, keys: seq<string>, required: seq<string>, server: seq<Field>)
    requires |fields| == |keys|
    requires forall i | 0 <= i < |keys| ::
               fields[i].jsonName == keys[i] && fields[i].omitEmpty == (keys[i] !in required)
    requires forall s | s in server && Serialized(s) :: JsonName(s).value in required <==> FieldRequired(s)
    ensures forall f, s | f in fields && s in server && Serialized(s) && f.jsonName == JsonName(s).value ::
              f.omitEmpty == !FieldRequired(s)
  {
    hide FieldRequired, Serialized, JsonName;
    forall f | f in fields ensures f.omitEmpty == (f.jsonName !in required) {
      var i :| 0 <= i < |fields| && fields[i] == f;
    }
  }

  lemma FieldNamesAre(fields: seq<R.StructField>, s: Schema, keys: seq<string>, g: R.State)
    requires s.Schema? && (forall k | k in keys :: k in s.props) && R.FieldsFrom(fields, s, keys, g.byRef, g.synthetic)
    ensures |fields| == |keys|
    ensures forall i | 0 <= i < |keys| ::
              fields[i].jsonName == keys[i] && fields[i].omitEmpty == (keys[i] !in s.required)
    ensures forall i, j | 0 <= i < j < |fields| :: fields[i].name != fields[j].name
    ensures forall f | f in fields :: if f.omitEmpty then Absence.TellsMissing(f.typ) else !f.typ.PtrTo?
  {
    hide R.FieldDenotes, Absence.TellsMissing;
    forall i | 0 <= i < |keys|
      ensures fields[i].jsonName == keys[i] && fields[i].omitEmpty == (keys[i] !in s.required)
      ensures if fields[i].omitEmpty then Absence.TellsMissing(fields[i].typ) else !fields[i].typ.PtrTo?
    {
      assert R.FieldOk(fields[i], keys[i], s, g.byRef, g.synthetic);
      if fields[i].omitEmpty {
        Absence.OptionalTellsMissing(fields[i].typ, s.props[keys[i]], g.byRef, g.synthetic);
      } else {
        Absence.RequiredHasNoPointer(fields[i].typ, s.props[keys[i]], g.byRef, g.synthetic);
      }
    }
  }

  /** Where no server struct holds itself by value, no client type does. */
  lemma NoClientTypeContainsItself(g: R.State, p: Program, from: set<string>, uses: seq<Schema>, rank: ByValue.Ranking,
                                   path: seq<string>)
    requires ProgramUsable(p) && ByValue.GoLayout(p, rank)
    requires ByValue.Built(g, Hoisted(p, from), uses)
    requires ByValue.Chain(g, path) && |path| > 1
    ensures path[0] != path[|path| - 1]
  {
    hide *;
    ByValue.LayoutRanks(p, from, rank);
    ByValue.NoTypeContainsItself(g, Hoisted(p, from), uses, rank, path);
  }

  /** Every name used is declared, once, and is no reserved word. */
  ghost predicate Declares(g: R.State) {
    && (forall n | n in g.types :: R.DeclNames(g.types[n]) <= g.types.Keys)
    && g.types.Keys == g.byRef.Values + g.synthetic.Values && g.types.Keys !! g.reserved
    && g.byRef.Values !! g.synthetic.Values && R.Injective(g.byRef) && R.Injective(g.synthetic)
  }

  /** No declaration holds itself by value. */
  ghost predicate Compiles(g: R.State) {
    forall path | ByValue.Chain(g, path) && |path| > 1 :: path[0] != path[|path| - 1]
  }

  // -------------------------------------------------------- one after the other

  /** Names of methods and of parameter structs: each once, and parameter structs
      apart from every type. */
  ghost predicate NamedApart(g: R.State, reserved: set<string>, methods: seq<string>, params: seq<Option<string>>) {
    && (forall i, j | 0 <= i < j < |methods| :: methods[i] != methods[j])
    && (forall m | m in methods :: m !in reserved)
    && (forall i, j | 0 <= i < j < |params| && params[i].Some? :: params[i] != params[j])
    && (forall q | q in params && q.Some? :: q.value !in g.types && q.value !in reserved)
  }

  /** What the loop over operations has done: `exprs` for all types used so far, a
      method for each operation, a parameter struct where it takes parameters. */
  ghost predicate Described(g: R.State, p: Program, ops: seq<Operation>, exprs: seq<R.Expr>, methods: seq<string>,
                            params: seq<Option<string>>)
  {
    && Expresses(g, p, TypesOf(ops), exprs)
    && |methods| == |ops| && |params| == |ops|
    && forall i | 0 <= i < |ops| :: params[i].Some? == ops[i].takesParams
  }

  /** A registry grown from the build, its reserved words more by the names set
      aside. */
  ghost predicate Beyond(built: R.State, g: R.State, params: seq<Option<string>>) {
    && g.byRef == built.byRef && R.Sub(built.synthetic, g.synthetic)
    && g.reserved == built.reserved + ParamNames(params) && built.reserved + ParamNames(params) <= g.used
  }

  ghost function ParamNames(params: seq<Option<string>>): set<string> {
    set q | q in params && q.Some? :: q.value
  }

  lemma BeyondMore(built: R.State, a: R.State, b: R.State, params: seq<Option<string>>)
    requires Beyond(built, a, params) && R.Grew(a, b)
    ensures Beyond(built, b, params)
  {
  }

  lemma ExpressesMore(a: R.State, b: R.State, p: Program, types: seq<GoType>, exprs: seq<R.Expr>, t: GoType, e: R.Expr)
    requires Expresses(a, p, types, exprs) && b.byRef == a.byRef && R.Sub(a.synthetic, b.synthetic)
    requires R.Denotes(e, SchemaOf(p, t), b.byRef, b.synthetic)
    ensures Expresses(b, p, types + [t], exprs + [e])
  {
    hide R.Denotes, SchemaOf, R.Sub;
    forall i | 0 <= i < |types| ensures R.Denotes(exprs[i], SchemaOf(p, types[i]), b.byRef, b.synthetic) {
      R.DenotesMore(exprs[i], SchemaOf(p, types[i]), a.byRef, a.synthetic, b.synthetic);
    }
  }

  lemma ExpressesStill(a: R.State, b: R.State, p: Program, types: seq<GoType>, exprs: seq<R.Expr>)
    requires Expresses(a, p, types, exprs) && b.byRef == a.byRef && b.synthetic == a.synthetic
    ensures Expresses(b, p, types, exprs)
  {
  }

  /** The types one operation uses, in order. */
  method UseEach(p: Program, r: R.Registry, name: string, uses: seq<Use>, schemas: seq<Schema>, exprs: seq<R.Expr>,
                 ghost before: seq<GoType>, ghost components: map<string, Schema>, ghost built: R.State,
                 ghost params: seq<Option<string>>)
    returns (ok: bool, more: seq<R.Expr>)
    requires r.Valid() && R.Compiled(r.Snapshot(), components) && Beyond(built, r.Snapshot(), params)
    requires Expresses(r.Snapshot(), p, before, exprs) && |schemas| == |uses|
    requires forall i | 0 <= i < |uses| ::
               schemas[i] == SchemaOf(p, uses[i].typ) && r.tame(schemas[i]) && R.Resolves(schemas[i], r.byRef)
    modifies r, r.names
    ensures ok && r.Valid() && R.Compiled(r.Snapshot(), components) && Beyond(built, r.Snapshot(), params)
    ensures r.byRef == old(r.byRef) && r.building == old(r.building)
    ensures Expresses(r.Snapshot(), p, before + UseTypes(uses), more)
  {
    hide R.WellKept, R.Hereditary, R.Compiled, Beyond, R.Grew, R.Settled, R.Denotes, R.Resolves, Expresses, SchemaOf;
    more := exprs;
    assert before + UseTypes(uses[..0]) == before;
    for i := 0 to |uses|
      invariant r.Valid() && R.Compiled(r.Snapshot(), components) && Beyond(built, r.Snapshot(), params)
      invariant r.byRef == old(r.byRef) && r.building == old(r.building)
      invariant Expresses(r.Snapshot(), p, before + UseTypes(uses[..i]), more)
    {
      ghost var here := r.Snapshot();
      var e;
      ok, e := r.BaseType(schemas[i], name + uses[i].suffix);
      R.GrewSub(here, r.Snapshot());
      assert ok;
      R.StaysCompiled(here, r.Snapshot(), components);
      BeyondMore(built, here, r.Snapshot(), params);
      ExpressesMore(here, r.Snapshot(), p, before + UseTypes(uses[..i]), more, uses[i].typ, e);
      assert before + UseTypes(uses[..i + 1]) == before + UseTypes(uses[..i]) + [uses[i].typ];
      more := more + [e];
    }
    assert uses[..|uses|] == uses;
    ok := true;
  }

  lemma TypesOfMore(ops: seq<Operation>, o: nat)
    requires o < |ops|
    ensures TypesOf(ops[..o + 1]) == TypesOf(ops[..o]) + UseTypes(ops[o].uses)
  {
    assert ops[..o + 1][..o] == ops[..o];
  }

  lemma {:induction false} TypesOfPrefix(ops: seq<Operation>, o: nat)
    requires o <= |ops|
    ensures TypesOf(ops[..o]) <= TypesOf(ops)
  {
    if o < |ops| {
      var n := |ops| - 1;
      TypesOfPrefix(ops[..n], o);
      assert ops[..n][..o] == ops[..o];
    } else {
      assert ops[..o] == ops;
    }
  }

  lemma BeyondName(built: R.State, a: R.State, params: seq<Option<string>>, name: string)
    requires Beyond(built, a, params)
    ensures Beyond(built, a.(used := a.used + {name}, reserved := a.reserved + {name}), params + [Some(name)])
    ensures Beyond(built, a, params + [None])
  {
    assert ParamNames(params + [Some(name)]) == ParamNames(params) + {name};
    assert ParamNames(params + [None]) == ParamNames(params);
  }

  lemma SetAside(built: R.State, g: R.State, tame: Schema -> bool, params: seq<Option<string>>, reserved: set<string>)
    requires R.WellKept(g, tame) && Beyond(built, g, params) && built.reserved == reserved
    ensures forall q | q in params && q.Some? :: q.value !in g.types && q.value in g.used
    ensures reserved <= g.used
  {
    hide R.ComponentsKept, R.SyntheticsKept;
    forall q | q in params && q.Some? ensures q.value !in g.types && q.value in g.used {
      assert q.value in ParamNames(params);
    }
  }

  /** `buildOperation`, as far as types and names go. */
  method BuildOperation(p: Program, r: R.Registry, name: string, op: Operation, schemas: seq<Schema>,
                        exprs: seq<R.Expr>,
                        ghost before: seq<GoType>, ghost components: map<string, Schema>, ghost built: R.State,
                        ghost params: seq<Option<string>>)
    returns (ok: bool, more: seq<R.Expr>, paramsType: Option<string>)
    requires r.Valid() && R.Compiled(r.Snapshot(), components) && Beyond(built, r.Snapshot(), params)
    requires Expresses(r.Snapshot(), p, before, exprs) && |schemas| == |op.uses|
    requires forall i | 0 <= i < |op.uses| ::
               schemas[i] == SchemaOf(p, op.uses[i].typ) && r.tame(schemas[i]) && R.Resolves(schemas[i], r.byRef)
    modifies r, r.names
    ensures ok && r.Valid() && R.Compiled(r.Snapshot(), components) && r.byRef == old(r.byRef)
    ensures Expresses(r.Snapshot(), p, before + UseTypes(op.uses), more)
    ensures paramsType.Some? == op.takesParams && Beyond(built, r.Snapshot(), params + [paramsType])
    ensures paramsType.Some? ==> paramsType !in params && paramsType.value !in built.reserved
    ensures paramsType.Some? ==> Names.NamedAfter(paramsType.value, name + "Params")
  {
    hide R.WellKept, R.Hereditary, R.Compiled, Beyond, R.Denotes, R.Resolves, Expresses, SchemaOf, UseTypes,
         Names.NamedAfter;
    ok, more := UseEach(p, r, name, op.uses, schemas, exprs, before, components, built, params);
    ghost var here := r.Snapshot();
    SetAside(built, here, r.tame, params, built.reserved);
    if !op.takesParams {
      paramsType := None;
      BeyondName(built, here, params, "");
      return;
    }
    var claimed := r.ClaimName(name + "Params");
    paramsType := Some(claimed);
    BeyondName(built, here, params, claimed);
    ExpressesStill(here, r.Snapshot(), p, before + UseTypes(op.uses), more);
    CompiledStill(here, r.Snapshot(), components);
  }

  /** What the names of methods and of their parameters are made of. */
  ghost predicate NamedAfterThem(ops: seq<Operation>, methods: seq<string>, params: seq<Option<string>>) {
    && |methods| == |params| <= |ops|
    && forall o | 0 <= o < |methods| ::
         && Names.NamedAfter(methods[o], ops[o].id)
         && (params[o].Some? ==> Names.NamedAfter(params[o].value, methods[o] + "Params"))
  }

  lemma OneNamedMore(ops: seq<Operation>, methods: seq<string>, params: seq<Option<string>>, name: string,
                     param: Option<string>)
    requires NamedAfterThem(ops, methods, params) && |methods| < |ops| && Names.NamedAfter(name, ops[|methods|].id)
    requires param.Some? ==> Names.NamedAfter(param.value, name + "Params")
    ensures NamedAfterThem(ops, methods + [name], params + [param])
  {
    hide Names.NamedAfter;
  }

  lemma NoneNamed(ops: seq<Operation>)
    ensures NamedAfterThem(ops, [], [])
  {
  }

  /** `buildOperations`. */
  method BuildOperations(p: Program, r: R.Registry, ops: seq<Operation>, schemas: seq<Schema>, reserved: set<string>,
                         ghost components: map<string, Schema>)
    returns (ok: bool, exprs: seq<R.Expr>, methods: seq<string>, params: seq<Option<string>>)
    requires r.Valid() && R.Compiled(r.Snapshot(), components) && r.reserved == reserved
    requires |schemas| == |TypesOf(ops)|
    requires forall i | 0 <= i < |schemas| ::
               schemas[i] == SchemaOf(p, TypesOf(ops)[i]) && r.tame(schemas[i]) && R.Resolves(schemas[i], r.byRef)
    modifies r, r.names
    ensures ok && r.Valid() && R.Compiled(r.Snapshot(), components) && r.byRef == old(r.byRef)
    ensures Described(r.Snapshot(), p, ops, exprs, methods, params)
    ensures NamedApart(r.Snapshot(), reserved, methods, params) && reserved <= r.reserved
    ensures NamedAfterThem(ops, methods, params)
  {
    hide R.WellKept, R.Hereditary, R.Compiled, Beyond, R.Denotes, R.Resolves, Expresses, SchemaOf, TypesOf, UseTypes,
         Names.Chosen, Names.NamedAfter, NamedAfterThem;
    var methodNames := new Names.NameSet(reserved);
    ghost var built := r.Snapshot();
    BeyondSelf(built, r.tame);
    exprs, methods, params := [], [], [];
    TypesOfNone(ops);
    NothingExpressed(built, p);
    NoneNamed(ops);
    for o := 0 to |ops|
      invariant fresh(methodNames) && r.byRef == old(r.byRef)
      invariant r.Valid() && R.Compiled(r.Snapshot(), components) && Beyond(built, r.Snapshot(), params)
      invariant Expresses(r.Snapshot(), p, TypesOf(ops[..o]), exprs) && |exprs| == |TypesOf(ops[..o])|
      invariant NamedAfterThem(ops, methods, params)
      invariant |methods| == o && |params| == o && forall i | 0 <= i < o :: params[i].Some? == ops[i].takesParams
      invariant reserved <= methodNames.used && forall m | m in methods :: m in methodNames.used && m !in reserved
      invariant forall i, j | 0 <= i < j < |methods| :: methods[i] != methods[j]
      invariant forall i, j | 0 <= i < j < |params| && params[i].Some? :: params[i] != params[j]
      invariant forall q | q in params && q.Some? :: q.value !in reserved
    {
      var op := ops[o];
      TypesOfMore(ops, o);
      TypesOfPrefix(ops, o + 1);
      var name, _ := methodNames.Claim(op.id);
      var n := |exprs|;
      UsesAt(p, ops, o, schemas, n);
      var paramsType;
      ok, exprs, paramsType := BuildOperation(p, r, name, op, schemas[n..n + |op.uses|], exprs, TypesOf(ops[..o]),
                                              components, built, params);
      ExpressesLength(r.Snapshot(), p, TypesOf(ops[..o + 1]), exprs);
      OneNamedMore(ops, methods, params, name, paramsType);
      methods := methods + [name];
      params := params + [paramsType];
    }
    assert ops[..|ops|] == ops;
    SetAside(built, r.Snapshot(), r.tame, params, reserved);
    ReservedMore(built, r.Snapshot(), params);
    ok := true;
  }

  lemma BeyondSelf(built: R.State, tame: Schema -> bool)
    requires R.WellKept(built, tame)
    ensures Beyond(built, built, []) && built.reserved <= built.used
  {
    hide R.ComponentsKept, R.SyntheticsKept;
    assert ParamNames([]) == {};
  }

  lemma ReservedMore(built: R.State, g: R.State, params: seq<Option<string>>)
    requires Beyond(built, g, params)
    ensures built.reserved <= g.reserved && g.byRef == built.byRef
  {
  }

  lemma TypesOfNone(ops: seq<Operation>)
    ensures TypesOf(ops[..0]) == []
  {
  }

  lemma NothingExpressed(g: R.State, p: Program)
    ensures Expresses(g, p, [], [])
  {
  }

  lemma ExpressesLength(g: R.State, p: Program, types: seq<GoType>, exprs: seq<R.Expr>)
    requires Expresses(g, p, types, exprs)
    ensures |exprs| == |types|
  {
  }

  lemma CompiledStill(a: R.State, b: R.State, components: map<string, Schema>)
    requires R.Compiled(a, components) && b.byRef == a.byRef && b.types == a.types && b.synthetic == a.synthetic
            && b.origin == a.origin
    ensures R.Compiled(b, components)
  {
    hide RefKey;
    forall k | k in components ensures R.BuiltFrom(b, k, components) {
      assert R.BuiltFrom(a, k, components);
    }
  }

  lemma UsesAt(p: Program, ops: seq<Operation>, o: nat, schemas: seq<Schema>, n: nat)
    requires o < |ops| && |schemas| == |TypesOf(ops)| && n == |TypesOf(ops[..o])|
    requires forall i | 0 <= i < |schemas| :: schemas[i] == SchemaOf(p, TypesOf(ops)[i])
    ensures n + |ops[o].uses| <= |schemas|
    ensures forall i | 0 <= i < |ops[o].uses| :: schemas[n + i] == SchemaOf(p, ops[o].uses[i].typ)
  {
    hide SchemaOf, TypesOf;
    TypesOfMore(ops, o);
    TypesOfPrefix(ops, o + 1);
    forall i | 0 <= i < |ops[o].uses| ensures TypesOf(ops)[n + i] == ops[o].uses[i].typ {
      assert TypesOf(ops[..o + 1])[n + i] == UseTypes(ops[o].uses)[i];
    }
  }

  /** `Generator.Spec` followed by `clientgen`'s declare, build and operations. On
      server types a client can use, generation succeeds, declares every name it
      uses, and keeps the fields. A client whose anonymous objects are told apart
      compiles. Where signatures can be read back, it is what the document says
      exactly when objects that share a declaration are the same inside; then it
      holds what the server writes exactly when every type written is held. */
  method GenerateClient(p: Program, ops: seq<Operation>, reserved: set<string>,
                        typeName: string -> string, exportedName: string -> string)
    returns (ok: bool, r: R.Registry, exprs: seq<R.Expr>, methods: seq<string>, params: seq<Option<string>>)
    requires Fair(p, TypesOf(ops))
    ensures ok && r.Valid() && Declares(r.Snapshot()) && forall e | e in exprs :: R.NamesIn(e) <= r.types.Keys
    ensures Described(r.Snapshot(), p, ops, exprs, methods, params)
    ensures NamedApart(r.Snapshot(), reserved, methods, params) && NamedAfterThem(ops, methods, params)
    ensures forall n | n in Hoisted(p, TypesMention(TypesOf(ops))) ::
              RefKey(n) in r.byRef && Names.NamedAfter(r.byRef[RefKey(n)], typeName(n))
    ensures forall n | n in Hoisted(p, TypesMention(TypesOf(ops))) :: HasFields(r.Snapshot(), p, n)
    ensures forall rank | ByValue.GoLayout(p, rank)
                          && Meaning.Readable(Hoisted(p, TypesMention(TypesOf(ops))), SchemasOf(p, TypesOf(ops))) ::
              Compiles(r.Snapshot())
    ensures Legible(p, TypesOf(ops)) && R.CommaFree(typeName) ==>
              (AsDocumented(r.Snapshot(), p, Hoisted(p, TypesMention(TypesOf(ops))).Keys, TypesOf(ops), exprs) <==>
                 Meaning.Consistent(Hoisted(p, TypesMention(TypesOf(ops))), SchemasOf(p, TypesOf(ops))))
    ensures var types := TypesOf(ops);
            var names := Hoisted(p, TypesMention(types)).Keys;
            AsDocumented(r.Snapshot(), p, names, types, exprs) ==>
              (HoldsWire(r.Snapshot(), p, names, types, exprs) <==> EverythingHeld(p, names, types))
  {
    hide Hoisted, TypesMention, ProgramWellTyped, ProgramUsable, R.WellKept, R.Declared,
         R.Compiled, R.Grew, R.Hereditary, R.ComponentResolves, R.TameComponent, WellTyped, Declares, HasFields,
         Compiles, AsDocumented, HoldsWire, EverythingHeld, Meaning.Readable, Meaning.Consistent, Meaning.PlainUnions,
         ByValue.GoLayout, TypesOf, Expresses, NamedApart, Legible, R.Denotes, R.Resolves, Usable, SchemaOf,
         RefKey, Names.NamedAfter, NamedAfterThem;
    ghost var types := TypesOf(ops);
    ghost var from := TypesMention(types);
    var schemas, components := BuildDocument(p, TypesOf(ops));
    assert schemas == SchemasOf(p, types);
    Meaning.PartsHereditary(components, schemas);
    Meaning.ComponentsTame(components, schemas);
    r := new R.Registry(reserved, typeName, exportedName, Meaning.Part(components, schemas));
    r.Declare(components);
    ghost var declared := r.Snapshot();
    DeclaredKeys(declared, components.Keys);
    DocumentResolves(p, from, declared.byRef);
    ok := r.Build(components);
    R.GrewSub(declared, r.Snapshot());
    UsesReady(p, types, components, r.byRef);
    ok, exprs, methods, params := BuildOperations(p, r, ops, schemas, reserved, components);
    ghost var g := r.Snapshot();
    assert Meaning.Generated(g, components, schemas);
    AllDeclared(g, components, schemas);
    ExprNames(g, p, types, exprs);
    forall n | n in components ensures HasFields(g, p, n) { FieldsKept(g, p, from, schemas, n); }
    forall rank | ByValue.GoLayout(p, rank) && Meaning.Readable(components, schemas) ensures Compiles(g) {
      ClientCompiles(g, p, from, schemas, rank);
    }
    if Legible(p, types) && R.CommaFree(typeName) {
      DocumentedExactly(g, p, types, exprs);
    }
    if AsDocumented(g, p, components.Keys, types, exprs) {
      WireHeldExactly(g, p, types, exprs);
    }
  }

  lemma UsesReady(p: Program, types: seq<GoType>, components: map<string, Schema>, byRef: map<string, string>)
    requires Fair(p, types) && components == Hoisted(p, TypesMention(types)) && byRef.Keys == R.RefKeys(components.Keys)
    ensures forall i | 0 <= i < |types| ::
              && Meaning.Part(components, SchemasOf(p, types))(SchemaOf(p, types[i]))
              && R.Resolves(SchemaOf(p, types[i]), byRef)
  {
    var uses := SchemasOf(p, types);
    hide Hoisted, ProgramWellTyped, ProgramUsable, WellTyped, Usable, R.Resolves, Meaning.Occurs, RefKey, SchemaOf;
    forall i | 0 <= i < |types|
      ensures Meaning.Part(components, uses)(SchemaOf(p, types[i])) && R.Resolves(SchemaOf(p, types[i]), byRef)
    {
      assert uses[i] == SchemaOf(p, types[i]);
      Sharing.UseOccurs(components, uses, uses[i]);
      UsesHoisted(p, types, i);
      forall n | n in Mentions(types[i]) ensures RefKey(n) in byRef {
        assert RefKey(n) in R.RefKeys(components.Keys);
      }
      TypeResolves(p, types[i], SchemaOf(p, types[i]), "", byRef);
    }
  }

  lemma ExprNames(g: R.State, p: Program, types: seq<GoType>, exprs: seq<R.Expr>)
    requires Expresses(g, p, types, exprs) && Declares(g)
    ensures forall e | e in exprs :: R.NamesIn(e) <= g.types.Keys
  {
    hide R.Denotes, SchemaOf;
    forall e | e in exprs ensures R.NamesIn(e) <= g.types.Keys {
      var i :| 0 <= i < |exprs| && exprs[i] == e;
      R.DenotesNames(e, SchemaOf(p, types[i]), g.byRef, g.synthetic);
    }
  }

  lemma AllDeclared(g: R.State, components: map<string, Schema>, uses: seq<Schema>)
    requires Meaning.Generated(g, components, uses)
    ensures Declares(g)
  {
    R.CompiledDeclares(g, components);
    R.EveryNameDeclared(g, Meaning.Part(components, uses));
    hide R.Compiled, R.DeclNames;
  }

  lemma ClientCompiles(g: R.State, p: Program, from: set<string>, uses: seq<Schema>, rank: ByValue.Ranking)
    requires ProgramUsable(p) && ByValue.GoLayout(p, rank)
    requires Meaning.Generated(g, Hoisted(p, from), uses) && Meaning.Readable(Hoisted(p, from), uses)
    ensures Compiles(g)
  {
    hide ProgramUsable, ByValue.GoLayout, Meaning.Generated, Meaning.Readable, ByValue.Chain, Hoisted;
    forall path | ByValue.Chain(g, path) && |path| > 1 ensures path[0] != path[|path| - 1] {
      NoClientTypeContainsItself(g, p, from, uses, rank, path);
    }
  }

  lemma DeclaredKeys(st: R.State, keys: set<string>)
    requires R.Declared(st, keys)
    ensures st.byRef.Keys == R.RefKeys(keys)
  {
  }

  // ---------------------------------------------- a program that qualifies

  function Link(): Field {
    Field("Next", true, Some("next"), Ptr(Named("Node")), "", "", "", map[])
  }

  function Label(): Field {
    Field("Label", true, None, Basic(String), "", "", "", map[])
  }

  /** A list node that refers to itself. */
  function Nodes(): Program {
    map["Node" := [Link(), Label()]]
  }

  lemma NodeParts()
    ensures [Link(), Label()][..1] == [Link()] && [Link()][..0] == []
    ensures JsonName(Link()) == Some("next") && JsonName(Label()) == Some("Label")
    ensures Serialized(Link()) && Serialized(Label())
  {
    assert ',' !in "next";
    assert Text.IndexOf("next", ',') == -1;
  }

  lemma NodeSchema()
    ensures var link, text := Decorate(RefTo("Node"), Link()), Decorate(Typed("string", ""), Label());
            var props := map["next" := link, "Label" := text];
            && PropsOf(Nodes(), [Link(), Label()]) == props
            && StructOf(Nodes(), [Link(), Label()]) == ObjectOf(props, RequiredOf([Link(), Label()]))
    ensures FieldMentions([Link(), Label()]) == {"Node"}
  {
    hide Decorate, JsonName, Serialized;
    NodeParts();
    assert PropsOf(Nodes(), [Link()]) == map["next" := Decorate(RefTo("Node"), Link())];
    assert FieldMentions([Link()]) == {"Node"};
  }

  lemma NodeUsable()
    ensures ProgramWellTyped(Nodes()) && ProgramUsable(Nodes())
  {
    NodeParts();
    assert JsonNames([Link()]) == {"next"};
  }

  lemma NodeLayout()
    ensures ByValue.GoLayout(Nodes(), _ => 0)
  {
    NodeParts();
    assert ByValue.GoFieldValues([Link()]) == {};
    assert ByValue.GoFieldValues([Link(), Label()]) == {};
  }

  lemma LeafParts(s: Schema)
    requires s.Schema? && s.items.NoSchema? && s.addl.NoSchema? && s.props == map[]
    ensures Meaning.Parts(s) == {s, NoSchema}
  {
    assert Meaning.Parts(s.items) == {NoSchema} && Meaning.Parts(s.addl) == {NoSchema};
  }

  lemma NodeOccurs(components: map<string, Schema>, s: Schema)
    requires components.Keys == {"Node"} && components["Node"] == StructOf(Nodes(), [Link(), Label()])
    requires Meaning.Occurs(components, SchemasOf(Nodes(), [Named("Node")]), s)
    ensures !R.IsAnonymous(s) && !(s.Schema? && IsUnion(s))
  {
    NodeSchema();
    hide PropsOf, RequiredOf, Meaning.Parts;
    LeafParts(Decorate(RefTo("Node"), Link()));
    LeafParts(Decorate(Typed("string", ""), Label()));
    LeafParts(RefTo("Node"));
    assert SchemasOf(Nodes(), [Named("Node")]) == [RefTo("Node")];
    assert components["Node"].props.Keys == {"next", "Label"};
  }

  lemma NodeHoisted()
    ensures Hoisted(Nodes(), {"Node"}) == map["Node" := StructOf(Nodes(), [Link(), Label()])]
  {
    NodeUsable();
    HoistedComplete(Nodes(), {"Node"});
    hide StructOf, Reachable, ProgramWellTyped, Complete;
  }

  /** The premises of `GenerateClient` are met by a cyclic program. */
  lemma CyclesQualify()
    ensures var types := [Named("Node")];
            var names := Hoisted(Nodes(), TypesMention(types)).Keys;
            && Fair(Nodes(), types) && Legible(Nodes(), types) && EverythingHeld(Nodes(), names, types)
            && Meaning.Consistent(Hoisted(Nodes(), TypesMention(types)), SchemasOf(Nodes(), types))
            && ByValue.GoLayout(Nodes(), _ => 0)
            && "Node" in names && "Node" in FieldMentions(Nodes()["Node"])
  {
    assert TypesMention([Named("Node")]) == {"Node"} by { assert [Named("Node")][..0] == []; }
    hide ProgramWellTyped, ProgramUsable, StructOf, FieldMentions, Hoisted, TypesMention, Meaning.Readable,
         Meaning.PlainUnions, Meaning.Consistent, FieldsHeld, ByValue.GoLayout, WellTyped, Usable, SchemasOf, PropsOf,
         Nodes;
    NodeUsable();
    NodeFair();
    NodeLayout();
    NodeSchema();
    NodeHoisted();
    NodeApart(Hoisted(Nodes(), {"Node"}));
    NodeHeldAll();
  }

  lemma NodeFair()
    ensures WellTyped(Nodes(), Named("Node")) && Usable(Nodes(), Named("Node"))
  {
  }

  lemma NodeHeldAll()
    ensures EverythingHeld(Nodes(), {"Node"}, [Named("Node")])
    ensures "Node" in Nodes() && Nodes()["Node"] == [Link(), Label()]
  {
    hide FieldsHeld, Link, Label;
    NodeHeld();
  }

  lemma NodeApart(components: map<string, Schema>)
    requires components == map["Node" := StructOf(Nodes(), [Link(), Label()])]
    ensures var uses := SchemasOf(Nodes(), [Named("Node")]);
            && Meaning.Readable(components, uses) && Meaning.PlainUnions(components, uses)
            && Meaning.Consistent(components, uses)
  {
    hide StructOf, Meaning.Occurs;
    forall s | Meaning.Occurs(components, SchemasOf(Nodes(), [Named("Node")]), s)
      ensures !R.IsAnonymous(s) && !(s.Schema? && IsUnion(s))
    {
      NodeOccurs(components, s);
    }
  }

  lemma NodeHeld()
    ensures FieldsHeld(Nodes(), [Link(), Label()])
  {
    NodeParts();
    var fields := [Link(), Label()];
    assert WireName(Link()) == Some("next") by {
      assert ValidName("next");
    }
    assert Written(fields, 0) && Written(fields, 1);
    assert NamesKept(fields);
  }
}
