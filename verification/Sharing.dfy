/** When a generated client says of every anonymous schema what the document says:
    exactly when those it gives one name are the same. */
module Sharing {
  import opened Options
  import opened Schemas
  import opened Registry
  import opened Signature
  import opened Meaning
  import Text

  // --------------------------------------------- schemas with nothing to spare

  predicate Bare(s: Schema)
    requires s.Schema?
  {
    s.items.NoSchema? && s.addl.NoSchema? && s.props == map[]
  }

  /** The client compiler looks at all that is in it, as in what Go types make. */
  predicate Lean(s: Schema) {
    if s.NoSchema? then true
    else if s.ref != "" || IsUnion(s) || IsScalar(s.typ) || s.typ == "" then Bare(s)
    else if s.typ == "array" then s.addl.NoSchema? && s.props == map[] && Lean(s.items)
    else if s.addl.Schema? then s.items.NoSchema? && s.props == map[] && Lean(s.addl)
    else s.items.NoSchema? && forall k | k in s.props :: Lean(s.props[k])
  }

  predicate LeanComponent(s: Schema) {
    if IsStructSchema(s) then forall k | k in s.props :: Lean(s.props[k]) else Lean(s)
  }

  ghost predicate LeanDocument(components: map<string, Schema>, uses: seq<Schema>) {
    (forall k | k in components :: LeanComponent(components[k])) && forall u | u in uses :: Lean(u)
  }

  /** What a client says of the document: of its components by their names, of the
      schemas operations use by `exprs`. */
  ghost predicate SaysTheSame(g: State, components: map<string, Schema>, uses: seq<Schema>, exprs: seq<Expr>) {
    && (forall k, depth: nat | k in components :: ComponentKept(g, components, k, depth))
    && |exprs| == |uses| && forall i | 0 <= i < |uses| :: UseKept(g, components, uses[i], exprs[i])
  }

  ghost predicate ComponentKept(g: State, components: map<string, Schema>, k: string, depth: nat) {
    RefKey(k) in g.byRef
    && ExprShape(g, Name(g.byRef[RefKey(k)]), depth) == SchemaShape(components, RefTo(k), depth)
  }

  ghost predicate UseKept(g: State, components: map<string, Schema>, s: Schema, e: Expr) {
    forall depth: nat :: ExprShape(g, e, depth) == SchemaShape(components, s, depth)
  }

  /** The declaration for `z`'s signature has `z`'s shape. */
  ghost predicate DeclaredAs(g: State, components: map<string, Schema>, z: Schema) {
    && z.Schema? && ObjectSignature(z) in g.synthetic
    && forall depth: nat ::
         SyntheticShape(g, g.synthetic[ObjectSignature(z)], depth) == ObjectShape(components, z, depth)
  }

  // ----------------------------------------------------- from struct to field

  lemma {:induction false} FieldShapeAt(g: State, fields: seq<StructField>, depth: nat, i: nat)
    requires i < |fields| && forall j, k | 0 <= j < k < |fields| :: fields[j].jsonName != fields[k].jsonName
    ensures fields[i].jsonName in FieldShapes(g, fields, depth)
    ensures FieldShapes(g, fields, depth)[fields[i].jsonName].shape == ExprShape(g, fields[i].typ, depth)
  {
    hide ExprShape;
    var n := |fields| - 1;
    if i < n {
      FieldShapeAt(g, fields[..n], depth, i);
    }
  }

  /** The expression behind a property of a declared struct. */
  lemma PropExpr(g: State, fields: seq<StructField>, o: Schema, k: string) returns (i: nat, e: Expr)
    requires o.Schema? && k in o.props && FieldsOk(fields, o, g.byRef, g.synthetic)
    ensures i < |fields| && fields[i].jsonName == k && Denotes(e, o.props[k], g.byRef, g.synthetic)
    ensures fields[i].typ == e || fields[i].typ == PtrTo(e)
    ensures forall j, k | 0 <= j < k < |fields| :: fields[j].jsonName != fields[k].jsonName
  {
    hide Denotes, Text.StrictlySorted;
    var keys := Text.SortedKeys(o.props.Keys);
    SortedKeysLists(o.props.Keys);
    forall j | 0 <= j < |keys| ensures fields[j].jsonName == keys[j] {
      assert FieldOk(fields[j], keys[j], o, g.byRef, g.synthetic);
    }
    i :| 0 <= i < |keys| && keys[i] == k;
    var f := fields[i];
    assert FieldOk(f, k, o, g.byRef, g.synthetic);
    e := if k !in o.required && f.typ.PtrTo? then f.typ.target else f.typ;
  }

  /** Where the struct has the shape of `x`, so has each of its fields. */
  lemma PropKept(g: State, components: map<string, Schema>, fields: seq<StructField>, o: Schema, x: Schema, k: string)
    returns (e: Expr)
    requires o.Schema? && x.Schema? && k in o.props && k in x.props && FieldsOk(fields, o, g.byRef, g.synthetic)
    requires forall depth: nat :: StructShape(g, fields, depth) == ObjectShape(components, x, depth)
    ensures Denotes(e, o.props[k], g.byRef, g.synthetic) && UseKept(g, components, x.props[k], e)
  {
    hide Denotes, FieldsOk, ExprShape, SchemaShape, FieldShapes;
    var i;
    i, e := PropExpr(g, fields, o, k);
    forall depth: nat ensures ExprShape(g, e, depth) == SchemaShape(components, x.props[k], depth) {
      assert StructShape(g, fields, depth + 1) == ObjectShape(components, x, depth + 1);
      FieldShapeAt(g, fields, depth, i);
      PointerShape(g, fields[i].typ, e, depth);
      ObjectAt(components, x, k, depth);
    }
  }

  lemma ObjectAt(components: map<string, Schema>, x: Schema, k: string, depth: nat)
    requires x.Schema? && k in x.props
    ensures var s := ObjectShape(components, x, depth + 1);
            s.Record? && k in s.props && s.props[k].shape == SchemaShape(components, x.props[k], depth)
  {
    hide SchemaShape;
  }

  // -------------------------------------------------------- all through a schema

  /** Where `e`, made for a schema of the same form, has the shape of `x`, every
      anonymous object in `x` has a declaration of its shape. */
  lemma {:induction false} InsideKept(g: State, components: map<string, Schema>, uses: seq<Schema>, x: Schema,
                                      y: Schema, e: Expr, z: Schema)
    requires Generated(g, components, uses) && Readable(components, uses) && Lean(x) && FormOf(x) == FormOf(y)
    requires Occurs(components, uses, x) && Occurs(components, uses, y) && Denotes(e, y, g.byRef, g.synthetic)
    requires UseKept(g, components, x, e) && z in Parts(x) && IsAnonymous(z)
    ensures DeclaredAs(g, components, z)
    decreases x
  {
    hide Generated, Readable, Occurs, ObjectSignature, UnionSignature, MappingResolves, ObjectForm, UseKept, DeclaredAs,
         ObjectShape, SyntheticShape, ExprShape, SchemaShape, FieldsOk;
    if x.NoSchema? {
      NoParts();
    } else {
      OccursWithin(components, uses, x);
      OccursWithin(components, uses, y);
      if x.ref != "" || IsUnion(x) || IsScalar(x.typ) || x.typ == "" {
        BareParts(x);
      } else if x.typ == "array" {
        NoParts();
        ItemsKept(g, components, x, e);
        InsideKept(g, components, uses, x.items, y.items, e.elem, z);
      } else if x.addl.Schema? {
        NoParts();
        ValueKept(g, components, x, e);
        InsideKept(g, components, uses, x.addl, y.addl, e.value, z);
      } else if x.props == map[] {
        BareParts(x);
      } else {
        ObjectInsideKept(g, components, uses, x, y, e, z);
      }
    }
  }

  lemma ObjectInsideKept(g: State, components: map<string, Schema>, uses: seq<Schema>, x: Schema, y: Schema, e: Expr,
                         z: Schema)
    requires Generated(g, components, uses) && Readable(components, uses) && Lean(x) && FormOf(x) == FormOf(y)
    requires Occurs(components, uses, x) && Occurs(components, uses, y) && Denotes(e, y, g.byRef, g.synthetic)
    requires UseKept(g, components, x, e) && z in Parts(x) && IsAnonymous(z) && IsAnonymous(x) && x.typ == "object"
    ensures DeclaredAs(g, components, z)
    decreases x, 0
  {
    hide Generated, Readable, Occurs, ObjectSignature, UnionSignature, MappingResolves, ObjectForm, UseKept, DeclaredAs,
         ObjectShape, SyntheticShape, ExprShape, SchemaShape, FieldsOk, Parts, Denotes, Lean;
    SameFormAnonymous(x, y);
    var sig := ObjectSignature(x);
    DenotesAnonymous(e, y, g.byRef, g.synthetic);
    var o := GeneratedSynthetic(g, components, uses, sig);
    var t := g.types[g.synthetic[sig]];
    SyntheticIsStruct(sig, t, o, x, g.byRef, g.synthetic);
    SyntheticKept(g, components, x, e, t.fields);
    if z != x {
      var k := PartOfProp(x, z);
      SameSignatureForm(components, uses, o, x);
      ObjectFormParts(o, x);
      var f := PropKept(g, components, t.fields, o, x, k);
      OccursWithin(components, uses, x);
      OccursWithin(components, uses, o);
      LeanProp(x, k);
      InsideKept(g, components, uses, x.props[k], o.props[k], f, z);
    }
  }

  lemma NoParts()
    ensures Parts(NoSchema) == {NoSchema}
  {
  }

  lemma BareParts(x: Schema)
    requires x.Schema? && Bare(x)
    ensures Parts(x) == {x, NoSchema}
  {
    NoParts();
  }

  lemma LeanProp(x: Schema, k: string)
    requires Lean(x) && IsAnonymous(x) && x.typ == "object" && k in x.props
    ensures Lean(x.props[k])
  {
  }

  lemma PartOfProp(x: Schema, z: Schema) returns (k: string)
    requires Lean(x) && IsAnonymous(x) && x.typ == "object" && z in Parts(x) && z != x && z.Schema?
    ensures k in x.props && z in Parts(x.props[k])
  {
    NoParts();
    k :| k in x.props && z in Parts(x.props[k]);
  }

  lemma SameFormAnonymous(x: Schema, y: Schema)
    requires IsAnonymous(x) && x.typ == "object" && FormOf(x) == FormOf(y)
    ensures IsAnonymous(y) && ObjectForm(x) == ObjectForm(y) && ObjectSignature(x) == ObjectSignature(y)
  {
    SameObject(x, y);
    hide StructSignature, WriteObject, FormOf, ObjectForm, IsAnonymous;
    StructSignatureIsWritten(x);
    StructSignatureIsWritten(y);
  }

  lemma SameObject(x: Schema, y: Schema)
    requires IsAnonymous(x) && x.typ == "object" && FormOf(x) == FormOf(y)
    ensures IsAnonymous(y) && ObjectForm(x) == ObjectForm(y)
  {
    ObjectKeys(x);
    assert FormOf(x) == ObjectForm(x);
    hide ObjectForm;
    assert y.Schema? && FormOf(y) == ObjectForm(y) && y.props != map[];
  }

  lemma ObjectKeys(x: Schema)
    requires x.Schema?
    ensures ObjectForm(x).props.Keys == x.props.Keys
  {
    hide FormOf;
  }

  lemma DenotesAnonymous(e: Expr, y: Schema, byRef: map<string, string>, syn: map<string, string>)
    requires IsAnonymous(y) && Denotes(e, y, byRef, syn)
    ensures ObjectSignature(y) in syn && e == Name(syn[ObjectSignature(y)])
  {
    hide ObjectSignature;
  }

  lemma SameSignatureForm(components: map<string, Schema>, uses: seq<Schema>, a: Schema, b: Schema)
    requires Readable(components, uses) && Occurs(components, uses, a) && Occurs(components, uses, b)
    requires IsAnonymous(a) && IsAnonymous(b) && ObjectSignature(a) == ObjectSignature(b)
    ensures ObjectForm(a) == ObjectForm(b)
  {
    hide Occurs, ObjectForm, Legible, StructSignature;
    DropSame("struct:", StructSignature(a), StructSignature(b));
    SignatureDecidesShape(a, b);
  }

  lemma ItemsKept(g: State, components: map<string, Schema>, x: Schema, e: Expr)
    requires x.Schema? && x.ref == "" && !IsUnion(x) && x.typ == "array" && e.SliceOf? && UseKept(g, components, x, e)
    ensures UseKept(g, components, x.items, e.elem)
  {
    forall depth: nat ensures ExprShape(g, e.elem, depth) == SchemaShape(components, x.items, depth) {
      assert ExprShape(g, e, depth) == SchemaShape(components, x, depth);
    }
  }

  lemma ValueKept(g: State, components: map<string, Schema>, x: Schema, e: Expr)
    requires x.Schema? && x.ref == "" && !IsUnion(x) && x.typ == "object" && x.addl.Schema? && e.DictOf?
    requires UseKept(g, components, x, e)
    ensures UseKept(g, components, x.addl, e.value)
  {
    forall depth: nat ensures ExprShape(g, e.value, depth) == SchemaShape(components, x.addl, depth) {
      assert ExprShape(g, e, depth) == SchemaShape(components, x, depth);
    }
  }

  lemma SyntheticKept(g: State, components: map<string, Schema>, x: Schema, e: Expr, fields: seq<StructField>)
    requires IsAnonymous(x) && x.typ == "object" && UseKept(g, components, x, e)
    requires ObjectSignature(x) in g.synthetic && e == Name(g.synthetic[ObjectSignature(x)])
    requires e.name !in g.byRef.Values && e.name in g.types && g.types[e.name] == StructDecl(fields)
    ensures DeclaredAs(g, components, x)
    ensures forall depth: nat :: StructShape(g, fields, depth) == ObjectShape(components, x, depth)
  {
    hide ObjectSignature, ObjectShape, StructShape;
    forall depth: nat
      ensures SyntheticShape(g, e.name, depth) == ObjectShape(components, x, depth)
      ensures StructShape(g, fields, depth) == ObjectShape(components, x, depth)
    {
      assert ExprShape(g, e, depth) == SchemaShape(components, x, depth);
    }
  }

  // ------------------------------------------------------ all through a document

  lemma OccursKept(g: State, components: map<string, Schema>, uses: seq<Schema>, exprs: seq<Expr>, z: Schema)
    requires Generated(g, components, uses) && Readable(components, uses) && LeanDocument(components, uses)
    requires |exprs| == |uses| && forall i | 0 <= i < |uses| :: Denotes(exprs[i], uses[i], g.byRef, g.synthetic)
    requires SaysTheSame(g, components, uses, exprs) && Occurs(components, uses, z) && IsAnonymous(z)
    ensures DeclaredAs(g, components, z)
  {
    hide Generated, Readable, Lean, Parts, DeclaredAs, UseKept, ComponentKept, Denotes, IsAnonymous, IsStructSchema,
         Occurs;
    if u :| u in uses && z in Parts(u) {
      var i :| 0 <= i < |uses| && uses[i] == u;
      UseOccurs(components, uses, u);
      InsideKept(g, components, uses, u, u, exprs[i], z);
    } else {
      var k := InComponent(components, uses, z);
      ComponentInsideKept(g, components, uses, k, z);
    }
  }

  lemma InComponent(components: map<string, Schema>, uses: seq<Schema>, z: Schema) returns (k: string)
    requires Occurs(components, uses, z) && forall u | u in uses :: z !in Parts(u)
    ensures k in components && z in ComponentParts(components[k])
  {
    hide ComponentParts, Parts;
    k :| k in components && z in ComponentParts(components[k]);
  }

  lemma UseOccurs(components: map<string, Schema>, uses: seq<Schema>, u: Schema)
    requires u in uses
    ensures Occurs(components, uses, u)
  {
    hide ComponentParts;
    SelfPart(u);
  }

  lemma ComponentInsideKept(g: State, components: map<string, Schema>, uses: seq<Schema>, k: string, z: Schema)
    requires Generated(g, components, uses) && Readable(components, uses)
    requires k in components && LeanComponent(components[k]) && z in ComponentParts(components[k]) && IsAnonymous(z)
    requires forall depth: nat :: ComponentKept(g, components, k, depth)
    ensures DeclaredAs(g, components, z)
  {
    hide Generated, Readable, Lean, Parts, DeclaredAs, Denotes, IsAnonymous, FieldsOk, TameComponent, ComponentShape,
         DeclShape;
    var s := components[k];
    assert RefKey(k) in g.byRef by { assert ComponentKept(g, components, k, 0); }
    var j := GeneratedRef(g, components, uses, RefKey(k));
    RefInjective(j, k);
    var t := g.types[g.byRef[RefKey(k)]];
    forall depth: nat ensures DeclShape(g, t, depth) == ComponentShape(components, s, depth) {
      DeclKept(g, components, k, depth);
    }
    TameOccurs(components, uses, s);
    if IsStructSchema(s) {
      StructKept(g, components, t.fields, s);
      var key :| key in s.props && z in Parts(s.props[key]);
      var e := PropKept(g, components, t.fields, s, s, key);
      InsideKept(g, components, uses, s.props[key], s.props[key], e, z);
    } else {
      AliasInsideKept(g, components, uses, t, s, z);
    }
  }

  lemma DeclKept(g: State, components: map<string, Schema>, k: string, depth: nat)
    requires ComponentKept(g, components, k, depth + 1) && k in components
    requires g.byRef[RefKey(k)] in g.byRef.Values && g.byRef[RefKey(k)] in g.types
    ensures DeclShape(g, g.types[g.byRef[RefKey(k)]], depth) == ComponentShape(components, components[k], depth)
  {
    hide DeclShape, ComponentShape;
    assert RefTo(k).ref == RefKey(k) && RefKey(k) != "";
    assert RefKey(k)[..|REF_PREFIX|] == REF_PREFIX && RefKey(k)[|REF_PREFIX|..] == k;
    assert Target(RefKey(k)) == Some(k);
    var n := g.byRef[RefKey(k)];
    assert ExprShape(g, Name(n), depth + 1) == DeclaredShape(g, n, depth + 1) == DeclShape(g, g.types[n], depth);
    assert SchemaShape(components, RefTo(k), depth + 1) == RefShape(components, RefKey(k), depth + 1);
    assert RefShape(components, RefKey(k), depth + 1) == ComponentShape(components, components[k], depth);
  }

  lemma StructKept(g: State, components: map<string, Schema>, fields: seq<StructField>, s: Schema)
    requires IsStructSchema(s)
    requires forall depth: nat :: DeclShape(g, StructDecl(fields), depth) == ComponentShape(components, s, depth)
    ensures forall depth: nat :: StructShape(g, fields, depth) == ObjectShape(components, s, depth)
  {
    hide StructShape, ObjectShape;
    forall depth: nat ensures StructShape(g, fields, depth) == ObjectShape(components, s, depth) {
      assert DeclShape(g, StructDecl(fields), depth) == ComponentShape(components, s, depth);
    }
  }

  lemma AliasInsideKept(g: State, components: map<string, Schema>, uses: seq<Schema>, t: NamedType, s: Schema,
                        z: Schema)
    requires Generated(g, components, uses) && Readable(components, uses) && Occurs(components, uses, s)
    requires !IsStructSchema(s) && LeanComponent(s) && z in ComponentParts(s) && IsAnonymous(z)
    requires ComponentOk(t, s, g.byRef, g.synthetic)
    requires forall depth: nat :: DeclShape(g, t, depth) == ComponentShape(components, s, depth)
    ensures DeclaredAs(g, components, z)
  {
    hide Generated, Readable, Occurs, DeclaredAs, FieldsOk;
    if s.NoSchema? {
      NoParts();
    } else if IsUnion(s) {
      BareParts(s);
    } else {
      forall depth: nat ensures ExprShape(g, t.typ, depth) == SchemaShape(components, s, depth) {
        assert DeclShape(g, t, depth) == ComponentShape(components, s, depth);
      }
      InsideKept(g, components, uses, s, s, t.typ, z);
    }
  }

  /** A client says of every schema what the document says exactly when anonymous
      objects of one form hold the same unions. */
  lemma SaysTheSameExactly(g: State, components: map<string, Schema>, uses: seq<Schema>, exprs: seq<Expr>)
    requires Generated(g, components, uses) && LeanDocument(components, uses)
    requires Readable(components, uses) && PlainUnions(components, uses)
    requires forall r | r in g.byRef :: ',' !in g.byRef[r]
    requires |exprs| == |uses| && forall i | 0 <= i < |uses| :: Denotes(exprs[i], uses[i], g.byRef, g.synthetic)
    ensures SaysTheSame(g, components, uses, exprs) <==> Consistent(components, uses)
  {
    if Consistent(components, uses) {
      ConsistentSays(g, components, uses, exprs);
    }
    if SaysTheSame(g, components, uses, exprs) {
      SaysConsistent(g, components, uses, exprs);
    }
  }

  lemma ConsistentSays(g: State, components: map<string, Schema>, uses: seq<Schema>, exprs: seq<Expr>)
    requires Faithful(g, components, uses)
    requires |exprs| == |uses| && forall i | 0 <= i < |uses| :: Denotes(exprs[i], uses[i], g.byRef, g.synthetic)
    ensures SaysTheSame(g, components, uses, exprs)
  {
    hide Faithful, Occurs, Denotes, ExprShape, SchemaShape, RefKey;
    forall k, depth: nat | k in components ensures ComponentKept(g, components, k, depth) {
      ClientKeepsShape(g, components, uses, k, depth);
    }
    forall i | 0 <= i < |uses| ensures UseKept(g, components, uses[i], exprs[i]) {
      UseOccurs(components, uses, uses[i]);
      forall depth: nat ensures ExprShape(g, exprs[i], depth) == SchemaShape(components, uses[i], depth) {
        ExprMeans(g, components, uses, exprs[i], uses[i], depth);
      }
    }
  }

  lemma SaysConsistent(g: State, components: map<string, Schema>, uses: seq<Schema>, exprs: seq<Expr>)
    requires Generated(g, components, uses) && LeanDocument(components, uses) && Readable(components, uses)
    requires |exprs| == |uses| && forall i | 0 <= i < |uses| :: Denotes(exprs[i], uses[i], g.byRef, g.synthetic)
    requires SaysTheSame(g, components, uses, exprs)
    ensures Consistent(components, uses)
  {
    hide Generated, LeanDocument, Readable, SaysTheSame, Occurs, ObjectForm, SamePropsInside, Denotes;
    forall a, b | Occurs(components, uses, a) && Occurs(components, uses, b) && IsAnonymous(a) && IsAnonymous(b)
                  && ObjectForm(a) == ObjectForm(b)
      ensures SamePropsInside(components, a, b)
    {
      OccursKept(g, components, uses, exprs, a);
      OccursKept(g, components, uses, exprs, b);
      DeclaredTogether(g, components, uses, a, b);
    }
  }

  lemma DeclaredTogether(g: State, components: map<string, Schema>, uses: seq<Schema>, a: Schema, b: Schema)
    requires Readable(components, uses) && Occurs(components, uses, a) && Occurs(components, uses, b)
    requires IsAnonymous(a) && IsAnonymous(b) && ObjectForm(a) == ObjectForm(b)
    requires DeclaredAs(g, components, a) && DeclaredAs(g, components, b)
    ensures SamePropsInside(components, a, b)
  {
    hide Occurs, ObjectShape, SyntheticShape, StructSignature, WriteObject, ObjectForm, Legible, SamePropsInside;
    StructSignatureIsWritten(a);
    StructSignatureIsWritten(b);
    SharedExactly(components, a, b);
    forall depth: nat ensures ObjectShape(components, a, depth) == ObjectShape(components, b, depth) {
      assert SyntheticShape(g, g.synthetic[ObjectSignature(a)], depth) == ObjectShape(components, a, depth);
      assert SyntheticShape(g, g.synthetic[ObjectSignature(b)], depth) == ObjectShape(components, b, depth);
    }
  }
}
