/** clientgen/schema.go: turning component schemas back into Go declarations. */
module Registry {
  import opened Schemas
  import opened Names
  import Signature
  import Text

  // ------------------------------------------------------- generated code

  /** A Go type expression, parsed rather than printed. */
  datatype Expr =
    | Raw
    | AnyValue
    | Bytes
    | Prim(keyword: string)
    | SliceOf(elem: Expr)
    | DictOf(value: Expr)
    | PtrTo(target: Expr)
    | Name(name: string)

  datatype StructField = StructField(name: string, typ: Expr, jsonName: string, omitEmpty: bool)

  datatype Variant = Variant(value: string, typ: string)

  datatype NamedType =
    | StructDecl(fields: seq<StructField>)
    | UnionDecl(property: string, variants: seq<Variant>)
    | AliasDecl(typ: Expr)

  /** `isNilable`: prefix `[]` or `map[`, `any`, or `json.RawMessage`. */
  predicate Nilable(e: Expr) {
    e.SliceOf? || e.Bytes? || e.DictOf? || e.AnyValue? || e.Raw?
  }

  function StringType(format: string): Expr {
    if format == "date-time" then Prim("time.Time")
    else if format == "binary" then Bytes
    else Prim("string")
  }

  function IntegerType(format: string): Expr {
    if format == "int32" then Prim("int32")
    else if format == "int64" then Prim("int64")
    else Prim("int")
  }

  function NumberType(format: string): Expr {
    if format == "float" then Prim("float32") else Prim("float64")
  }

  /** Schema types whose expression needs no further look-up. */
  predicate IsScalar(typ: string) {
    typ != "array" && typ != "object" && typ != ""
  }

  function ScalarType(s: Schema): Expr
    requires s.Schema?
  {
    match s.typ
    case "string" => StringType(s.format)
    case "boolean" => Prim("bool")
    case "integer" => IntegerType(s.format)
    case "number" => NumberType(s.format)
    case _ => Raw
  }

  // --------------------------------------------------------------- unions

  predicate MappingResolves(disc: Discriminator, byRef: map<string, string>) {
    forall v | v in disc.mapping :: disc.mapping[v] in byRef
  }

  function VariantsFrom(disc: Discriminator, byRef: map<string, string>, values: seq<string>): seq<Variant>
    requires MappingResolves(disc, byRef) && forall v | v in values :: v in disc.mapping
  {
    if values == [] then []
    else
      VariantsFrom(disc, byRef, values[..|values| - 1])
      + [Variant(values[|values| - 1], byRef[disc.mapping[values[|values| - 1]]])]
  }

  function VariantsOf(disc: Discriminator, byRef: map<string, string>): seq<Variant>
    requires MappingResolves(disc, byRef)
  {
    VariantsFrom(disc, byRef, Text.SortedKeys(disc.mapping.Keys))
  }

  function VariantsText(vs: seq<Variant>): string {
    if vs == [] then ""
    else VariantsText(vs[..|vs| - 1]) + (vs[|vs| - 1].value + "=" + vs[|vs| - 1].typ + ",")
  }

  function UnionSignature(disc: Discriminator, byRef: map<string, string>): string
    requires MappingResolves(disc, byRef)
  {
    "union:" + disc.property + ":" + VariantsText(VariantsOf(disc, byRef))
  }

  function ObjectSignature(s: Schema): string
    requires s.Schema?
  {
    "struct:" + Signature.StructSignature(s)
  }

  lemma SignatureKindsDiffer(s: Schema, disc: Discriminator, byRef: map<string, string>)
    requires s.Schema? && MappingResolves(disc, byRef)
    ensures ObjectSignature(s) != UnionSignature(disc, byRef)
  {
    assert ObjectSignature(s)[0] == 's' && UnionSignature(disc, byRef)[0] == 'u';
  }

  // ------------------------------------------------------------ resolution

  /** Every reference a type expression for `s` needs can be resolved. */
  predicate Resolves(s: Schema, byRef: map<string, string>) {
    if s.NoSchema? then true
    else if s.ref != "" then s.ref in byRef
    else if IsUnion(s) then s.disc.value.mapping != map[] && MappingResolves(s.disc.value, byRef)
    else if s.typ == "array" then Resolves(s.items, byRef)
    else if IsScalar(s.typ) then true
    else if s.addl.Schema? then Resolves(s.addl, byRef)
    else forall k | k in s.props :: Resolves(s.props[k], byRef)
  }

  predicate IsStructSchema(s: Schema) {
    s.Schema? && !IsUnion(s) && s.typ == "object" && s.props != map[]
  }

  predicate ComponentResolves(s: Schema, byRef: map<string, string>) {
    if IsStructSchema(s) then forall k | k in s.props :: Resolves(s.props[k], byRef)
    else if s.Schema? && IsUnion(s) then s.disc.value.mapping != map[] && MappingResolves(s.disc.value, byRef)
    else Resolves(s, byRef)
  }

  // --------------------------------------------------- what an expression is

  /** `e` is the type `baseType` gives `s`, once the names it needs exist. */
  ghost predicate Denotes(e: Expr, s: Schema, byRef: map<string, string>, syn: map<string, string>)
    decreases s
  {
    if s.NoSchema? then e == Raw
    else if s.ref != "" then s.ref in byRef && e == Name(byRef[s.ref])
    else if IsUnion(s) then
      && MappingResolves(s.disc.value, byRef)
      && UnionSignature(s.disc.value, byRef) in syn
      && e == Name(syn[UnionSignature(s.disc.value, byRef)])
    else if s.typ == "array" then e.SliceOf? && Denotes(e.elem, s.items, byRef, syn)
    else if IsScalar(s.typ) then e == ScalarType(s)
    else if s.addl.Schema? then e.DictOf? && Denotes(e.value, s.addl, byRef, syn)
    else if s.props == map[] then e == (if s.typ == "" then Raw else DictOf(AnyValue))
    else ObjectSignature(s) in syn && e == Name(syn[ObjectSignature(s)])
  }

  /** The pointer rule of `goType`. */
  ghost predicate FieldDenotes(e: Expr, s: Schema, required: bool, byRef: map<string, string>,
                               syn: map<string, string>) {
    if required then Denotes(e, s, byRef, syn)
    else if e.PtrTo? then Denotes(e.target, s, byRef, syn) && !Nilable(e.target)
    else Denotes(e, s, byRef, syn) && Nilable(e)
  }

  ghost predicate FieldOk(f: StructField, key: string, s: Schema, byRef: map<string, string>, syn: map<string, string>)
    requires s.Schema? && key in s.props
  {
    && f.jsonName == key
    && f.omitEmpty == (key !in s.required)
    && FieldDenotes(f.typ, s.props[key], key in s.required, byRef, syn)
  }

  ghost predicate FieldsFrom(fields: seq<StructField>, s: Schema, keys: seq<string>, byRef: map<string, string>,
                             syn: map<string, string>)
    requires s.Schema? && forall k | k in keys :: k in s.props
  {
    && |fields| == |keys|
    && (forall i | 0 <= i < |keys| :: FieldOk(fields[i], keys[i], s, byRef, syn))
    && (forall i, j | 0 <= i < j < |fields| :: fields[i].name != fields[j].name)
  }

  /** One field per property, in wire-name order, under distinct Go names. */
  ghost predicate FieldsOk(fields: seq<StructField>, s: Schema, byRef: map<string, string>, syn: map<string, string>)
    requires s.Schema?
  {
    FieldsFrom(fields, s, Text.SortedKeys(s.props.Keys), byRef, syn)
  }

  /** The declaration `buildNamed` makes of a component. */
  ghost predicate ComponentOk(t: NamedType, s: Schema, byRef: map<string, string>, syn: map<string, string>) {
    if s.NoSchema? then t == AliasDecl(AnyValue)
    else if IsUnion(s) then
      MappingResolves(s.disc.value, byRef) && t == UnionDecl(s.disc.value.property, VariantsOf(s.disc.value, byRef))
    else if IsStructSchema(s) then t.StructDecl? && FieldsOk(t.fields, s, byRef, syn)
    else t.AliasDecl? && Denotes(t.typ, s, byRef, syn)
  }

  /** An object schema that gets a synthesized struct. */
  predicate IsAnonymous(s: Schema) {
    s.Schema? && s.ref == "" && !IsUnion(s) && (s.typ == "object" || s.typ == "") && s.addl.NoSchema?
        && s.props != map[]
  }

  /** The declaration behind a synthesized name and its signature `g`. */
  ghost predicate SyntheticOk(g: string, t: NamedType, s: Schema, byRef: map<string, string>,
                              syn: map<string, string>) {
    s.Schema? &&
    match t
    case StructDecl(fields) => IsAnonymous(s) && g == ObjectSignature(s) && FieldsOk(fields, s, byRef, syn)
    case UnionDecl(property, variants) =>
      && s.ref == "" && IsUnion(s) && MappingResolves(s.disc.value, byRef)
      && g == UnionSignature(s.disc.value, byRef)
      && property == s.disc.value.property && variants == VariantsOf(s.disc.value, byRef)
    case AliasDecl(_) => false
  }

  ghost predicate Sub<T>(a: map<string, T>, b: map<string, T>) {
    a.Keys <= b.Keys && forall k | k in a :: b[k] == a[k]
  }

  lemma {:induction false} DenotesMore(e: Expr, s: Schema, byRef: map<string, string>, a: map<string, string>,
                                       b: map<string, string>)
    requires Sub(a, b) && Denotes(e, s, byRef, a)
    ensures Denotes(e, s, byRef, b)
    decreases s
  {
    if s.NoSchema? || s.ref != "" || IsUnion(s) {
    } else if s.typ == "array" {
      DenotesMore(e.elem, s.items, byRef, a, b);
    } else if !IsScalar(s.typ) && s.addl.Schema? {
      DenotesMore(e.value, s.addl, byRef, a, b);
    }
  }

  lemma FieldsMore(fields: seq<StructField>, s: Schema, keys: seq<string>, byRef: map<string, string>,
                   a: map<string, string>, b: map<string, string>)
    requires Sub(a, b) && s.Schema? && (forall k | k in keys :: k in s.props) && FieldsFrom(fields, s, keys, byRef, a)
    ensures FieldsFrom(fields, s, keys, byRef, b)
  {
    hide Denotes;
    forall i | 0 <= i < |keys| ensures FieldOk(fields[i], keys[i], s, byRef, b) {
      var f := fields[i];
      assert FieldOk(f, keys[i], s, byRef, a);
      DenotesMore(if keys[i] !in s.required && f.typ.PtrTo? then f.typ.target
          else f.typ, s.props[keys[i]], byRef, a, b);
    }
  }

  lemma ComponentMore(t: NamedType, s: Schema, byRef: map<string, string>, a: map<string, string>,
                      b: map<string, string>)
    requires Sub(a, b) && ComponentOk(t, s, byRef, a)
    ensures ComponentOk(t, s, byRef, b)
  {
    hide Denotes, FieldsFrom, Sub;
    if s.Schema? && !IsUnion(s) {
      if IsStructSchema(s) {
        FieldsMore(t.fields, s, Text.SortedKeys(s.props.Keys), byRef, a, b);
      } else {
        DenotesMore(t.typ, s, byRef, a, b);
      }
    }
  }

  lemma SyntheticMore(g: string, t: NamedType, s: Schema, byRef: map<string, string>, a: map<string, string>,
                      b: map<string, string>)
    requires Sub(a, b) && SyntheticOk(g, t, s, byRef, a)
    ensures SyntheticOk(g, t, s, byRef, b)
  {
    hide Denotes, FieldsFrom, Sub;
    if t.StructDecl? {
      FieldsMore(t.fields, s, Text.SortedKeys(s.props.Keys), byRef, a, b);
    }
  }

  // ----------------------------------------------------- the registry's state

  /** The registry's maps, the names its `nameSet` has handed out or was told to
      avoid, and, for the proofs, the schema each declaration came from. */
  datatype State = State(
    byRef: map<string, string>,
    synthetic: map<string, string>,
    types: map<string, NamedType>,
    origin: map<string, Schema>,
    used: set<string>,
    reserved: set<string>)

  ghost predicate Injective(m: map<string, string>) {
    forall a, b | a in m && b in m && m[a] == m[b] :: a == b
  }

  ghost predicate NamesKept(st: State) {
    && Injective(st.byRef) && Injective(st.synthetic)
    && st.byRef.Values !! st.synthetic.Values
    && st.byRef.Values + st.synthetic.Values <= st.used - st.reserved && st.reserved <= st.used
    && st.types.Keys == st.origin.Keys
    && st.types.Keys <= st.byRef.Values + st.synthetic.Values
  }

  ghost predicate ComponentsKept(st: State)
    requires st.types.Keys == st.origin.Keys
  {
    forall r | r in st.byRef && st.byRef[r] in st.types ::
      ComponentOk(st.types[st.byRef[r]], st.origin[st.byRef[r]], st.byRef, st.synthetic)
  }

  ghost predicate SyntheticsKept(st: State, tame: Schema -> bool)
    requires st.types.Keys == st.origin.Keys
  {
    forall g | g in st.synthetic && st.synthetic[g] in st.types ::
      && SyntheticOk(g, st.types[st.synthetic[g]], st.origin[st.synthetic[g]], st.byRef, st.synthetic)
      && tame(st.origin[st.synthetic[g]])
  }

  /** What every method keeps. `tame` is whatever the caller knows of all the
      schemas it hands in, and so of every schema a declaration came from. */
  ghost predicate WellKept(st: State, tame: Schema -> bool) {
    NamesKept(st) && ComponentsKept(st) && SyntheticsKept(st, tame)
  }

  /** Names claimed for a signature whose declaration is still being built. */
  ghost function Pending(st: State): set<string> {
    st.synthetic.Values - st.types.Keys
  }

  ghost predicate Grew(a: State, b: State) {
    b.byRef == a.byRef && Sub(a.synthetic, b.synthetic) && Sub(a.types, b.types) && Sub(a.origin, b.origin)
    && a.used <= b.used && b.reserved == a.reserved
  }

  /** The call left no declaration half done, and declared no component. */
  ghost predicate Settled(a: State, b: State) {
    Grew(a, b) && Pending(b) == Pending(a) && b.types.Keys - a.types.Keys <= b.synthetic.Values
  }

  lemma SettledGrew(a: State, b: State)
    requires Settled(a, b)
    ensures Grew(a, b)
  {
  }

  lemma GrewSub(a: State, b: State)
    requires Grew(a, b)
    ensures Sub(a.synthetic, b.synthetic) && b.byRef == a.byRef && b.reserved == a.reserved
  {
  }

  lemma GrewTransitive(a: State, b: State, c: State)
    requires Grew(a, b) && Grew(b, c)
    ensures Grew(a, c)
  {
  }

  lemma SettledTransitive(a: State, b: State, c: State)
    requires Settled(a, b) && Settled(b, c)
    ensures Settled(a, c)
  {
    assert b.synthetic.Values <= c.synthetic.Values by {
      forall v | v in b.synthetic.Values ensures v in c.synthetic.Values {
        var k :| k in b.synthetic && b.synthetic[k] == v;
        assert c.synthetic[k] == v;
      }
    }
  }

  /** A name claimed before a settled call is still pending after it. */
  lemma SettledParts(a: State, b: State, g: string, name: string)
    requires Settled(a, b) && g in a.synthetic && a.synthetic[g] == name && name in Pending(a)
    ensures g in b.synthetic && b.synthetic[g] == name && name in Pending(b) && b.byRef == a.byRef
  {
  }

  lemma PendingReturned(before: State, claimed: State, built: State, after: State, name: string, t: NamedType)
    requires Grew(before, claimed) && Settled(claimed, built) && Grew(built, after) && Grew(before, after)
    requires claimed.types == before.types
    requires Pending(claimed) == Pending(before) + {name} && name !in Pending(before)
    requires Pending(after) == Pending(built) - {name}
    requires after.synthetic == built.synthetic && after.types == built.types[name := t]
    requires name in built.synthetic.Values
    ensures Settled(before, after)
  {
  }

  lemma ComponentStillMissing(a: State, b: State, ref: string, tame: Schema -> bool)
    requires Settled(a, b) && WellKept(b, tame) && ref in a.byRef && a.byRef[ref] !in a.types
    ensures ref in b.byRef && b.byRef[ref] == a.byRef[ref] && b.byRef[ref] !in b.types
  {
    hide ComponentOk, SyntheticOk;
    assert b.byRef[ref] in b.byRef.Values;
  }

  lemma SettledSelf(a: State)
    ensures Settled(a, a)
  {
  }

  lemma NameSetAside(st: State, tame: Schema -> bool, name: string)
    requires WellKept(st, tame) && name !in st.used
    ensures WellKept(st.(used := st.used + {name}, reserved := st.reserved + {name}), tame)
  {
    hide ComponentOk, SyntheticOk;
  }

  /** What later calls add leaves a finished build finished. */
  lemma StaysCompiled(a: State, b: State, components: map<string, Schema>)
    requires Compiled(a, components) && Settled(a, b)
    ensures Compiled(b, components)
  {
    hide RefKey;
    forall k | k in components ensures BuiltFrom(b, k, components) {
      assert BuiltFrom(a, k, components);
    }
  }

  /** A fresh name goes to a new signature, whose declaration is now pending. */
  lemma SignatureClaimed(st: State, tame: Schema -> bool, g: string, name: string)
    requires WellKept(st, tame) && g !in st.synthetic && name !in st.used
    ensures var next := st.(synthetic := st.synthetic[g := name], used := st.used + {name});
            && WellKept(next, tame) && Grew(st, next)
            && Pending(next) == Pending(st) + {name} && name !in Pending(st) && name !in st.types
  {
    hide ComponentOk, SyntheticOk;
    var next := st.(synthetic := st.synthetic[g := name], used := st.used + {name});
    ValuesAdded(st.synthetic, g, name);
    SignatureMore(st, next, tame);
  }

  lemma SignatureMore(st: State, next: State, tame: Schema -> bool)
    requires st.types.Keys == st.origin.Keys && ComponentsKept(st) && SyntheticsKept(st, tame)
    requires Sub(st.synthetic, next.synthetic)
    requires next.byRef == st.byRef && next.types == st.types && next.origin == st.origin
    requires forall g | g in next.synthetic && g !in st.synthetic :: next.synthetic[g] !in st.types
    ensures ComponentsKept(next) && SyntheticsKept(next, tame)
  {
    hide ComponentOk, SyntheticOk;
    forall r | r in st.byRef && st.byRef[r] in st.types
      ensures ComponentOk(st.types[st.byRef[r]], st.origin[st.byRef[r]], st.byRef, next.synthetic)
    {
      ComponentMore(st.types[st.byRef[r]], st.origin[st.byRef[r]], st.byRef, st.synthetic, next.synthetic);
    }
    forall g | g in next.synthetic && next.synthetic[g] in st.types
      ensures SyntheticOk(g, st.types[next.synthetic[g]], st.origin[next.synthetic[g]], st.byRef, next.synthetic)
      ensures tame(st.origin[next.synthetic[g]])
    {
      assert g in st.synthetic;
      SyntheticMore(g, st.types[st.synthetic[g]], st.origin[st.synthetic[g]], st.byRef, st.synthetic, next.synthetic);
    }
  }

  /** The pending declaration of `g` arrives. */
  lemma SyntheticDeclared(st: State, tame: Schema -> bool, g: string, t: NamedType, s: Schema)
    requires WellKept(st, tame) && g in st.synthetic && st.synthetic[g] in Pending(st)
    requires SyntheticOk(g, t, s, st.byRef, st.synthetic) && tame(s)
    ensures var name := st.synthetic[g];
            var next := st.(types := st.types[name := t], origin := st.origin[name := s]);
            WellKept(next, tame) && Grew(st, next) && Pending(next) == Pending(st) - {name}
  {
    hide ComponentOk, SyntheticOk;
    var name := st.synthetic[g];
    var next := st.(types := st.types[name := t], origin := st.origin[name := s]);
    assert name in st.synthetic.Values;
    forall r | r in st.byRef ensures st.byRef[r] != name {
      assert st.byRef[r] in st.byRef.Values;
    }
    assert ComponentsKept(next);
    assert SyntheticsKept(next, tame) by {
      forall h | h in st.synthetic && st.synthetic[h] in next.types
        ensures SyntheticOk(h, next.types[st.synthetic[h]], next.origin[st.synthetic[h]], st.byRef, st.synthetic)
        ensures tame(next.origin[st.synthetic[h]])
      {
        if st.synthetic[h] == name {
          assert h == g;
        }
      }
    }
  }

  /** A component's declaration arrives. */
  lemma ComponentDeclared(st: State, tame: Schema -> bool, r: string, t: NamedType, s: Schema)
    requires WellKept(st, tame) && r in st.byRef && st.byRef[r] !in st.types
    requires ComponentOk(t, s, st.byRef, st.synthetic)
    ensures var name := st.byRef[r];
            var next := st.(types := st.types[name := t], origin := st.origin[name := s]);
            WellKept(next, tame) && Grew(st, next) && Pending(next) == Pending(st)
  {
    hide ComponentOk, SyntheticOk;
    var name := st.byRef[r];
    assert name in st.byRef.Values;
    forall g | g in st.synthetic ensures st.synthetic[g] != name {
      assert st.synthetic[g] in st.synthetic.Values;
    }
  }

  /** `tame` passes from a schema to the schemas inside it. */
  ghost predicate Hereditary(tame: Schema -> bool) {
    forall s: Schema | s.Schema? && tame(s) ::
      tame(s.items) && tame(s.addl) && forall k | k in s.props :: tame(s.props[k])
  }

  /** What building the parts of a component asks of them. */
  ghost predicate TameComponent(s: Schema, tame: Schema -> bool) {
    if IsStructSchema(s) then forall k | k in s.props :: tame(s.props[k]) else tame(s)
  }

  lemma SettledTypes(a: State, b: State)
    requires Settled(a, b)
    ensures Pending(b) == Pending(a) && b.types.Keys - a.types.Keys <= b.synthetic.Values
  {
  }

  /** The component behind `key` has its declaration. */
  ghost predicate BuiltFrom(st: State, key: string, components: map<string, Schema>)
    requires key in components
  {
    && RefKey(key) in st.byRef
    && st.byRef[RefKey(key)] in st.types
    && st.byRef[RefKey(key)] in st.origin
    && st.origin[st.byRef[RefKey(key)]] == components[key]
  }

  /** A finished build: every component declared, nothing half done. */
  ghost predicate Compiled(st: State, components: map<string, Schema>) {
    && Pending(st) == {}
    && (forall k | k in components :: BuiltFrom(st, k, components))
    && (forall r | r in st.byRef :: exists k :: k in components && r == RefKey(k))
  }

  ghost function RefKeys(keys: set<string>): set<string> {
    set k | k in keys :: RefKey(k)
  }

  /** Every component has a name of its own, none of them reserved. */
  ghost predicate Declared(st: State, keys: set<string>) {
    && st.synthetic == map[] && st.types == map[] && st.origin == map[]
    && st.reserved <= st.used && st.byRef.Values <= st.used - st.reserved
    && Injective(st.byRef) && st.byRef.Keys == RefKeys(keys)
  }

  ghost predicate DeclaredFirst(st: State, keys: seq<string>, i: nat)
    requires i <= |keys|
  {
    Declared(st, Front(keys, i))
  }

  ghost function Front(keys: seq<string>, i: nat): set<string>
    requires i <= |keys|
  {
    set j | 0 <= j < i :: keys[j]
  }

  /** `keys` lists `all`, each name once. */
  ghost predicate Lists(keys: seq<string>, all: set<string>) {
    && (forall k | k in all :: k in keys)
    && (forall i | 0 <= i < |keys| :: keys[i] in all)
    && (forall i, j | 0 <= i < j < |keys| :: keys[i] != keys[j])
  }

  lemma SortedKeysLists(all: set<string>)
    ensures Lists(Text.SortedKeys(all), all)
  {
    hide Text.Leq;
    var keys := Text.SortedKeys(all);
    forall i | 0 <= i < |keys| ensures keys[i] in all {
      assert keys[i] in keys;
    }
  }

  lemma FrontMore(keys: seq<string>, i: nat)
    requires i < |keys|
    ensures Front(keys, i + 1) == Front(keys, i) + {keys[i]}
  {
  }

  lemma FrontAll(keys: seq<string>, all: set<string>)
    requires Lists(keys, all)
    ensures Front(keys, |keys|) == all
  {
    forall k | k in all ensures k in Front(keys, |keys|) {
      var j :| 0 <= j < |keys| && keys[j] == k;
    }
  }

  lemma DeclaredNone(st: State, keys: seq<string>)
    requires st == State(map[], map[], map[], map[], st.reserved, st.reserved)
    ensures DeclaredFirst(st, keys, 0)
  {
  }

  lemma DeclaredOneMore(st: State, keys: seq<string>, i: nat, name: string)
    requires i < |keys| && forall j | 0 <= j < i :: keys[j] != keys[i]
    requires DeclaredFirst(st, keys, i) && name !in st.used
    ensures DeclaredFirst(st.(byRef := st.byRef[RefKey(keys[i]) := name], used := st.used + {name}), keys, i + 1)
  {
    hide RefKey;
    var r := RefKey(keys[i]);
    var next := st.byRef[r := name];
    var was, now := Front(keys, i), Front(keys, i + 1);
    FrontMore(keys, i);
    forall k | k in was ensures RefKey(k) != r {
      RefInjective(k, keys[i]);
    }
    ValuesAdded(st.byRef, r, name);
    assert RefKeys(now) == RefKeys(was) + {r};
  }

  lemma ValuesAdded(m: map<string, string>, r: string, name: string)
    requires r !in m && name !in m.Values && Injective(m)
    ensures m[r := name].Values == m.Values + {name} && Injective(m[r := name])
  {
    var next := m[r := name];
    assert next[r] == name;
    forall v | v in m.Values ensures v in next.Values {
      var q :| q in m && m[q] == v;
      assert next[q] == v;
    }
    forall a, b | a in next && b in next && next[a] == next[b] ensures a == b {
      if a != r { assert m[a] in m.Values; }
      if b != r { assert m[b] in m.Values; }
    }
  }

  lemma DeclaredAll(st: State, keys: set<string>, tame: Schema -> bool)
    requires DeclaredFirst(st, Text.SortedKeys(keys), |keys|)
    ensures Declared(st, keys) && WellKept(st, tame)
  {
    hide Text.StrictlySorted, Declared, Front, WellKept, Lists;
    SortedKeysLists(keys);
    FrontAll(Text.SortedKeys(keys), keys);
    DeclaredKept(st, keys, tame);
  }

  lemma DeclaredKept(st: State, keys: set<string>, tame: Schema -> bool)
    requires Declared(st, keys)
    ensures WellKept(st, tame)
  {
  }

  ghost predicate BuiltFirst(st: State, keys: seq<string>, i: nat, components: map<string, Schema>)
    requires i <= |keys| && Lists(keys, components.Keys)
  {
    && Pending(st) == {} && st.byRef.Keys == RefKeys(components.Keys)
    && (forall j | 0 <= j < i :: BuiltFrom(st, keys[j], components))
    && (forall j | i <= j < |keys| :: RefKey(keys[j]) in st.byRef && st.byRef[RefKey(keys[j])] !in st.types)
  }

  lemma BuiltNone(st: State, keys: seq<string>, components: map<string, Schema>)
    requires Lists(keys, components.Keys)
    requires Declared(st, components.Keys)
    ensures BuiltFirst(st, keys, 0, components)
  {
    hide RefKey;
    forall j | 0 <= j < |keys| ensures RefKey(keys[j]) in st.byRef {
      assert RefKey(keys[j]) in RefKeys(components.Keys);
    }
  }

  lemma BuiltNext(st: State, keys: seq<string>, i: nat, components: map<string, Schema>)
    requires Lists(keys, components.Keys) && i < |keys| && BuiltFirst(st, keys, i, components)
    ensures keys[i] in components
    ensures RefKey(keys[i]) in st.byRef && st.byRef[RefKey(keys[i])] !in st.types
  {
  }

  lemma BuiltOneMore(a: State, b: State, keys: seq<string>, i: nat, components: map<string, Schema>,
                     tame: Schema -> bool)
    requires Lists(keys, components.Keys) && i < |keys|
    requires Grew(a, b) && WellKept(b, tame) && Pending(b) == Pending(a)
    requires BuiltFirst(a, keys, i, components)
    requires RefKey(keys[i]) in b.byRef
    requires var name := b.byRef[RefKey(keys[i])];
             name in b.types && name in b.origin && keys[i] in components && b.origin[name] == components[keys[i]]
             && b.types.Keys - a.types.Keys <= b.synthetic.Values + {name}
    ensures BuiltFirst(b, keys, i + 1, components)
  {
    hide RefKey, Pending, RefKeys, ComponentOk, SyntheticOk;
    forall j | 0 <= j < i ensures BuiltFrom(b, keys[j], components) {
      assert BuiltFrom(a, keys[j], components);
    }
    forall j | i < j < |keys| ensures RefKey(keys[j]) in b.byRef && b.byRef[RefKey(keys[j])] !in b.types {
      RefInjective(keys[i], keys[j]);
      assert b.byRef[RefKey(keys[j])] in b.byRef.Values;
    }
  }

  lemma CompiledDeclares(st: State, components: map<string, Schema>)
    requires Compiled(st, components)
    ensures st.byRef.Values <= st.types.Keys
  {
    hide RefKey, Pending;
    forall v | v in st.byRef.Values ensures v in st.types.Keys {
      var r :| r in st.byRef && st.byRef[r] == v;
      var k :| k in components && r == RefKey(k);
      assert BuiltFrom(st, k, components);
    }
  }

  lemma BuiltAll(st: State, keys: seq<string>, components: map<string, Schema>)
    requires Lists(keys, components.Keys) && BuiltFirst(st, keys, |keys|, components)
    ensures Compiled(st, components)
  {
    hide RefKey, Pending;
    forall k | k in components ensures BuiltFrom(st, k, components) {
      var j :| 0 <= j < |keys| && keys[j] == k;
    }
    forall r | r in st.byRef ensures exists k :: k in components && r == RefKey(k) {
      assert r in RefKeys(components.Keys);
    }
  }

  // ------------------------------------------------ every name is declared

  function NamesIn(e: Expr): set<string> {
    match e
    case Name(n) => {n}
    case SliceOf(elem) => NamesIn(elem)
    case DictOf(value) => NamesIn(value)
    case PtrTo(target) => NamesIn(target)
    case _ => {}
  }

  function DeclNames(t: NamedType): set<string> {
    match t
    case StructDecl(fields) => set f, n | f in fields && n in NamesIn(f.typ) :: n
    case UnionDecl(_, variants) => set v | v in variants :: v.typ
    case AliasDecl(e) => NamesIn(e)
  }

  lemma {:induction false} DenotesNames(e: Expr, s: Schema, byRef: map<string, string>, syn: map<string, string>)
    requires Denotes(e, s, byRef, syn)
    ensures NamesIn(e) <= byRef.Values + syn.Values
    decreases s
  {
    if s.NoSchema? {
    } else if s.ref != "" {
      assert byRef[s.ref] in byRef.Values;
    } else if IsUnion(s) {
      assert syn[UnionSignature(s.disc.value, byRef)] in syn.Values;
    } else if s.typ == "array" {
      DenotesNames(e.elem, s.items, byRef, syn);
    } else if IsScalar(s.typ) {
    } else if s.addl.Schema? {
      DenotesNames(e.value, s.addl, byRef, syn);
    } else if s.props != map[] {
      assert syn[ObjectSignature(s)] in syn.Values;
    }
  }

  lemma FieldsNames(fields: seq<StructField>, s: Schema, byRef: map<string, string>, syn: map<string, string>)
    requires s.Schema? && FieldsOk(fields, s, byRef, syn)
    ensures DeclNames(StructDecl(fields)) <= byRef.Values + syn.Values
  {
    hide Denotes, Text.StrictlySorted;
    var keys := Text.SortedKeys(s.props.Keys);
    forall f | f in fields ensures NamesIn(f.typ) <= byRef.Values + syn.Values {
      var i :| 0 <= i < |fields| && fields[i] == f;
      assert keys[i] in keys;
      assert FieldOk(f, keys[i], s, byRef, syn);
      var bare := if keys[i] !in s.required && f.typ.PtrTo? then f.typ.target else f.typ;
      DenotesNames(bare, s.props[keys[i]], byRef, syn);
    }
  }

  lemma {:induction false} VariantNames(disc: Discriminator, byRef: map<string, string>, values: seq<string>)
    requires MappingResolves(disc, byRef) && forall v | v in values :: v in disc.mapping
    ensures forall v | v in VariantsFrom(disc, byRef, values) :: v.typ in byRef.Values
  {
    if values != [] {
      var n := |values| - 1;
      VariantNames(disc, byRef, values[..n]);
      assert values[n] in values;
      assert byRef[disc.mapping[values[n]]] in byRef.Values;
    }
  }

  lemma DeclarationNames(st: State, tame: Schema -> bool, n: string)
    requires WellKept(st, tame) && n in st.types
    ensures DeclNames(st.types[n]) <= st.byRef.Values + st.synthetic.Values
  {
    hide FieldsOk, Denotes, Text.StrictlySorted;
    var t, s := st.types[n], st.origin[n];
    if n in st.byRef.Values {
      var r :| r in st.byRef && st.byRef[r] == n;
      assert ComponentOk(t, s, st.byRef, st.synthetic);
    } else {
      var g :| g in st.synthetic && st.synthetic[g] == n;
      assert SyntheticOk(g, t, s, st.byRef, st.synthetic);
    }
    match t
    case StructDecl(fields) => FieldsNames(fields, s, st.byRef, st.synthetic);
    case UnionDecl(_, _) => VariantNames(s.disc.value, st.byRef, Text.SortedKeys(s.disc.value.mapping.Keys));
    case AliasDecl(e) => if s.Schema? { DenotesNames(e, s, st.byRef, st.synthetic); }
  }

  /** After a build, and after any later `baseType` call that succeeds, every
      name used by a declaration is itself declared; a name belongs to one
      component or one signature, never to both, and none is reserved. */
  lemma EveryNameDeclared(st: State, tame: Schema -> bool)
    requires WellKept(st, tame) && Pending(st) == {} && st.byRef.Values <= st.types.Keys
    ensures forall n | n in st.types :: DeclNames(st.types[n]) <= st.types.Keys
    ensures st.types.Keys == st.byRef.Values + st.synthetic.Values
    ensures st.byRef.Values !! st.synthetic.Values && Injective(st.byRef) && Injective(st.synthetic)
    ensures st.types.Keys !! st.reserved
  {
    hide ComponentsKept, SyntheticsKept;
    assert st.synthetic.Values <= st.types.Keys by {
      forall v | v in st.synthetic.Values ensures v in st.types.Keys {
        assert v !in Pending(st);
      }
    }
    forall n | n in st.types ensures DeclNames(st.types[n]) <= st.types.Keys {
      DeclarationNames(st, tame, n);
    }
  }

  lemma TameParts(s: Schema, tame: Schema -> bool)
    requires Hereditary(tame) && tame(s) && s.Schema?
    ensures tame(s.items) && tame(s.addl) && forall k | k in s.props :: tame(s.props[k])
  {
  }

  lemma {:induction false} VariantsFromAre(disc: Discriminator, byRef: map<string, string>, values: seq<string>,
                                           variants: seq<Variant>)
    requires MappingResolves(disc, byRef) && forall v | v in values :: v in disc.mapping
    requires |variants| == |values|
    requires forall j | 0 <= j < |values| :: variants[j] == Variant(values[j], byRef[disc.mapping[values[j]]])
    ensures variants == VariantsFrom(disc, byRef, values)
  {
    if values != [] {
      var n := |values| - 1;
      VariantsFromAre(disc, byRef, values[..n], variants[..n]);
      assert values[n] in values;
      assert variants == variants[..n] + [variants[n]];
    }
  }

  lemma UnionSignatureIs(disc: Discriminator, byRef: map<string, string>, variants: seq<Variant>, g: string)
    requires MappingResolves(disc, byRef) && variants == VariantsOf(disc, byRef)
    requires g == "union:" + disc.property + ":" + VariantsText(variants)
    ensures g == UnionSignature(disc, byRef)
  {
  }

  lemma KeysInProps(s: Schema, keys: seq<string>, i: nat)
    requires s.Schema? && keys == Text.SortedKeys(s.props.Keys) && i <= |keys|
    ensures forall k | k in keys[..i] :: k in s.props
  {
  }

  /** Fields are called after the properties they hold. */
  ghost predicate FieldsNamed(fields: seq<StructField>, exportedName: string -> string) {
    forall f | f in fields :: NamedAfter(f.name, exportedName(f.jsonName))
  }

  lemma StructSyntheticOk(g: string, fields: seq<StructField>, s: Schema, byRef: map<string, string>,
                          syn: map<string, string>)
    requires IsAnonymous(s) && g == ObjectSignature(s) && FieldsOk(fields, s, byRef, syn)
    ensures SyntheticOk(g, StructDecl(fields), s, byRef, syn)
  {
  }

  lemma UnionSyntheticOk(g: string, variants: seq<Variant>, s: Schema, byRef: map<string, string>,
                         syn: map<string, string>)
    requires s.Schema? && s.ref == "" && IsUnion(s) && MappingResolves(s.disc.value, byRef)
    requires g == UnionSignature(s.disc.value, byRef) && variants == VariantsOf(s.disc.value, byRef)
    ensures SyntheticOk(g, UnionDecl(s.disc.value.property, variants), s, byRef, syn)
  {
  }

  lemma UnionResolves(s: Schema, byRef: map<string, string>)
    requires s.Schema? && s.ref == "" && IsUnion(s)
    ensures Resolves(s, byRef) <==> s.disc.value.mapping != map[] && MappingResolves(s.disc.value, byRef)
  {
  }

  lemma UnionDenotes(s: Schema, g: string, byRef: map<string, string>, syn: map<string, string>)
    requires s.Schema? && s.ref == "" && IsUnion(s) && MappingResolves(s.disc.value, byRef)
    requires g == UnionSignature(s.disc.value, byRef) && g in syn
    ensures Denotes(Name(syn[g]), s, byRef, syn)
  {
  }

  lemma NoFields(s: Schema, byRef: map<string, string>, syn: map<string, string>)
    requires s.Schema?
    ensures FieldsFrom([], s, Text.SortedKeys(s.props.Keys)[..0], byRef, syn)
  {
  }

  lemma FieldAdded(fields: seq<StructField>, f: StructField, s: Schema, keys: seq<string>, i: nat,
                   byRef: map<string, string>, syn: map<string, string>)
    requires s.Schema? && i < |keys| && forall k | k in keys :: k in s.props
    requires FieldsFrom(fields, s, keys[..i], byRef, syn)
    requires forall g | g in fields :: g.name != f.name
    requires f.jsonName == keys[i] && f.omitEmpty == (keys[i] !in s.required)
    requires FieldDenotes(f.typ, s.props[keys[i]], keys[i] in s.required, byRef, syn)
    ensures FieldsFrom(fields + [f], s, keys[..i + 1], byRef, syn)
  {
    hide FieldDenotes;
    var more := fields + [f];
    forall j | 0 <= j < i + 1 ensures FieldOk(more[j], keys[..i + 1][j], s, byRef, syn) {
      if j < i {
        assert FieldOk(fields[j], keys[..i][j], s, byRef, syn);
      }
    }
  }

  lemma DenotesNoPointer(e: Expr, s: Schema, byRef: map<string, string>, syn: map<string, string>)
    requires Denotes(e, s, byRef, syn)
    ensures !e.PtrTo?
  {
  }

  /** The names `typeName` makes hold no comma: `names` of the generator are
      identifiers. */
  ghost predicate CommaFree(typeName: string -> string) {
    forall w :: ',' !in typeName(w)
  }

  lemma ClaimedPlain(typeName: string -> string, key: string, used: set<string>, name: string, tries: nat)
    requires Chosen(used, typeName(key), name, tries)
    ensures CommaFree(typeName) ==> ',' !in name
  {
    hide Chosen;
    if CommaFree(typeName) {
      ChosenPlain(used, typeName(key), name, tries, ',');
    }
  }

  /** The first `i` components are named after themselves. */
  ghost predicate NamedFirst(byRef: map<string, string>, keys: seq<string>, i: nat, typeName: string -> string)
    requires i <= |keys|
  {
    forall j | 0 <= j < i :: RefKey(keys[j]) in byRef && NamedAfter(byRef[RefKey(keys[j])], typeName(keys[j]))
  }

  lemma NamedNone(byRef: map<string, string>, keys: seq<string>, typeName: string -> string)
    ensures NamedFirst(byRef, keys, 0, typeName)
  {
  }

  lemma NamedOneMore(byRef: map<string, string>, keys: seq<string>, i: nat, typeName: string -> string, name: string,
                     all: set<string>)
    requires Lists(keys, all) && i < |keys| && NamedFirst(byRef, keys, i, typeName)
    requires NamedAfter(name, typeName(keys[i]))
    ensures NamedFirst(byRef[RefKey(keys[i]) := name], keys, i + 1, typeName)
  {
    hide RefKey, NamedAfter;
    forall j | 0 <= j < i ensures RefKey(keys[j]) != RefKey(keys[i]) {
      if RefKey(keys[j]) == RefKey(keys[i]) {
        RefInjective(keys[j], keys[i]);
      }
    }
  }

  lemma NamedAll(byRef: map<string, string>, keys: seq<string>, typeName: string -> string, all: set<string>)
    requires Lists(keys, all) && NamedFirst(byRef, keys, |keys|, typeName)
    ensures forall k | k in all :: RefKey(k) in byRef && NamedAfter(byRef[RefKey(k)], typeName(k))
  {
    hide RefKey, NamedAfter;
    forall k | k in all ensures RefKey(k) in byRef && NamedAfter(byRef[RefKey(k)], typeName(k)) {
      var j :| 0 <= j < |keys| && keys[j] == k;
    }
  }

  class Registry {
    const names: NameSet
    const typeName: string -> string
    const exportedName: string -> string
    var byRef: map<string, string>
    var types: map<string, NamedType>
    var synthetic: map<string, string>
    var building: set<string>
    ghost var origin: map<string, Schema>
    ghost const tame: Schema -> bool
    ghost var reserved: set<string>

    constructor (reserved: set<string>, typeName: string -> string, exportedName: string -> string,
                 ghost tame: Schema -> bool)
      requires Hereditary(tame)
      ensures Valid() && fresh(names) && this.tame == tame && this.typeName == typeName && this.reserved == reserved
      ensures Snapshot() == State(map[], map[], map[], map[], reserved, reserved) && building == {}
    {
      names := new NameSet(reserved);
      this.typeName, this.exportedName, this.tame, this.reserved := typeName, exportedName, tame, reserved;
      byRef, types, synthetic, building, origin := map[], map[], map[], {}, map[];
    }

    ghost function Snapshot(): State
      reads this, names
    {
      State(byRef, synthetic, types, origin, names.used, reserved)
    }

    ghost predicate Valid()
      reads this, names
    {
      WellKept(Snapshot(), tame) && Hereditary(tame)
    }

    /** A name for something declared elsewhere; no declaration gets it from now
        on. */
    method ClaimName(want: string) returns (name: string)
      requires Valid()
      modifies this`reserved, names
      ensures Valid() && name !in old(names.used) && NamedAfter(name, want)
      ensures Snapshot() == old(Snapshot()).(used := old(names.used) + {name}, reserved := old(reserved) + {name})
    {
      hide WellKept, Hereditary, Chosen, NamedAfter;
      ghost var before := Snapshot();
      ghost var tries;
      name, tries := names.Claim(want);
      reserved := reserved + {name};
      NameSetAside(before, tame, name);
    }

    /** `baseType` */
    method BaseType(s: Schema, hint: string) returns (ok: bool, e: Expr)
      requires Valid() && tame(s)
      modifies this, names
      ensures Valid() && building == old(building) && Grew(old(Snapshot()), Snapshot())
      ensures ok ==> Settled(old(Snapshot()), Snapshot()) && Denotes(e, s, byRef, synthetic)
      ensures !ok ==> !Resolves(s, byRef)
      decreases s, 5
    {
      hide WellKept, Settled, Grew, Hereditary, MappingResolves, UnionSignature, FieldsOk;
      SettledSelf(Snapshot());
      SettledGrew(Snapshot(), Snapshot());
      if s.NoSchema? {
        return true, Raw;
      }
      if s.ref != "" {
        if s.ref !in byRef {
          return false, Raw;
        }
        return true, Name(byRef[s.ref]);
      }
      if IsUnion(s) {
        ok, e := SynthesizeUnion(s, hint);
        return;
      }
      TameParts(s, tame);
      if s.typ == "array" {
        var elem;
        ok, elem := BaseType(s.items, hint + "Item");
        return ok, SliceOf(elem);
      }
      if s.typ == "object" || s.typ == "" {
        ok, e := ObjectType(s, hint);
        return;
      }
      return true, ScalarType(s);
    }

    /** `objectType` */
    method ObjectType(s: Schema, hint: string) returns (ok: bool, e: Expr)
      requires Valid() && tame(s)
      requires s.Schema? && s.ref == "" && !IsUnion(s) && (s.typ == "object" || s.typ == "")
      modifies this, names
      ensures Valid() && building == old(building) && Grew(old(Snapshot()), Snapshot())
      ensures ok ==> Settled(old(Snapshot()), Snapshot()) && Denotes(e, s, byRef, synthetic)
      ensures !ok ==> !Resolves(s, byRef)
      decreases s, 4
    {
      hide WellKept, Settled, Grew, Hereditary, MappingResolves, UnionSignature, FieldsOk;
      TameParts(s, tame);
      if s.addl.Schema? {
        var value;
        ok, value := BaseType(s.addl, hint + "Value");
        return ok, DictOf(value);
      }
      if s.props == map[] {
        SettledSelf(Snapshot());
        SettledGrew(Snapshot(), Snapshot());
        return true, if s.typ == "" then Raw else DictOf(AnyValue);
      }
      ok, e := SynthesizeStruct(s, hint);
    }

    /** Claiming a name for a signature seen for the first time. */
    method ClaimSignature(g: string, hint: string) returns (name: string)
      requires Valid() && g !in synthetic
      modifies this`synthetic, names
      ensures Valid() && synthetic == old(synthetic)[g := name]
      ensures Grew(old(Snapshot()), Snapshot())
      ensures Pending(Snapshot()) == Pending(old(Snapshot())) + {name}
      ensures name !in Pending(old(Snapshot())) && NamedAfter(name, typeName(hint))
    {
      hide WellKept, Grew, Pending, Hereditary, Chosen, NamedAfter;
      ghost var before := Snapshot();
      ghost var tries;
      name, tries := names.Claim(typeName(hint));
      SignatureClaimed(before, tame, g, name);
      synthetic := synthetic[g := name];
    }

    /** Recording the declaration behind a claimed signature. */
    method DeclareSynthetic(ghost g: string, name: string, t: NamedType, ghost s: Schema)
      requires Valid() && g in synthetic && synthetic[g] == name && name in Pending(Snapshot())
      requires SyntheticOk(g, t, s, byRef, synthetic) && tame(s)
      modifies this`types, this`origin
      ensures Valid() && types == old(types)[name := t] && origin == old(origin)[name := s]
      ensures Grew(old(Snapshot()), Snapshot())
      ensures Pending(Snapshot()) == Pending(old(Snapshot())) - {name}
    {
      hide WellKept, Grew, Pending, Hereditary, SyntheticOk;
      SyntheticDeclared(Snapshot(), tame, g, t, s);
      types := types[name := t];
      origin := origin[name := s];
    }

    /** `synthesizeStruct` */
    method SynthesizeStruct(s: Schema, hint: string) returns (ok: bool, e: Expr)
      requires Valid() && tame(s) && IsAnonymous(s)
      modifies this, names
      ensures Valid() && building == old(building) && Grew(old(Snapshot()), Snapshot())
      ensures ok ==> Settled(old(Snapshot()), Snapshot())
                     && ObjectSignature(s) in synthetic && e == Name(synthetic[ObjectSignature(s)])
      ensures !ok ==> exists k :: k in s.props && !Resolves(s.props[k], byRef)
      decreases s, 3
    {
      hide WellKept, Settled, Grew, Hereditary, Resolves, ObjectSignature;
      var g := ObjectSignature(s);
      if g in synthetic {
        SettledSelf(Snapshot());
        SettledGrew(Snapshot(), Snapshot());
        return true, Name(synthetic[g]);
      }
      var name;
      ok, name := NewStruct(s, g, hint);
      e := Name(name);
    }

    /** The part for a signature seen for the first time. */
    method NewStruct(s: Schema, g: string, hint: string) returns (ok: bool, name: string)
      requires Valid() && tame(s) && IsAnonymous(s) && g == ObjectSignature(s) && g !in synthetic
      modifies this, names
      ensures Valid() && building == old(building) && Grew(old(Snapshot()), Snapshot())
      ensures ok ==> Settled(old(Snapshot()), Snapshot()) && g in synthetic && name == synthetic[g]
      ensures !ok ==> exists k :: k in s.props && !Resolves(s.props[k], byRef)
      decreases s, 2
    {
      TameParts(s, tame);
      hide NamedAfter, FieldsNamed, WellKept, Settled, Grew, Pending, Hereditary, FieldsOk, Resolves, ObjectSignature,
           IsAnonymous, SyntheticOk;
      ghost var before := Snapshot();
      name := ClaimSignature(g, hint);
      ghost var claimed := Snapshot();
      var fields;
      ok, fields := StructFields(s, name);
      ghost var built := Snapshot();
      GrewTransitive(before, claimed, built);
      if ok {
        SettledParts(claimed, built, g, name);
        StructSyntheticOk(g, fields, s, byRef, synthetic);
        DeclareSynthetic(g, name, StructDecl(fields), s);
        GrewTransitive(before, built, Snapshot());
        PendingReturned(before, claimed, built, Snapshot(), name, StructDecl(fields));
      }
    }

    method UnionSignatureOf(property: string, variants: seq<Variant>) returns (g: string)
      ensures g == "union:" + property + ":" + VariantsText(variants)
    {
      g := "union:" + property + ":";
      for i := 0 to |variants|
        invariant g == "union:" + property + ":" + VariantsText(variants[..i])
      {
        assert variants[..i + 1][..i] == variants[..i];
        g := g + (variants[i].value + "=" + variants[i].typ + ",");
      }
      assert variants[..|variants|] == variants;
    }

    /** `synthesizeUnion` */
    method SynthesizeUnion(s: Schema, hint: string) returns (ok: bool, e: Expr)
      requires Valid() && tame(s) && s.Schema? && s.ref == "" && IsUnion(s)
      modifies this, names
      ensures Valid() && building == old(building) && Grew(old(Snapshot()), Snapshot())
      ensures ok ==> Settled(old(Snapshot()), Snapshot()) && Denotes(e, s, byRef, synthetic)
      ensures !ok ==> !Resolves(s, byRef)
      decreases s, 2
    {
      hide WellKept, Settled, Grew, Pending, Hereditary, MappingResolves, UnionSignature, VariantsOf,
           VariantsText, Denotes, Resolves, SyntheticOk;
      ghost var before := Snapshot();
      SettledSelf(before);
      SettledGrew(before, before);
      UnionResolves(s, byRef);
      var variants;
      ok, variants := UnionVariants(s.disc.value);
      if !ok {
        return false, Raw;
      }
      var g := UnionSignatureOf(s.disc.value.property, variants);
      UnionSignatureIs(s.disc.value, byRef, variants, g);
      if g in synthetic {
        UnionDenotes(s, g, byRef, synthetic);
        return true, Name(synthetic[g]);
      }
      var name := ClaimSignature(g, hint);
      ghost var claimed := Snapshot();
      SettledSelf(claimed);
      UnionSyntheticOk(g, variants, s, byRef, synthetic);
      DeclareSynthetic(g, name, UnionDecl(s.disc.value.property, variants), s);
      GrewTransitive(before, claimed, Snapshot());
      PendingReturned(before, claimed, claimed, Snapshot(), name, UnionDecl(s.disc.value.property, variants));
      UnionDenotes(s, g, byRef, synthetic);
      return true, Name(name);
    }

    /** `unionInfoFor` */
    method UnionVariants(disc: Discriminator) returns (ok: bool, variants: seq<Variant>)
      ensures ok <==> disc.mapping != map[] && MappingResolves(disc, byRef)
      ensures ok ==> variants == VariantsOf(disc, byRef)
    {
      var values := Text.SortedKeys(disc.mapping.Keys);
      variants := [];
      for i := 0 to |values|
        invariant forall j | 0 <= j < i :: disc.mapping[values[j]] in byRef
        invariant |variants| == i
        invariant forall j | 0 <= j < i :: variants[j] == Variant(values[j], byRef[disc.mapping[values[j]]])
      {
        assert values[i] in values;
        var ref := disc.mapping[values[i]];
        if ref !in byRef {
          return false, variants;
        }
        variants := variants + [Variant(values[i], byRef[ref])];
      }
      if variants == [] {
        return false, variants;
      }
      assert values[0] in disc.mapping;
      forall v | v in disc.mapping ensures disc.mapping[v] in byRef {
        var j :| 0 <= j < |values| && values[j] == v;
      }
      VariantsFromAre(disc, byRef, values, variants);
      return true, variants;
    }

    /** `structFields` */
    method StructFields(s: Schema, owner: string) returns (ok: bool, fields: seq<StructField>)
      requires Valid() && s.Schema? && forall k | k in s.props :: tame(s.props[k])
      modifies this, names
      ensures Valid() && building == old(building) && Grew(old(Snapshot()), Snapshot())
      ensures ok ==> Settled(old(Snapshot()), Snapshot()) && FieldsOk(fields, s, byRef, synthetic)
      ensures ok ==> FieldsNamed(fields, exportedName)
      ensures !ok ==> exists k :: k in s.props && !Resolves(s.props[k], byRef)
      decreases s, 1
    {
      hide WellKept, Settled, Grew, Hereditary, FieldsFrom, FieldOk, FieldDenotes, Denotes, Resolves, NamedAfter,
           Chosen;
      var keys := Text.SortedKeys(s.props.Keys);
      var fieldNames := new NameSet({});
      fields := [];
      SettledSelf(Snapshot());
      SettledGrew(Snapshot(), Snapshot());
      NoFields(s, byRef, synthetic);
      for i := 0 to |keys|
        invariant Valid() && building == old(building)
        invariant fresh(fieldNames) && fieldNames != names
        invariant Settled(old(Snapshot()), Snapshot()) && Grew(old(Snapshot()), Snapshot())
        invariant FieldsFrom(fields, s, keys[..i], byRef, synthetic)
        invariant forall f | f in fields :: f.name in fieldNames.used
        invariant FieldsNamed(fields, exportedName)
      {
        var key := keys[i];
        assert key in keys;
        ghost var before := Snapshot();
        var goName, _ := fieldNames.Claim(exportedName(key));
        var e;
        ok, e := GoType(s.props[key], key in s.required, owner + goName);
        GrewTransitive(old(Snapshot()), before, Snapshot());
        if !ok {
          return false, fields;
        }
        SettledTransitive(old(Snapshot()), before, Snapshot());
        GrewSub(before, Snapshot());
        KeysInProps(s, keys, i);
        FieldsMore(fields, s, keys[..i], byRef, before.synthetic, synthetic);
        var f := StructField(goName, e, key, key !in s.required);
        FieldAdded(fields, f, s, keys, i, byRef, synthetic);
        fields := fields + [f];
      }
      assert keys[..|keys|] == keys;
      return true, fields;
    }

    /** `goType` */
    method GoType(s: Schema, required: bool, hint: string) returns (ok: bool, e: Expr)
      requires Valid() && tame(s)
      modifies this, names
      ensures Valid() && building == old(building) && Grew(old(Snapshot()), Snapshot())
      ensures ok ==> Settled(old(Snapshot()), Snapshot()) && FieldDenotes(e, s, required, byRef, synthetic)
      ensures ok ==> if required then !e.PtrTo?
                     else if e.PtrTo? then e.target.Prim? || e.target.Name?
                     else e.SliceOf? || e.DictOf? || e.Bytes? || e.Raw? || e.AnyValue?
      ensures !ok ==> !Resolves(s, byRef)
      decreases s, 6
    {
      hide WellKept, Settled, Grew, Hereditary, Denotes, Resolves;
      ok, e := BaseType(s, hint);
      if ok {
        DenotesNoPointer(e, s, byRef, synthetic);
        if !required && !Nilable(e) {
          e := PtrTo(e);
        }
      }
    }

    /** `buildNamed` */
    method BuildNamed(ref: string, s: Schema) returns (ok: bool)
      requires Valid() && ref in byRef && byRef[ref] !in types && TameComponent(s, tame)
      requires byRef[ref] !in building
      modifies this, names
      ensures Valid() && building == old(building) && Grew(old(Snapshot()), Snapshot())
      ensures ok ==> Pending(Snapshot()) == Pending(old(Snapshot()))
                     && byRef[ref] in types && byRef[ref] in origin && origin[byRef[ref]] == s
                     && types.Keys - old(types).Keys <= synthetic.Values + {byRef[ref]}
      ensures !ok ==> !ComponentResolves(s, byRef)
    {
      hide WellKept, Settled, Grew, Hereditary, Denotes, Resolves, FieldsOk, FieldsNamed, MappingResolves;
      var name := byRef[ref];
      ghost var before := Snapshot();
      SettledSelf(before);
      SettledGrew(before, before);
      building := building + {name};
      var decl := AliasDecl(AnyValue);
      ok := true;
      if s.Schema? {
        if IsUnion(s) {
          var variants;
          ok, variants := UnionVariants(s.disc.value);
          decl := UnionDecl(s.disc.value.property, variants);
        } else if s.typ == "object" && s.props != map[] {
          var fields;
          ok, fields := StructFields(s, name);
          decl := StructDecl(fields);
        } else {
          var e;
          ok, e := GoType(s, true, name);
          decl := AliasDecl(e);
        }
      }
      building := building - {name};
      if ok {
        ghost var built := Snapshot();
        ComponentStillMissing(before, built, ref, tame);
        ComponentDeclared(built, tame, ref, decl, s);
        types := types[name := decl];
        origin := origin[name := s];
        GrewTransitive(before, built, Snapshot());
        SettledTypes(before, built);
      }
    }

    /** One round of `declare`. */
    method DeclareOne(key: string, ghost keys: seq<string>, ghost i: nat, ghost all: set<string>)
      requires i < |keys| && keys[i] == key && Lists(keys, all)
      requires DeclaredFirst(Snapshot(), keys, i) && NamedFirst(byRef, keys, i, typeName)
      requires CommaFree(typeName) ==> forall r | r in byRef :: ',' !in byRef[r]
      modifies this`byRef, names
      ensures DeclaredFirst(Snapshot(), keys, i + 1) && NamedFirst(byRef, keys, i + 1, typeName)
      ensures CommaFree(typeName) ==> forall r | r in byRef :: ',' !in byRef[r]
    {
      assert forall j | 0 <= j < i :: keys[j] != key;
      hide Chosen, CommaFree, Declared, DeclaredFirst, RefKey, NamedAfter, NamedFirst, Lists;
      ghost var before := Snapshot();
      var name, tries := names.Claim(typeName(key));
      ClaimedPlain(typeName, key, before.used, name, tries);
      DeclaredOneMore(before, keys, i, name);
      NamedOneMore(byRef, keys, i, typeName, name, all);
      byRef := byRef[RefKey(key) := name];
    }

    /** `declare` */
    method Declare(components: map<string, Schema>)
      requires Valid() && Snapshot() == State(map[], map[], map[], map[], reserved, reserved)
      modifies this`byRef, names
      ensures Valid()
      ensures Declared(Snapshot(), components.Keys)
      ensures CommaFree(typeName) ==> forall r | r in byRef :: ',' !in byRef[r]
      ensures forall k | k in components :: RefKey(k) in byRef && NamedAfter(byRef[RefKey(k)], typeName(k))
    {
      hide CommaFree, WellKept, Hereditary, Declared, DeclaredFirst, Text.StrictlySorted, RefKey, NamedAfter,
           NamedFirst, Lists;
      var keys := Text.SortedKeys(components.Keys);
      SortedKeysLists(components.Keys);
      DeclaredNone(Snapshot(), keys);
      NamedNone(byRef, keys, typeName);
      for i := 0 to |keys|
        invariant Hereditary(tame)
        invariant DeclaredFirst(Snapshot(), keys, i) && NamedFirst(byRef, keys, i, typeName)
        invariant CommaFree(typeName) ==> forall r | r in byRef :: ',' !in byRef[r]
      {
        DeclareOne(keys[i], keys, i, components.Keys);
      }
      NamedAll(byRef, keys, typeName, components.Keys);
      DeclaredAll(Snapshot(), components.Keys, tame);
    }

    /** `build` */
    method Build(components: map<string, Schema>) returns (ok: bool)
      requires Valid() && building == {}
      requires Declared(Snapshot(), components.Keys)
      requires forall k | k in components :: TameComponent(components[k], tame)
      modifies this, names
      ensures Valid() && building == {} && Grew(old(Snapshot()), Snapshot())
      ensures ok ==> Compiled(Snapshot(), components)
      ensures !ok ==> exists k :: k in components && !ComponentResolves(components[k], byRef)
    {
      hide WellKept, Grew, Pending, Hereditary, ComponentResolves, TameComponent, RefKey, BuiltFirst, Compiled,
           Declared, Text.StrictlySorted, Lists;
      var keys := Text.SortedKeys(components.Keys);
      SortedKeysLists(components.Keys);
      ghost var before := Snapshot();
      SettledSelf(before);
      SettledGrew(before, before);
      BuiltNone(before, keys, components);
      for i := 0 to |keys|
        invariant Valid() && building == {} && Grew(before, Snapshot())
        invariant BuiltFirst(Snapshot(), keys, i, components)
      {
        ghost var here := Snapshot();
        BuiltNext(here, keys, i, components);
        ok := BuildNamed(RefKey(keys[i]), components[keys[i]]);
        GrewTransitive(before, here, Snapshot());
        GrewSub(here, Snapshot());
        if !ok {
          return;
        }
        BuiltOneMore(here, Snapshot(), keys, i, components, tame);
      }
      BuiltAll(Snapshot(), keys, components);
      return true;
    }
  }
}
