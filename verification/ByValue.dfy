/** Why a generated client compiles: no declaration contains itself by value. */
module ByValue {
  import opened Options
  import opened Schemas
  import opened Registry
  import opened Meaning
  import opened Signature
  import Hoist
  import WireContract
  import Text

  // ----------------------------------------- containment in client, document

  /** `a`'s declaration has a `b` in it, not behind a pointer, slice or map. */
  ghost predicate Contains(g: State, a: string, b: string) {
    && a in g.types
    && match g.types[a]
       case StructDecl(fields) => exists f :: f in fields && f.typ == Name(b)
       case UnionDecl(_, _) => false
       case AliasDecl(e) => e == Name(b)
  }

  ghost predicate Chain(g: State, path: seq<string>) {
    path != [] && forall i | 0 <= i < |path| - 1 :: Contains(g, path[i], path[i + 1])
  }

  /** The references an object form holds by value: through required
      properties, and through objects nested in them. */
  function ValueRefs(f: Form): set<string>
    decreases f, 0
  {
    if f.Object? then
      set k, r | k in f.props && k in f.required && r in ValueRef(f.props[k]) :: r
    else {}
  }

  function ValueRef(f: Form): set<string>
    decreases f, 1
  {
    match f
    case Ref(r) => {r}
    case Object(_, _) => ValueRefs(f)
    case _ => {}
  }

  type Ranking = string -> nat

  /** Every component is an object, and what it holds by value ranks lower. */
  ghost predicate Ranked(components: map<string, Schema>, rank: Ranking) {
    forall k | k in components ::
      && components[k].Schema? && components[k].ref == "" && !IsUnion(components[k])
      && components[k].typ == "object" && components[k].addl.NoSchema?
      && forall r | r in ValueRefs(ObjectForm(components[k])) :: exists m :: r == RefKey(m) && rank(m) < rank(k)
  }

  /** A finished build of a document whose anonymous objects are told apart. */
  ghost predicate Built(g: State, components: map<string, Schema>, uses: seq<Schema>) {
    Generated(g, components, uses) && Readable(components, uses)
  }

  // ------------------------------------------------ a measure that descends

  function RefRank(rank: Ranking, r: string): nat {
    match Target(r)
    case None => 0
    case Some(m) => rank(m)
  }

  /** One more than the greatest rank among `refs`, zero for none. */
  ghost function Above(refs: set<string>, rank: Ranking): (n: nat)
    ensures forall r | r in refs :: RefRank(rank, r) < n
    ensures n > 0 ==> exists r :: r in refs && n == RefRank(rank, r) + 1
  {
    if refs == {} then 0
    else
      var r :| r in refs;
      var rest := Above(refs - {r}, rank);
      if rest > RefRank(rank, r) then rest else RefRank(rank, r) + 1
  }

  /** A triple compared lexicographically. */
  datatype Measure = Measure(height: nat, declared: bool, length: nat)

  predicate Less(a: Measure, b: Measure) {
    a.height < b.height || (a.height == b.height && (
      (!a.declared && b.declared) || (a.declared == b.declared && a.length < b.length)))
  }

  ghost predicate Measures(g: State, components: map<string, Schema>, rank: Ranking, n: string, m: Measure) {
    if n in g.byRef.Values then
      exists k :: k in components && RefKey(k) in g.byRef && g.byRef[RefKey(k)] == n && m == Measure(rank(k), true, 0)
    else
      n in g.origin && n in g.types &&
      if g.types[n].UnionDecl? then m == Measure(0, false, 0)
      else g.origin[n].Schema? && m == Measure(Above(ValueRefs(ObjectForm(g.origin[n])), rank), false,
                                              |StructSignature(g.origin[n])|)
  }

  lemma MeasureUnique(g: State, components: map<string, Schema>, uses: seq<Schema>, rank: Ranking, n: string,
                      a: Measure, b: Measure)
    requires Generated(g, components, uses) && Measures(g, components, rank, n, a)
            && Measures(g, components, rank, n, b)
    ensures a == b
  {
    hide ComponentsKept, SyntheticsKept, RefKey, Part;
    if n in g.byRef.Values {
      var k :| k in components && RefKey(k) in g.byRef && g.byRef[RefKey(k)] == n && a == Measure(rank(k), true, 0);
      var j :| j in components && RefKey(j) in g.byRef && g.byRef[RefKey(j)] == n && b == Measure(rank(j), true, 0);
      RefInjective(j, k);
    }
  }

  lemma {:induction false} PropShorter(s: Schema, keys: seq<string>, k: string)
    requires s.Schema? && (forall j | j in keys :: j in s.props) && k in keys
    ensures |SchemaSignature(s.props[k])| < |PropsSignature(s, keys)|
  {
    if keys[0] != k {
      PropShorter(s, keys[1..], k);
    }
  }

  lemma SignatureShorter(s: Schema, k: string)
    requires s.Schema? && k in s.props && IsAnonymous(s.props[k]) && s.props[k].typ == "object"
    ensures |StructSignature(s.props[k])| < |StructSignature(s)|
  {
    hide Text.StrictlySorted;
    PropShorter(s, Text.SortedKeys(s.props.Keys), k);
  }

  lemma ValueRefsAt(s: Schema, k: string)
    requires s.Schema? && k in s.props && k in s.required
    ensures ValueRef(FormOf(s.props[k])) <= ValueRefs(ObjectForm(s))
  {
    Text.SortForgetsOrder(s.required, s.required);
    assert k in multiset(Text.Sort(s.required));
    assert ObjectForm(s).props[k] == FormOf(s.props[k]);
  }

  // ---------------------------------------------------- one step of a chain

  /** The field that holds `b` by value comes from a required property. */
  lemma FieldSource(fields: seq<StructField>, s: Schema, g: State, b: string) returns (k: string)
    requires s.Schema? && FieldsOk(fields, s, g.byRef, g.synthetic)
    requires exists f :: f in fields && f.typ == Name(b)
    ensures k in s.props && k in s.required && Denotes(Name(b), s.props[k], g.byRef, g.synthetic)
  {
    hide Denotes, FieldOk, Text.StrictlySorted;
    var f :| f in fields && f.typ == Name(b);
    var i :| 0 <= i < |fields| && fields[i] == f;
    var keys := Text.SortedKeys(s.props.Keys);
    k := keys[i];
    assert k in keys;
    HeldByValue(f, k, s, g, b);
  }

  lemma HeldByValue(f: StructField, k: string, s: Schema, g: State, b: string)
    requires s.Schema? && k in s.props && FieldOk(f, k, s, g.byRef, g.synthetic) && f.typ == Name(b)
    ensures k in s.required && Denotes(Name(b), s.props[k], g.byRef, g.synthetic)
  {
    hide Denotes;
  }

  /** `s` is the object a declaration was made from, `m` its measure's height. */
  lemma StepDown(g: State, components: map<string, Schema>, uses: seq<Schema>, rank: Ranking, s: Schema, k: string,
                 b: string, height: nat)
    returns (mb: Measure)
    requires Built(g, components, uses) && Ranked(components, rank)
    requires s.Schema? && k in s.props && k in s.required && Occurs(components, uses, s.props[k])
    requires Denotes(Name(b), s.props[k], g.byRef, g.synthetic)
    requires forall r | r in ValueRefs(ObjectForm(s)) :: RefRank(rank, r) < height
    ensures Measures(g, components, rank, b, mb)
    ensures if b in g.byRef.Values then mb.height < height
            else mb.height <= height && !mb.declared && mb.length < |StructSignature(s)| + 1
    ensures b !in g.byRef.Values ==> mb.length < |StructSignature(s)|
  {
    var t := s.props[k];
    ValueRefsAt(s, k);
    StructSignatureNonEmpty(s);
    hide Denotes, StructSignature, ValueRefs, ObjectForm, Ranked, SchemaSignature, Occurs, Generated, Readable;
    if t.Schema? && t.ref != "" {
      mb := StepRef(g, components, uses, rank, t, b);
      assert t.ref in ValueRef(FormOf(t));
    } else {
      mb := StepSynthetic(g, components, uses, rank, s, k, b, height);
    }
  }

  lemma StepRef(g: State, components: map<string, Schema>, uses: seq<Schema>, rank: Ranking, t: Schema,
                b: string) returns (mb: Measure)
    requires Built(g, components, uses) && t.Schema? && t.ref != "" && Denotes(Name(b), t, g.byRef, g.synthetic)
    ensures Measures(g, components, rank, b, mb) && mb.declared && mb.height == RefRank(rank, t.ref)
    ensures b in g.byRef.Values && t.ref in ValueRef(FormOf(t))
  {
    hide Denotes, Generated, Readable;
    DenotesRef(b, t, g);
    var j := GeneratedRef(g, components, uses, t.ref);
    assert g.byRef[RefKey(j)] == b;
    mb := Measure(rank(j), true, 0);
  }

  lemma DenotesRef(b: string, t: Schema, g: State)
    requires t.Schema? && t.ref != "" && Denotes(Name(b), t, g.byRef, g.synthetic)
    ensures t.ref in g.byRef && g.byRef[t.ref] == b && b in g.byRef.Values
    ensures FormOf(t) == Form.Ref(t.ref)
  {
  }

  lemma StructSignatureNonEmpty(s: Schema)
    requires s.Schema?
    ensures |StructSignature(s)| > 0
  {
    hide PropsSignature, Text.Join, Text.StrictlySorted;
  }

  lemma StepSynthetic(g: State, components: map<string, Schema>, uses: seq<Schema>, rank: Ranking, s: Schema,
                      k: string, b: string, height: nat)
    returns (mb: Measure)
    requires Built(g, components, uses) && s.Schema? && k in s.props && Occurs(components, uses, s.props[k])
    requires !(s.props[k].Schema? && s.props[k].ref != "")
    requires Denotes(Name(b), s.props[k], g.byRef, g.synthetic)
    requires ValueRef(FormOf(s.props[k])) <= ValueRefs(ObjectForm(s)) && |StructSignature(s)| > 0
    requires forall r | r in ValueRefs(ObjectForm(s)) :: RefRank(rank, r) < height
    ensures b !in g.byRef.Values && Measures(g, components, rank, b, mb)
    ensures mb.height <= height && !mb.declared && mb.length < |StructSignature(s)|
  {
    DenotesSynthetic(b, s.props[k], g);
    if IsUnion(s.props[k]) {
      mb := StepUnion(g, components, uses, rank, s.props[k].disc.value, b);
    } else {
      var o := StepStruct(g, components, uses, rank, s.props[k], b);
      SignatureShorter(s, k);
      AboveBelow(ValueRefs(ObjectForm(o)), ValueRefs(ObjectForm(s)), rank, height);
      mb := Measure(Above(ValueRefs(ObjectForm(o)), rank), false, |StructSignature(o)|);
    }
  }

  lemma DenotesSynthetic(b: string, t: Schema, g: State)
    requires Denotes(Name(b), t, g.byRef, g.synthetic) && !(t.Schema? && t.ref != "")
    ensures t.Schema? && t.ref == ""
    ensures if IsUnion(t) then MappingResolves(t.disc.value, g.byRef)
            && UnionSignature(t.disc.value, g.byRef) in g.synthetic
                               && g.synthetic[UnionSignature(t.disc.value, g.byRef)] == b
            else IsAnonymous(t) && ObjectSignature(t) in g.synthetic && g.synthetic[ObjectSignature(t)] == b
  {
  }

  lemma AboveBelow(small: set<string>, all: set<string>, rank: Ranking, height: nat)
    requires small <= all && forall r | r in all :: RefRank(rank, r) < height
    ensures Above(small, rank) <= height
  {
  }

  lemma StepUnion(g: State, components: map<string, Schema>, uses: seq<Schema>, rank: Ranking, disc: Discriminator,
                  b: string) returns (mb: Measure)
    requires Built(g, components, uses) && MappingResolves(disc, g.byRef)
    requires UnionSignature(disc, g.byRef) in g.synthetic && g.synthetic[UnionSignature(disc, g.byRef)] == b
    ensures b !in g.byRef.Values && Measures(g, components, rank, b, mb) && mb == Measure(0, false, 0)
  {
    hide Generated, Readable, SyntheticOk, UnionSignature, MappingResolves, Occurs;
    var o := GeneratedSynthetic(g, components, uses, UnionSignature(disc, g.byRef));
    SyntheticIsUnion(UnionSignature(disc, g.byRef), g.types[b], o, disc, g.byRef, g.synthetic);
    mb := Measure(0, false, 0);
  }

  lemma StepStruct(g: State, components: map<string, Schema>, uses: seq<Schema>, rank: Ranking, t: Schema,
                   b: string) returns (o: Schema)
    requires Built(g, components, uses) && IsAnonymous(t) && Occurs(components, uses, t)
    requires ObjectSignature(t) in g.synthetic && g.synthetic[ObjectSignature(t)] == b
    ensures b !in g.byRef.Values && o.Schema?
    ensures Measures(g, components, rank, b,
                     Measure(Above(ValueRefs(ObjectForm(o)), rank), false, |StructSignature(o)|))
    ensures StructSignature(o) == StructSignature(t) && t.typ == "object"
    ensures ValueRefs(ObjectForm(o)) == ValueRef(FormOf(t))
  {
    hide Generated, Readable, SyntheticOk, ObjectSignature, Occurs, ObjectForm, StructSignature, FieldsOk;
    o := GeneratedSynthetic(g, components, uses, ObjectSignature(t));
    SyntheticIsStruct(ObjectSignature(t), g.types[b], o, t, g.byRef, g.synthetic);
    SameForm(components, uses, o, t);
  }

  lemma SameForm(components: map<string, Schema>, uses: seq<Schema>, a: Schema, b: Schema)
    requires Readable(components, uses) && Occurs(components, uses, a) && Occurs(components, uses, b)
    requires IsAnonymous(a) && IsAnonymous(b) && ObjectSignature(a) == ObjectSignature(b)
    ensures ObjectForm(a) == ObjectForm(b) && StructSignature(a) == StructSignature(b)
    ensures b.typ == "object" && FormOf(b) == ObjectForm(b)
  {
    hide Occurs, ObjectForm, FormOf, Legible, StructSignature;
    DropSame("struct:", StructSignature(a), StructSignature(b));
    SignatureDecidesShape(a, b);
    AnonymousForm(b);
  }

  lemma AnonymousForm(s: Schema)
    requires IsAnonymous(s) && s.typ == "object"
    ensures FormOf(s) == ObjectForm(s)
  {
    hide ObjectForm;
  }

  lemma Step(g: State, components: map<string, Schema>, uses: seq<Schema>, rank: Ranking, a: string, b: string,
             ma: Measure) returns (mb: Measure)
    requires Built(g, components, uses) && Ranked(components, rank)
    requires Contains(g, a, b) && Measures(g, components, rank, a, ma)
    ensures Measures(g, components, rank, b, mb) && Less(mb, ma)
  {
    if a in g.byRef.Values {
      var k :| k in components && RefKey(k) in g.byRef && g.byRef[RefKey(k)] == a && ma == Measure(rank(k), true, 0);
      mb := StepFromComponent(g, components, uses, rank, k, b);
    } else {
      mb := StepFromSynthetic(g, components, uses, rank, a, b, ma);
    }
  }

  lemma StepFromComponent(g: State, components: map<string, Schema>, uses: seq<Schema>, rank: Ranking, k: string,
                          b: string) returns (mb: Measure)
    requires Built(g, components, uses) && Ranked(components, rank)
    requires k in components && RefKey(k) in g.byRef && Contains(g, g.byRef[RefKey(k)], b)
    ensures Measures(g, components, rank, b, mb) && Less(mb, Measure(rank(k), true, 0))
  {
    var s := components[k];
    var j := GeneratedRef(g, components, uses, RefKey(k));
    RefInjective(j, k);
    ComponentFields(g, components, uses, g.types[g.byRef[RefKey(k)]], s, b);
    var key := FieldSource(g.types[g.byRef[RefKey(k)]].fields, s, g, b);
    RankedRefs(components, rank, k);
    mb := StepDown(g, components, uses, rank, s, key, b, rank(k));
  }

  lemma ComponentFields(g: State, components: map<string, Schema>, uses: seq<Schema>, t: NamedType, s: Schema,
                        b: string)
    requires s.Schema? && s.ref == "" && !IsUnion(s) && s.typ == "object" && s.addl.NoSchema?
    requires ComponentOk(t, s, g.byRef, g.synthetic) && TameComponent(s, Part(components, uses))
    requires !(t.AliasDecl? && t.typ != Name(b)) && !t.UnionDecl?
    ensures t.StructDecl? && FieldsOk(t.fields, s, g.byRef, g.synthetic)
    ensures forall k | k in s.props :: Occurs(components, uses, s.props[k])
  {
    TameOccurs(components, uses, s);
    hide Occurs;
  }

  lemma RankedRefs(components: map<string, Schema>, rank: Ranking, k: string)
    requires Ranked(components, rank) && k in components
    ensures forall r | r in ValueRefs(ObjectForm(components[k])) :: RefRank(rank, r) < rank(k)
  {
    forall r | r in ValueRefs(ObjectForm(components[k])) ensures RefRank(rank, r) < rank(k) {
      var m :| r == RefKey(m) && rank(m) < rank(k);
      assert r[..|REF_PREFIX|] == REF_PREFIX && r[|REF_PREFIX|..] == m;
    }
  }

  lemma StepFromSynthetic(g: State, components: map<string, Schema>, uses: seq<Schema>, rank: Ranking, a: string,
                          b: string, ma: Measure) returns (mb: Measure)
    requires Built(g, components, uses) && Ranked(components, rank)
    requires a !in g.byRef.Values && Contains(g, a, b) && Measures(g, components, rank, a, ma)
    ensures Measures(g, components, rank, b, mb) && Less(mb, ma)
  {
    var o := SyntheticFields(g, components, uses, a);
    var key := FieldSource(g.types[a].fields, o, g, b);
    mb := StepDown(g, components, uses, rank, o, key, b, ma.height);
  }

  lemma SyntheticFields(g: State, components: map<string, Schema>, uses: seq<Schema>, a: string) returns (o: Schema)
    requires Built(g, components, uses) && a in g.types && a !in g.byRef.Values && !g.types[a].UnionDecl?
    ensures g.types[a].StructDecl? && o.Schema? && a in g.origin && o == g.origin[a]
    ensures FieldsOk(g.types[a].fields, o, g.byRef, g.synthetic)
    ensures forall k | k in o.props :: Occurs(components, uses, o.props[k])
  {
    hide ComponentOk, FieldsOk, TameComponent, BuiltFrom, ObjectSignature;
    var sig :| sig in g.synthetic && g.synthetic[sig] == a;
    o := GeneratedSynthetic(g, components, uses, sig);
    OccursWithin(components, uses, o);
  }

  lemma {:induction false} ChainDescends(g: State, components: map<string, Schema>, uses: seq<Schema>, rank: Ranking,
                                         path: seq<string>, m: Measure)
    returns (last: Measure)
    requires Built(g, components, uses) && Ranked(components, rank) && Chain(g, path)
    requires Measures(g, components, rank, path[0], m)
    ensures Measures(g, components, rank, path[|path| - 1], last)
    ensures if |path| == 1 then last == m else Less(last, m)
    decreases |path|
  {
    hide Generated, Readable, Ranked, Measures, Contains;
    if |path| == 1 {
      return m;
    }
    assert Contains(g, path[0], path[1]);
    var next := Step(g, components, uses, rank, path[0], path[1], m);
    forall i | 0 <= i < |path[1..]| - 1 ensures Contains(g, path[1..][i], path[1..][i + 1]) {
      assert Contains(g, path[i + 1], path[i + 2]);
    }
    last := ChainDescends(g, components, uses, rank, path[1..], next);
  }

  lemma HasMeasure(g: State, components: map<string, Schema>, uses: seq<Schema>, rank: Ranking,
                   n: string) returns (m: Measure)
    requires Built(g, components, uses) && n in g.types
    ensures Measures(g, components, rank, n, m)
  {
    if n in g.byRef.Values {
      var r :| r in g.byRef && g.byRef[r] == n;
      var k := GeneratedRef(g, components, uses, r);
      m := Measure(rank(k), true, 0);
    } else {
      hide ComponentOk, TameComponent, BuiltFrom, FieldsOk;
      var sig :| sig in g.synthetic && g.synthetic[sig] == n;
      var o := GeneratedSynthetic(g, components, uses, sig);
      if g.types[n].UnionDecl? {
        m := Measure(0, false, 0);
      } else {
        m := Measure(Above(ValueRefs(ObjectForm(o)), rank), false, |StructSignature(o)|);
      }
    }
  }

  /** No chain of by-value containment comes back to where it started. */
  lemma NoTypeContainsItself(g: State, components: map<string, Schema>, uses: seq<Schema>, rank: Ranking,
                             path: seq<string>)
    requires Built(g, components, uses) && Ranked(components, rank)
    requires Chain(g, path) && |path| > 1
    ensures path[0] != path[|path| - 1]
  {
    assert Contains(g, path[0], path[1]);
    var m := HasMeasure(g, components, uses, rank, path[0]);
    var last := ChainDescends(g, components, uses, rank, path, m);
    if path[0] == path[|path| - 1] {
      MeasureUnique(g, components, uses, rank, path[0], m, last);
    }
  }

  // ------------------------------------ Go's own rule ranks the document

  /** The named structs a Go type holds by value. */
  function GoValues(t: Hoist.GoType): set<string> {
    match t
    case Named(n) => {n}
    case Array(e) => GoValues(e)
    case Anon(fields) => GoFieldValues(fields)
    case _ => {}
  }

  function GoFieldValues(fields: seq<Hoist.Field>): set<string> {
    if fields == [] then {}
    else GoFieldValues(fields[..|fields| - 1]) + GoValues(fields[|fields| - 1].typ)
  }

  /** What the Go compiler checks: no struct holds itself by value. */
  ghost predicate GoLayout(p: Hoist.Program, rank: Ranking) {
    forall n, m | n in p && m in GoFieldValues(p[n]) :: rank(m) < rank(n)
  }

  lemma {:induction false} TypeValues(p: Hoist.Program, t: Hoist.GoType, s: Schema, format: string)
    requires WireContract.Usable(p, t) && WireContract.Formatted(s, p, t, format) && !t.Ptr?
    ensures forall r | r in ValueRef(FormOf(s)) :: exists m :: m in GoValues(t) && r == RefKey(m)
    decreases t, 2
  {
    hide GoFieldValues, WireContract.FieldsUsable, Hoist.PropsOf, Hoist.RequiredOf, ValueRefs, ObjectForm,
         Hoist.Mapping, Hoist.VariantSchemas;
    match t
    case Anon(fields) =>
      FieldsValues(p, fields);
      AnonForm(p, fields, s);
    case Named(n) => assert n in GoValues(t) && s.ref == RefKey(n);
    case _ =>
  }

  lemma AnonForm(p: Hoist.Program, fields: seq<Hoist.Field>, s: Schema)
    requires var o := Hoist.StructOf(p, fields); s.Schema? && s == o.(format := s.format, notes := s.notes)
    ensures ValueRef(FormOf(s)) <= ValueRefs(ObjectForm(Hoist.StructOf(p, fields)))
  {
    assert ObjectForm(s) == ObjectForm(Hoist.StructOf(p, fields));
  }

  lemma FieldsValues(p: Hoist.Program, fields: seq<Hoist.Field>)
    requires WireContract.FieldsUsable(p, fields)
    ensures forall r | r in ValueRefs(ObjectForm(Hoist.StructOf(p, fields))) ::
              exists m :: m in GoFieldValues(fields) && r == RefKey(m)
    decreases fields, 1
  {
    hide GoFieldValues, WireContract.FieldsUsable, FormOf, ValueRef, RefKey, Hoist.PropsOf, Hoist.RequiredOf;
    var s := Hoist.StructOf(p, fields);
    forall r | r in ValueRefs(ObjectForm(s)) ensures exists m :: m in GoFieldValues(fields) && r == RefKey(m) {
      var k :| k in s.props && k in Text.Sort(s.required) && r in ValueRef(FormOf(s.props[k]));
      assert k in multiset(Text.Sort(s.required));
      FieldValue(p, fields, k, r);
    }
  }

  lemma {:induction false} FieldValue(p: Hoist.Program, fields: seq<Hoist.Field>, k: string, r: string)
    requires WireContract.FieldsUsable(p, fields)
    requires k in Hoist.PropsOf(p, fields) && k in Hoist.RequiredOf(fields)
    requires r in ValueRef(FormOf(Hoist.PropsOf(p, fields)[k]))
    ensures exists m :: m in GoFieldValues(fields) && r == RefKey(m)
    decreases fields, 0
  {
    hide RefKey, ValueRef, FormOf;
    var n := |fields| - 1;
    var f := fields[n];
    WireContract.RequiredExactly(p, fields);
    WireContract.RequiredExactly(p, fields[..n]);
    assert f in fields;
    if Hoist.Serialized(f) && Hoist.JsonName(f).value == k {
      WireContract.FieldFormatted(p, f);
      TypeValues(p, f.typ, Hoist.Decorate(Hoist.SchemaOf(p, f.typ), f), f.format);
      var m :| m in GoValues(f.typ) && r == RefKey(m);
      assert m in GoFieldValues(fields);
    } else {
      FieldValue(p, fields[..n], k, r);
      var m :| m in GoFieldValues(fields[..n]) && r == RefKey(m);
      assert m in GoFieldValues(fields);
    }
  }

  /** A program the Go compiler accepts gives a ranked document. */
  lemma LayoutRanks(p: Hoist.Program, from: set<string>, rank: Ranking)
    requires GoLayout(p, rank) && WireContract.ProgramUsable(p)
    ensures Ranked(Hoist.Hoisted(p, from), rank)
  {
    hide ValueRefs, Hoist.Reachable, WireContract.FieldsUsable, RefKey;
    var components := Hoist.Hoisted(p, from);
    forall k, r | k in components && r in ValueRefs(ObjectForm(components[k]))
      ensures exists m :: r == RefKey(m) && rank(m) < rank(k)
    {
      FieldsValues(p, p[k]);
      var m :| m in GoFieldValues(p[k]) && r == RefKey(m);
      assert rank(m) < rank(k);
    }
  }
}
