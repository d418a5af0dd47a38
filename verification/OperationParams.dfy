/** clientgen/spec.go: the fields of an operation's parameters, and its path split
    by them. */
module OperationParams {
  import opened Options
  import N = Names
  import opened PathTemplates
  import Text

  // ------------------------------------------------------------- their order

  /** `paramOrder` */
  function Rank(location: string): nat {
    if location == "path" then 0 else if location == "query" then 1 else if location == "header" then 2 else 3
  }

  predicate Sent(p: Param) {
    p.location == "path" || p.location == "query" || p.location == "header"
  }

  predicate Less(a: Param, b: Param) {
    if a.location != b.location then Rank(a.location) < Rank(b.location)
    else a.name != b.name && Text.Leq(a.name, b.name)
  }

  function Insert(p: Param, ps: seq<Param>): (r: seq<Param>)
    ensures multiset(r) == multiset(ps) + multiset{p}
  {
    if ps == [] || !Less(ps[0], p) then [p] + ps
    else
      assert ps == [ps[0]] + ps[1..];
      [ps[0]] + Insert(p, ps[1..])
  }

  /** `sort.SliceStable` */
  function Ordered(ps: seq<Param>): (r: seq<Param>)
    ensures multiset(r) == multiset(ps)
  {
    if ps == [] then []
    else
      assert ps == [ps[0]] + ps[1..];
      Insert(ps[0], Ordered(ps[1..]))
  }

  lemma OrderedHas(ps: seq<Param>)
    ensures forall p :: p in Ordered(ps) <==> p in ps
  {
    forall p ensures p in Ordered(ps) <==> p in ps {
      assert p in multiset(Ordered(ps)) <==> p in multiset(ps);
    }
  }

  /** By location, and by name within one that is sent. */
  ghost predicate InOrder(ps: seq<Param>) {
    forall i, j | 0 <= i < j < |ps| :: NotAfter(ps[i], ps[j])
  }

  predicate NotAfter(a: Param, b: Param) {
    Rank(a.location) <= Rank(b.location) && (Sent(a) && Sent(b) ==> !Less(b, a))
  }

  lemma NotAfterTransitive(a: Param, b: Param, c: Param)
    requires NotAfter(a, b) && NotAfter(b, c)
    ensures NotAfter(a, c)
  {
    if Sent(a) && a.location == b.location == c.location {
      Text.LeqTotal(b.name, a.name);
      Text.LeqTotal(c.name, b.name);
      Text.LeqTransitive(a.name, b.name, c.name);
      if a.name != c.name && Text.Leq(c.name, a.name) {
        Text.LeqAntisymmetric(a.name, c.name);
      }
    }
  }

  lemma LessIsBefore(a: Param, b: Param)
    ensures if Less(a, b) then NotAfter(a, b) else NotAfter(b, a)
  {
    if a.location == b.location {
      Text.LeqTotal(a.name, b.name);
      if Text.Leq(a.name, b.name) && Text.Leq(b.name, a.name) {
        Text.LeqAntisymmetric(a.name, b.name);
      }
    }
  }

  lemma {:induction false} InsertInOrder(p: Param, ps: seq<Param>)
    requires InOrder(ps)
    ensures InOrder(Insert(p, ps))
  {
    hide NotAfter, Less;
    if ps != [] {
      LessIsBefore(ps[0], p);
      if Less(ps[0], p) {
        InsertInOrder(p, ps[1..]);
        var rest := Insert(p, ps[1..]);
        forall x | x in rest ensures NotAfter(ps[0], x) {
          assert x in multiset(ps[1..]) + multiset{p};
        }
      } else {
        forall x | x in ps ensures NotAfter(p, x) {
          if x != ps[0] {
            NotAfterTransitive(p, ps[0], x);
          }
        }
      }
    }
  }

  lemma {:induction false} OrderedInOrder(ps: seq<Param>)
    ensures InOrder(Ordered(ps))
  {
    if ps != [] {
      OrderedInOrder(ps[1..]);
      InsertInOrder(ps[0], Ordered(ps[1..]));
    }
  }

  // ------------------------------------------------------------- their fields

  datatype Outcome = Unresolved(param: string) | Built(params: seq<OpParam>)

  /** What is made of a parameter, but for its field. */
  predicate Describes(o: OpParam, p: Param) {
    o.wire == p.name && o.location == p.location && o.required == (p.required || p.location == "path")
  }

  /** `kept` are the parameters sent, in order. */
  function Kept(ps: seq<Param>): seq<Param> {
    if ps == [] then []
    else
      var kept, p := Kept(ps[..|ps| - 1]), ps[|ps| - 1];
      if Sent(p) then kept + [p] else kept
  }

  /** The fields are named after the parameters. */
  ghost predicate FieldsNamed(params: seq<OpParam>, exportedName: string -> string) {
    forall o | o in params :: N.NamedAfter(o.field, exportedName(o.wire))
  }

  /** One description for each, behind a field no other has. */
  ghost predicate Describe(params: seq<OpParam>, kept: seq<Param>) {
    && |params| == |kept|
    && (forall i | 0 <= i < |kept| :: Describes(params[i], kept[i]))
    && (forall i, j | 0 <= i < j < |params| :: params[i].field != params[j].field)
  }

  lemma NoneKept(ps: seq<Param>)
    ensures Describe([], Kept(ps[..0]))
  {
  }

  lemma KeptMore(ps: seq<Param>, i: nat)
    requires i < |ps|
    ensures Kept(ps[..i + 1]) == if Sent(ps[i]) then Kept(ps[..i]) + [ps[i]] else Kept(ps[..i])
  {
    assert ps[..i + 1][..i] == ps[..i];
  }

  lemma DescribeMore(params: seq<OpParam>, kept: seq<Param>, o: OpParam, p: Param)
    requires Describe(params, kept) && Describes(o, p) && forall x | x in params :: x.field != o.field
    ensures Describe(params + [o], kept + [p])
  {
  }

  /** `buildParams`; `resolves` tells whether `baseType` finds a type for the
      parameter's schema. */
  method BuildParams(params: seq<Param>, exportedName: string -> string, resolves: Param -> bool) returns (r: Outcome)
    ensures r.Built? <==> forall p | p in params && Sent(p) :: resolves(p)
    ensures r.Built? ==> Describe(r.params, Kept(Ordered(params))) && InOrder(Kept(Ordered(params)))
    ensures r.Built? ==> FieldsNamed(r.params, exportedName)
    ensures r.Unresolved? ==> exists p :: p in params && Sent(p) && !resolves(p) && p.name == r.param
  {
    var ordered := Ordered(params);
    OrderedInOrder(params);
    KeptInOrder(ordered);
    OrderedHas(params);
    hide Ordered, InOrder, Kept, Describe, N.Chosen, N.NamedAfter;
    assert Describe([], Kept(ordered[..0])) by { NoneKept(ordered); }
    var fields := new N.NameSet({});
    var out: seq<OpParam> := [];
    for i := 0 to |ordered|
      invariant fresh(fields) && forall o | o in out :: o.field in fields.used
      invariant Describe(out, Kept(ordered[..i])) && FieldsNamed(out, exportedName)
      invariant forall j | 0 <= j < i && Sent(ordered[j]) :: resolves(ordered[j])
    {
      var p := ordered[i];
      KeptMore(ordered, i);
      if p.location != "path" && p.location != "query" && p.location != "header" {
        continue;
      }
      var required := p.required || p.location == "path";
      if !resolves(p) {
        return Unresolved(p.name);
      }
      var field, _ := fields.Claim(exportedName(p.name));
      DescribeMore(out, Kept(ordered[..i]), OpParam(field, p.name, p.location, required), p);
      out := out + [OpParam(field, p.name, p.location, required)];
    }
    assert ordered[..|ordered|] == ordered;
    r := Built(out);
  }

  lemma {:induction false} KeptInOrder(ps: seq<Param>)
    requires InOrder(ps)
    ensures InOrder(Kept(ps)) && forall p :: p in Kept(ps) <==> p in ps && Sent(p)
  {
    hide NotAfter, Sent;
    if ps != [] {
      var front, last := ps[..|ps| - 1], ps[|ps| - 1];
      KeptInOrder(front);
      assert ps == front + [last];
      forall q | q in Kept(front) ensures NotAfter(q, last) {
        var i :| 0 <= i < |front| && front[i] == q;
        assert ps[i] == q;
      }
      InOrderMore(Kept(front), last);
    }
  }

  lemma InOrderMore(ps: seq<Param>, last: Param)
    requires InOrder(ps) && forall q | q in ps :: NotAfter(q, last)
    ensures InOrder(ps + [last])
  {
    hide NotAfter;
    forall i, j | 0 <= i < j < |ps + [last]| ensures NotAfter((ps + [last])[i], (ps + [last])[j]) {
      if j == |ps| {
        assert ps[i] in ps;
      }
    }
  }

  // ----------------------------------------------------------- end to end

  lemma {:induction false} ByWireIs(params: seq<OpParam>, n: string)
    ensures n in ByWire(params) <==>
              exists i :: 0 <= i < |params| && params[i].location == "path" && params[i].wire == n
    ensures n in ByWire(params) ==>
              exists i :: 0 <= i < |params| && params[i].wire == n && params[i].field == ByWire(params)[n]
  {
    if params != [] {
      var k := |params| - 1;
      ByWireIs(params[..k], n);
      assert params == params[..k] + [params[k]];
      if n in ByWire(params) && !(params[k].location == "path" && params[k].wire == n) {
        var i :| 0 <= i < k && params[..k][i].wire == n && params[..k][i].field == ByWire(params[..k])[n];
        assert params[i] == params[..k][i];
      }
    }
  }

  /** Fields so made carry the document's path parameters. */
  lemma DescribedCarry(filled: seq<Param>, params: seq<OpParam>)
    requires Describe(params, Kept(Ordered(filled)))
    ensures Carries(filled, params)
  {
    var kept := Kept(Ordered(filled));
    OrderedInOrder(filled);
    KeptInOrder(Ordered(filled));
    OrderedHas(filled);
    hide Ordered, Kept, ByWire;
    forall n ensures Declares(filled, n) <==> n in ByWire(params) {
      ByWireIs(params, n);
      SameDeclared(filled, kept, params, n);
    }
    forall m, n | m in ByWire(params) && n in ByWire(params) && m != n ensures ByWire(params)[m] != ByWire(params)[n] {
      ByWireIs(params, m);
      ByWireIs(params, n);
    }
  }

  lemma SameDeclared(filled: seq<Param>, kept: seq<Param>, params: seq<OpParam>, n: string)
    requires Describe(params, kept) && forall p :: p in filled && Sent(p) <==> p in kept
    ensures Declares(filled, n) <==>
              exists i :: 0 <= i < |params| && params[i].location == "path" && params[i].wire == n
  {
    if Declares(filled, n) {
      var i :| 0 <= i < |filled| && filled[i].location == "path" && filled[i].name == n;
      assert filled[i] in kept;
      var j :| 0 <= j < |kept| && kept[j] == filled[i];
      assert Describes(params[j], kept[j]);
    }
    if i :| 0 <= i < |params| && params[i].location == "path" && params[i].wire == n {
      assert Describes(params[i], kept[i]);
      assert kept[i] in filled;
    }
  }

  /** A route's path, its parameters completed by the server, read by the client:
      the parameters once described, the path falls apart exactly when its braces
      close, and its parts spell it again. */
  method DocumentAndSplit(path: string, declared: seq<Param>, exportedName: string -> string, resolves: Param -> bool)
    returns (built: Outcome, split: PathTemplates.Outcome)
    ensures built.Built? <==>
              forall p | p in declared + Missing(Names(Lex(path).list), DeclaredPath(declared)) && Sent(p) ::
                resolves(p)
    ensures built.Built? ==>
              && (split.Parts? <==> Lex(path).closed)
              && (split.Unterminated? <==> !Lex(path).closed)
              && (split.Parts? ==>
                    Reprint(split.parts, Invert(ByWire(built.params))) == Print(Significant(Lex(path).list)))
  {
    hide Names, LexFrom, Missing, Ordered, Kept, Assemble, ByWire, Reprint, Print, Significant, Invert;
    var filled := FillMissingPathParams(path, declared);
    built := BuildParams(filled, exportedName, resolves);
    split := PathTemplates.Unterminated;
    if built.Built? {
      DescribedCarry(filled, built.params);
      PathSurvivesTheDocument(path, declared, built.params);
      split := BuildPathParts(path, built.params);
    }
  }
}
