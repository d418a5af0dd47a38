/** Route path templates on both sides of the document: the server completes the
    parameter list (openapi/openapi.go), the client splits the path into parts
    (clientgen/spec.go). */
module PathTemplates {
  import opened Options
  import opened Schemas
  import Text

  // ------------------------------------------------- reading a path template

  datatype Token = Char(c: char) | Template(raw: string)

  /** The path as literal bytes and `{...}` groups; `closed` is false when a
      brace is never closed, and the tokens then stop before it. */
  datatype Tokens = Tokens(list: seq<Token>, closed: bool)

  function Push(t: Token, rest: Tokens): Tokens {
    Tokens([t] + rest.list, rest.closed)
  }

  function LexFrom(path: string, i: nat): Tokens
    requires i <= |path|
    decreases |path| - i
  {
    if i == |path| then Tokens([], true)
    else if path[i] != '{' then Push(Char(path[i]), LexFrom(path, i + 1))
    else
      var end := Text.IndexFrom(path, i + 1, '}');
      if end < 0 then Tokens([], false) else Push(Template(path[i + 1..end]), LexFrom(path, end + 1))
  }

  function Lex(path: string): Tokens {
    LexFrom(path, 0)
  }

  const ELLIPSIS: string := "..."

  /** The parameter a group stands for; None for `{$}`, `{}` and `{...}`. */
  function ParamName(raw: string): Option<string> {
    if raw == "$" then None
    else
      var name := Text.TrimSuffix(raw, ELLIPSIS);
      if name == "" then None else Some(name)
  }

  function NameIn(t: Token): seq<string> {
    if t.Template? && ParamName(t.raw).Some? then [ParamName(t.raw).value] else []
  }

  function Names(tokens: seq<Token>): seq<string> {
    if tokens == [] then [] else NameIn(tokens[0]) + Names(tokens[1..])
  }

  function TokenText(t: Token): string {
    match t
    case Char(c) => [c]
    case Template(raw) => "{" + raw + "}"
  }

  function Print(tokens: seq<Token>): string {
    if tokens == [] then "" else TokenText(tokens[0]) + Print(tokens[1..])
  }

  predicate Empty(t: Token) {
    t.Template? && ParamName(t.raw).None?
  }

  /** The path with `{$}` and the empty templates taken out. */
  function Significant(tokens: seq<Token>): seq<Token> {
    if tokens == [] then []
    else if Empty(tokens[0]) then Significant(tokens[1..])
    else [tokens[0]] + Significant(tokens[1..])
  }

  lemma PrintPush(t: Token, rest: Tokens)
    ensures Print(Push(t, rest).list) == TokenText(t) + Print(rest.list)
  {
    assert Push(t, rest).list[1..] == rest.list;
  }

  /** Reading a path loses nothing of it. */
  lemma {:induction false} LexPrints(path: string, i: nat)
    requires i <= |path| && LexFrom(path, i).closed
    ensures Print(LexFrom(path, i).list) == path[i..]
    decreases |path| - i
  {
    hide Print;
    if i == |path| {
      PrintNothing();
    } else if path[i] != '{' {
      LexPrints(path, i + 1);
      PrintPush(Char(path[i]), LexFrom(path, i + 1));
    } else {
      var end := Text.IndexFrom(path, i + 1, '}');
      LexPrints(path, end + 1);
      PrintPush(Template(path[i + 1..end]), LexFrom(path, end + 1));
      Braces(path, i, end);
    }
  }

  lemma PrintNothing()
    ensures Print([]) == ""
  {
  }

  lemma Braces(path: string, i: nat, end: nat)
    requires i < end < |path| && path[i] == '{' && path[end] == '}'
    ensures TokenText(Template(path[i + 1..end])) + path[end + 1..] == path[i..]
  {
  }

  // ------------------------------------------------------------- the server

  datatype Param = Param(name: string, location: string, required: bool)

  ghost predicate Declares(params: seq<Param>, name: string) {
    exists i :: 0 <= i < |params| && params[i].location == "path" && params[i].name == name
  }

  lemma NamesPush(t: Token, rest: Tokens)
    ensures Names(Push(t, rest).list) == NameIn(t) + Names(rest.list)
  {
    assert Push(t, rest).list[1..] == rest.list;
  }

  /** `pathTemplateNames` */
  method PathTemplateNames(path: string) returns (names: seq<string>)
    ensures names == Names(Lex(path).list)
  {
    hide NameIn, Push;
    names := [];
    var i := 0;
    while i < |path|
      invariant 0 <= i <= |path|
      invariant names + Names(LexFrom(path, i).list) == Names(Lex(path).list)
    {
      if path[i] != '{' {
        NamesPush(Char(path[i]), LexFrom(path, i + 1));
        NameOfChar(path[i]);
        i := i + 1;
        continue;
      }
      var end := Text.IndexFrom(path, i + 1, '}');
      if end < 0 {
        return;
      }
      var name := path[i + 1..end];
      NamesPush(Template(name), LexFrom(path, end + 1));
      NameOfTemplate(name);
      i := end + 1;
      if name == "$" {
        continue;
      }
      name := Text.TrimSuffix(name, ELLIPSIS);
      if name == "" {
        continue;
      }
      names := names + [name];
    }
  }

  lemma NameOfChar(c: char)
    ensures NameIn(Char(c)) == []
  {
  }

  lemma NameOfTemplate(raw: string)
    ensures NameIn(Template(raw))
         == if raw == "$" || Text.TrimSuffix(raw, ELLIPSIS) == "" then [] else [Text.TrimSuffix(raw, ELLIPSIS)]
  {
  }

  /** The parameters `fillMissingPathParams` appends: one per undeclared name, in
      order of first appearance. */
  function Missing(names: seq<string>, declared: set<string>): seq<Param> {
    if names == [] then []
    else if names[0] in declared then Missing(names[1..], declared)
    else [Param(names[0], "path", true)] + Missing(names[1..], declared + {names[0]})
  }

  function DeclaredPath(params: seq<Param>): set<string> {
    set i | 0 <= i < |params| && params[i].location == "path" :: params[i].name
  }

  /** `fillMissingPathParams` */
  method FillMissingPathParams(path: string, params: seq<Param>) returns (filled: seq<Param>)
    ensures filled == params + Missing(Names(Lex(path).list), DeclaredPath(params))
  {
    hide Names, LexFrom;
    var declared: set<string> := {};
    for i := 0 to |params|
      invariant declared == DeclaredPath(params[..i])
    {
      if params[i].location == "path" {
        declared := declared + {params[i].name};
      }
    }
    assert params[..|params|] == params;
    var names := PathTemplateNames(path);
    filled := params;
    for i := 0 to |names|
      invariant filled + Missing(names[i..], declared) == params + Missing(names, DeclaredPath(params))
    {
      assert names[i..][1..] == names[i + 1..];
      if names[i] in declared {
        continue;
      }
      filled := filled + [Param(names[i], "path", true)];
      declared := declared + {names[i]};
    }
  }

  lemma {:induction false} MissingCovers(names: seq<string>, declared: set<string>, n: string)
    requires n in names
    ensures n in declared || Declares(Missing(names, declared), n)
  {
    var all := Missing(names, declared);
    if n !in declared {
      if n == names[0] {
        assert all[0].name == n;
      } else {
        var more := if names[0] in declared then declared else declared + {names[0]};
        MissingCovers(names[1..], more, n);
        var tail := Missing(names[1..], more);
        var i :| 0 <= i < |tail| && tail[i].location == "path" && tail[i].name == n;
        assert tail[i] == all[|all| - |tail| + i];
      }
    }
  }

  lemma {:induction false} MissingIsNew(names: seq<string>, declared: set<string>)
    ensures forall i | 0 <= i < |Missing(names, declared)| ::
              Missing(names, declared)[i].location == "path" && Missing(names, declared)[i].name !in declared
    ensures forall i, j | 0 <= i < j < |Missing(names, declared)| ::
              Missing(names, declared)[i].name != Missing(names, declared)[j].name
  {
    if names != [] {
      MissingIsNew(names[1..], if names[0] in declared then declared else declared + {names[0]});
    }
  }

  /** The completed list declares every name of the template, keeps what the
      handler declared, and declares nothing a second time. */
  lemma FilledDeclares(path: string, params: seq<Param>)
    ensures var filled := params + Missing(Names(Lex(path).list), DeclaredPath(params));
            && (forall n | n in Names(Lex(path).list) :: Declares(filled, n))
            && (forall i, j | 0 <= i < j < |filled| && j >= |params| ::
                  filled[i].location == filled[j].location == "path" ==> filled[i].name != filled[j].name)
  {
    hide Names, LexFrom;
    var names := Names(Lex(path).list);
    var missing := Missing(names, DeclaredPath(params));
    var filled := params + missing;
    MissingIsNew(names, DeclaredPath(params));
    forall n | n in names ensures Declares(filled, n) {
      if n in DeclaredPath(params) {
        var i :| 0 <= i < |params| && params[i].location == "path" && params[i].name == n;
        assert filled[i] == params[i];
      } else {
        MissingCovers(names, DeclaredPath(params), n);
        var i :| 0 <= i < |missing| && missing[i].location == "path" && missing[i].name == n;
        assert filled[|params| + i] == missing[i];
      }
    }
  }

  // ------------------------------------------------------------- the client

  /** `opParam`, the fields that matter here. */
  datatype OpParam = OpParam(field: string, wire: string, location: string, required: bool)

  datatype Part = Literal(text: string) | Substitution(field: string, wildcard: bool)

  datatype Outcome = Unterminated | NoParameter(name: string) | Parts(parts: seq<Part>)

  /** The struct field behind each path parameter; a later parameter of the same
      wire name wins, as in the map the source fills. */
  function ByWire(params: seq<OpParam>): map<string, string> {
    if params == [] then map[]
    else
      var p := params[|params| - 1];
      var m := ByWire(params[..|params| - 1]);
      if p.location == "path" then m[p.wire := p.field] else m
  }

  function Flush(lit: string): seq<Part> {
    if lit == "" then [] else [Literal(lit)]
  }

  function Prepend(parts: seq<Part>, o: Outcome): Outcome {
    if o.Parts? then Parts(parts + o.parts) else o
  }

  function Sub(raw: string, fields: map<string, string>): Part
    requires ParamName(raw).Some? && ParamName(raw).value in fields
  {
    Substitution(fields[ParamName(raw).value], Text.HasSuffix(raw, ELLIPSIS))
  }

  /** What the client makes of a path already read into tokens, with `lit` the
      literal bytes collected so far. */
  function Assemble(tokens: Tokens, lit: string, fields: map<string, string>): Outcome
    decreases |tokens.list|
  {
    if tokens.list == [] then
      if tokens.closed then Parts(Flush(lit)) else Unterminated
    else
      var t, rest := tokens.list[0], tokens.(list := tokens.list[1..]);
      if t.Char? then Assemble(rest, lit + [t.c], fields)
      else if Empty(t) then Assemble(rest, lit, fields)
      else if ParamName(t.raw).value !in fields then NoParameter(ParamName(t.raw).value)
      else Prepend(Flush(lit) + [Sub(t.raw, fields)], Assemble(rest, "", fields))
  }

  lemma AssemblePush(t: Token, rest: Tokens, lit: string, fields: map<string, string>)
    ensures Assemble(Push(t, rest), lit, fields)
         == if t.Char? then Assemble(rest, lit + [t.c], fields)
            else if Empty(t) then Assemble(rest, lit, fields)
            else if ParamName(t.raw).value !in fields then NoParameter(ParamName(t.raw).value)
            else Prepend(Flush(lit) + [Sub(t.raw, fields)], Assemble(rest, "", fields))
  {
    assert Push(t, rest).list[1..] == rest.list;
  }

  lemma PrependTwice(a: seq<Part>, b: seq<Part>, o: Outcome)
    ensures Prepend(a, Prepend(b, o)) == Prepend(a + b, o)
  {
    if o.Parts? {
      assert a + (b + o.parts) == (a + b) + o.parts;
    }
  }

  lemma ByWireStep(params: seq<OpParam>, i: nat)
    requires i < |params|
    ensures ByWire(params[..i + 1])
         == if params[i].location == "path" then ByWire(params[..i])[params[i].wire := params[i].field]
            else ByWire(params[..i])
  {
    assert params[..i + 1][..i] == params[..i];
  }

  method FieldsByWire(params: seq<OpParam>) returns (byWire: map<string, string>)
    ensures byWire == ByWire(params)
  {
    byWire := map[];
    for i := 0 to |params|
      invariant byWire == ByWire(params[..i])
    {
      ByWireStep(params, i);
      if params[i].location == "path" {
        byWire := byWire[params[i].wire := params[i].field];
      }
    }
    assert params[..|params|] == params;
  }

  /** `buildPathParts` */
  method BuildPathParts(path: string, params: seq<OpParam>) returns (r: Outcome)
    ensures r == Assemble(Lex(path), "", ByWire(params))
  {
    hide ByWire, Assemble, Flush;
    var byWire := FieldsByWire(params);
    var parts: seq<Part> := [];
    var lit := "";
    var i := 0;
    while i < |path|
      invariant 0 <= i <= |path|
      invariant Prepend(parts, Assemble(LexFrom(path, i), lit, byWire)) == Assemble(Lex(path), "", byWire)
    {
      if path[i] != '{' {
        AssemblePush(Char(path[i]), LexFrom(path, i + 1), lit, byWire);
        lit := lit + [path[i]];
        i := i + 1;
        continue;
      }
      var end := Text.IndexFrom(path, i, '}');
      AfterBrace(path, i);
      if end < 0 {
        AssembleEnd(Tokens([], false), lit, byWire);
        return Unterminated;
      }
      var raw := path[i + 1..end];
      AssemblePush(Template(raw), LexFrom(path, end + 1), lit, byWire);
      i := end + 1;
      if raw == "$" {
        continue;
      }
      var wildcard := Text.HasSuffix(raw, ELLIPSIS);
      var name := Text.TrimSuffix(raw, ELLIPSIS);
      if name == "" {
        continue;
      }
      if name !in byWire {
        return NoParameter(name);
      }
      PrependTwice(parts, Flush(lit) + [Sub(raw, byWire)], Assemble(LexFrom(path, i), "", byWire));
      parts := parts + (Flush(lit) + [Substitution(byWire[name], wildcard)]);
      lit := "";
    }
    AssembleEnd(Tokens([], true), lit, byWire);
    r := Parts(parts + Flush(lit));
  }

  lemma AfterBrace(path: string, i: nat)
    requires i < |path| && path[i] == '{'
    ensures Text.IndexFrom(path, i, '}') == Text.IndexFrom(path, i + 1, '}')
  {
  }

  lemma AssembleEnd(tokens: Tokens, lit: string, fields: map<string, string>)
    requires tokens.list == []
    ensures Assemble(tokens, lit, fields) == if tokens.closed then Parts(Flush(lit)) else Unterminated
  {
  }

  /** Splitting succeeds exactly when the braces close and every name is known. */
  lemma {:induction false} AssembleSucceeds(tokens: Tokens, lit: string, fields: map<string, string>)
    ensures Assemble(tokens, lit, fields).Parts?
       <==> tokens.closed && forall n | n in Names(tokens.list) :: n in fields
    ensures (forall n | n in Names(tokens.list) :: n in fields) ==> !Assemble(tokens, lit, fields).NoParameter?
    decreases |tokens.list|
  {
    if tokens.list != [] {
      var t, rest := tokens.list[0], tokens.(list := tokens.list[1..]);
      AssembleSucceeds(rest, if t.Char? then lit + [t.c] else if Empty(t) then lit else "", fields);
      assert forall n :: n in Names(tokens.list) <==> n in NameIn(t) || n in Names(rest.list);
    }
  }

  function PartText(part: Part, wires: map<string, string>): string {
    match part
    case Literal(text) => text
    case Substitution(field, wildcard) =>
      "{" + (if field in wires then wires[field] else "") + (if wildcard then ELLIPSIS else "") + "}"
  }

  /** Parts written back as a template, through the names behind the fields. */
  function Reprint(parts: seq<Part>, wires: map<string, string>): string {
    if parts == [] then "" else PartText(parts[0], wires) + Reprint(parts[1..], wires)
  }

  lemma {:induction false} ReprintConcat(a: seq<Part>, b: seq<Part>, wires: map<string, string>)
    ensures Reprint(a + b, wires) == Reprint(a, wires) + Reprint(b, wires)
  {
    hide PartText;
    if a == [] {
      assert a + b == b;
    } else {
      ReprintConcat(a[1..], b, wires);
      assert (a + b)[1..] == a[1..] + b;
      assert Reprint(a + b, wires) == PartText(a[0], wires) + Reprint(a[1..] + b, wires);
    }
  }

  lemma ReprintOne(part: Part, wires: map<string, string>)
    ensures Reprint([part], wires) == PartText(part, wires)
  {
    assert [part][1..] == [];
    assert Reprint([part], wires) == PartText(part, wires) + Reprint([part][1..], wires);
  }

  /** `wires` undoes `fields`. */
  ghost predicate Inverse(fields: map<string, string>, wires: map<string, string>) {
    forall n | n in fields :: fields[n] in wires && wires[fields[n]] == n
  }

  lemma SubText(raw: string, fields: map<string, string>, wires: map<string, string>)
    requires ParamName(raw).Some? && ParamName(raw).value in fields && Inverse(fields, wires)
    ensures PartText(Sub(raw, fields), wires) == TokenText(Template(raw))
  {
    Text.TrimSuffixIs(raw, ELLIPSIS);
    hide Text.HasSuffix, Text.TrimSuffix, ELLIPSIS;
    var name := ParamName(raw).value;
    assert PartText(Sub(raw, fields), wires) ==
        "{" + name + (if Text.HasSuffix(raw, ELLIPSIS) then ELLIPSIS else "") + "}";
  }

  lemma ReprintTemplate(lit: string, raw: string, fields: map<string, string>, wires: map<string, string>,
                        tail: seq<Part>)
    requires ParamName(raw).Some? && ParamName(raw).value in fields && Inverse(fields, wires)
    ensures Reprint(Flush(lit) + [Sub(raw, fields)] + tail, wires)
         == lit + (TokenText(Template(raw)) + Reprint(tail, wires))
  {
    hide Reprint, Inverse, Flush, PartText, TokenText;
    var sub := [Sub(raw, fields)];
    SubText(raw, fields, wires);
    ReprintOne(sub[0], wires);
    ReprintLiteral(lit, wires);
    ReprintConcat(Flush(lit), sub, wires);
    ReprintConcat(Flush(lit) + sub, tail, wires);
  }

  lemma ReprintLiteral(lit: string, wires: map<string, string>)
    ensures Reprint(Flush(lit), wires) == lit
  {
    if lit != "" {
      ReprintOne(Literal(lit), wires);
    }
  }

  /** The parts spell what was significant in the path. */
  lemma {:induction false} AssembleRebuilds(tokens: Tokens, lit: string, fields: map<string, string>,
                                            wires: map<string, string>)
    requires Inverse(fields, wires)
    requires Assemble(tokens, lit, fields).Parts?
    ensures Reprint(Assemble(tokens, lit, fields).parts, wires) == lit + Print(Significant(tokens.list))
    decreases |tokens.list|
  {
    hide Reprint, Inverse, TokenText, Print, Significant, ParamName, Sub, Flush;
    NothingSignificant();
    if tokens.list == [] {
      ReprintLiteral(lit, wires);
    } else {
      var t, rest := tokens.list[0], tokens.(list := tokens.list[1..]);
      PrintSignificant(tokens.list);
      AssembleRebuilds(rest, if t.Char? then lit + [t.c] else if Empty(t) then lit else "", fields, wires);
      if t.Char? {
        CharText(t.c);
      } else if !Empty(t) {
        ReprintTemplate(lit, t.raw, fields, wires, Assemble(rest, "", fields).parts);
      }
    }
  }

  lemma NothingSignificant()
    ensures Print(Significant([])) == ""
  {
  }

  lemma CharText(c: char)
    ensures TokenText(Char(c)) == [c]
  {
  }

  lemma PrintSignificant(tokens: seq<Token>)
    requires tokens != []
    ensures Print(Significant(tokens))
         == if Empty(tokens[0]) then Print(Significant(tokens[1..]))
            else TokenText(tokens[0]) + Print(Significant(tokens[1..]))
  {
    if !Empty(tokens[0]) {
      assert Significant(tokens)[1..] == Significant(tokens[1..]);
    }
  }

  /** What `buildParams` hands over: every path parameter of the document, each
      behind a field of its own. */
  ghost predicate Carries(filled: seq<Param>, params: seq<OpParam>) {
    && (forall n :: Declares(filled, n) <==> n in ByWire(params))
    && (forall m, n | m in ByWire(params) && n in ByWire(params) && m != n :: ByWire(params)[m] != ByWire(params)[n])
  }

  ghost predicate Injective(fields: map<string, string>) {
    forall m, n | m in fields && n in fields && m != n :: fields[m] != fields[n]
  }

  ghost function Invert(fields: map<string, string>): map<string, string> {
    map f | f in fields.Values :: var n :| n in fields && fields[n] == f; n
  }

  lemma InvertInverts(fields: map<string, string>)
    requires Injective(fields)
    ensures Inverse(fields, Invert(fields))
  {
    forall n | n in fields ensures fields[n] in Invert(fields) && Invert(fields)[fields[n]] == n {
      assert fields[n] in fields.Values;
    }
  }

  /** End to end: on the list the server completed, the client splits every path
      whose braces close, no other, never misses a parameter, and its parts spell
      that path again. */
  lemma PathSurvivesTheDocument(path: string, declared: seq<Param>, params: seq<OpParam>)
    requires Carries(declared + Missing(Names(Lex(path).list), DeclaredPath(declared)), params)
    ensures var r := Assemble(Lex(path), "", ByWire(params));
            && (r.Parts? <==> Lex(path).closed)
            && (r.Unterminated? <==> !Lex(path).closed)
            && (r.Parts? ==>
                  Reprint(r.parts, Invert(ByWire(params))) == Print(Significant(Lex(path).list)))
  {
    hide Assemble, ByWire, Reprint, Print, Significant, Names, LexFrom, Missing, Declares, Inverse, Invert;
    FilledDeclares(path, declared);
    var fields := ByWire(params);
    AssembleSucceeds(Lex(path), "", fields);
    InvertInverts(fields);
    if Lex(path).closed {
      AssembleRebuilds(Lex(path), "", fields, Invert(fields));
    }
  }

  lemma {:induction false} AllSignificant(tokens: seq<Token>)
    requires forall t | t in tokens :: !Empty(t)
    ensures Significant(tokens) == tokens
  {
    if tokens != [] {
      AllSignificant(tokens[1..]);
    }
  }

  /** A path with nothing to leave out comes back byte for byte. */
  lemma NothingLeftOut(path: string)
    requires Lex(path).closed && forall t | t in Lex(path).list :: !Empty(t)
    ensures Print(Significant(Lex(path).list)) == path
  {
    AllSignificant(Lex(path).list);
    LexPrints(path, 0);
  }

  /** A group is a parameter's name, with three dots after it if it takes the rest
      of the path; `$`, nothing, and the dots alone name none. */
  lemma GroupNames(name: string)
    ensures ParamName("$") == None && ParamName("") == None && ParamName("...") == None
    ensures name != "" && name + "..." != "$" ==> ParamName(name + "...") == Some(name)
    ensures name != "" && name != "$" && !Text.EndsWith(name, "...") ==> ParamName(name) == Some(name)
  {
    Text.Ends(name, "...");
    Text.Ends(name + "...", "...");
    assert (name + "...")[..|name|] == name;
  }

  /** The parts say which substitutions take the rest of the path. */
  lemma WildcardExactly(raw: string, fields: map<string, string>)
    requires ParamName(raw).Some? && ParamName(raw).value in fields
    ensures Sub(raw, fields) == Substitution(fields[ParamName(raw).value], Sub(raw, fields).wildcard)
    ensures Sub(raw, fields).wildcard <==> Text.EndsWith(raw, "...")
  {
    Text.Ends(raw, "...");
  }

  /** No literal is empty, and no two meet. */
  predicate Whole(parts: seq<Part>) {
    && (forall i | 0 <= i < |parts| && parts[i].Literal? :: parts[i].text != "")
    && (forall i | 0 <= i < |parts| - 1 && parts[i].Literal? :: parts[i + 1].Substitution?)
  }

  lemma {:induction false} PartsAreWhole(tokens: Tokens, lit: string, fields: map<string, string>)
    ensures Assemble(tokens, lit, fields).Parts? ==> Whole(Assemble(tokens, lit, fields).parts)
    decreases |tokens.list|
  {
    hide ParamName, Whole;
    if tokens.list == [] {
      FlushedWhole(lit);
    } else {
      var t, rest := tokens.list[0], tokens.(list := tokens.list[1..]);
      PartsAreWhole(rest, if t.Char? then lit + [t.c] else if Empty(t) then lit else "", fields);
      if t.Template? && !Empty(t) && ParamName(t.raw).value in fields && Assemble(rest, "", fields).Parts? {
        PrependedWhole(lit, Sub(t.raw, fields), Assemble(rest, "", fields).parts);
      }
    }
  }

  lemma FlushedWhole(lit: string)
    ensures Whole(Flush(lit))
  {
  }

  lemma PrependedWhole(lit: string, sub: Part, tail: seq<Part>)
    requires sub.Substitution? && Whole(tail)
    ensures Whole(Flush(lit) + [sub] + tail)
  {
    var front := Flush(lit) + [sub];
    var n := |front|;
    assert forall i | n <= i < |front + tail| :: (front + tail)[i] == tail[i - n];
  }
}
