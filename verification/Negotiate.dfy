/** Which encoding a client gets for its Accept-Encoding header. */
module Negotiate {
  import opened Options
  import Text

  const GZIP: string := "gzip"
  const DEFLATE: string := "deflate"
  const SUPPORTED: seq<string> := [GZIP, DEFLATE]

  /** `strconv.ParseFloat` */
  type Parser = string -> Option<real>

  /** What one element of the header says: an encoding and its quality. */
  function Element(part: string, parse: Parser): Option<(string, real)> {
    var trimmed := Text.TrimSpace(part);
    var name := Text.Lower(Text.TrimSpace(Text.Before(trimmed, ';')));
    var params := Text.After(trimmed, ';');
    if name == "" then None
    else if '=' in params && Text.Lower(Text.TrimSpace(Text.Before(params, '='))) == "q" then
      match parse(Text.TrimSpace(Text.After(params, '=')))
      case None => None
      case Some(q) => Some((name, q))
    else Some((name, 1.0))
  }

  predicate Names(part: string, name: string, parse: Parser) {
    Element(part, parse).Some? && Element(part, parse).value.0 == name
  }

  /** The quality the header gives `name`: that of the last element naming it. */
  function Named(parts: seq<string>, name: string, parse: Parser): Option<real> {
    if parts == [] then None
    else if Names(parts[|parts| - 1], name, parse) then Some(Element(parts[|parts| - 1], parse).value.1)
    else Named(parts[..|parts| - 1], name, parse)
  }

  /** `parseAcceptEncoding` */
  method ParseAcceptEncoding(header: string, parse: Parser) returns (qualities: map<string, real>)
    ensures forall n :: n in qualities <==> Named(Text.Split(header, ','), n, parse).Some?
    ensures forall n | n in qualities :: Some(qualities[n]) == Named(Text.Split(header, ','), n, parse)
  {
    hide Element;
    var parts := Text.Split(header, ',');
    qualities := map[];
    for i := 0 to |parts|
      invariant forall n :: n in qualities <==> Named(parts[..i], n, parse).Some?
      invariant forall n | n in qualities :: Some(qualities[n]) == Named(parts[..i], n, parse)
    {
      assert parts[..i + 1][..i] == parts[..i];
      var e := Element(parts[i], parse);
      if e.Some? {
        qualities := qualities[e.value.0 := e.value.1];
      }
    }
    assert parts[..|parts|] == parts;
  }

  /** How much the client wants `encoding`; a wildcard stands in for what the
      header does not name, and nothing at all is a refusal. */
  function Weight(header: string, encoding: string, parse: Parser): real {
    var parts := Text.Split(header, ',');
    match Named(parts, encoding, parse)
    case Some(q) => q
    case None => (match Named(parts, "*", parse) case Some(q) => q case None => 0.0)
  }

  predicate Accepts(header: string, encoding: string, parse: Parser) {
    encoding == "" || Weight(header, encoding, parse) > 0.0
  }

  /** The best of what the server has, gzip where the client does not care. */
  function Chosen(header: string, parse: Parser): (e: string)
    ensures Accepts(header, e, parse)
    ensures e == "" || e in SUPPORTED
    ensures forall s | s in SUPPORTED && Accepts(header, s, parse) ::
              e != "" && Weight(header, s, parse) <= Weight(header, e, parse)
    ensures e == DEFLATE ==> Weight(header, GZIP, parse) < Weight(header, DEFLATE, parse)
  {
    var g, d := Weight(header, GZIP, parse), Weight(header, DEFLATE, parse);
    if g > 0.0 && g >= d then GZIP else if d > 0.0 then DEFLATE else ""
  }

  lemma NothingNamed(parse: Parser)
    ensures Chosen("", parse) == ""
  {
    assert Text.TrimSpace("") == "";
    assert Text.Split("", ',') == [""] && [""][..0] == [];
    assert Named([""], GZIP, parse).None? && Named([""], DEFLATE, parse).None? && Named([""], "*", parse).None?;
  }

  /** `Negotiate` */
  method Negotiate(header: string, parse: Parser) returns (best: string)
    ensures best == Chosen(header, parse)
  {
    hide Named, Text.Split;
    if header == "" {
      NothingNamed(parse);
      return "";
    }
    var qualities := ParseAcceptEncoding(header, parse);
    var bestQ := 0.0;
    best := "";
    for i := 0 to |SUPPORTED|
      invariant best == "" || best in SUPPORTED[..i]
      invariant bestQ == if best == "" then 0.0 else Weight(header, best, parse)
      invariant bestQ >= 0.0 && (best != "" ==> bestQ > 0.0)
      invariant forall j | 0 <= j < i :: Weight(header, SUPPORTED[j], parse) <= bestQ
      invariant best == DEFLATE ==> Weight(header, GZIP, parse) < bestQ
    {
      var encoding := SUPPORTED[i];
      var q := 0.0;
      if encoding in qualities {
        q := qualities[encoding];
      } else if "*" in qualities {
        q := qualities["*"];
      } else {
        continue;
      }
      if q > bestQ {
        best, bestQ := encoding, q;
      }
    }
    assert SUPPORTED[0] == GZIP && SUPPORTED[1] == DEFLATE;
  }

  // ------------------------------------------------- elements, spelled out

  /** An encoding without parameters has quality 1. */
  lemma BareElement(lead: string, name: string, trail: string, parse: Parser)
    requires Text.AllBlank(lead) && Text.Trimmed(name) && Text.AllBlank(trail) && name != "" && ';' !in name
    ensures Element(lead + name + trail, parse) == Some((Text.Lower(name), 1.0))
  {
    hide Text.TrimSpace, Text.Lower, Text.Before, Text.After;
    Text.TrimSpaceIs(lead, name, trail);
    Text.CutIs(name, ';', "");
    Text.TrimSpaceIs("", name, "");
    assert "" + name + "" == name;
    LowerSomething(name);
  }

  lemma LowerSomething(s: string)
    requires s != ""
    ensures Text.Lower(s) != ""
  {
    Text.LowerIs(s, 0);
  }

  /** With parameters, its name is what comes before them. */
  lemma ElementNamed(lead: string, name: string, gap: string, params: string, trail: string, parse: Parser)
    requires Text.AllBlank(lead) && Text.Trimmed(name) && Text.AllBlank(gap) && Text.AllBlank(trail)
    requires name != "" && ';' !in name + gap && (params == "" || EndsPlain(params))
    ensures var part := lead + (name + gap + [';'] + params) + trail;
            Element(part, parse) ==
              if '=' in params && Text.Lower(Text.TrimSpace(Text.Before(params, '='))) == "q" then
                match parse(Text.TrimSpace(Text.After(params, '=')))
                case None => None
                case Some(q) => Some((Text.Lower(name), q))
              else Some((Text.Lower(name), 1.0))
  {
    hide Text.TrimSpace, Text.Lower, Text.Before, Text.After, Text.BLANKS;
    var inner := name + gap + [';'] + params;
    InnerTrimmed(name, gap, params);
    Text.TrimSpaceIs(lead, inner, trail);
    Text.CutIs(name + gap, ';', params);
    Text.TrimSpaceIs("", name, gap);
    assert "" + name + gap == name + gap;
    LowerSomething(name);
  }

  predicate EndsPlain(s: string) {
    s != "" && s[|s| - 1] < '\U{80}' && s[|s| - 1] !in Text.BLANKS
  }

  lemma InnerTrimmed(name: string, gap: string, params: string)
    requires Text.Trimmed(name) && name != "" && (params == "" || EndsPlain(params))
    ensures Text.Trimmed(name + gap + [';'] + params)
  {
    assert ';' !in Text.BLANKS;
    var inner := name + gap + [';'] + params;
    assert inner[0] == name[0] && inner[|inner| - 1] == if params == "" then ';' else params[|params| - 1];
  }

  /** `q=` gives its quality, whatever blanks there are and however it is written;
      where that is no number the element says nothing. */
  lemma QualityElement(name: string, gap: string, before: string, q: string, between: string, space: string,
                       value: string, parse: Parser)
    requires Text.Trimmed(name) && name != "" && ';' !in name + gap && Text.AllBlank(gap)
    requires Text.AllBlank(before) && (q == "q" || q == "Q") && Text.AllBlank(between) && Text.AllBlank(space)
    requires '=' !in before + q + between && Text.Trimmed(value) && value != ""
    ensures var part := name + gap + ";" + before + q + between + "=" + space + value;
            Element(part, parse) ==
              match parse(value) case None => None case Some(x) => Some((Text.Lower(name), x))
  {
    hide Text.TrimSpace, Text.Before, Text.After, Text.BLANKS, Element;
    var params := (before + q + between) + ['='] + (space + value);
    assert params[|params| - 1] == value[|value| - 1];
    ElementNamed("", name, gap, params, "", parse);
    assert name + gap + ";" + before + q + between + "=" + space + value == "" + (name + gap + [';'] + params) + "";
    Text.CutIs(before + q + between, '=', space + value);
    QIsTrimmed(q);
    Text.TrimSpaceIs(before, q, between);
    Text.TrimSpaceIs(space, value, "");
    assert space + value + "" == space + value;
    assert params[|before + q + between|] == '=';
  }

  lemma QIsTrimmed(q: string)
    requires q == "q" || q == "Q"
    ensures Text.Trimmed(q) && Text.Lower(q) == "q"
  {
    assert q[0] !in Text.BLANKS;
    assert q[1..] == "";
  }

  lemma OneElement(header: string, name: string, parse: Parser)
    requires Text.Trimmed(header) && header != "" && ',' !in header && ';' !in header
    ensures Named(Text.Split(header, ','), name, parse) == if Text.Lower(header) == name then Some(1.0) else None
  {
    hide Text.TrimSpace, Text.Lower, Text.Before, Text.After, Element;
    Text.SplitNothing(header, ',');
    BareElement("", header, "", parse);
    assert "" + header + "" == header;
    assert [header][..0] == [];
  }

  lemma OneWeight(header: string, encoding: string, parse: Parser)
    requires Text.Trimmed(header) && header != "" && ',' !in header && ';' !in header && Text.Lower(header) == header
    ensures Weight(header, encoding, parse) == if header == encoding || header == "*" then 1.0 else 0.0
  {
    hide Text.Lower, Text.Split, Named;
    OneElement(header, encoding, parse);
    OneElement(header, "*", parse);
  }

  /** A client that names one encoding gets it, if the server has it; one that takes
      any gets gzip. */
  lemma AskedForOne(header: string, parse: Parser)
    requires header != "" && forall c | c in header :: 'a' <= c <= 'z' || c == '*'
    ensures Chosen(header, parse) ==
            if header == "gzip" || header == "*" then "gzip" else if header == "deflate" then "deflate" else ""
  {
    PlainHeader(header);
    hide Weight;
    OneWeight(header, GZIP, parse);
    OneWeight(header, DEFLATE, parse);
  }

  lemma PlainHeader(header: string)
    requires header != "" && forall c | c in header :: 'a' <= c <= 'z' || c == '*'
    ensures Text.Trimmed(header) && ',' !in header && ';' !in header && Text.Lower(header) == header
  {
    assert header[0] in header && header[|header| - 1] in header;
    Text.BlankIsSpace(header[0]);
    Text.BlankIsSpace(header[|header| - 1]);
    LowersTo(header);
  }

  lemma {:induction false} LowersTo(s: string)
    requires forall c | c in s :: !('A' <= c <= 'Z')
    ensures Text.Lower(s) == s
  {
    if s != "" {
      assert s[0] in s && forall c | c in s[1..] :: c in s;
      LowersTo(s[1..]);
    }
  }
}
