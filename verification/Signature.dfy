/** clientgen/schema.go: the fingerprint that decides which anonymous object
    schemas share one generated declaration. */
module Signature {
  import opened Schemas
  import Text

  // ------------------------------------------------------ the code's strings

  /** `schemaSignature` */
  function SchemaSignature(s: Schema): string
    decreases s, 2
  {
    if s.NoSchema? then "nil"
    else if s.ref != "" then s.ref
    else if IsUnion(s) then "oneOf(" + s.disc.value.property + ")"
    else if s.typ == "array" then "[]" + SchemaSignature(s.items)
    else if s.typ == "object" && s.addl.Schema? then "map[" + SchemaSignature(s.addl) + "]"
    else if s.typ == "object" && s.props != map[] then "{" + StructSignature(s) + "}"
    else s.typ + "/" + s.format
  }

  /** `structSignature` */
  function StructSignature(s: Schema): string
    requires s.Schema?
    decreases s, 1
  {
    PropsSignature(s, Text.SortedKeys(s.props.Keys)) + "|req=" + Text.Join(Text.Sort(s.required), ',')
  }

  function PropsSignature(s: Schema, keys: seq<string>): string
    requires s.Schema? && forall k | k in keys :: k in s.props
    decreases s, 0, |keys|
  {
    if keys == [] then ""
    else keys[0] + ":" + SchemaSignature(s.props[keys[0]]) + ";" + PropsSignature(s, keys[1..])
  }

  // ----------------------------------------------- the shape it stands for

  /** The part of a schema its signature speaks about: documentation,
      constraints and the order of `required` are gone, and of a union only the
      discriminator is left. */
  datatype Form =
    | Nil
    | Ref(ref: string)
    | Sum(property: string)
    | List(elem: Form)
    | Dict(value: Form)
    | Object(props: map<string, Form>, required: seq<string>)
    | Plain(typ: string, format: string)

  function FormOf(s: Schema): Form
    decreases s, 1
  {
    if s.NoSchema? then Nil
    else if s.ref != "" then Ref(s.ref)
    else if IsUnion(s) then Sum(s.disc.value.property)
    else if s.typ == "array" then List(FormOf(s.items))
    else if s.typ == "object" && s.addl.Schema? then Dict(FormOf(s.addl))
    else if s.typ == "object" && s.props != map[] then ObjectForm(s)
    else Plain(s.typ, s.format)
  }

  function ObjectForm(s: Schema): (f: Form)
    requires s.Schema?
    ensures f.Object?
    decreases s, 0
  {
    Object(map k | k in s.props :: FormOf(s.props[k]), Text.Sort(s.required))
  }

  function Write(f: Form): string
    decreases f, 1
  {
    match f
    case Nil => "nil"
    case Ref(r) => r
    case Sum(property) => "oneOf(" + property + ")"
    case List(e) => "[]" + Write(e)
    case Dict(v) => "map[" + Write(v) + "]"
    case Object(_, _) => "{" + WriteObject(f) + "}"
    case Plain(typ, format) => typ + "/" + format
  }

  function WriteObject(f: Form): string
    requires f.Object?
    decreases f, 0
  {
    WriteProps(f, Text.SortedKeys(f.props.Keys)) + "|req=" + Text.Join(f.required, ',')
  }

  function WriteProps(f: Form, keys: seq<string>): string
    requires f.Object? && forall k | k in keys :: k in f.props
    decreases f, 0, |keys|
  {
    if keys == [] then ""
    else keys[0] + ":" + Write(f.props[keys[0]]) + ";" + WriteProps(f, keys[1..])
  }

  /** The signature is a function of the form alone. */
  lemma {:induction false} SignatureIsWritten(s: Schema)
    ensures SchemaSignature(s) == Write(FormOf(s))
    decreases s, 2
  {
    if s.NoSchema? || s.ref != "" || IsUnion(s) {
    } else if s.typ == "array" {
      SignatureIsWritten(s.items);
    } else if s.typ == "object" && s.addl.Schema? {
      SignatureIsWritten(s.addl);
    } else if s.typ == "object" && s.props != map[] {
      StructSignatureIsWritten(s);
    }
  }

  lemma StructSignatureIsWritten(s: Schema)
    requires s.Schema?
    ensures StructSignature(s) == WriteObject(ObjectForm(s))
    decreases s, 1
  {
    assert ObjectForm(s).props.Keys == s.props.Keys;
    PropsSignatureIsWritten(s, Text.SortedKeys(s.props.Keys));
  }

  lemma {:induction false} PropsSignatureIsWritten(s: Schema, keys: seq<string>)
    requires s.Schema? && forall k | k in keys :: k in s.props
    ensures PropsSignature(s, keys) == WriteProps(ObjectForm(s), keys)
    decreases s, 0, |keys|
  {
    if keys != [] {
      SignatureIsWritten(s.props[keys[0]]);
      PropsSignatureIsWritten(s, keys[1..]);
    }
  }

  // --------------------------------------------------- reading a form back

  const NAME_STOPS: set<char> := {':', '|', ',', '}'}
  const TOKEN_STOPS: set<char> := {';', ']', '}'}
  const SCALARS: set<string> := {"", "string", "boolean", "integer", "number", "object", "null"}

  predicate Avoids(s: string, stops: set<char>) {
    forall c | c in s :: c !in stops
  }

  /** Names, formats and references that cannot be mistaken for punctuation. */
  predicate Legible(f: Form) {
    match f
    case Nil => true
    case Ref(r) => r != "" && r[0] == '#' && Avoids(r, TOKEN_STOPS)
    case Sum(property) => Avoids(property, TOKEN_STOPS)
    case List(e) => Legible(e)
    case Dict(v) => Legible(v)
    case Object(props, required) =>
      && (forall k | k in props :: Avoids(k, NAME_STOPS) && Legible(props[k]))
      && (forall r | r in required :: r != "" && Avoids(r, NAME_STOPS))
    case Plain(typ, format) => typ in SCALARS && Avoids(format, TOKEN_STOPS)
  }

  datatype Read<+T> = Failed | Got(value: T, rest: string)

  /** Where the first character of `stops` stands, or the length. */
  function Extent(x: string, stops: set<char>): (n: nat)
    ensures n <= |x|
  {
    if x == "" || x[0] in stops then 0 else 1 + Extent(x[1..], stops)
  }

  function ReadForm(x: string): Read<Form>
    decreases |x|, 1
  {
    if x == "" then Failed
    else if x[0] == '[' then
      if |x| < 2 then Failed else
      match ReadForm(x[2..])
      case Failed => Failed
      case Got(e, rest) => Got(List(e), rest)
    else if x[0] == 'm' then
      if |x| < 4 then Failed else
      match ReadForm(x[4..])
      case Failed => Failed
      case Got(v, rest) => if rest != "" && rest[0] == ']' then Got(Dict(v), rest[1..]) else Failed
    else if x[0] == '{' then
      match ReadObject(x[1..])
      case Failed => Failed
      case Got(f, rest) => if rest != "" && rest[0] == '}' then Got(f, rest[1..]) else Failed
    else
      var n := Extent(x, TOKEN_STOPS);
      Got(ReadToken(x[..n]), x[n..])
  }

  function ReadToken(token: string): Form {
    if token == "nil" then Nil
    else if Text.HasPrefix(token, "#") then Ref(token)
    else if Text.HasPrefix(token, "oneOf(") then
      (if |token| >= 7 then Sum(token[6..|token| - 1]) else Nil)
    else
      var i := Text.IndexOf(token, '/');
      if i < 0 then Nil else Plain(token[..i], token[i + 1..])
  }

  function ReadObject(x: string): Read<Form>
    decreases |x|, 1
  {
    match ReadProps(x)
    case Failed => Failed
    case Got(props, rest) =>
      if !Text.HasPrefix(rest, "|req=") then Failed
      else
        var names := rest[5..];
        var n := Extent(names, {'}'});
        Got(Object(props, if n == 0 then [] else Text.Split(names[..n], ',')), names[n..])
  }

  function ReadProps(x: string): Read<map<string, Form>>
    decreases |x|, 0
  {
    var i := Extent(x, {':', '|'});
    if i == |x| then Failed
    else if x[i] == '|' then if i == 0 then Got(map[], x) else Failed
    else
      match ReadForm(x[i + 1..])
      case Failed => Failed
      case Got(f, rest) =>
        if rest == "" || rest[0] != ';' || |rest| > |x| then Failed
        else
          match ReadProps(rest[1..])
          case Failed => Failed
          case Got(props, tail) => Got(props[x[..i] := f], tail)
  }

  lemma {:induction false} ExtentIs(a: string, x: string, stops: set<char>)
    requires Avoids(a, stops)
    requires x == "" || x[0] in stops
    ensures Extent(a + x, stops) == |a|
    ensures (a + x)[..|a|] == a && (a + x)[|a|..] == x
  {
    if a == "" {
      assert a + x == x;
    } else {
      assert (a + x)[1..] == a[1..] + x;
      ExtentIs(a[1..], x, stops);
    }
  }

  ghost predicate Ends(x: string) {
    x == "" || x[0] in TOKEN_STOPS
  }

  predicate IsToken(token: string) {
    token != "" && token[0] !in {'[', 'm', '{'} && Avoids(token, TOKEN_STOPS)
  }

  lemma ReadTokenBack(token: string, x: string)
    requires IsToken(token) && Ends(x)
    ensures ReadForm(token + x) == Got(ReadToken(token), x)
  {
    ExtentIs(token, x, TOKEN_STOPS);
    assert (token + x)[0] == token[0];
  }

  lemma PlainToken(typ: string, format: string)
    requires typ in SCALARS && Avoids(format, TOKEN_STOPS)
    ensures IsToken(typ + "/" + format) && ReadToken(typ + "/" + format) == Plain(typ, format)
  {
    PlainHead(typ, format);
    PlainSplit(typ, format);
    hide Text.IndexOf, Text.HasPrefix;
  }

  lemma PlainSplit(typ: string, format: string)
    requires '/' !in typ
    ensures var token := typ + "/" + format;
            var i := Text.IndexOf(token, '/');
            i >= 0 && token[..i] == typ && token[i + 1..] == format && token != "nil"
  {
    Text.IndexOfAt(typ, '/', format);
    var token := typ + "/" + format;
    assert token[|typ|] == '/';
  }

  lemma PlainHead(typ: string, format: string)
    requires typ in SCALARS
    ensures '/' !in typ && Avoids(typ, TOKEN_STOPS)
    ensures var token := typ + "/" + format;
            && token[0] !in {'[', 'm', '{'}
            && !Text.HasPrefix(token, "#") && !Text.HasPrefix(token, "oneOf(")
  {
    var token := typ + "/" + format;
    assert token[0] == if typ == "" then '/' else typ[0];
    assert typ == "object" ==> token[1] == 'b';
    Text.PrefixAt(token, "#", 0);
    Text.PrefixAt(token, "oneOf(", 0);
    Text.PrefixAt(token, "oneOf(", 1);
  }

  lemma SumToken(property: string)
    requires Avoids(property, TOKEN_STOPS)
    ensures IsToken("oneOf(" + property + ")") && ReadToken("oneOf(" + property + ")") == Sum(property)
  {
    var token := "oneOf(" + property + ")";
    assert token[..6] == "oneOf(" && token[6..|token| - 1] == property;
    Text.PrefixAt(token, "#", 0);
    assert |token| >= 7;
  }

  lemma RefToken(r: string)
    requires r != "" && r[0] == '#' && Avoids(r, TOKEN_STOPS)
    ensures IsToken(r) && ReadToken(r) == Ref(r)
  {
    assert r[..1] == "#";
  }

  /** One step of the reader, by first character. */
  lemma ReadFormStep(x: string)
    requires x != ""
    ensures x[0] == '[' && |x| >= 2 && ReadForm(x[2..]).Got? ==>
              ReadForm(x) == Got(List(ReadForm(x[2..]).value), ReadForm(x[2..]).rest)
    ensures x[0] == 'm' && |x| >= 4 && ReadForm(x[4..]).Got? && HasHead(ReadForm(x[4..]).rest, ']') ==>
              ReadForm(x) == Got(Dict(ReadForm(x[4..]).value), ReadForm(x[4..]).rest[1..])
    ensures x[0] == '{' && ReadObject(x[1..]).Got? && HasHead(ReadObject(x[1..]).rest, '}') ==>
              ReadForm(x) == Got(ReadObject(x[1..]).value, ReadObject(x[1..]).rest[1..])
  {
    hide ReadObject;
  }

  predicate HasHead(x: string, c: char) {
    x != "" && x[0] == c
  }

  lemma Wrapped(open: string, inner: string, close: char, x: string)
    requires open != ""
    ensures var all := open + inner + [close] + x;
            && all != "" && all[0] == open[0] && |all| >= |open|
            && all[|open|..] == inner + ([close] + x)
    ensures ([close] + x)[1..] == x && HasHead([close] + x, close)
  {
    assert open + inner + [close] + x == open + (inner + ([close] + x));
  }

  lemma ReadListBack(e: Form, x: string)
    requires ReadForm(Write(e) + x) == Got(e, x)
    ensures ReadForm(Write(List(e)) + x) == Got(List(e), x)
  {
    hide ReadForm;
    var inner := Write(e);
    var all := "[]" + inner + x;
    assert all == "[]" + (inner + x);
    assert all[0] == '[' && all[2..] == inner + x;
    ReadFormStep(all);
  }

  lemma ReadDictBack(v: Form, x: string)
    requires ReadForm(Write(v) + ("]" + x)) == Got(v, "]" + x)
    ensures ReadForm(Write(Dict(v)) + x) == Got(Dict(v), x)
  {
    hide ReadForm;
    var inner := Write(v);
    Wrapped("map[", inner, ']', x);
    ReadFormStep("map[" + inner + "]" + x);
  }

  lemma ReadBracesBack(f: Form, x: string)
    requires f.Object? && ReadObject(WriteObject(f) + ("}" + x)) == Got(f, "}" + x)
    ensures ReadForm(Write(f) + x) == Got(f, x)
  {
    hide ReadForm, ReadObject, WriteObject;
    var inner := WriteObject(f);
    Wrapped("{", inner, '}', x);
    ReadFormStep("{" + inner + "}" + x);
  }

  /** A legible signature spells its form: reading it back, up to the punctuation
      that follows it, returns exactly that form. */
  lemma {:induction false} ReadBack(f: Form, x: string)
    requires Legible(f) && Ends(x)
    ensures ReadForm(Write(f) + x) == Got(f, x)
    decreases f, 1
  {
    hide ReadForm, ReadObject, Write, WriteObject;
    match f
    case Nil => ReadPlainBack(f, x);
    case Ref(r) => ReadPlainBack(f, x);
    case Sum(property) => ReadPlainBack(f, x);
    case List(e) =>
      ReadBack(e, x);
      ReadListBack(e, x);
    case Dict(v) =>
      ReadBack(v, "]" + x);
      ReadDictBack(v, x);
    case Object(_, _) =>
      ReadBackObject(f, "}" + x);
      ReadBracesBack(f, x);
    case Plain(typ, format) => ReadPlainBack(f, x);
  }

  lemma ReadPlainBack(f: Form, x: string)
    requires !f.List? && !f.Dict? && !f.Object? && Legible(f) && Ends(x)
    ensures ReadForm(Write(f) + x) == Got(f, x)
  {
    hide ReadForm, ReadToken, IsToken, Ends;
    match f {
      case Nil => NilToken();
      case Ref(r) => RefToken(r);
      case Sum(property) => SumToken(property);
      case Plain(typ, format) => PlainToken(typ, format);
    }
    ReadTokenBack(Write(f), x);
  }

  lemma NilToken()
    ensures IsToken("nil") && ReadToken("nil") == Nil
  {
  }

  lemma {:induction false} JoinAvoids(names: seq<string>)
    requires forall r | r in names :: r != "" && Avoids(r, NAME_STOPS)
    ensures Avoids(Text.Join(names, ','), {'}'})
    ensures names == [] <==> Text.Join(names, ',') == ""
  {
    if names != [] {
      assert names[0] in names;
      assert names[0] != "" && Avoids(names[0], {'}'});
      if |names| > 1 {
        forall r | r in names[1..] ensures r != "" && Avoids(r, NAME_STOPS) {
          assert r in names;
        }
        JoinAvoids(names[1..]);
        var rest := Text.Join(names[1..], ',');
        assert Text.Join(names, ',') == names[0] + [','] + rest;
        assert Avoids(names[0] + [','], {'}'});
      }
    }
  }

  lemma NamesBack(names: seq<string>, x: string)
    requires forall r | r in names :: r != "" && Avoids(r, NAME_STOPS)
    requires x == "" || x[0] == '}'
    ensures var all := Text.Join(names, ',') + x;
            var n := Extent(all, {'}'});
            all[n..] == x && (if n == 0 then [] else Text.Split(all[..n], ',')) == names
  {
    var joined := Text.Join(names, ',');
    JoinAvoids(names);
    ExtentIs(joined, x, {'}'});
    if names != [] {
      forall r | r in names ensures ',' !in r {
        assert Avoids(r, NAME_STOPS);
      }
      Text.SplitJoin(names, ',');
    }
  }

  lemma ReadObjectParts(head: string, props: map<string, Form>, names: string, x: string)
    requires ReadProps(head + ("|req=" + (names + x))) == Got(props, "|req=" + (names + x))
    ensures var n := Extent(names + x, {'}'});
            ReadObject(head + ("|req=" + (names + x)))
            == Got(Object(props, if n == 0 then [] else Text.Split((names + x)[..n], ',')), (names + x)[n..])
  {
    var tail := "|req=" + (names + x);
    assert tail[..5] == "|req=" && tail[5..] == names + x;
  }

  lemma Regroup(a: string, b: string, c: string, d: string)
    ensures a + b + c + d == a + (b + (c + d))
  {
  }

  lemma {:induction false} ReadBackObject(f: Form, x: string)
    requires f.Object? && Legible(f)
    requires x == "" || x[0] == '}'
    ensures ReadObject(WriteObject(f) + x) == Got(f, x)
    decreases f, 0
  {
    hide ReadObject, ReadProps, WriteProps;
    var keys := Text.SortedKeys(f.props.Keys);
    var names := Text.Join(f.required, ',');
    ReadBackProps(f, keys, "|req=" + (names + x));
    hide Text.Join, Text.Split, Text.SortedKeys, Extent;
    Regroup(WriteProps(f, keys), "|req=", names, x);
    assert (map k | k in keys :: f.props[k]) == f.props;
    ReadObjectParts(WriteProps(f, keys), f.props, names, x);
    NamesBack(f.required, x);
  }

  lemma ReadPropBack(k: string, inner: string, f: Form, rest: string, props: map<string, Form>, tail: string)
    requires Avoids(k, NAME_STOPS)
    requires ReadForm(inner + (";" + rest)) == Got(f, ";" + rest)
    requires ReadProps(rest) == Got(props, tail)
    ensures ReadProps(k + ":" + inner + ";" + rest) == Got(props[k := f], tail)
  {
    hide ReadForm;
    var body := inner + (";" + rest);
    var all := k + ":" + inner + ";" + rest;
    assert all == k + (":" + body);
    ExtentIs(k, ":" + body, {':', '|'});
    assert all[|k|] == ':' && all[|k| + 1..] == body;
    assert (";" + rest)[1..] == rest;
  }

  lemma {:induction false} ReadBackProps(f: Form, keys: seq<string>, tail: string)
    requires f.Object? && Legible(f) && forall k | k in keys :: k in f.props
    requires tail != "" && tail[0] == '|'
    ensures ReadProps(WriteProps(f, keys) + tail) == Got(map k | k in keys :: f.props[k], tail)
    decreases f, 0, |keys|
  {
    hide ReadForm, ReadProps, Legible, Write;
    if keys == [] {
      assert WriteProps(f, keys) + tail == tail;
      ReadNoProps(tail);
    } else {
      var k := keys[0];
      var rest := WriteProps(f, keys[1..]) + tail;
      LegibleProp(f, k);
      ReadBack(f.props[k], ";" + rest);
      ReadBackProps(f, keys[1..], tail);
      ReadPropBack(k, Write(f.props[k]), f.props[k], rest, map j | j in keys[1..] :: f.props[j], tail);
      assert WriteProps(f, keys) + tail == k + ":" + Write(f.props[k]) + ";" + rest;
      assert (map j | j in keys :: f.props[j]) == (map j | j in keys[1..] :: f.props[j])[k := f.props[k]];
    }
  }

  lemma ReadNoProps(tail: string)
    requires tail != "" && tail[0] == '|'
    ensures ReadProps(tail) == Got(map[], tail)
  {
  }

  lemma LegibleProp(f: Form, k: string)
    requires f.Object? && Legible(f) && k in f.props
    ensures Avoids(k, NAME_STOPS) && Legible(f.props[k])
  {
  }

  /** Two legible anonymous objects share a declaration exactly when they are the
      same shape. */
  lemma SignatureDecidesShape(a: Schema, b: Schema)
    requires a.Schema? && b.Schema? && Legible(ObjectForm(a)) && Legible(ObjectForm(b))
    ensures StructSignature(a) == StructSignature(b) <==> ObjectForm(a) == ObjectForm(b)
  {
    StructSignatureIsWritten(a);
    StructSignatureIsWritten(b);
    ReadBackObject(ObjectForm(a), "");
    ReadBackObject(ObjectForm(b), "");
    assert WriteObject(ObjectForm(a)) + "" == WriteObject(ObjectForm(a));
    assert WriteObject(ObjectForm(b)) + "" == WriteObject(ObjectForm(b));
  }
}
