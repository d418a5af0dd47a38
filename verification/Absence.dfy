/** What the pointers of optional fields are for: a client can tell a property
    that is missing from one that is there. */
module Absence {
  import opened Options
  import opened Schemas
  import opened Registry
  import Text

  // ------------------------------------------------------- values of Go types

  /** A value of a generated type; `Fields` is a struct, all of whose fields may be
      zero. */
  datatype GoValue =
    | Nil
    | Letters(s: string)
    | Number(n: int)
    | Truth(b: bool)
    | Moment(unix: int)
    | Fields(zero: bool)
    | Elems(elems: seq<GoValue>)
    | Entries(entries: map<string, GoValue>)
    | Pointing(target: GoValue)
    | Json(text: string)

  /** What a variable of the type holds before anything is decoded into it. */
  function Zero(e: Expr): GoValue {
    match e
    case Prim(keyword) =>
      if keyword == "string" then Letters("")
      else if keyword == "bool" then Truth(false)
      else if keyword == "time.Time" then Moment(0)
      else Number(0)
    case Name(_) => Fields(true)
    case _ => Nil
  }

  /** What decoding a JSON value other than null may leave in it. */
  predicate Decodes(e: Expr, v: GoValue) {
    match e
    case Prim(keyword) =>
      if keyword == "string" then v.Letters?
      else if keyword == "bool" then v.Truth?
      else if keyword == "time.Time" then v.Moment?
      else v.Number?
    case Name(_) => v.Fields?
    case PtrTo(target) => v.Pointing? && Decodes(target, v.target)
    case SliceOf(elem) => v.Elems?
    case DictOf(value) => v.Entries?
    case Bytes => v.Elems?
    case Raw => v.Json?
    case AnyValue => v != Nil
  }

  /** A field whose value before decoding is none that decoding leaves tells a
      missing property from every other. */
  predicate TellsMissing(e: Expr) {
    !Decodes(e, Zero(e))
  }

  /** Every optional field tells a missing property; it has a pointer, and but one,
      exactly where its type alone would not. */
  lemma OptionalTellsMissing(e: Expr, s: Schema, byRef: map<string, string>, syn: map<string, string>)
    requires FieldDenotes(e, s, false, byRef, syn)
    ensures TellsMissing(e)
    ensures e.PtrTo? ==> !e.target.PtrTo? && Denotes(e.target, s, byRef, syn) && !TellsMissing(e.target)
    ensures !e.PtrTo? ==> Denotes(e, s, byRef, syn)
  {
    hide ObjectSignature, UnionSignature, MappingResolves;
    if e.PtrTo? {
      DenotesNoPointer(e.target, s, byRef, syn);
    }
  }

  lemma RequiredHasNoPointer(e: Expr, s: Schema, byRef: map<string, string>, syn: map<string, string>)
    requires FieldDenotes(e, s, true, byRef, syn)
    ensures !e.PtrTo? && Denotes(e, s, byRef, syn)
  {
    DenotesNoPointer(e, s, byRef, syn);
  }

  // --------------------------------------------------------- types as text

  function GoText(e: Expr): string {
    match e
    case Raw => "json.RawMessage"
    case AnyValue => "any"
    case Bytes => "[]byte"
    case Prim(keyword) => keyword
    case SliceOf(elem) => "[]" + GoText(elem)
    case DictOf(value) => "map[string]" + GoText(value)
    case PtrTo(target) => "*" + GoText(target)
    case Name(name) => name
  }

  /** `isNilable` */
  predicate IsNilable(text: string) {
    Text.HasPrefix(text, "[]") || Text.HasPrefix(text, "map[") || text == "any" || text == "json.RawMessage"
  }

  /** Keywords and names are identifiers, none of them `any`, but for `time.Time`. */
  predicate Spelled(word: string) {
    word == "time.Time" || (word != "any" && forall c | c in word :: c != '[' && c != '.')
  }

  /** What the source reads off the text of a type is what it is. */
  lemma NilableIsText(e: Expr)
    requires e.Prim? ==> Spelled(e.keyword)
    requires e.Name? ==> Spelled(e.name)
    ensures Nilable(e) <==> IsNilable(GoText(e))
  {
    match e
    case PtrTo(target) => assert GoText(e)[0] == '*';
    case SliceOf(elem) => assert GoText(e)[..2] == "[]";
    case DictOf(value) => assert GoText(e)[..4] == "map[";
    case Prim(keyword) => SpelledIsNoType(keyword);
    case Name(name) => SpelledIsNoType(name);
    case _ =>
  }

  lemma SpelledIsNoType(word: string)
    ensures IsNilable(word) ==> !Spelled(word)
  {
    if Text.HasPrefix(word, "[]") {
      PrefixHas(word, "[]", 0);
    } else if Text.HasPrefix(word, "map[") {
      PrefixHas(word, "map[", 3);
    } else if word == "json.RawMessage" {
      PrefixHas(word, "json.", 4);
    }
  }

  lemma PrefixHas(s: string, p: string, i: nat)
    requires Text.HasPrefix(s, p) && i < |p|
    ensures p[i] in s && s[i] == p[i]
  {
    assert s[..|p|][i] == s[i];
  }

  /** A format that names a width gets Go's type of that width, one that asks for a
      time or for bytes a time or bytes; anything else gets the plain type. */
  lemma ScalarTexts(format: string)
    ensures GoText(StringType(format)) ==
            if format == "date-time" then "time.Time" else if format == "binary" then "[]byte" else "string"
    ensures GoText(IntegerType(format)) ==
            if format == "int32" || format == "int64" then format else "int"
    ensures GoText(NumberType(format)) == if format == "float" then "float32" else "float64"
  {
  }
}
