/** The OpenAPI document fragment both type compilers share. */
module Schemas {

  import opened Options

  const REF_PREFIX: string := "#/components/schemas/"

  datatype Discriminator = Discriminator(property: string, mapping: map<string, string>)

  /** A possibly nil `*openapi.Schema`. `notes` holds every keyword that neither
      compiler looks at: description, minimum, enum, const and the like. */
  datatype Schema =
    | NoSchema
    | Schema(
        ref: string,
        typ: string,
        format: string,
        props: map<string, Schema>,
        required: seq<string>,
        items: Schema,
        addl: Schema,
        oneOf: seq<Schema>,
        disc: Option<Discriminator>,
        notes: map<string, string>)

  function RefKey(name: string): string {
    REF_PREFIX + name
  }

  /** `&Schema{}` */
  const EMPTY: Schema := Schema("", "", "", map[], [], NoSchema, NoSchema, [], None, map[])

  function Typed(typ: string, format: string): (s: Schema)
    ensures s.Schema?
  {
    EMPTY.(typ := typ, format := format)
  }

  function RefTo(name: string): (s: Schema)
    ensures s.Schema?
  {
    EMPTY.(ref := RefKey(name))
  }

  function OneOf(variants: seq<Schema>, disc: Discriminator): (s: Schema)
    ensures s.Schema?
  {
    EMPTY.(oneOf := variants, disc := Some(disc))
  }

  function ObjectOf(props: map<string, Schema>, required: seq<string>): (s: Schema)
    ensures s.Schema?
  {
    EMPTY.(typ := "object", props := props, required := required)
  }

  function ArrayOf(items: Schema): (s: Schema)
    ensures s.Schema?
  {
    EMPTY.(typ := "array", items := items)
  }

  function MapOf(values: Schema): (s: Schema)
    ensures s.Schema?
  {
    EMPTY.(typ := "object", addl := values)
  }

  lemma RefInjective(a: string, b: string)
    ensures RefKey(a) == RefKey(b) <==> a == b
  {
    assert RefKey(a)[|REF_PREFIX|..] == a;
    assert RefKey(b)[|REF_PREFIX|..] == b;
  }

  predicate IsUnion(s: Schema)
    requires s.Schema?
  {
    s.disc.Some? && s.disc.value.property != "" && |s.oneOf| > 0
  }
}
