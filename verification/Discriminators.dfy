/** The values a union's variants are told apart by: what the document lists, and
    what the variants have on the wire. */
module Discriminators {
  import opened Options
  import opened Schemas
  import opened Hoist
  import opened WireContract
  import opened WireFit
  import Text

  /** A tag read alike by encoding/json and by `discriminatorValue`. */
  predicate PlainTag(f: Field) {
    f.json.None? || f.json.value == "" ||
    var name := Text.Before(f.json.value, ',');
    name == "" || (name != "-" && ValidName(name))
  }

  lemma TagNameExactly(f: Field)
    requires Identifier(f.name)
    ensures WireName(f) == Some(TagName(f)) <==> PlainTag(f)
  {
    IdentifierIsValid(f.name);
    DashIsValid();
    assert Text.Before("", ',') == "" by { assert Text.IndexOf("", ',') == -1; }
  }

  lemma PlainIsDocumented(f: Field)
    requires PlainTag(f)
    ensures JsonName(f) == WireName(f) == Some(TagName(f))
  {
    DashIsValid();
    assert Text.Before("", ',') == "" by { assert Text.IndexOf("", ',') == -1; }
  }

  /** Whatever either side takes for the discriminator is exported, with a plain
      tag. */
  predicate Straight(fields: seq<Field>, property: string) {
    forall f | f in fields && (TagName(f) == property || (f.exported && WireName(f) == Some(property))) ::
      f.exported && PlainTag(f)
  }

  predicate IsTag(fields: seq<Field>, property: string, i: nat)
    requires i < |fields|
  {
    fields[i].exported && PlainTag(fields[i]) && TagName(fields[i]) == property
  }

  lemma OneTag(p: Program, fields: seq<Field>, property: string, i: nat, j: nat)
    requires FieldsUsable(p, fields) && i < |fields| && j < |fields|
    requires IsTag(fields, property, i) && IsTag(fields, property, j)
    ensures i == j
  {
    hide FieldsUsable, PlainTag, JsonName, TagName;
    PlainIsDocumented(fields[i]);
    PlainIsDocumented(fields[j]);
    if i < j {
      JsonNamesDiffer(p, fields, i, j);
    } else if j < i {
      JsonNamesDiffer(p, fields, j, i);
    }
  }

  /** In a straight struct the field written under the property is the one with
      that name. */
  lemma TagIsWritten(p: Program, fields: seq<Field>, property: string, i: nat)
    requires FieldsUsable(p, fields) && FieldsWellTyped(p, fields) && Straight(fields, property) && i < |fields|
    ensures TagName(fields[i]) == property <==> Written(fields, i) && WireName(fields[i]) == Some(property)
  {
    hide FieldsUsable, FieldsWellTyped, PlainTag, TagName, WireName;
    assert fields[i] in fields;
    if fields[i].exported && PlainTag(fields[i]) {
      PlainIsDocumented(fields[i]);
      if TagName(fields[i]) == property {
        forall j: nat | j < |fields| && j != i && fields[j].exported
          ensures WireName(fields[j]) != WireName(fields[i])
        {
          assert fields[j] in fields;
          if WireName(fields[j]) == Some(property) {
            PlainIsDocumented(fields[j]);
            OneTag(p, fields, property, i, j);
          }
        }
      }
    }
  }

  lemma {:induction false} ConstAt(fields: seq<Field>, property: string, i: nat)
    requires i < |fields| && TagName(fields[i]) == property
    requires forall j | 0 <= j < i :: TagName(fields[j]) != property
    ensures ConstOf(fields, property) == fields[i].constant
  {
    hide TagName;
    if i > 0 {
      ConstAt(fields[1..], property, i - 1);
    }
  }

  lemma {:induction false} NoConst(fields: seq<Field>, property: string)
    requires forall j | 0 <= j < |fields| :: TagName(fields[j]) != property
    ensures ConstOf(fields, property) == ""
  {
    hide TagName;
    if fields != [] {
      NoConst(fields[1..], property);
    }
  }

  lemma {:induction false} WrittenConstAt(fields: seq<Field>, property: string, i: nat, n: nat)
    requires i < n <= |fields| && Written(fields, i) && WireName(fields[i]) == Some(property)
    ensures WrittenConst(fields, property, n) == fields[i].constant
  {
    hide WireName;
    if i < n - 1 && !(Written(fields, n - 1) && WireName(fields[n - 1]) == Some(property)) {
      WrittenConstAt(fields, property, i, n - 1);
    }
  }

  lemma {:induction false} NoWrittenConst(fields: seq<Field>, property: string, n: nat)
    requires n <= |fields| && forall i: nat | i < n :: !(Written(fields, i) && WireName(fields[i]) == Some(property))
    ensures WrittenConst(fields, property, n) == ""
  {
    hide Written, WireName;
    if n > 0 {
      NoWrittenConst(fields, property, n - 1);
    }
  }

  /** The compiler's value of a straight struct is what it has on the wire. */
  lemma ConstIsWritten(p: Program, fields: seq<Field>, property: string)
    requires FieldsUsable(p, fields) && FieldsWellTyped(p, fields) && Straight(fields, property)
    ensures ConstOf(fields, property) == WrittenConst(fields, property, |fields|)
  {
    hide FieldsUsable, FieldsWellTyped, TagName, WireName, Written, PlainTag, ConstOf, WrittenConst;
    forall i: nat | i < |fields|
      ensures TagName(fields[i]) == property <==> Written(fields, i) && WireName(fields[i]) == Some(property)
    {
      TagIsWritten(p, fields, property, i);
    }
    if i: nat :| i < |fields| && TagName(fields[i]) == property {
      forall j | 0 <= j < i ensures TagName(fields[j]) != property {
        assert fields[i] in fields && fields[j] in fields;
        if TagName(fields[j]) == property {
          OneTag(p, fields, property, i, j);
        }
      }
      ConstAt(fields, property, i);
      WrittenConstAt(fields, property, i, |fields|);
    } else {
      NoConst(fields, property);
      NoWrittenConst(fields, property, |fields|);
    }
  }

  /** On the wire, `v` has the constant `c` under the property. */
  predicate Carries(p: Program, v: GoType, property: string, c: string) {
    match FieldsOf(p, v)
    case None => false
    case Some(fields) =>
      exists i: nat ::
        i < |fields| && Written(fields, i) && WireName(fields[i]) == Some(property) && fields[i].constant == c
  }

  lemma CarriesConst(p: Program, v: GoType, property: string, c: string)
    requires c != ""
    ensures Carries(p, v, property, c) <==> WireConst(p, v, property) == c
  {
    hide Written, WireName, WrittenConst;
    match FieldsOf(p, v) {
      case None =>
      case Some(fields) =>
        if i: nat :| i < |fields| && Written(fields, i) && WireName(fields[i]) == Some(property) {
          forall j: nat | j < |fields| && Written(fields, j) && WireName(fields[j]) == Some(property)
            ensures WrittenConst(fields, property, |fields|) == fields[j].constant
          {
            WrittenConstAt(fields, property, j, |fields|);
          }
        } else {
          NoWrittenConst(fields, property, |fields|);
        }
    }
  }

  /** Every variant is a struct whose tag both sides read alike. */
  ghost predicate AllStraight(p: Program, property: string, vs: seq<GoType>) {
    forall v | v in vs :: Peel(v).Named? && Peel(v).name in p && Straight(p[Peel(v).name], property)
  }

  lemma ValueIsWritten(p: Program, property: string, vs: seq<GoType>, v: GoType)
    requires ProgramUsable(p) && ProgramWellTyped(p) && AllStraight(p, property, vs) && v in vs
    ensures DiscriminatorValue(p, v, property) == WireConst(p, v, property)
  {
    hide FieldsUsable, FieldsWellTyped, Straight, ConstOf, WrittenConst;
    ConstIsWritten(p, p[Peel(v).name], property);
  }

  lemma {:induction false} MappedFrom(p: Program, property: string, vs: seq<GoType>, c: string) returns (i: nat)
    requires c in Mapping(p, property, vs)
    ensures i < |vs| && c != "" && DiscriminatorValue(p, vs[i], property) == c
    ensures Mapping(p, property, vs)[c] == SchemaOf(p, vs[i]).ref
  {
    hide DiscriminatorValue, SchemaOf;
    var n := |vs| - 1;
    if DiscriminatorValue(p, vs[n], property) == c && c != "" {
      i := n;
    } else {
      i := MappedFrom(p, property, vs[..n], c);
    }
  }

  lemma {:induction false} Mapped(p: Program, property: string, vs: seq<GoType>, i: nat)
    requires i < |vs| && DiscriminatorValue(p, vs[i], property) != ""
    ensures DiscriminatorValue(p, vs[i], property) in Mapping(p, property, vs)
  {
    hide DiscriminatorValue, SchemaOf;
    if i < |vs| - 1 {
      Mapped(p, property, vs[..|vs| - 1], i);
    }
  }

  /** The document's mapping lists exactly the constants that variants have on the
      wire, each with a variant that has it. */
  lemma MappingExactly(p: Program, property: string, vs: seq<GoType>)
    requires ProgramUsable(p) && ProgramWellTyped(p) && AllStraight(p, property, vs)
    ensures forall c :: c in Mapping(p, property, vs) <==> c != "" && exists v :: v in vs && Carries(p, v, property, c)
    ensures forall c | c in Mapping(p, property, vs) ::
              exists v :: v in vs && Carries(p, v, property, c)
                  && Mapping(p, property, vs)[c] == "#/components/schemas/" + Peel(v).name
  {
    hide ProgramUsable, ProgramWellTyped, Straight, Carries, Mapping, DiscriminatorValue, WireConst, SchemaOf;
    forall c | c in Mapping(p, property, vs)
      ensures c != ""
      ensures exists v :: v in vs && Carries(p, v, property, c)
                  && Mapping(p, property, vs)[c] == "#/components/schemas/" + Peel(v).name
    {
      var i := MappedFrom(p, property, vs, c);
      assert vs[i] in vs;
      ValueIsWritten(p, property, vs, vs[i]);
      CarriesConst(p, vs[i], property, c);
      PeelRef(p, vs[i]);
    }
    forall c, v | c != "" && v in vs && Carries(p, v, property, c) ensures c in Mapping(p, property, vs) {
      ValueIsWritten(p, property, vs, v);
      CarriesConst(p, v, property, c);
      var i :| 0 <= i < |vs| && vs[i] == v;
      Mapped(p, property, vs, i);
    }
  }

  /** `json:"-"` keeps a field off the wire, but not out of the mapping: there it
      goes by its Go name. */
  lemma HiddenTagIsListed(f: Field)
    requires Identifier(f.name) && f.exported && f.json == Some("-") && f.constant != ""
    ensures ConstOf([f], f.name) == f.constant && WrittenConst([f], f.name, 1) == ""
  {
    assert Text.Before("-", ',') == "-" by { assert Text.IndexOf("-", ',') == -1; }
  }
}
