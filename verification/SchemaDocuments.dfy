/** The documents the script writes, and when strictness is all that conversion changes. */
module SchemaDocuments {
  import opened Json
  import opened Wrappers
  import opened CrdSchemas
  import opened SchemaMeaning
  import opened SchemaNormalForm

  /** No node outside the junctors is nullable, has a `oneOf` that the int-or-string rewrite overwrites, or has a bound
      that a flag makes exclusive. */
  ghost predicate Unexceptional(s: Value)
    decreases s, 0
  {
    s.Obj? ==>
      !IsNullable(s.fields) && !(Flag(s.fields, INT_OR_STRING) && "oneOf" in s.fields) &&
      forall k :: k in s.fields ==> !StrictBound(s.fields, k) && UnexceptionalKeyword(KeywordOf(k), s.fields[k])
  }

  ghost predicate UnexceptionalKeyword(keyword: Keyword, x: Value)
    decreases x, 1
  {
    match keyword
    case Properties => x.Obj? ==> forall name :: name in x.fields ==> Unexceptional(x.fields[name])
    case Items | AdditionalProperties => Unexceptional(x)
    case _ => true
  }

  lemma {:induction false} UnexceptionalEverywhere(other: Assertion, s: Value, v: Value)
    requires Unexceptional(s)
    ensures Everywhere(Overwritten(other), s, v) && Everywhere(OffBounds, s, v) && Everywhere(NoNullByLeave, s, v)
    decreases s
  {
    if s.Obj? {
      forall k | k in s.fields
        ensures Below(Overwritten(other), s, k, v) && Below(OffBounds, s, k, v) && Below(NoNullByLeave, s, k, v)
      {
        UnexceptionalBelow(other, s, k, v);
      }
    }
  }

  lemma {:induction false} UnexceptionalBelow(other: Assertion, s: Value, k: string, v: Value)
    requires s.Obj? && k in s.fields && UnexceptionalKeyword(KeywordOf(k), s.fields[k])
    ensures Below(Overwritten(other), s, k, v) && Below(OffBounds, s, k, v) && Below(NoNullByLeave, s, k, v)
    decreases s, 0
  {
    var x, keyword := s.fields[k], KeywordOf(k);
    if keyword.Properties? && x.Obj? && v.Obj? {
      forall name | name in x.fields && name in v.fields
        ensures Everywhere(Overwritten(other), x.fields[name], v.fields[name]) && Everywhere(OffBounds, x.fields[name], v.fields[name])
        ensures Everywhere(NoNullByLeave, x.fields[name], v.fields[name])
      {
        UnexceptionalEverywhere(other, x.fields[name], v.fields[name]);
      }
    } else if keyword.Items? || keyword.AdditionalProperties? {
      forall u
        ensures Everywhere(Overwritten(other), x, u) && Everywhere(OffBounds, x, u) && Everywhere(NoNullByLeave, x, u)
      {
        UnexceptionalEverywhere(other, x, u);
      }
    }
  }

  /** Without nullable nodes, overwritten junctors and flagged bounds, and with the other keywords read alike, strictness
      is the only change. */
  lemma Strictness(other: Assertion, s: Value, v: Value)
    requires Structural(s) && Agreed(other, s, true) && Unexceptional(s)
    ensures Accepts(Draft07, other, Convert(s), v) <==> Accepts(Kubernetes, other, s, v) && Everywhere(KnownKeys, s, v)
  {
    ExactStrictness(other, s, v);
    UnexceptionalEverywhere(other, s, v);
  }

  // ---------------------------------------------------------------- what is written

  const DRAFT := Str("http://json-schema.org/draft-07/schema#")
  const OBJECT_SCHEMA := Obj(map["type" := Str("object")])

  /** The metadata subschema of a root schema is a schema object. */
  predicate DeclaresMetadata(m: map<string, Value>) {
    "properties" in m && m["properties"].Obj? && "metadata" in m["properties"].fields && m["properties"].fields["metadata"].Obj?
  }

  function WithMetadata(m: map<string, Value>, schema: Value): map<string, Value>
    requires DeclaresMetadata(m)
  {
    m["properties" := Obj(m["properties"].fields["metadata" := schema])]
  }

  /** The root schema as the API server enforces it: the CRD's own metadata schema is not consulted. */
  function Enforced(s: Value): Value {
    if s.Obj? && DeclaresMetadata(s.fields) then Obj(WithMetadata(s.fields, OBJECT_SCHEMA)) else s
  }

  /** What is written for the schema with the keywords `m`: stamped, its metadata schema replaced if it is a schema
      object, and everything else as it was converted. */
  ghost predicate WrittenFor(m: map<string, Value>, fields: map<string, Value>) {
    "$schema" in fields && fields["$schema"] == Str("http://json-schema.org/draft-07/schema#") &&
    ("properties" in m && m["properties"].Obj? ==>
      var props := m["properties"].fields;
      "properties" in fields && fields["properties"].Obj? && fields["properties"].fields.Keys == props.Keys &&
      forall name :: name in props ==>
        fields["properties"].fields[name] ==
          if name == "metadata" && props[name].Obj? then Obj(map["type" := Str("object")]) else Convert(props[name])) &&
    Convert(Obj(m)).Obj? &&
    forall k :: k in Convert(Obj(m)).fields && k != "properties" && k != "$schema" ==>
      k in fields && fields[k] == Convert(Obj(m)).fields[k]
  }

  /** The per-version part of `main`: convert, override metadata in place, stamp the draft. Properties that are no
      dictionary stop it. */
  method WriteDocument(schema: Value) returns (r: Result<Value>)
    requires schema.Obj?
    ensures r.Success? <==> ("properties" in schema.fields ==> schema.fields["properties"].Obj?)
    ensures r.Failure? ==> r.error.BadContainer?
    ensures r.Success? ==> r.value.Obj? && WrittenFor(schema.fields, r.value.fields)
    ensures r.Success? ==> Convert(Enforced(schema)).Obj? && r.value.fields == Convert(Enforced(schema)).fields["$schema" := DRAFT]
  {
    var js := ToJsonSchema(schema);
    PropertiesStay(schema.fields);
    OverrideCommutes(schema);
    var fields := js.fields;
    if "properties" in fields && !fields["properties"].Obj? {
      return Failure(BadContainer);
    }
    if DeclaresMetadata(fields) {
      fields := WithMetadata(fields, OBJECT_SCHEMA);
    }
    r := Success(Obj(fields["$schema" := DRAFT]));
    IsWritten(schema.fields, fields);
  }

  lemma IsWritten(m: map<string, Value>, fields: map<string, Value>)
    requires Convert(Obj(m)).Obj? && DeclaresMetadata(Convert(Obj(m)).fields) == DeclaresMetadata(m)
    requires var c := Convert(Obj(m)).fields; fields == if DeclaresMetadata(c) then WithMetadata(c, OBJECT_SCHEMA) else c
    ensures WrittenFor(m, fields["$schema" := DRAFT])
  {
    PropertiesStay(m);
    assert "$schema"[0] == '$';
    if "properties" in m && m["properties"].Obj? {
      var props, written := m["properties"].fields, fields["properties"].fields;
      assert ConvertChildren(m["properties"]).fields.Keys == props.Keys;
      assert written.Keys == props.Keys;
    }
  }

  /** The root keeps its properties, converted one by one. */
  lemma PropertiesStay(m: map<string, Value>)
    ensures Convert(Obj(m)).Obj?
    ensures "properties" in Convert(Obj(m)).fields <==> "properties" in m
    ensures "properties" in m ==>
      Convert(Obj(m)).fields["properties"] == if m["properties"].Obj? then ConvertChildren(m["properties"]) else m["properties"]
  {
    KeywordsByName();
    if "properties" in m {
      ConvertedKeyword(Obj(m), "properties");
    } else {
      ConvertNode(m);
    }
  }

  /** Changing the properties of a node before conversion changes only the converted properties. */
  lemma ConvertUpdate(m: map<string, Value>, props: Value)
    requires "properties" in m && m["properties"].Obj? && props.Obj?
    ensures Convert(Obj(m)).Obj? && Convert(Obj(m["properties" := props])).Obj?
    ensures Convert(Obj(m["properties" := props])).fields == Convert(Obj(m)).fields["properties" := ConvertChildren(props)]
  {
    var n := m["properties" := props];
    KeywordsByName();
    var p := map k | k in m && !IsMarker(k) :: ConvertKeyword(k, m[k]);
    var q := map k | k in n && !IsMarker(k) :: ConvertKeyword(k, n[k]);
    assert q == p["properties" := ConvertChildren(props)];
    FinishUpdate(m, props, p, ConvertChildren(props));
  }

  lemma FinishUpdate(m: map<string, Value>, props: Value, p: map<string, Value>, x: Value)
    requires "properties" in m && "properties" in p
    ensures var n := m["properties" := props];
      Close(n, RewriteIntOrString(n, p["properties" := x])) == Close(m, RewriteIntOrString(m, p))["properties" := x]
  {
    var n := m["properties" := props];
    assert Flag(n, INT_OR_STRING) == Flag(m, INT_OR_STRING) && Flag(n, PRESERVE) == Flag(m, PRESERVE);
    var r, q := RewriteIntOrString(m, p), RewriteIntOrString(n, p["properties" := x]);
    assert "properties" in r && q == r["properties" := x];
    assert Declares(q) == Declares(r);
  }

  /** Overriding metadata after conversion is converting the schema with metadata overridden. */
  lemma OverrideCommutes(s: Value)
    requires s.Obj?
    ensures Convert(s).Obj? && Convert(Enforced(s)).Obj?
    ensures DeclaresMetadata(Convert(s).fields) == DeclaresMetadata(s.fields)
    ensures Convert(Enforced(s)).fields ==
      if DeclaresMetadata(s.fields) then WithMetadata(Convert(s).fields, OBJECT_SCHEMA) else Convert(s).fields
  {
    var m := s.fields;
    MetadataSurvives(m);
    if DeclaresMetadata(m) {
      OnlyTypeConverts("object");
      var props := Obj(m["properties"].fields["metadata" := OBJECT_SCHEMA]);
      ConvertUpdate(m, props);
      assert ConvertChildren(props).fields == ConvertChildren(m["properties"]).fields["metadata" := OBJECT_SCHEMA];
    }
  }

  lemma MetadataSurvives(m: map<string, Value>)
    ensures Convert(Obj(m)).Obj? && DeclaresMetadata(Convert(Obj(m)).fields) == DeclaresMetadata(m)
    ensures DeclaresMetadata(m) ==> Convert(Obj(m)).fields["properties"] == ConvertChildren(m["properties"])
  {
    PropertiesStay(m);
    if "properties" in m && m["properties"].Obj? && "metadata" in m["properties"].fields {
      ObjectsStay(m["properties"].fields["metadata"]);
    }
  }

  lemma ObjectsStay(x: Value)
    ensures Convert(x).Obj? == x.Obj?
  {
  }

  // ---------------------------------------------------------------- keys the API server knows undeclared

  const EMBEDDED := "x-kubernetes-embedded-resource"

  /** What a resource may hold whether or not its schema declares it. */
  const IMPLICIT: set<string> := {"apiVersion", "kind", "metadata"}

  function Implicit(m: map<string, Value>): set<string> {
    if Flag(m, EMBEDDED) then IMPLICIT else {}
  }

  /** No undeclared key but the `free` ones, where conversion closes the node. */
  predicate KeysUpTo(free: set<string>, s: Value, v: Value) {
    s.Obj? && v.Obj? && ClosedByConversion(s.fields) ==> v.fields.Keys <= Declared(s.fields) + free
  }

  /** Where conversion closes the node, it declares those of the `free` keys that are used. */
  predicate KeysStated(free: set<string>, s: Value, v: Value) {
    s.Obj? && v.Obj? && ClosedByConversion(s.fields) ==> v.fields.Keys * free <= Declared(s.fields)
  }

  predicate ServerKeys(s: Value, v: Value) {
    s.Obj? ==> KeysUpTo(Implicit(s.fields), s, v)
  }

  predicate ImplicitStated(s: Value, v: Value) {
    s.Obj? ==> KeysStated(Implicit(s.fields), s, v)
  }

  ghost predicate EverywhereBelow(ok: (Value, Value) -> bool, s: Value, v: Value) {
    s.Obj? ==> forall k | k in s.fields :: Below(ok, s, k, v)
  }

  /** No key the API server does not know: the root is a resource, and so are marked nodes. */
  ghost predicate ServerStrict(s: Value, v: Value) {
    KeysUpTo(IMPLICIT, s, v) && EverywhereBelow(ServerKeys, s, v)
  }

  /** The closed ones among these nodes declare what a resource may hold anyway, as far as it is used. */
  ghost predicate ResourceKeysStated(s: Value, v: Value) {
    KeysStated(IMPLICIT, s, v) && EverywhereBelow(ImplicitStated, s, v)
  }

  lemma {:induction false} KnownKeysSplit(s: Value, v: Value)
    ensures Everywhere(KnownKeys, s, v) <==> Everywhere(ServerKeys, s, v) && Everywhere(ImplicitStated, s, v)
    decreases s, 1
  {
    if s.Obj? {
      forall k | k in s.fields
        ensures Below(KnownKeys, s, k, v) <==> Below(ServerKeys, s, k, v) && Below(ImplicitStated, s, k, v)
      {
        KnownKeysSplitBelow(s, k, v);
      }
    }
  }

  lemma {:induction false} KnownKeysSplitBelow(s: Value, k: string, v: Value)
    requires s.Obj? && k in s.fields
    ensures Below(KnownKeys, s, k, v) <==> Below(ServerKeys, s, k, v) && Below(ImplicitStated, s, k, v)
    decreases s, 0
  {
    var x, keyword := s.fields[k], KeywordOf(k);
    if keyword.Properties? && x.Obj? && v.Obj? {
      forall name | name in x.fields && name in v.fields
        ensures Everywhere(KnownKeys, x.fields[name], v.fields[name]) <==>
          Everywhere(ServerKeys, x.fields[name], v.fields[name]) && Everywhere(ImplicitStated, x.fields[name], v.fields[name])
      {
        KnownKeysSplit(x.fields[name], v.fields[name]);
      }
    } else if keyword.Items? || keyword.AdditionalProperties? {
      forall u
        ensures Everywhere(KnownKeys, x, u) <==> Everywhere(ServerKeys, x, u) && Everywhere(ImplicitStated, x, u)
      {
        KnownKeysSplit(x, u);
      }
    }
  }

  /** Knowing every key by declaration is knowing it as the server does and stating what it takes for granted. */
  lemma KnownIsServerAndStated(s: Value, v: Value)
    ensures Everywhere(KnownKeys, s, v) <==> ServerStrict(s, v) && ResourceKeysStated(s, v)
  {
    if s.Obj? {
      forall k | k in s.fields
        ensures Below(KnownKeys, s, k, v) <==> Below(ServerKeys, s, k, v) && Below(ImplicitStated, s, k, v)
      {
        KnownKeysSplitBelow(s, k, v);
      }
    }
  }

  /** For every structural schema whose keywords are read alike, its written document and every JSON value: the document
      accepts the value (and overwritten `oneOf`s hold, and no value lies on an exclusive bound) exactly when the API
      server does, metadata schema aside, with no key it does not know, no null that only `nullable` lets pass, and the
      keys every resource may hold stated by the closed nodes that use them. */
  lemma DocumentStrictness(other: Assertion, s: Value, js: Value, v: Value)
    requires Structural(s) && "$schema" !in s.fields && Agreed(other, Enforced(s), true)
    requires forall u :: other(Draft07, "$schema", DRAFT, u)
    requires js.Obj? && Convert(Enforced(s)).Obj? && js.fields == Convert(Enforced(s)).fields["$schema" := DRAFT]
    ensures Accepts(Draft07, other, js, v) && Everywhere(Overwritten(other), Enforced(s), v) && Everywhere(OffBounds, Enforced(s), v) <==>
      (Accepts(Kubernetes, other, Enforced(s), v) && Everywhere(NoNullByLeave, Enforced(s), v) &&
       ServerStrict(Enforced(s), v) && ResourceKeysStated(Enforced(s), v))
    ensures Unexceptional(Enforced(s)) ==>
      (Accepts(Draft07, other, js, v) <==> Accepts(Kubernetes, other, Enforced(s), v) && Everywhere(KnownKeys, Enforced(s), v))
  {
    EnforcedStructural(s);
    ResourceStrictness(other, Enforced(s), v);
    DocumentAccepts(other, s, js, v);
  }

  lemma ResourceStrictness(other: Assertion, s: Value, v: Value)
    requires Structural(s) && Agreed(other, s, true)
    ensures Accepts(Draft07, other, Convert(s), v) && Everywhere(Overwritten(other), s, v) && Everywhere(OffBounds, s, v) <==>
      (Accepts(Kubernetes, other, s, v) && Everywhere(NoNullByLeave, s, v) && ServerStrict(s, v) && ResourceKeysStated(s, v))
    ensures Unexceptional(s) ==>
      (Accepts(Draft07, other, Convert(s), v) <==> Accepts(Kubernetes, other, s, v) && Everywhere(KnownKeys, s, v))
  {
    ExactStrictness(other, s, v);
    if Unexceptional(s) {
      Strictness(other, s, v);
    }
    KnownIsServerAndStated(s, v);
  }

  lemma EnforcedStructural(s: Value)
    requires Structural(s)
    ensures Structural(Enforced(s)) && Enforced(s).Obj?
  {
    if DeclaresMetadata(s.fields) {
      var m, n := s.fields, Enforced(s).fields;
      ObjectSchemaStructural();
      KeywordsByName();
      assert StructuralKeyword(KeywordOf("properties"), m["properties"]);
      forall k | k in n
        ensures StructuralKeyword(KeywordOf(k), n[k])
      {
        assert k in m && StructuralKeyword(KeywordOf(k), m[k]);
      }
    }
  }

  lemma ObjectSchemaStructural()
    ensures Structural(OBJECT_SCHEMA)
  {
    KeywordsByName();
    assert OBJECT_SCHEMA.fields.Keys == {"type"};
  }

  /** Stamped with the draft, the conversion accepts what it accepted. */
  lemma DocumentAccepts(other: Assertion, s: Value, js: Value, v: Value)
    requires s.Obj? && "$schema" !in s.fields && forall u :: other(Draft07, "$schema", DRAFT, u)
    requires js.Obj? && Convert(Enforced(s)).Obj? && js.fields == Convert(Enforced(s)).fields["$schema" := DRAFT]
    ensures Accepts(Draft07, other, js, v) == Accepts(Draft07, other, Convert(Enforced(s)), v)
  {
    ConvertNode(Enforced(s).fields);
    assert "$schema" !in Convert(Enforced(s)).fields;
    StampIsMute(other, Convert(Enforced(s)), js, v);
  }

  /** What the API server accepts of every resource, the written document accepts of a value with key `k` among
      `apiVersion`, `kind` and `metadata` only if its root declares `k` or is not closed. */
  lemma UndeclaredRootKey(other: Assertion, s: Value, js: Value, v: Value, k: string)
    requires Structural(s) && "$schema" !in s.fields && Agreed(other, Enforced(s), true)
    requires forall u :: other(Draft07, "$schema", DRAFT, u)
    requires js.Obj? && Convert(Enforced(s)).Obj? && js.fields == Convert(Enforced(s)).fields["$schema" := DRAFT]
    requires v.Obj? && k in v.fields && k in {"apiVersion", "kind", "metadata"}
    ensures ClosedByConversion(s.fields) && k !in Declared(s.fields) ==> !Accepts(Draft07, other, js, v)
    ensures Unexceptional(Enforced(s)) && Accepts(Kubernetes, other, Enforced(s), v) && ServerStrict(Enforced(s), v) &&
            EverywhereBelow(ImplicitStated, Enforced(s), v) && v.fields.Keys * {"apiVersion", "kind", "metadata"} == {k} ==>
      (Accepts(Draft07, other, js, v) <==> !ClosedByConversion(s.fields) || k in Declared(s.fields))
  {
    var e := Enforced(s);
    EnforcedKeys(s);
    DocumentStrictness(other, s, js, v);
    DocumentAccepts(other, s, js, v);
    if ClosedByConversion(s.fields) && k !in Declared(s.fields) {
      assert !KnownKeys(e, v);
      UnknownRejected(other, e, v);
    } else {
      KnownIsServerAndStated(e, v);
    }
  }

  lemma UnknownRejected(other: Assertion, s: Value, v: Value)
    requires s.Obj? && !KnownKeys(s, v)
    ensures !Accepts(Draft07, other, Convert(s), v)
  {
    ClosingExact(other, s, v);
    assert !Holds(Draft07, other, Convert(s), "additionalProperties", v);
  }

  /** The server's metadata override changes neither what the root declares nor whether it is closed. */
  lemma EnforcedKeys(s: Value)
    requires s.Obj?
    ensures Enforced(s).Obj? && Declared(Enforced(s).fields) == Declared(s.fields)
    ensures ClosedByConversion(Enforced(s).fields) == ClosedByConversion(s.fields)
  {
    if DeclaresMetadata(s.fields) {
      var n := Enforced(s).fields;
      assert Flag(n, PRESERVE) == Flag(s.fields, PRESERVE) && Flag(n, INT_OR_STRING) == Flag(s.fields, INT_OR_STRING);
      assert n["properties"].fields.Keys == s.fields["properties"].fields.Keys;
    }
  }

  lemma StampIsMute(other: Assertion, t: Value, js: Value, v: Value)
    requires t.Obj? && js.Obj? && "$schema" !in t.fields && js.fields == t.fields["$schema" := DRAFT]
    requires forall u :: other(Draft07, "$schema", DRAFT, u)
    ensures Accepts(Draft07, other, js, v) == Accepts(Draft07, other, t, v)
  {
    assert KeywordOf("$schema").Other? by {
      assert "$schema"[0] != MARKER[0];
    }
    assert Declared(js.fields) == Declared(t.fields);
    forall k | k in t.fields
      ensures Holds(Draft07, other, js, k, v) == Holds(Draft07, other, t, k, v)
    {
      SameField(other, t, js, k, v);
    }
  }

  lemma SameField(other: Assertion, s: Value, t: Value, k: string, v: Value)
    requires s.Obj? && t.Obj? && k in s.fields && k in t.fields && s.fields[k] == t.fields[k]
    requires Declared(s.fields) == Declared(t.fields)
    ensures Holds(Draft07, other, s, k, v) == Holds(Draft07, other, t, k, v)
  {
  }

}
