/** The conversion and both readings of a schema, keyword by keyword as they are spelt (hack/crd-schemas.py). */
module SchemaKeywords {
  import opened Json
  import opened CrdSchemas
  import opened SchemaMeaning
  import opened SchemaDepartures
  import opened SchemaDocuments

  // ---------------------------------------------------------------- what becomes of each keyword

  /** The key is there with a value that Python takes for true. */
  predicate Given(m: map<string, Value>, key: string) {
    key in m && m[key] != Null && m[key] != Bool(false) && m[key] != Num(0.0) && m[key] != Str("") &&
    m[key] != Arr([]) && m[key] != Obj(map[])
  }

  lemma GivenIsFlag(m: map<string, Value>, key: string)
    ensures Given(m, key) == Flag(m, key)
  {
  }

  /** The keywords by their names; all others are data, but for the vendor's. */
  lemma Names(k: string)
    ensures KeywordOf(k).Marker? <==> "x-kubernetes-" <= k
    ensures KeywordOf(k).Properties? <==> k == "properties"
    ensures KeywordOf(k).TakesSchema() <==> k == "items" || k == "additionalProperties" || k == "not"
    ensures KeywordOf(k).TakesList() <==> k == "allOf" || k == "anyOf" || k == "oneOf"
  {
    NamesApart();
    assert "x-kubernetes-" <= k ==> k[0] == 'x';
  }

  lemma NamesApart()
    ensures "type"[0] == 't' && "nullable"[0] == 'n' && "required"[0] == 'r' && "properties"[0] == 'p' && "items"[0] == 'i'
    ensures |"nullable"| == 8 && |"not"| == 3 && "not"[0] == 'n'
    ensures |"additionalProperties"| == 20 && "additionalProperties"[0] == 'a' && |"allOf"| == 5 && |"anyOf"| == 5
    ensures "allOf"[1] == 'l' && "anyOf"[1] == 'n' && "oneOf"[0] == 'o' && "allOf"[0] == 'a' && "anyOf"[0] == 'a'
  {
  }

  /** What the conversion makes of a keyword's value, by name: a dictionary of properties has every property converted;
      a dictionary under `items`, `additionalProperties` or `not` is converted; so is every element of a list under
      `allOf`, `anyOf` or `oneOf`; all else stays. */
  lemma ValueByName(k: string, x: Value)
    ensures k == "properties" && x.Obj? ==>
      (var y := ConvertKeyword(k, x);
       y.Obj? && y.fields.Keys == x.fields.Keys && forall name :: name in x.fields ==> y.fields[name] == Convert(x.fields[name]))
    ensures (k == "items" || k == "additionalProperties" || k == "not") && x.Obj? ==> ConvertKeyword(k, x) == Convert(x)
    ensures (k == "allOf" || k == "anyOf" || k == "oneOf") && x.Arr? ==>
      (var y := ConvertKeyword(k, x);
       y.Arr? && |y.elems| == |x.elems| && forall i :: 0 <= i < |x.elems| ==> y.elems[i] == Convert(x.elems[i]))
    ensures x.Scalar() || (x.Obj? && k !in {"properties", "items", "additionalProperties", "not"}) ||
            (x.Arr? && k !in {"allOf", "anyOf", "oneOf"}) ==>
      ConvertKeyword(k, x) == x
  {
    Names(k);
    NamesApart();
  }

  /** Where a keyword's value goes: vendor keywords go nowhere; all others keep their place, with the value converted,
      but for the type and `oneOf` of a node with the int-or-string marker. */
  lemma ConvertByName(m: map<string, Value>, k: string)
    requires k in m
    ensures Convert(Obj(m)).Obj?
    ensures "x-kubernetes-" <= k ==> k !in Convert(Obj(m)).fields
    ensures !("x-kubernetes-" <= k) && !(Given(m, "x-kubernetes-int-or-string") && (k == "type" || k == "oneOf")) ==>
      k in Convert(Obj(m)).fields && Convert(Obj(m)).fields[k] == ConvertKeyword(k, m[k])
  {
    GivenIsFlag(m, "x-kubernetes-int-or-string");
    Names(k);
    ConvertNode(m);
    if "x-kubernetes-" <= k {
      assert k[0] == 'x' && "oneOf"[0] == 'o' && "additionalProperties"[0] == 'a';
    }
  }

  /** What the conversion adds: the two types in place of an int-or-string marker, and the closing keyword where a node
      of type object has properties, says nothing of others and bears neither marker. */
  lemma AddedByName(m: map<string, Value>)
    ensures Convert(Obj(m)).Obj?
    ensures var c := Convert(Obj(m)).fields;
      && (Given(m, "x-kubernetes-int-or-string") ==>
        "type" !in c && "oneOf" in c &&
        c["oneOf"] == Arr([Obj(map["type" := Str("string")]), Obj(map["type" := Str("integer")])]))
      && (forall k :: k in c && k !in m ==>
        (k == "oneOf" && Given(m, "x-kubernetes-int-or-string")) || (k == "additionalProperties" && c[k] == Bool(false)))
      && ("additionalProperties" !in m ==>
        ("additionalProperties" in c <==>
          "type" in m && m["type"] == Str("object") && "properties" in m &&
          !Given(m, "x-kubernetes-preserve-unknown-fields") && !Given(m, "x-kubernetes-int-or-string")))
  {
    GivenIsFlag(m, "x-kubernetes-int-or-string");
    GivenIsFlag(m, "x-kubernetes-preserve-unknown-fields");
    ConvertNode(m);
    var c := Convert(Obj(m)).fields;
    if "additionalProperties" in c && "additionalProperties" !in m {
      assert ClosedByConversion(m);
    }
  }

  /** Lists are converted element by element; scalars stay. */
  lemma ConvertElsewhere(v: Value)
    requires !v.Obj?
    ensures v.Arr? ==> Convert(v).Arr? && |Convert(v).elems| == |v.elems|
    ensures v.Arr? ==> forall i :: 0 <= i < |v.elems| ==> Convert(v).elems[i] == Convert(v.elems[i])
    ensures v.Scalar() ==> Convert(v) == v
  {
  }

  // ---------------------------------------------------------------- what each keyword says

  /** A schema of one keyword says of a value what the keyword does, whichever it is. */
  lemma OneSays(d: Dialect, other: Assertion, k: string, x: Value, v: Value)
    requires !("x-kubernetes-" <= k)
    ensures Accepts(d, other, Obj(map[k := x]), v) == Holds(d, other, Single(k, x), k, v)
  {
    Names(k);
    SingleAccepts(d, other, k, x, v);
  }

  /** `items`: every element; `additionalProperties`, with no properties declared: every value. */
  lemma ElementsByName(d: Dialect, other: Assertion, x: Value, v: Value)
    ensures Accepts(d, other, Obj(map["items" := x]), v) <==>
      (v.Arr? ==> forall i :: 0 <= i < |v.elems| ==> Accepts(d, other, x, v.elems[i]))
    ensures Accepts(d, other, Obj(map["additionalProperties" := x]), v) <==>
      (v.Obj? ==> forall name :: name in v.fields ==> Accepts(d, other, x, v.fields[name]))
  {
    NamesApart();
    OneSays(d, other, "items", x, v);
    OneSays(d, other, "additionalProperties", x, v);
    assert KeywordOf("items").Items? && KeywordOf("additionalProperties").AdditionalProperties?;
    assert Single("additionalProperties", x).fields.Keys == {"additionalProperties"};
    assert Declared(Single("additionalProperties", x).fields) == {};
  }

  /** `properties`: every declared value that is there; with `additionalProperties`, that says the rest. */
  lemma PropertiesByName(d: Dialect, other: Assertion, p: map<string, Value>, x: Value, v: Value)
    ensures Accepts(d, other, Obj(map["properties" := Obj(p)]), v) <==>
      (v.Obj? ==> forall name :: name in p && name in v.fields ==> Accepts(d, other, p[name], v.fields[name]))
    ensures Accepts(d, other, Obj(map["properties" := Obj(p), "additionalProperties" := x]), v) <==>
      (v.Obj? ==>
        (forall name :: name in p && name in v.fields ==> Accepts(d, other, p[name], v.fields[name])) &&
        (forall name :: name in v.fields && name !in p ==> Accepts(d, other, x, v.fields[name])))
  {
    NamesApart();
    OneSays(d, other, "properties", Obj(p), v);
    assert KeywordOf("properties").Properties?;
    BothSay(d, other, Obj(map["properties" := Obj(p), "additionalProperties" := x]), v);
  }

  lemma BothSay(d: Dialect, other: Assertion, s: Value, v: Value)
    requires s.Obj? && s.fields.Keys == {"properties", "additionalProperties"} && s.fields["properties"].Obj?
    ensures Accepts(d, other, s, v) <==>
      (v.Obj? ==>
        var p := s.fields["properties"].fields;
        (forall name :: name in p && name in v.fields ==> Accepts(d, other, p[name], v.fields[name])) &&
        (forall name :: name in v.fields && name !in p ==> Accepts(d, other, s.fields["additionalProperties"], v.fields[name])))
  {
    var m := s.fields;
    NamesApart();
    assert KeywordOf("properties").Properties? && KeywordOf("additionalProperties").AdditionalProperties?;
    assert "properties" in m && "additionalProperties" in m;
    KeywordsByName();
    assert !Flag(m, INT_OR_STRING);
    assert Accepts(d, other, s, v) <==> Holds(d, other, s, "properties", v) && Holds(d, other, s, "additionalProperties", v);
  }

  /** `not`: what the schema does not accept. `required`: an object has the keys named. */
  lemma NotByName(d: Dialect, other: Assertion, x: Value, names: seq<Value>, v: Value)
    ensures Accepts(d, other, Obj(map["not" := x]), v) <==> !Accepts(d, other, x, v)
    ensures Accepts(d, other, Obj(map["required" := Arr(names)]), v) <==>
      (v.Obj? ==> forall i :: 0 <= i < |names| && names[i].Str? ==> names[i].s in v.fields)
  {
    NamesApart();
    OneSays(d, other, "not", x, v);
    OneSays(d, other, "required", Arr(names), v);
    assert KeywordOf("not").Not? && KeywordOf("required").Required?;
  }

  /** `allOf`, `anyOf` and `oneOf`: all, some, exactly one. */
  lemma AllByName(d: Dialect, other: Assertion, xs: seq<Value>, v: Value)
    ensures Accepts(d, other, Obj(map["allOf" := Arr(xs)]), v) <==> forall i :: 0 <= i < |xs| ==> Accepts(d, other, xs[i], v)
  {
    JunctorSays(d, other, "allOf", AllOf, xs, v);
  }

  lemma AnyByName(d: Dialect, other: Assertion, xs: seq<Value>, v: Value)
    ensures Accepts(d, other, Obj(map["anyOf" := Arr(xs)]), v) <==> exists i :: 0 <= i < |xs| && Accepts(d, other, xs[i], v)
  {
    JunctorSays(d, other, "anyOf", AnyOf, xs, v);
    var verdicts := Verdicts(d, other, Arr(xs), v);
    if i :| 0 <= i < |xs| && Accepts(d, other, xs[i], v) {
      assert verdicts[i];
    }
  }

  lemma OneByName(d: Dialect, other: Assertion, xs: seq<Value>, v: Value)
    ensures Accepts(d, other, Obj(map["oneOf" := Arr(xs)]), v) <==>
      exists i :: 0 <= i < |xs| && Accepts(d, other, xs[i], v) && forall j :: 0 <= j < |xs| && j != i ==> !Accepts(d, other, xs[j], v)
  {
    JunctorSays(d, other, "oneOf", OneOf, xs, v);
    var verdicts := Verdicts(d, other, Arr(xs), v);
    if JunctorHolds(OneOf, verdicts) {
      var i :| 0 <= i < |verdicts| && verdicts[i] && forall j :: 0 <= j < |verdicts| && verdicts[j] ==> j == i;
      assert Accepts(d, other, xs[i], v) && forall j :: 0 <= j < |xs| && j != i ==> !verdicts[j];
    }
    if i :| 0 <= i < |xs| && Accepts(d, other, xs[i], v) && forall j :: 0 <= j < |xs| && j != i ==> !Accepts(d, other, xs[j], v) {
      assert verdicts[i] && forall j :: 0 <= j < |verdicts| && verdicts[j] ==> j == i;
    }
  }

  lemma JunctorSays(d: Dialect, other: Assertion, k: string, keyword: Keyword, xs: seq<Value>, v: Value)
    requires k == "allOf" || k == "anyOf" || k == "oneOf"
    requires keyword == if k == "allOf" then AllOf else if k == "anyOf" then AnyOf else OneOf
    ensures Accepts(d, other, Obj(map[k := Arr(xs)]), v) == JunctorHolds(keyword, Verdicts(d, other, Arr(xs), v))
    ensures forall i :: 0 <= i < |xs| ==> Verdicts(d, other, Arr(xs), v)[i] == Accepts(d, other, xs[i], v)
  {
    NamesApart();
    OneSays(d, other, k, Arr(xs), v);
    assert KeywordOf(k) == keyword;
  }

  /** `type`: the seven names; with `nullable`, the API server takes null as well. */
  lemma TypesByName(d: Dialect, other: Assertion, v: Value)
    ensures Accepts(d, other, Obj(map["type" := Str("object")]), v) <==> v.Obj?
    ensures Accepts(d, other, Obj(map["type" := Str("array")]), v) <==> v.Arr?
    ensures Accepts(d, other, Obj(map["type" := Str("string")]), v) <==> v.Str?
    ensures Accepts(d, other, Obj(map["type" := Str("boolean")]), v) <==> v.Bool?
    ensures Accepts(d, other, Obj(map["type" := Str("null")]), v) <==> v.Null?
    ensures Accepts(d, other, Obj(map["type" := Str("number")]), v) <==> v.Num?
    ensures Accepts(d, other, Obj(map["type" := Str("integer")]), v) <==> v.Num? && v.r == v.r.Floor as real
  {
    TypeSays(d, other, "object", v);
    TypeSays(d, other, "array", v);
    TypeSays(d, other, "string", v);
    TypeSays(d, other, "boolean", v);
    TypeSays(d, other, "null", v);
    TypeSays(d, other, "number", v);
    TypeSays(d, other, "integer", v);
  }

  lemma TypeSays(d: Dialect, other: Assertion, name: string, v: Value)
    ensures Accepts(d, other, Obj(map["type" := Str(name)]), v) == HasType(name, v)
  {
    NamesApart();
    OneSays(d, other, "type", Str(name), v);
    assert KeywordOf("type").Type?;
    var m := Single("type", Str(name)).fields;
    assert m.Keys == {"type"} && !Flag(m, INT_OR_STRING) && !IsNullable(m);
  }

  /** A list of type names takes what one of them takes. */
  lemma TypeListByName(d: Dialect, other: Assertion, names: seq<Value>, v: Value)
    ensures Accepts(d, other, Obj(map["type" := Arr(names)]), v) <==>
      exists i :: 0 <= i < |names| && names[i].Str? && Accepts(d, other, Obj(map["type" := names[i]]), v)
  {
    NamesApart();
    OneSays(d, other, "type", Arr(names), v);
    assert KeywordOf("type").Type?;
    var m := Single("type", Arr(names)).fields;
    assert m.Keys == {"type"} && !Flag(m, INT_OR_STRING) && !IsNullable(m);
    forall i | 0 <= i < |names| && names[i].Str?
      ensures Accepts(d, other, Obj(map["type" := names[i]]), v) == HasType(names[i].s, v)
    {
      TypeSays(d, other, names[i].s, v);
    }
  }

  /** `nullable` beside a type: null is accepted by the API server and not in draft-07. */
  lemma NullableByName(other: Assertion, name: string, v: Value)
    ensures Accepts(Kubernetes, other, Obj(map["type" := Str(name), "nullable" := Bool(true)]), v) <==> v.Null? || HasType(name, v)
    ensures Accepts(Draft07, other, Obj(map["type" := Str(name), "nullable" := Bool(true)]), v) <==> HasType(name, v)
    ensures Accepts(Kubernetes, other, Obj(map["type" := Str(name), "nullable" := Bool(false)]), v) <==> HasType(name, v)
  {
    TypeAndNullable(Kubernetes, other, Obj(map["type" := Str(name), "nullable" := Bool(true)]), v);
    TypeAndNullable(Draft07, other, Obj(map["type" := Str(name), "nullable" := Bool(true)]), v);
    TypeAndNullable(Kubernetes, other, Obj(map["type" := Str(name), "nullable" := Bool(false)]), v);
  }

  lemma TypeAndNullable(d: Dialect, other: Assertion, s: Value, v: Value)
    requires s.Obj? && s.fields.Keys == {"type", "nullable"} && s.fields["type"].Str?
    ensures Accepts(d, other, s, v) <==> (d.Kubernetes? && Given(s.fields, "nullable") && v.Null?) || HasType(s.fields["type"].s, v)
  {
    var m := s.fields;
    NamesApart();
    KeywordsByName();
    GivenIsFlag(m, "nullable");
    assert KeywordOf("type").Type? && KeywordOf("nullable").Nullable? && "type" in m && "nullable" in m;
    assert !Flag(m, INT_OR_STRING);
    assert Accepts(d, other, s, v) <==> Holds(d, other, s, "type", v) && Holds(d, other, s, "nullable", v);
  }

  /** The int-or-string marker, by its name: text or an integer to the API server, nothing to draft-07. */
  lemma MarkerByName(other: Assertion, v: Value)
    ensures Accepts(Kubernetes, other, Obj(map["x-kubernetes-int-or-string" := Bool(true)]), v) <==>
      v.Str? || (v.Num? && v.r == v.r.Floor as real)
    ensures Accepts(Kubernetes, other, Obj(map["x-kubernetes-int-or-string" := Bool(false)]), v)
    ensures Accepts(Draft07, other, Obj(map["x-kubernetes-int-or-string" := Bool(true)]), v)
  {
    MarkerSays(Kubernetes, other, Obj(map["x-kubernetes-int-or-string" := Bool(true)]), v);
    MarkerSays(Kubernetes, other, Obj(map["x-kubernetes-int-or-string" := Bool(false)]), v);
    MarkerSays(Draft07, other, Obj(map["x-kubernetes-int-or-string" := Bool(true)]), v);
  }

  lemma MarkerSays(d: Dialect, other: Assertion, s: Value, v: Value)
    requires s.Obj? && s.fields.Keys == {"x-kubernetes-int-or-string"}
    ensures Accepts(d, other, s, v) <==>
      (d.Kubernetes? && Given(s.fields, "x-kubernetes-int-or-string") ==> v.Str? || (v.Num? && v.r == v.r.Floor as real))
  {
    Names("x-kubernetes-int-or-string");
    GivenIsFlag(s.fields, "x-kubernetes-int-or-string");
    NamesApart();
    assert !IsNullable(s.fields);
    assert forall k :: k in s.fields ==> Holds(d, other, s, k, v);
  }

  /** A nullable int-or-string node takes null as well. */
  lemma NullableMarkerByName(other: Assertion, v: Value)
    ensures Accepts(Kubernetes, other, Obj(map["x-kubernetes-int-or-string" := Bool(true), "nullable" := Bool(true)]), v) <==>
      v.Str? || v.Null? || (v.Num? && v.r == v.r.Floor as real)
  {
    MarkerAndNullable(other, Obj(map["x-kubernetes-int-or-string" := Bool(true), "nullable" := Bool(true)]), v);
  }

  lemma MarkerAndNullable(other: Assertion, s: Value, v: Value)
    requires s.Obj? && s.fields.Keys == {"x-kubernetes-int-or-string", "nullable"}
    requires Flag(s.fields, "x-kubernetes-int-or-string") && Flag(s.fields, "nullable")
    ensures Accepts(Kubernetes, other, s, v) <==> v.Str? || v.Null? || (v.Num? && v.r == v.r.Floor as real)
  {
    Names("x-kubernetes-int-or-string");
    NamesApart();
    assert KeywordOf("nullable").Nullable?;
    assert forall k :: k in s.fields ==> Holds(Kubernetes, other, s, k, v);
  }

  lemma BoundNames()
    ensures "minimum"[0] == 'm' && "maximum"[0] == 'm' && "exclusiveMinimum"[0] == 'e' && "exclusiveMaximum"[0] == 'e'
    ensures "minimum"[1] == 'i' && "maximum"[1] == 'a' && "exclusiveMinimum"[10] == 'i' && "exclusiveMaximum"[10] == 'a'
    ensures |"minimum"| == |"maximum"| == 7 && |"exclusiveMinimum"| == |"exclusiveMaximum"| == 16
  {
  }

  /** `minimum` and `maximum`, by themselves; a number under an exclusive keyword counts in draft-07 only. */
  lemma BoundsByValue(d: Dialect, other: Assertion, b: real, r: real)
    ensures Accepts(d, other, Obj(map["minimum" := Num(b)]), Num(r)) <==> b <= r
    ensures Accepts(d, other, Obj(map["maximum" := Num(b)]), Num(r)) <==> r <= b
    ensures Accepts(d, other, Obj(map["exclusiveMinimum" := Num(b)]), Num(r)) <==> (d.Draft07? ==> b < r)
    ensures Accepts(d, other, Obj(map["exclusiveMaximum" := Num(b)]), Num(r)) <==> (d.Draft07? ==> r < b)
  {
    BoundSays(d, other, "minimum", b, r);
    BoundSays(d, other, "maximum", b, r);
    BoundSays(d, other, "exclusiveMinimum", b, r);
    BoundSays(d, other, "exclusiveMaximum", b, r);
    BoundNames();
  }

  lemma BoundSays(d: Dialect, other: Assertion, k: string, b: real, r: real)
    requires k == "minimum" || k == "maximum" || k == "exclusiveMinimum" || k == "exclusiveMaximum"
    ensures Accepts(d, other, Obj(map[k := Num(b)]), Num(r)) == BoundHolds(d, map[k := Num(b)], k, Num(r))
    ensures !StrictBound(map[k := Num(b)], k)
  {
    BoundNames();
    BoundIsOther(k);
    OneSays(d, other, k, Num(b), Num(r));
    var m := Single(k, Num(b)).fields;
    assert m == map[k := Num(b)] && m.Keys == {k};
  }

  /** A boolean beside them: true makes the bound strict to the API server, false does not, and draft-07 ignores both. */
  lemma FlaggedBounds(d: Dialect, other: Assertion, b: real, flag: bool, r: real)
    ensures Accepts(d, other, Obj(map["minimum" := Num(b), "exclusiveMinimum" := Bool(flag)]), Num(r)) <==>
      b <= r && (d.Kubernetes? && flag ==> b != r)
    ensures Accepts(d, other, Obj(map["maximum" := Num(b), "exclusiveMaximum" := Bool(flag)]), Num(r)) <==>
      r <= b && (d.Kubernetes? && flag ==> b != r)
  {
    BoundNames();
    Flagged(d, other, "minimum", "exclusiveMinimum", Obj(map["minimum" := Num(b), "exclusiveMinimum" := Bool(flag)]), Num(r));
    Flagged(d, other, "maximum", "exclusiveMaximum", Obj(map["maximum" := Num(b), "exclusiveMaximum" := Bool(flag)]), Num(r));
  }

  lemma FlagIsStrict(k: string, strict: string, m: map<string, Value>)
    requires (k == "minimum" && strict == "exclusiveMinimum") || (k == "maximum" && strict == "exclusiveMaximum")
    requires m.Keys == {k, strict} && m[strict].Bool?
    ensures StrictBound(m, k) <==> m[k].Num? && m[strict] == Bool(true)
  {
    BoundNames();
  }

  lemma Flagged(d: Dialect, other: Assertion, k: string, strict: string, s: Value, v: Value)
    requires (k == "minimum" && strict == "exclusiveMinimum") || (k == "maximum" && strict == "exclusiveMaximum")
    requires s.Obj? && s.fields.Keys == {k, strict} && s.fields[strict].Bool?
    ensures Accepts(d, other, s, v) <==> BoundHolds(d, s.fields, k, v)
    ensures StrictBound(s.fields, k) <==> s.fields[k].Num? && s.fields[strict] == Bool(true)
  {
    var m := s.fields;
    FlagIsStrict(k, strict, m);
    BoundIsOther(k);
    BoundIsOther(strict);
    assert k in m && strict in m && INT_OR_STRING[0] == 'x';
    assert !Flag(m, INT_OR_STRING);
    assert Holds(d, other, s, strict, v);
    assert Accepts(d, other, s, v) <==> Holds(d, other, s, k, v) && Holds(d, other, s, strict, v);
  }

  lemma BoundIsOther(k: string)
    requires k == "minimum" || k == "maximum" || k == "exclusiveMinimum" || k == "exclusiveMaximum"
    ensures KeywordOf(k).Other? && IsBound(k) && k != "" && k[0] != 'x'
  {
    BoundNames();
    NamesApart();
    assert "oneOf"[0] == 'o';
  }

  /** Any other keyword is what each dialect takes it for. */
  lemma OtherByName(d: Dialect, other: Assertion, k: string, x: Value, v: Value)
    requires !("x-kubernetes-" <= k)
    requires k !in {"type", "nullable", "required", "properties", "items", "additionalProperties", "not", "allOf", "anyOf", "oneOf"}
    requires k !in {"minimum", "maximum", "exclusiveMinimum", "exclusiveMaximum"}
    ensures Accepts(d, other, Obj(map[k := x]), v) == other(d, k, x, v)
  {
    OneSays(d, other, k, x, v);
    assert KeywordOf(k).Other?;
  }

  /** Boolean schemas. */
  lemma BooleanSchemas(d: Dialect, other: Assertion, v: Value)
    ensures Accepts(d, other, Bool(true), v) && !Accepts(d, other, Bool(false), v)
  {
  }

  /** What is no schema, and a keyword with a value of the wrong kind, says nothing. */
  lemma OthersSayNothing(d: Dialect, other: Assertion, k: string, x: Value, v: Value)
    requires (k == "type" && !x.Str? && !x.Arr?) || (k == "properties" && !x.Obj?) ||
             ((k == "required" || k == "allOf" || k == "anyOf" || k == "oneOf") && !x.Arr?)
    ensures Accepts(d, other, Obj(map[k := x]), v)
    ensures !x.Bool? && !x.Obj? ==> Accepts(d, other, x, v)
  {
    NamesApart();
    assert k[0] != 'x';
    OneSays(d, other, k, x, v);
    if k == "type" {
      assert KeywordOf(k).Type?;
    } else if k == "properties" {
      assert KeywordOf(k).Properties?;
    } else if k == "required" {
      assert KeywordOf(k).Required?;
    } else {
      Names(k);
      assert KeywordOf(k).TakesList();
    }
  }

  /** The keys a resource may hold undeclared, and the marker of embedded ones. */
  lemma ImplicitByName(m: map<string, Value>)
    ensures IMPLICIT == {"apiVersion", "kind", "metadata"}
    ensures Implicit(m) == if Given(m, "x-kubernetes-embedded-resource") then {"apiVersion", "kind", "metadata"} else {}
  {
    GivenIsFlag(m, "x-kubernetes-embedded-resource");
  }

  // ---------------------------------------------------------------- what is structural

  /** Structural schemas without junctors are those built of structural schemas, whatever their data keywords say. */
  lemma StructuralByName(m: map<string, Value>)
    requires forall k :: k in m ==> k !in {"allOf", "anyOf", "oneOf", "not"}
    ensures Structural(Obj(m)) <==>
      ("properties" in m ==>
        m["properties"].Obj? && forall name :: name in m["properties"].fields ==> Structural(m["properties"].fields[name])) &&
      ("items" in m ==> Structural(m["items"])) &&
      ("additionalProperties" in m ==> m["additionalProperties"].Bool? || Structural(m["additionalProperties"]))
  {
    NamesApart();
    forall k | k in m
      ensures k == "properties" || k == "items" || k == "additionalProperties" || StructuralKeyword(KeywordOf(k), m[k])
    {
      Names(k);
    }
    assert KeywordOf("properties").Properties? && KeywordOf("items").Items?;
    assert KeywordOf("additionalProperties").AdditionalProperties?;
    assert "properties" in m && Structural(Obj(m)) ==> StructuralKeyword(Properties, m["properties"]);
  }
}
