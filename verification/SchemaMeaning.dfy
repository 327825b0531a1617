/** What a schema means before and after conversion, and that the conversion keeps the meaning and adds
    exactly the rejection of undeclared keys. */
module SchemaMeaning {
  import opened Json
  import opened CrdSchemas

  /** `Kubernetes` reads the vendor markers and `nullable`; `Draft07` ignores them. */
  datatype Dialect = Kubernetes | Draft07

  /** Each dialect's verdict of every keyword not interpreted below (enum, pattern, format, ...): keyword, its
      value, instance. */
  type Assertion = (Dialect, string, Value, Value) -> bool

  predicate IsInteger(v: Value) {
    v.Num? && v.r == v.r.Floor as real
  }

  predicate HasType(name: string, v: Value) {
    match name
    case "object" => v.Obj?
    case "array" => v.Arr?
    case "string" => v.Str?
    case "boolean" => v.Bool?
    case "null" => v.Null?
    case "number" => v.Num?
    case "integer" => IsInteger(v)
    case _ => false
  }

  /** Section 6.1.1 of JSON Schema Validation draft-07: one type name or a list of them. */
  ghost predicate TypeHolds(t: Value, v: Value) {
    match t
    case Str(name) => HasType(name, v)
    case Arr(ts) => exists i :: 0 <= i < |ts| && ts[i].Str? && HasType(ts[i].s, v)
    case _ => true
  }

  predicate IsNullable(m: map<string, Value>) {
    Flag(m, "nullable")
  }

  /** The names a node declares under `properties`. */
  function Declared(m: map<string, Value>): set<string> {
    if "properties" in m && m["properties"].Obj? then m["properties"].fields.Keys else {}
  }

  predicate IsBound(k: string) {
    k == "minimum" || k == "maximum" || k == "exclusiveMinimum" || k == "exclusiveMaximum"
  }

  /** An inclusive bound that a boolean flag beside it makes exclusive for the API server. */
  predicate StrictBound(m: map<string, Value>, k: string)
    requires k in m
  {
    m[k].Num? && ((k == "minimum" && Flag(m, "exclusiveMinimum")) || (k == "maximum" && Flag(m, "exclusiveMaximum")))
  }

  /** Numeric bounds. The exclusive ones are numbers of their own in draft-07 (sections 6.2.2 to 6.2.5 of JSON Schema
      Validation draft-07); to the API server they are flags on the inclusive ones. */
  predicate BoundHolds(d: Dialect, m: map<string, Value>, k: string, v: Value)
    requires k in m
  {
    m[k].Num? && v.Num? ==>
      if k == "minimum" then m[k].r <= v.r && (d.Kubernetes? ==> OffBound(m, k, v))
      else if k == "maximum" then v.r <= m[k].r && (d.Kubernetes? ==> OffBound(m, k, v))
      else if k == "exclusiveMinimum" then d.Draft07? ==> m[k].r < v.r
      else d.Draft07? ==> v.r < m[k].r
  }

  /** `v` is not the bound itself, where that is exclusive to the API server. */
  predicate OffBound(m: map<string, Value>, k: string, v: Value)
    requires k in m
  {
    StrictBound(m, k) && v.Num? ==> v.r != m[k].r
  }

  /** `v` is valid against schema `s`. */
  ghost predicate Accepts(d: Dialect, other: Assertion, s: Value, v: Value)
    decreases s, 1
  {
    match s
    case Bool(b) => b
    case Obj(m) => MarkerHolds(d, m, v) && forall k | k in m :: Holds(d, other, s, k, v)
    case _ => true
  }

  /** The int-or-string marker of structural schemas. */
  ghost predicate MarkerHolds(d: Dialect, m: map<string, Value>, v: Value) {
    d.Kubernetes? && Flag(m, INT_OR_STRING) ==> v.Str? || IsInteger(v) || (IsNullable(m) && v.Null?)
  }

  /** The type keyword: overridden by the int-or-string marker and relaxed by `nullable`. */
  ghost predicate TypeKeywordHolds(d: Dialect, m: map<string, Value>, t: Value, v: Value) {
    (d.Kubernetes? && (Flag(m, INT_OR_STRING) || (IsNullable(m) && v.Null?))) || TypeHolds(t, v)
  }

  predicate RequiredHolds(names: Value, v: Value) {
    v.Obj? && names.Arr? ==> forall i :: 0 <= i < |names.elems| && names.elems[i].Str? ==> names.elems[i].s in v.fields
  }

  /** Keyword `k` of schema `s` holds of `v` (sections 6.1.1, 6.4.1, 6.5.3 to 6.5.6 and 6.7 of JSON Schema
      Validation draft-07). */
  ghost predicate Holds(d: Dialect, other: Assertion, s: Value, k: string, v: Value)
    requires s.Obj? && k in s.fields
    decreases s, 0
  {
    var x := s.fields[k];
    match KeywordOf(k)
    case Marker | Nullable => true
    case AllOf | AnyOf | OneOf => x.Arr? ==> JunctorHolds(KeywordOf(k), Verdicts(d, other, x, v))
    case Type => TypeKeywordHolds(d, s.fields, x, v)
    case Required => RequiredHolds(x, v)
    case Properties =>
      v.Obj? && x.Obj? ==> forall name :: name in x.fields && name in v.fields ==> Accepts(d, other, x.fields[name], v.fields[name])
    case AdditionalProperties =>
      v.Obj? ==> forall name :: name in v.fields && name !in Declared(s.fields) ==> Accepts(d, other, x, v.fields[name])
    case Items =>
      v.Arr? ==> forall i :: 0 <= i < |v.elems| ==> Accepts(d, other, x, v.elems[i])
    case Not => !Accepts(d, other, x, v)
    case Other => OtherHolds(d, other, s.fields, k, v)
  }

  ghost predicate OtherHolds(d: Dialect, other: Assertion, m: map<string, Value>, k: string, v: Value)
    requires k in m
  {
    if IsBound(k) then BoundHolds(d, m, k, v) else other(d, k, m[k], v)
  }

  ghost function Verdicts(d: Dialect, other: Assertion, list: Value, v: Value): (verdicts: seq<bool>)
    requires list.Arr?
    ensures |verdicts| == |list.elems|
    decreases list, 2
  {
    seq(|list.elems|, i requires 0 <= i < |list.elems| => Accepts(d, other, list.elems[i], v))
  }

  /** Section 6.7: all, some, exactly one. */
  ghost predicate JunctorHolds(keyword: Keyword, verdicts: seq<bool>)
    requires keyword.TakesList()
  {
    match keyword
    case AllOf => forall i :: 0 <= i < |verdicts| ==> verdicts[i]
    case AnyOf => exists i :: 0 <= i < |verdicts| && verdicts[i]
    case OneOf => exists i :: 0 <= i < |verdicts| && verdicts[i] && forall j :: 0 <= j < |verdicts| && verdicts[j] ==> j == i
  }

  // ---------------------------------------------------------------- structural schemas

  /** The shape apiextensions v1 demands of a CRD schema. */
  ghost predicate Structural(s: Value)
    decreases s, 1
  {
    s.Obj? && forall k :: k in s.fields ==> StructuralKeyword(KeywordOf(k), s.fields[k])
  }

  ghost predicate StructuralKeyword(keyword: Keyword, x: Value)
    decreases x, 2
  {
    match keyword
    case Properties => x.Obj? && forall name :: name in x.fields ==> Structural(x.fields[name])
    case Items => Structural(x)
    case AdditionalProperties => x.Bool? || Structural(x)
    case _ => ValueOnlyKeyword(keyword, x)
  }

  /** What may stand under a boolean junctor: no object type, no `nullable` and no int-or-string marker, at
      any depth. */
  ghost predicate ValueOnly(s: Value)
    decreases s, 0
  {
    s.Bool? ||
    (s.Obj? && !IsNullable(s.fields) && !Flag(s.fields, INT_OR_STRING) &&
     ("type" in s.fields ==> s.fields["type"] != Str("object")) &&
     forall k :: k in s.fields ==> ValueOnlyKeyword(KeywordOf(k), s.fields[k]))
  }

  ghost predicate ValueOnlyKeyword(keyword: Keyword, x: Value)
    decreases x, 1
  {
    match keyword
    case Properties => x.Obj? && forall name :: name in x.fields ==> ValueOnly(x.fields[name])
    case Items | AdditionalProperties | Not => ValueOnly(x)
    case AllOf | AnyOf | OneOf => x.Arr? && forall i :: 0 <= i < |x.elems| ==> ValueOnly(x.elems[i])
    case _ => true
  }

  // ---------------------------------------------------------------- keywords that both dialects read alike

  /** The API server and draft-07 give keyword `k` the same verdict on everything. */
  ghost predicate ReadAlike(other: Assertion, m: map<string, Value>, k: string)
    requires k in m
  {
    if !KeywordOf(k).Other? then true
    else if IsBound(k) then !StrictBound(m, k) && (m[k].Num? ==> k == "minimum" || k == "maximum")
    else forall v :: other(Kubernetes, k, m[k], v) == other(Draft07, k, m[k], v)
  }

  /** At every position the conversion walks, junctors included, the keywords not interpreted are read alike. Bounds
      that a flag makes exclusive are let pass if `strict`, but not under a junctor. */
  ghost predicate Agreed(other: Assertion, s: Value, strict: bool)
    decreases s, 1
  {
    s.Obj? ==> forall k | k in s.fields && !Handled(s.fields, k) ::
      (ReadAlike(other, s.fields, k) || (strict && StrictBound(s.fields, k))) &&
      AgreedBelow(other, KeywordOf(k), s.fields[k], strict)
  }

  ghost predicate AgreedBelow(other: Assertion, keyword: Keyword, x: Value, strict: bool)
    decreases x, 2
  {
    match keyword
    case Properties => x.Obj? ==> forall name :: name in x.fields ==> Agreed(other, x.fields[name], strict)
    case Items | AdditionalProperties => Agreed(other, x, strict)
    case Not => Agreed(other, x, false)
    case AllOf | AnyOf | OneOf => x.Arr? ==> forall i :: 0 <= i < |x.elems| ==> Agreed(other, x.elems[i], false)
    case _ => true
  }

  /** The keywords `TypeExact` and `ClosingExact` account for. */
  predicate Handled(m: map<string, Value>, k: string) {
    IsMarker(k) || k == "type" || (k == "oneOf" && Flag(m, INT_OR_STRING))
  }

  // ---------------------------------------------------------------- along a document

  /** `ok` holds of every schema node and the part of `v` it governs, outside the boolean junctors. */
  ghost predicate Everywhere(ok: (Value, Value) -> bool, s: Value, v: Value)
    decreases s, 1
  {
    s.Obj? ==> ok(s, v) && forall k | k in s.fields :: Below(ok, s, k, v)
  }

  ghost predicate Below(ok: (Value, Value) -> bool, s: Value, k: string, v: Value)
    requires s.Obj? && k in s.fields
    decreases s, 0
  {
    var x := s.fields[k];
    match KeywordOf(k)
    case Properties =>
      v.Obj? && x.Obj? ==> forall name :: name in x.fields && name in v.fields ==> Everywhere(ok, x.fields[name], v.fields[name])
    case AdditionalProperties =>
      v.Obj? ==> forall name :: name in v.fields && name !in Declared(s.fields) ==> Everywhere(ok, x, v.fields[name])
    case Items =>
      v.Arr? ==> forall i :: 0 <= i < |v.elems| ==> Everywhere(ok, x, v.elems[i])
    case _ => true
  }

  /** The node declares its properties and no marker excuses other keys. */
  predicate ClosedByConversion(m: map<string, Value>) {
    Declares(m) && !Flag(m, PRESERVE) && !Flag(m, INT_OR_STRING)
  }

  /** No undeclared key, where the node declares properties and is not marked to preserve the rest. */
  predicate KnownKeys(s: Value, v: Value) {
    s.Obj? && v.Obj? && ClosedByConversion(s.fields) ==> v.fields.Keys <= Declared(s.fields)
  }

  /** No null that only `nullable` lets pass. */
  ghost predicate NoNullByLeave(s: Value, v: Value) {
    s.Obj? && v.Null? && IsNullable(s.fields) ==>
      !Flag(s.fields, INT_OR_STRING) && ("type" in s.fields ==> TypeHolds(s.fields["type"], v))
  }

  /** No value that only the flags of the node's bounds exclude. */
  predicate OffBounds(s: Value, v: Value) {
    s.Obj? ==> forall k | k in s.fields :: OffBound(s.fields, k, v)
  }

  /** The node's own `oneOf` holds where the int-or-string rewrite overwrites it. */
  ghost predicate OverwrittenHolds(other: Assertion, s: Value, v: Value) {
    s.Obj? && Flag(s.fields, INT_OR_STRING) && "oneOf" in s.fields ==> Holds(Kubernetes, other, s, "oneOf", v)
  }

  // ---------------------------------------------------------------- the conversion keeps the meaning

  lemma ConvertUnmarked(m: map<string, Value>)
    requires !Flag(m, INT_OR_STRING) && !Declares(m)
    ensures Convert(Obj(m)) == Obj(map k | k in m && !IsMarker(k) :: ConvertKeyword(k, m[k]))
  {
    ConvertKeepsKeywords(m, map k | k in m && !IsMarker(k) :: ConvertKeyword(k, m[k]));
  }

  lemma ConvertValueOnly(s: Value)
    requires s.Obj? && ValueOnly(s)
    ensures Convert(s) == Obj(map k | k in s.fields && !IsMarker(k) :: ConvertKeyword(k, s.fields[k]))
    ensures Declared(Convert(s).fields) == Declared(s.fields)
  {
    var m := s.fields;
    assert s == Obj(m);
    ConvertUnmarked(m);
    ConvertKeepsKeywords(m, Convert(s).fields);
  }

  /** Two nodes that agree on their keywords accept the same. */
  lemma SameKeywords(other: Assertion, s: Value, t: Value, v: Value)
    requires s.Obj? && t.Obj? && !Flag(s.fields, INT_OR_STRING) && t.fields.Keys <= s.fields.Keys
    requires forall k :: k in s.fields && k !in t.fields ==> IsMarker(k)
    requires forall k :: k in t.fields ==> Holds(Draft07, other, t, k, v) == Holds(Kubernetes, other, s, k, v)
    ensures Accepts(Draft07, other, t, v) == Accepts(Kubernetes, other, s, v)
  {
  }

  /** Under a junctor the conversion changes no verdict. */
  lemma {:induction false} ValueOnlyExact(other: Assertion, s: Value, v: Value)
    requires ValueOnly(s) && Agreed(other, s, false)
    ensures Accepts(Draft07, other, Convert(s), v) == Accepts(Kubernetes, other, s, v)
    decreases s, 1
  {
    if s.Obj? {
      ConvertValueOnly(s);
      var t := Convert(s);
      forall k | k in t.fields
        ensures Holds(Draft07, other, t, k, v) == Holds(Kubernetes, other, s, k, v)
      {
        ValueOnlyKeywordExact(other, s, t, k, v);
      }
      SameKeywords(other, s, t, v);
    }
  }

  /** Keyword `k` of a value-only schema keeps its verdict in any schema `t` that holds its conversion. */
  lemma {:induction false} ValueOnlyKeywordExact(other: Assertion, s: Value, t: Value, k: string, v: Value)
    requires s.Obj? && k in s.fields && ValueOnlyKeyword(KeywordOf(k), s.fields[k])
    requires KeywordOf(k).Type? ==> !IsNullable(s.fields) && !Flag(s.fields, INT_OR_STRING)
    requires ReadAlike(other, s.fields, k) && AgreedBelow(other, KeywordOf(k), s.fields[k], false)
    requires t.Obj? && k in t.fields && t.fields[k] == ConvertKeyword(k, s.fields[k])
    requires Declared(t.fields) == Declared(s.fields)
    ensures Holds(Draft07, other, t, k, v) == Holds(Kubernetes, other, s, k, v)
    decreases s, 0
  {
    var x, keyword := s.fields[k], KeywordOf(k);
    if keyword.TakesList() {
      ValueOnlyChildrenExact(other, x, v);
      SameVerdictsList(other, s, t, k, v);
    } else if keyword.Properties? {
      ValueOnlyChildrenExact(other, x, v);
    } else if keyword.TakesSchema() {
      forall u
        ensures Accepts(Draft07, other, t.fields[k], u) == Accepts(Kubernetes, other, x, u)
      {
        ValueOnlyExact(other, x, u);
      }
    }
  }

  lemma SameVerdictsList(other: Assertion, s: Value, t: Value, k: string, v: Value)
    requires s.Obj? && t.Obj? && k in s.fields && k in t.fields && KeywordOf(k).TakesList()
    requires s.fields[k].Arr? && t.fields[k].Arr? && |s.fields[k].elems| == |t.fields[k].elems|
    requires forall i :: 0 <= i < |s.fields[k].elems| ==>
      Accepts(Draft07, other, t.fields[k].elems[i], v) == Accepts(Kubernetes, other, s.fields[k].elems[i], v)
    ensures Holds(Draft07, other, t, k, v) == Holds(Kubernetes, other, s, k, v)
  {
    assert Verdicts(Draft07, other, t.fields[k], v) == Verdicts(Kubernetes, other, s.fields[k], v);
  }

  lemma {:induction false} ValueOnlyChildrenExact(other: Assertion, x: Value, v: Value)
    requires !x.Scalar()
    requires x.Arr? ==> forall i :: 0 <= i < |x.elems| ==> ValueOnly(x.elems[i]) && Agreed(other, x.elems[i], false)
    requires x.Obj? ==> forall name :: name in x.fields ==> ValueOnly(x.fields[name]) && Agreed(other, x.fields[name], false)
    ensures x.Arr? ==> forall i :: 0 <= i < |x.elems| ==>
      Accepts(Draft07, other, ConvertChildren(x).elems[i], v) == Accepts(Kubernetes, other, x.elems[i], v)
    ensures x.Obj? && v.Obj? ==> forall name :: name in x.fields && name in v.fields ==>
      Accepts(Draft07, other, ConvertChildren(x).fields[name], v.fields[name]) == Accepts(Kubernetes, other, x.fields[name], v.fields[name])
    decreases x, 2
  {
    if x.Arr? {
      forall i | 0 <= i < |x.elems|
        ensures Accepts(Draft07, other, ConvertChildren(x).elems[i], v) == Accepts(Kubernetes, other, x.elems[i], v)
      {
        ValueOnlyExact(other, x.elems[i], v);
      }
    } else if v.Obj? {
      forall name | name in x.fields && name in v.fields
        ensures Accepts(Draft07, other, ConvertChildren(x).fields[name], v.fields[name])
             == Accepts(Kubernetes, other, x.fields[name], v.fields[name])
      {
        ValueOnlyExact(other, x.fields[name], v.fields[name]);
      }
    }
  }

  // ---------------------------------------------------------------- exact strictness

  ghost function Overwritten(other: Assertion): (Value, Value) -> bool {
    (s, v) => OverwrittenHolds(other, s, v)
  }

  /** The converted schema accepts what the API server accepts, less undeclared keys and nulls let through
      by `nullable`; where a `oneOf` was overwritten, it must hold as well, and values on an exclusive bound must be
      left out. */
  ghost predicate Exact(other: Assertion, s: Value, v: Value) {
    Accepts(Draft07, other, Convert(s), v) && Everywhere(Overwritten(other), s, v) && Everywhere(OffBounds, s, v)
    <==> Accepts(Kubernetes, other, s, v) && Everywhere(KnownKeys, s, v) && Everywhere(NoNullByLeave, s, v)
  }

  /** The fields of a converted node. */
  lemma ConvertNode(m: map<string, Value>)
    ensures var c := Convert(Obj(m)).fields;
      && Convert(Obj(m)).Obj?
      && (forall k :: k in m && !IsMarker(k) && !(Flag(m, INT_OR_STRING) && (k == "type" || k == "oneOf")) ==>
        k in c && c[k] == ConvertKeyword(k, m[k]))
      && (Flag(m, INT_OR_STRING) ==> "type" !in c && "oneOf" in c && c["oneOf"] == EITHER)
      && (ClosedByConversion(m) ==> "additionalProperties" in c && c["additionalProperties"] == Bool(false))
      && (forall k :: k in c && (k !in m || IsMarker(k)) ==>
        (k == "oneOf" && Flag(m, INT_OR_STRING)) || (k == "additionalProperties" && ClosedByConversion(m)))
      && Declared(c) == Declared(m)
  {
    var plain := map k | k in m && !IsMarker(k) :: ConvertKeyword(k, m[k]);
    RewrittenDeclares(m, plain);
    assert Convert(Obj(m)) == Obj(Close(m, RewriteIntOrString(m, plain)));
  }

  lemma RewrittenDeclares(m: map<string, Value>, plain: map<string, Value>)
    requires plain == map k | k in m && !IsMarker(k) :: ConvertKeyword(k, m[k])
    ensures var out := RewriteIntOrString(m, plain);
      Declares(out) == (Declares(m) && !Flag(m, INT_OR_STRING)) && Declared(out) == Declared(m)
  {
    ConvertKeepsKeywords(m, plain);
    var out := RewriteIntOrString(m, plain);
    assert Declared(out) == Declared(plain);
  }

  lemma ConvertKeepsKeywords(m: map<string, Value>, plain: map<string, Value>)
    requires plain == map k | k in m && !IsMarker(k) :: ConvertKeyword(k, m[k])
    ensures Declares(plain) == Declares(m)
    ensures Declared(plain) == Declared(m)
  {
    KeywordsByName();
    assert "type" in m ==> plain["type"] == m["type"];
  }

  lemma OnlyType(other: Assertion, name: string, v: Value)
    ensures Accepts(Draft07, other, Obj(map["type" := Str(name)]), v) == HasType(name, v)
  {
    var s := Obj(map["type" := Str(name)]);
    KeywordsByName();
    assert "type" in s.fields && s.fields.Keys == {"type"};
    assert Holds(Draft07, other, s, "type", v) == HasType(name, v);
  }

  lemma OneOfTwo(x: bool, y: bool)
    ensures JunctorHolds(OneOf, [x, y]) == (x != y)
  {
    var verdicts := [x, y];
    assert verdicts[0] == x && verdicts[1] == y;
    if JunctorHolds(OneOf, verdicts) {
      var i :| 0 <= i < 2 && verdicts[i] && forall j :: 0 <= j < 2 && verdicts[j] ==> j == i;
      assert i == 0 || i == 1;
    }
  }

  lemma EitherHolds(other: Assertion, t: Value, v: Value)
    requires t.Obj? && "oneOf" in t.fields && t.fields["oneOf"] == EITHER
    ensures Holds(Draft07, other, t, "oneOf", v) == (v.Str? || IsInteger(v))
  {
    OnlyType(other, "string", v);
    OnlyType(other, "integer", v);
    OneOfTwo(HasType("string", v), HasType("integer", v));
    assert Verdicts(Draft07, other, EITHER, v) == [HasType("string", v), HasType("integer", v)];
    KeywordsByName();
  }

  /** Type, marker and `nullable` of a node, after conversion and before. */
  ghost predicate TypeBefore(other: Assertion, s: Value, v: Value)
    requires s.Obj?
  {
    MarkerHolds(Kubernetes, s.fields, v) && ("type" in s.fields ==> Holds(Kubernetes, other, s, "type", v)) && NoNullByLeave(s, v)
  }

  ghost predicate TypeAfter(other: Assertion, s: Value, t: Value, v: Value)
    requires s.Obj? && t.Obj?
  {
    ("type" in t.fields ==> Holds(Draft07, other, t, "type", v)) &&
    (Flag(s.fields, INT_OR_STRING) ==> "oneOf" in t.fields && Holds(Draft07, other, t, "oneOf", v))
  }

  lemma TypeExact(other: Assertion, s: Value, v: Value)
    requires s.Obj?
    ensures Convert(s).Obj?
    ensures TypeAfter(other, s, Convert(s), v) <==> TypeBefore(other, s, v)
  {
    ConvertNode(s.fields);
    if Flag(s.fields, INT_OR_STRING) {
      EitherExact(other, s, Convert(s), v);
    } else {
      PlainTypeExact(other, s, Convert(s), v);
    }
  }

  lemma EitherExact(other: Assertion, s: Value, t: Value, v: Value)
    requires s.Obj? && Flag(s.fields, INT_OR_STRING)
    requires t.Obj? && "type" !in t.fields && "oneOf" in t.fields && t.fields["oneOf"] == EITHER
    ensures TypeAfter(other, s, t, v) <==> TypeBefore(other, s, v)
  {
    KeywordsByName();
    EitherHolds(other, t, v);
    assert "type" in s.fields ==> Holds(Kubernetes, other, s, "type", v);
  }

  lemma PlainTypeExact(other: Assertion, s: Value, t: Value, v: Value)
    requires s.Obj? && !Flag(s.fields, INT_OR_STRING) && t.Obj?
    requires "type" in s.fields <==> "type" in t.fields
    requires "type" in s.fields ==> t.fields["type"] == s.fields["type"]
    ensures TypeAfter(other, s, t, v) <==> TypeBefore(other, s, v)
  {
    KeywordsByName();
    if "type" in s.fields {
      assert Holds(Draft07, other, t, "type", v) == TypeHolds(s.fields["type"], v);
    }
  }

  /** The added `additionalProperties: false` is the rejection of undeclared keys. */
  lemma ClosingExact(other: Assertion, s: Value, v: Value)
    requires s.Obj?
    ensures var t := Convert(s);
      && t.Obj?
      && (ClosedByConversion(s.fields) ==> "additionalProperties" in t.fields)
      && (ClosedByConversion(s.fields) ==> (Holds(Draft07, other, t, "additionalProperties", v) <==> KnownKeys(s, v)))
  {
    var t := Convert(s);
    ConvertNode(s.fields);
    KeywordsByName();
    if ClosedByConversion(s.fields) && v.Obj? {
      assert forall name :: name in v.fields ==> !Accepts(Draft07, other, Bool(false), v.fields[name]);
    }
  }

  /** One keyword of a structural node, with what lies below it. */
  ghost predicate KeywordExact(other: Assertion, s: Value, k: string, v: Value)
    requires s.Obj? && k in s.fields
  {
    Convert(s).Obj? && k in Convert(s).fields &&
    (Holds(Draft07, other, Convert(s), k, v) && Below(Overwritten(other), s, k, v) && Below(OffBounds, s, k, v) &&
     OffBound(s.fields, k, v)
     <==> Holds(Kubernetes, other, s, k, v) && Below(KnownKeys, s, k, v) && Below(NoNullByLeave, s, k, v))
  }

  lemma ConvertedKeyword(s: Value, k: string)
    requires s.Obj? && k in s.fields && !Handled(s.fields, k)
    ensures Convert(s).Obj? && k in Convert(s).fields && Convert(s).fields[k] == ConvertKeyword(k, s.fields[k])
    ensures Declared(Convert(s).fields) == Declared(s.fields)
  {
    ConvertNode(s.fields);
  }

  lemma {:induction false} StructuralKeywordExact(other: Assertion, s: Value, k: string, v: Value)
    requires s.Obj? && k in s.fields && !Handled(s.fields, k) && StructuralKeyword(KeywordOf(k), s.fields[k])
    requires ReadAlike(other, s.fields, k) || StrictBound(s.fields, k)
    requires AgreedBelow(other, KeywordOf(k), s.fields[k], true)
    ensures KeywordExact(other, s, k, v)
    decreases s, 0
  {
    var x, keyword := s.fields[k], KeywordOf(k);
    if keyword.Properties? {
      StructuralChildrenExact(other, x, v);
      PropertiesExact(other, s, k, v);
    } else if keyword.Items? || keyword.AdditionalProperties? {
      StructuralSchemaExact(other, x);
      ConvertedKeyword(s, k);
      SchemaExact(other, s, Convert(s), k, v);
    } else if StrictBound(s.fields, k) {
      StrictBoundExact(other, s, k, v);
    } else {
      PlainKeywordExact(other, s, k, v);
    }
  }

  lemma PropertiesExact(other: Assertion, s: Value, k: string, v: Value)
    requires s.Obj? && k in s.fields && KeywordOf(k).Properties? && s.fields[k].Obj? && !Handled(s.fields, k)
    requires v.Obj? ==> forall name :: name in s.fields[k].fields && name in v.fields ==>
      Exact(other, s.fields[k].fields[name], v.fields[name])
    ensures KeywordExact(other, s, k, v)
  {
    ConvertedKeyword(s, k);
  }

  /** Nothing lies below a keyword that holds no schema or is a junctor. */
  lemma PlainKeywordExact(other: Assertion, s: Value, k: string, v: Value)
    requires s.Obj? && k in s.fields && !Handled(s.fields, k) && ValueOnlyKeyword(KeywordOf(k), s.fields[k])
    requires !KeywordOf(k).Properties? && !KeywordOf(k).Items? && !KeywordOf(k).AdditionalProperties?
    requires ReadAlike(other, s.fields, k) && AgreedBelow(other, KeywordOf(k), s.fields[k], false) && !StrictBound(s.fields, k)
    ensures KeywordExact(other, s, k, v)
  {
    ConvertedKeyword(s, k);
    ValueOnlyKeywordExact(other, s, Convert(s), k, v);
  }

  /** A bound that the flag beside it makes exclusive for the API server is inclusive in draft-07. */
  lemma StrictBoundExact(other: Assertion, s: Value, k: string, v: Value)
    requires s.Obj? && k in s.fields && StrictBound(s.fields, k)
    ensures KeywordExact(other, s, k, v)
  {
    KeywordsByName();
    assert KeywordOf(k).Other? && !Handled(s.fields, k);
    ConvertedKeyword(s, k);
    StrictBoundAlone(other, s, Convert(s), k, v);
  }

  lemma StrictBoundAlone(other: Assertion, s: Value, t: Value, k: string, v: Value)
    requires s.Obj? && t.Obj? && k in s.fields && k in t.fields && t.fields[k] == s.fields[k]
    requires StrictBound(s.fields, k) && KeywordOf(k).Other?
    ensures Holds(Draft07, other, t, k, v) && OffBound(s.fields, k, v) <==> Holds(Kubernetes, other, s, k, v)
  {
  }

  lemma {:induction false} StructuralChildrenExact(other: Assertion, x: Value, v: Value)
    requires x.Obj? && forall name :: name in x.fields ==> Structural(x.fields[name]) && Agreed(other, x.fields[name], true)
    ensures v.Obj? ==> forall name :: name in x.fields && name in v.fields ==> Exact(other, x.fields[name], v.fields[name])
    decreases x, 0
  {
    if v.Obj? {
      forall name | name in x.fields && name in v.fields
        ensures Exact(other, x.fields[name], v.fields[name])
      {
        ExactStrictness(other, x.fields[name], v.fields[name]);
      }
    }
  }

  lemma {:induction false} StructuralSchemaExact(other: Assertion, x: Value)
    requires x.Bool? || (Structural(x) && Agreed(other, x, true))
    ensures forall u :: Exact(other, x, u)
    decreases x, 2
  {
    forall u
      ensures Exact(other, x, u)
    {
      if x.Obj? {
        ExactStrictness(other, x, u);
      }
    }
  }

  lemma SchemaExact(other: Assertion, s: Value, t: Value, k: string, v: Value)
    requires s.Obj? && t.Obj? && k in s.fields && k in t.fields
    requires KeywordOf(k).Items? || KeywordOf(k).AdditionalProperties?
    requires t.fields[k] == Convert(s.fields[k]) && Declared(t.fields) == Declared(s.fields)
    requires forall u :: Exact(other, s.fields[k], u)
    ensures Holds(Draft07, other, t, k, v) && Below(Overwritten(other), s, k, v) && Below(OffBounds, s, k, v)
       <==> Holds(Kubernetes, other, s, k, v) && Below(KnownKeys, s, k, v) && Below(NoNullByLeave, s, k, v)
  {
    var x := s.fields[k];
    if KeywordOf(k).Items? && v.Arr? {
      assert forall i :: 0 <= i < |v.elems| ==> Exact(other, x, v.elems[i]);
    } else if KeywordOf(k).AdditionalProperties? && v.Obj? {
      assert forall name :: name in v.fields ==> Exact(other, x, v.fields[name]);
    }
  }

  /** For every structural schema whose keywords are read alike, flagged bounds outside junctors excepted, and every
      document, the converted schema accepts exactly what the API server accepts with no undeclared key, apart from the
      three recorded deviations. */
  lemma {:induction false} ExactStrictness(other: Assertion, s: Value, v: Value)
    requires Structural(s) && Agreed(other, s, true)
    ensures Exact(other, s, v)
    decreases s, 1
  {
    forall k | k in s.fields && !Handled(s.fields, k)
      ensures KeywordExact(other, s, k, v)
    {
      StructuralKeywordExact(other, s, k, v);
    }
    NodeExact(other, s, v);
  }

  /** A node is exact once each of its keywords is. */
  lemma NodeExact(other: Assertion, s: Value, v: Value)
    requires s.Obj?
    requires forall k :: k in s.fields && !Handled(s.fields, k) ==> KeywordExact(other, s, k, v)
    ensures Exact(other, s, v)
  {
    TypeExact(other, s, v);
    NodeRest(other, s, v);
    if Accepts(Draft07, other, Convert(s), v) && Everywhere(Overwritten(other), s, v) && Everywhere(OffBounds, s, v) {
      NodeSound(other, s, v);
    }
    if Accepts(Kubernetes, other, s, v) && Everywhere(KnownKeys, s, v) && Everywhere(NoNullByLeave, s, v) {
      NodeComplete(other, s, v);
      NodeKeeps(other, s, v);
    }
  }

  /** What conversion writes on its own account: the rewritten `oneOf` and the closing keyword. */
  lemma NodeRest(other: Assertion, s: Value, v: Value)
    requires s.Obj?
    ensures Convert(s).Obj?
    ensures Flag(s.fields, INT_OR_STRING) ==> "oneOf" in Convert(s).fields
    ensures ClosedByConversion(s.fields) && Accepts(Draft07, other, Convert(s), v) ==> KnownKeys(s, v)
    ensures KnownKeys(s, v) ==>
      forall k :: k in Convert(s).fields && (k !in s.fields || Handled(s.fields, k)) ==>
        k == "type" || (k == "oneOf" && Flag(s.fields, INT_OR_STRING)) ||
        (k == "additionalProperties" && Holds(Draft07, other, Convert(s), k, v))
  {
    ConvertNode(s.fields);
    ClosingExact(other, s, v);
  }

  lemma NodeSound(other: Assertion, s: Value, v: Value)
    requires s.Obj? && Convert(s).Obj?
    requires Accepts(Draft07, other, Convert(s), v) && Everywhere(Overwritten(other), s, v) && Everywhere(OffBounds, s, v)
    requires TypeAfter(other, s, Convert(s), v) ==> TypeBefore(other, s, v)
    requires forall k :: k in s.fields && !Handled(s.fields, k) ==> KeywordExact(other, s, k, v)
    requires ClosedByConversion(s.fields) ==> KnownKeys(s, v)
    requires Flag(s.fields, INT_OR_STRING) ==> "oneOf" in Convert(s).fields
    ensures Accepts(Kubernetes, other, s, v) && Everywhere(KnownKeys, s, v) && Everywhere(NoNullByLeave, s, v)
  {
    var m := s.fields;
    KeywordsByName();
    assert TypeAfter(other, s, Convert(s), v) && OverwrittenHolds(other, s, v);
    forall k | k in m
      ensures Holds(Kubernetes, other, s, k, v) && Below(KnownKeys, s, k, v) && Below(NoNullByLeave, s, k, v)
    {
      if !Handled(m, k) {
        assert KeywordExact(other, s, k, v);
      }
    }
  }

  lemma NodeComplete(other: Assertion, s: Value, v: Value)
    requires s.Obj? && Convert(s).Obj?
    requires Accepts(Kubernetes, other, s, v) && Everywhere(KnownKeys, s, v) && Everywhere(NoNullByLeave, s, v)
    requires TypeBefore(other, s, v) ==> TypeAfter(other, s, Convert(s), v)
    requires forall k :: k in s.fields && !Handled(s.fields, k) ==> KeywordExact(other, s, k, v)
    requires forall k :: k in Convert(s).fields && (k !in s.fields || Handled(s.fields, k)) ==>
      k == "type" || (k == "oneOf" && Flag(s.fields, INT_OR_STRING)) ||
      (k == "additionalProperties" && Holds(Draft07, other, Convert(s), k, v))
    ensures Accepts(Draft07, other, Convert(s), v)
  {
    var m, t := s.fields, Convert(s);
    KeywordsByName();
    assert TypeBefore(other, s, v);
    forall k | k in t.fields
      ensures Holds(Draft07, other, t, k, v)
    {
      if k in m && !Handled(m, k) {
        assert KeywordExact(other, s, k, v);
      }
    }
  }

  lemma NodeKeeps(other: Assertion, s: Value, v: Value)
    requires s.Obj?
    requires Accepts(Kubernetes, other, s, v) && Everywhere(KnownKeys, s, v) && Everywhere(NoNullByLeave, s, v)
    requires forall k :: k in s.fields && !Handled(s.fields, k) ==> KeywordExact(other, s, k, v)
    ensures Everywhere(Overwritten(other), s, v) && Everywhere(OffBounds, s, v)
  {
    var m := s.fields;
    KeywordsByName();
    assert OverwrittenHolds(other, s, v);
    forall k | k in m
      ensures Below(Overwritten(other), s, k, v) && Below(OffBounds, s, k, v) && OffBound(m, k, v)
    {
      if !Handled(m, k) {
        assert KeywordExact(other, s, k, v);
      }
    }
  }
}
