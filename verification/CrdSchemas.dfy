/** Conversion of CustomResourceDefinition schemas into strict JSON schemas (hack/crd-schemas.py). */
module CrdSchemas {
  import opened Json

  const MARKER := "x-kubernetes-"
  const PRESERVE := "x-kubernetes-preserve-unknown-fields"
  const INT_OR_STRING := "x-kubernetes-int-or-string"

  /** What an int-or-string node is rewritten to. */
  const STRING_SCHEMA := Obj(map["type" := Str("string")])
  const INTEGER_SCHEMA := Obj(map["type" := Str("integer")])
  const EITHER := Arr([STRING_SCHEMA, INTEGER_SCHEMA])

  /** The keywords the conversion or a validator tells apart. */
  datatype Keyword =
    | Marker
    | Type
    | Nullable
    | Required
    | Properties
    | Items
    | AdditionalProperties
    | Not
    | AllOf
    | AnyOf
    | OneOf
    | Other
  {
    /** The value is one schema. */
    predicate TakesSchema() {
      Items? || AdditionalProperties? || Not?
    }

    /** The value is a list of schemas. */
    predicate TakesList() {
      AllOf? || AnyOf? || OneOf?
    }
  }

  function KeywordOf(key: string): Keyword {
    if MARKER <= key then Marker
    else if key == "type" then Type
    else if key == "nullable" then Nullable
    else if key == "required" then Required
    else if key == "properties" then Properties
    else if key == "items" then Items
    else if key == "additionalProperties" then AdditionalProperties
    else if key == "not" then Not
    else if key == "allOf" then AllOf
    else if key == "anyOf" then AnyOf
    else if key == "oneOf" then OneOf
    else Other
  }

  predicate IsMarker(key: string) {
    KeywordOf(key).Marker?
  }

  /** The keywords the conversion itself writes or tests. */
  lemma KeywordsByName()
    ensures KeywordOf("type").Type? && KeywordOf("properties").Properties? && KeywordOf("oneOf").OneOf?
    ensures KeywordOf("additionalProperties").AdditionalProperties?
    ensures IsMarker(PRESERVE) && IsMarker(INT_OR_STRING)
  {
    assert "additionalProperties"[0] != MARKER[0];
  }

  /** An object node that declares its properties and says nothing about others. */
  predicate Declares(m: map<string, Value>) {
    "type" in m && m["type"] == Str("object") && "properties" in m && "additionalProperties" !in m
  }

  function Convert(node: Value): Value
    decreases node, 2
  {
    match node
    case Arr(_) => ConvertChildren(node)
    case Obj(m) => Obj(Close(m, RewriteIntOrString(m, map k | k in m && !IsMarker(k) :: ConvertKeyword(k, m[k]))))
    case _ => node
  }

  /** Converts every element of a list, or every value of an object under its own name. */
  function ConvertChildren(node: Value): (out: Value)
    requires !node.Scalar()
    ensures out.Arr? == node.Arr?
    ensures out.Obj? == node.Obj?
    decreases node, 0
  {
    match node
    case Arr(xs) => Arr(seq(|xs|, i requires 0 <= i < |xs| => Convert(xs[i])))
    case Obj(m) => Obj(map name | name in m :: Convert(m[name]))
  }

  function ConvertKeyword(key: string, value: Value): Value
    decreases value, 3
  {
    var keyword := KeywordOf(key);
    if keyword.Properties? && value.Obj? then ConvertChildren(value)
    else if keyword.TakesSchema() && value.Obj? then Convert(value)
    else if keyword.TakesList() && value.Arr? then ConvertChildren(value)
    else value
  }

  function RewriteIntOrString(m: map<string, Value>, out: map<string, Value>): map<string, Value> {
    if Flag(m, INT_OR_STRING) then (out - {"type"})["oneOf" := EITHER] else out
  }

  function Close(m: map<string, Value>, out: map<string, Value>): map<string, Value> {
    if Declares(out) && !Flag(m, PRESERVE) then out["additionalProperties" := Bool(false)] else out
  }

  /** The conversion as the script runs it: results are filled in key by key. */
  method ToJsonSchema(node: Value) returns (result: Value)
    ensures result == Convert(node)
    decreases node, 2
  {
    match node
    case Arr(xs) =>
      result := ToJsonSchemas(node);
    case Obj(m) =>
      var out: map<string, Value> := map[];
      var todo := m.Keys;
      while todo != {}
        invariant todo <= m.Keys
        invariant out == map k | k in m && k !in todo && !IsMarker(k) :: ConvertKeyword(k, m[k])
        decreases todo
      {
        var key :| key in todo;
        todo := todo - {key};
        var keyword, value := KeywordOf(key), m[key];
        if keyword.Marker? {
          continue;
        }
        if keyword.Properties? && value.Obj? {
          value := ToJsonSchemas(value);
        } else if keyword.TakesSchema() && value.Obj? {
          value := ToJsonSchema(value);
        } else if keyword.TakesList() && value.Arr? {
          value := ToJsonSchemas(value);
        }
        out := out[key := value];
      }
      assert out == map k | k in m && !IsMarker(k) :: ConvertKeyword(k, m[k]);
      if Flag(m, INT_OR_STRING) {
        out := out - {"type"};
        out := out["oneOf" := EITHER];
      }
      if Declares(out) && !Flag(m, PRESERVE) {
        out := out["additionalProperties" := Bool(false)];
      }
      result := Obj(out);
    case _ =>
      result := node;
  }

  /** The list and dictionary comprehensions of the conversion. */
  method ToJsonSchemas(node: Value) returns (result: Value)
    requires !node.Scalar()
    ensures result == ConvertChildren(node)
    decreases node, 0
  {
    match node
    case Arr(xs) =>
      var out: seq<Value> := [];
      for i := 0 to |xs|
        invariant |out| == i
        invariant forall j :: 0 <= j < i ==> out[j] == Convert(xs[j])
      {
        var x := ToJsonSchema(xs[i]);
        out := out + [x];
      }
      result := Arr(out);
    case Obj(m) =>
      var out: map<string, Value> := map[];
      var todo := m.Keys;
      while todo != {}
        invariant todo <= m.Keys
        invariant out == map name | name in m && name !in todo :: Convert(m[name])
        decreases todo
      {
        var name :| name in todo;
        todo := todo - {name};
        var x := ToJsonSchema(m[name]);
        out := out[name := x];
      }
      result := Obj(out);
  }
}
