/** The shape of converted schemas: no markers, data kept verbatim, and when converting again changes nothing. */
module SchemaNormalForm {
  import opened Json
  import opened CrdSchemas
  import opened SchemaMeaning

  /** No marker at any schema position the conversion walks. */
  ghost predicate Clean(node: Value)
    decreases node, 0
  {
    match node
    case Arr(xs) => forall i :: 0 <= i < |xs| ==> Clean(xs[i])
    case Obj(m) => forall k :: k in m ==> CleanKeyword(KeywordOf(k), m[k])
    case _ => true
  }

  ghost predicate CleanKeyword(keyword: Keyword, x: Value)
    decreases x, 1
  {
    !keyword.Marker? &&
    (keyword.Properties? && x.Obj? ==> forall name :: name in x.fields ==> Clean(x.fields[name])) &&
    (keyword.TakesSchema() && x.Obj? ==> Clean(x)) &&
    (keyword.TakesList() && x.Arr? ==> forall i :: 0 <= i < |x.elems| ==> Clean(x.elems[i]))
  }

  /** Conversion leaves no marker behind, whatever it is given. */
  lemma {:induction false} ConvertIsClean(node: Value)
    ensures Clean(Convert(node))
    decreases node, 0
  {
    match node
    case Arr(xs) =>
      forall i | 0 <= i < |xs|
        ensures Clean(Convert(xs[i]))
      {
        ConvertIsClean(xs[i]);
      }
    case Obj(m) =>
      ConvertNode(m);
      KeywordsByName();
      var c := Convert(node).fields;
      forall k | k in c
        ensures CleanKeyword(KeywordOf(k), c[k])
      {
        if k in m && !Handled(m, k) {
          ConvertKeywordIsClean(KeywordOf(k), k, m[k]);
        } else if k == "oneOf" {
          EitherIsClean();
        } else if k == "type" {
          assert KeywordOf(k).Type?;
        } else {
          assert c[k].Bool? && !KeywordOf(k).Marker?;
        }
      }
    case _ =>
  }

  lemma {:induction false} ConvertKeywordIsClean(keyword: Keyword, k: string, x: Value)
    requires keyword == KeywordOf(k) && !keyword.Marker?
    ensures CleanKeyword(keyword, ConvertKeyword(k, x))
    decreases x, 1
  {
    if keyword.Properties? && x.Obj? {
      forall name | name in x.fields
        ensures Clean(Convert(x.fields[name]))
      {
        ConvertIsClean(x.fields[name]);
      }
    } else if keyword.TakesSchema() && x.Obj? {
      ConvertIsClean(x);
    } else if keyword.TakesList() && x.Arr? {
      forall i | 0 <= i < |x.elems|
        ensures Clean(Convert(x.elems[i]))
      {
        ConvertIsClean(x.elems[i]);
      }
    }
  }

  lemma EitherIsClean()
    ensures CleanKeyword(KeywordOf("oneOf"), EITHER)
    ensures ConvertKeyword("oneOf", EITHER) == EITHER
  {
    KeywordsByName();
    OnlyTypeConverts("string");
    OnlyTypeConverts("integer");
    assert EITHER.elems[0] == STRING_SCHEMA && EITHER.elems[1] == INTEGER_SCHEMA;
    assert ConvertChildren(EITHER).elems == EITHER.elems;
  }

  /** A schema that only names a type is clean and converts to itself. */
  lemma OnlyTypeConverts(name: string)
    ensures Clean(Obj(map["type" := Str(name)]))
    ensures Convert(Obj(map["type" := Str(name)])) == Obj(map["type" := Str(name)])
  {
    var m := map["type" := Str(name)];
    KeywordsByName();
    assert !Flag(m, INT_OR_STRING) && !Declares(m);
    assert (map k | k in m && !IsMarker(k) :: ConvertKeyword(k, m[k])) == m;
  }

  /** Property names are data, whatever they look like, and so is the value of every keyword that holds no schema. */
  lemma ConvertKeepsData(m: map<string, Value>, k: string)
    requires k in m && !Handled(m, k)
    ensures Convert(Obj(m)).Obj? && k in Convert(Obj(m)).fields
    ensures KeywordOf(k).Properties? && m[k].Obj? ==> SameNames(m[k], Convert(Obj(m)).fields[k])
    ensures KeywordOf(k).Nullable? || KeywordOf(k).Required? || KeywordOf(k).Other? ==> Convert(Obj(m)).fields[k] == m[k]
  {
    ConvertedKeyword(Obj(m), k);
  }

  /** The same property names, each with its own subschema converted. */
  ghost predicate SameNames(x: Value, y: Value)
    requires x.Obj?
  {
    y.Obj? && y.fields.Keys == x.fields.Keys && forall name :: name in y.fields ==> y.fields[name] == Convert(x.fields[name])
  }

  // ---------------------------------------------------------------- converting twice

  /** The node loses the marker that kept it open, so a second conversion would close it. */
  predicate LosesLeave(m: map<string, Value>) {
    Declares(m) && Flag(m, PRESERVE) && !Flag(m, INT_OR_STRING)
  }

  /** No walked node loses its leave. */
  ghost predicate Settled(node: Value)
    decreases node, 0
  {
    match node
    case Arr(xs) => forall i :: 0 <= i < |xs| ==> Settled(xs[i])
    case Obj(m) => !LosesLeave(m) && forall k :: k in m && !Handled(m, k) ==> SettledKeyword(KeywordOf(k), m[k])
    case _ => true
  }

  ghost predicate SettledKeyword(keyword: Keyword, x: Value)
    decreases x, 1
  {
    (keyword.Properties? && x.Obj? ==> forall name :: name in x.fields ==> Settled(x.fields[name])) &&
    (keyword.TakesSchema() && x.Obj? ==> Settled(x)) &&
    (keyword.TakesList() && x.Arr? ==> forall i :: 0 <= i < |x.elems| ==> Settled(x.elems[i]))
  }

  /** Converting twice equals converting once exactly when no walked node declares its properties, preserves
      unknown ones by marker alone and is not rewritten as int-or-string. */
  lemma {:induction false} ConvertTwice(node: Value)
    ensures Convert(Convert(node)) == Convert(node) <==> Settled(node)
    decreases node, 0
  {
    match node
    case Arr(xs) =>
      ConvertChildrenTwice(node);
    case Obj(m) =>
      var c := Convert(node).fields;
      ConvertNode(m);
      forall k | k in m && !Handled(m, k)
        ensures k in c && (ConvertKeyword(k, c[k]) == c[k] <==> SettledKeyword(KeywordOf(k), m[k]))
      {
        ConvertKeywordTwice(KeywordOf(k), k, m[k]);
      }
      NodeTwice(m);
    case _ =>
  }

  /** A converted node carries no flag. */
  lemma NoFlags(node: Value)
    requires node.Obj?
    ensures Convert(node).Obj?
    ensures forall k :: k in Convert(node).fields ==> !IsMarker(k)
    ensures !Flag(Convert(node).fields, PRESERVE) && !Flag(Convert(node).fields, INT_OR_STRING)
  {
    ConvertIsClean(node);
    KeywordsByName();
  }

  /** What the second conversion makes of a converted node. */
  lemma SecondConversion(m: map<string, Value>)
    ensures Convert(Obj(m)).Obj? && Convert(Convert(Obj(m))).Obj?
    ensures var c := Convert(Obj(m)).fields;
      var d := Convert(Obj(c)).fields;
      && (forall k :: k in c ==> k in d && d[k] == ConvertKeyword(k, c[k]))
      && (forall k :: k in d && k !in c ==> k == "additionalProperties" && Declares(c))
      && (Declares(c) <==> LosesLeave(m))
      && (Declares(c) ==> "additionalProperties" !in c && "additionalProperties" in d)
  {
    var c := Convert(Obj(m)).fields;
    StaysOpen(m);
    NoFlags(Obj(m));
    ConvertNode(c);
    KeywordsByName();
  }

  lemma StaysOpen(m: map<string, Value>)
    ensures Convert(Obj(m)).Obj? && (Declares(Convert(Obj(m)).fields) <==> LosesLeave(m))
  {
    ConvertNode(m);
    KeywordsByName();
    ConvertKeepsKeywords(m, map k | k in m && !IsMarker(k) :: ConvertKeyword(k, m[k]));
  }

  /** What converting each keyword of a node twice is to make of it. */
  ghost predicate KeywordsTwice(m: map<string, Value>) {
    Convert(Obj(m)).Obj? &&
    var c := Convert(Obj(m)).fields;
    forall k :: k in m && !Handled(m, k) ==>
      k in c && (ConvertKeyword(k, c[k]) == c[k] <==> SettledKeyword(KeywordOf(k), m[k]))
  }

  lemma NodeTwice(m: map<string, Value>)
    requires KeywordsTwice(m)
    ensures Convert(Convert(Obj(m))) == Convert(Obj(m)) <==> Settled(Obj(m))
  {
    if LosesLeave(m) {
      SecondConversion(m);
      var c := Convert(Obj(m)).fields;
      assert "additionalProperties" in Convert(Obj(c)).fields && "additionalProperties" !in c;
    } else if k :| k in m && !Handled(m, k) && !SettledKeyword(KeywordOf(k), m[k]) {
      UnsettledChanges(m, k);
    } else {
      assert Settled(Obj(m));
      SettledStays(m);
    }
  }

  lemma UnsettledChanges(m: map<string, Value>, k: string)
    requires KeywordsTwice(m) && k in m && !Handled(m, k) && !SettledKeyword(KeywordOf(k), m[k])
    ensures Convert(Convert(Obj(m))) != Convert(Obj(m))
  {
    SecondConversion(m);
    var c := Convert(Obj(m)).fields;
    assert Convert(Obj(c)).fields[k] != c[k];
  }

  lemma SettledStays(m: map<string, Value>)
    requires KeywordsTwice(m) && Settled(Obj(m))
    ensures Convert(Convert(Obj(m))) == Convert(Obj(m))
  {
    SecondConversion(m);
    SettledFields(m);
    var c := Convert(Obj(m)).fields;
    NothingAdded(c, Convert(Obj(c)).fields);
  }

  lemma NothingAdded(c: map<string, Value>, d: map<string, Value>)
    requires !Declares(c)
    requires forall k :: k in c ==> k in d && d[k] == ConvertKeyword(k, c[k]) == c[k]
    requires forall k :: k in d && k !in c ==> Declares(c)
    ensures d == c
  {
  }

  lemma SettledFields(m: map<string, Value>)
    requires KeywordsTwice(m) && Settled(Obj(m))
    ensures forall k :: k in Convert(Obj(m)).fields ==> ConvertKeyword(k, Convert(Obj(m)).fields[k]) == Convert(Obj(m)).fields[k]
  {
    ConvertNode(m);
    EitherIsClean();
    KeywordsByName();
  }

  lemma {:induction false} ConvertKeywordTwice(keyword: Keyword, k: string, x: Value)
    requires keyword == KeywordOf(k)
    ensures ConvertKeyword(k, ConvertKeyword(k, x)) == ConvertKeyword(k, x) <==> SettledKeyword(keyword, x)
    decreases x, 2
  {
    if (keyword.Properties? && x.Obj?) || (keyword.TakesList() && x.Arr?) {
      ConvertChildrenTwice(x);
    } else if keyword.TakesSchema() && x.Obj? {
      ConvertTwice(x);
    }
  }

  lemma {:induction false} ConvertChildrenTwice(x: Value)
    requires !x.Scalar()
    ensures ConvertChildren(ConvertChildren(x)) == ConvertChildren(x) <==>
      if x.Arr? then forall i :: 0 <= i < |x.elems| ==> Settled(x.elems[i])
      else forall name :: name in x.fields ==> Settled(x.fields[name])
    decreases x, 0, 0
  {
    var y := ConvertChildren(x);
    var z := ConvertChildren(y);
    if x.Arr? {
      forall i | 0 <= i < |x.elems|
        ensures z.elems[i] == y.elems[i] <==> Settled(x.elems[i])
      {
        ConvertTwice(x.elems[i]);
      }
      assert z == y <==> z.elems == y.elems;
    } else {
      forall name | name in x.fields
        ensures z.fields[name] == y.fields[name] <==> Settled(x.fields[name])
      {
        ConvertTwice(x.fields[name]);
      }
      assert z == y <==> z.fields == y.fields;
    }
  }
}
