/** Where conversion departs from the API server's reading, shown by schemas. */
module SchemaDepartures {
  import opened Json
  import opened CrdSchemas
  import opened SchemaMeaning

  /** A nullable string: the API server takes null, the converted schema does not. */
  lemma NullableIsLost(other: Assertion)
    ensures var s := Obj(map["type" := Str("string"), "nullable" := Bool(true)]);
      Accepts(Kubernetes, other, s, Null) && !Accepts(Draft07, other, Convert(s), Null)
  {
    var s := Obj(map["type" := Str("string"), "nullable" := Bool(true)]);
    KeywordsByName();
    assert KeywordOf("nullable").Nullable?;
    assert IsNullable(s.fields) && !Flag(s.fields, INT_OR_STRING);
    assert s.fields.Keys == {"type", "nullable"};
    assert Holds(Kubernetes, other, s, "type", Null) && Holds(Kubernetes, other, s, "nullable", Null);
    assert !TypeHolds(Str("string"), Null);
    TypeExact(other, s, Null);
  }

  const AT_LEAST_TWO := Obj(map["minimum" := Num(2.0)])
  const BOUNDED := Obj(map[INT_OR_STRING := Bool(true), "oneOf" := Arr([AT_LEAST_TWO])])

  lemma BoundedIsStructural()
    ensures Structural(BOUNDED)
  {
    KeywordsByName();
    assert BOUNDED.fields.Keys == {INT_OR_STRING, "oneOf"};
    assert ValueOnly(AT_LEAST_TWO) by {
      assert AT_LEAST_TWO.fields.Keys == {"minimum"};
    }
    assert ValueOnlyKeyword(KeywordOf("oneOf"), BOUNDED.fields["oneOf"]);
  }

  lemma BoundedRejects(other: Assertion, r: real)
    requires r < 2.0
    ensures !Accepts(Kubernetes, other, BOUNDED, Num(r))
  {
    KeywordsByName();
    var v, own := Num(r), BOUNDED.fields["oneOf"];
    assert "minimum" in AT_LEAST_TWO.fields && !Holds(Kubernetes, other, AT_LEAST_TWO, "minimum", v);
    assert own.elems[0] == AT_LEAST_TWO;
    assert Verdicts(Kubernetes, other, own, v) == [false];
    assert !Holds(Kubernetes, other, BOUNDED, "oneOf", v);
  }

  lemma ConvertedBoundedAccepts(other: Assertion, v: Value)
    requires v.Str? || IsInteger(v)
    ensures Accepts(Draft07, other, Convert(BOUNDED), v)
  {
    KeywordsByName();
    ConvertNode(BOUNDED.fields);
    var t := Convert(BOUNDED);
    assert Flag(BOUNDED.fields, INT_OR_STRING);
    EitherHolds(other, t, v);
    assert t.fields.Keys == {"oneOf"};
  }

  /** A structural int-or-string node's own `oneOf` is overwritten: a number it excludes is accepted after
      conversion. */
  lemma OwnOneOfIsLost(other: Assertion)
    ensures Structural(BOUNDED)
    ensures !Accepts(Kubernetes, other, BOUNDED, Num(1.0)) && Accepts(Draft07, other, Convert(BOUNDED), Num(1.0))
  {
    BoundedIsStructural();
    BoundedRejects(other, 1.0);
    ConvertedBoundedAccepts(other, Num(1.0));
  }

  // ---------------------------------------------------------------- exclusive bounds

  /** Numbers above `x`, as a CustomResourceDefinition says it. */
  function Above(x: real): (s: Value)
    ensures s.Obj?
  {
    Obj(map["minimum" := Num(x), "exclusiveMinimum" := Bool(true)])
  }

  /** Names that no other keyword has. */
  lemma BoundsByName()
    ensures KeywordOf("minimum").Other? && KeywordOf("exclusiveMinimum").Other? && KeywordOf("not").Not?
  {
    assert "minimum"[0] != MARKER[0] && "exclusiveMinimum"[0] != MARKER[0] && "not"[0] != MARKER[0];
    assert "exclusiveMinimum"[0] == 'e';
  }

  lemma AboveShape(x: real)
    ensures ValueOnly(Above(x)) && Structural(Above(x))
  {
    BoundsByName();
    KeywordsByName();
    assert Above(x).fields.Keys == {"minimum", "exclusiveMinimum"};
  }

  /** A node of keywords that are not interpreted is data. */
  lemma DataConverts(m: map<string, Value>)
    requires forall k :: k in m ==> KeywordOf(k).Other?
    ensures Convert(Obj(m)) == Obj(m)
  {
    KeywordsByName();
    ConvertUnmarked(m);
    assert (map k | k in m && !IsMarker(k) :: ConvertKeyword(k, m[k])) == m;
  }

  lemma AboveConverts(x: real)
    ensures Convert(Above(x)) == Above(x)
  {
    BoundsByName();
    assert Above(x).fields.Keys == {"minimum", "exclusiveMinimum"};
    DataConverts(Above(x).fields);
  }

  lemma AboveAgreed(other: Assertion, x: real)
    ensures Agreed(other, Above(x), true)
  {
    var m := Above(x).fields;
    BoundsByName();
    assert m.Keys == {"minimum", "exclusiveMinimum"};
    assert StrictBound(m, "minimum") && ReadAlike(other, m, "exclusiveMinimum");
  }

  lemma AboveAccepts(d: Dialect, other: Assertion, x: real, r: real)
    ensures Accepts(d, other, Above(x), Num(r)) <==> if d.Kubernetes? then x < r else x <= r
  {
    var m, v := Above(x).fields, Num(r);
    BoundsByName();
    assert m.Keys == {"minimum", "exclusiveMinimum"};
    assert "minimum" in m && m["exclusiveMinimum"].Truthy();
    assert StrictBound(m, "minimum") && MarkerHolds(d, m, v);
    assert Holds(d, other, Above(x), "minimum", v) == BoundHolds(d, m, "minimum", v);
    assert Holds(d, other, Above(x), "exclusiveMinimum", v);
  }

  /** A boolean `exclusiveMinimum` is lost: the API server rejects the bound itself, the converted schema takes it. */
  lemma StrictBoundIsLost(other: Assertion, x: real)
    ensures Structural(Above(x)) && Agreed(other, Above(x), true)
    ensures !Accepts(Kubernetes, other, Above(x), Num(x)) && Accepts(Draft07, other, Convert(Above(x)), Num(x))
  {
    AboveShape(x);
    AboveConverts(x);
    AboveAgreed(other, x);
    AboveAccepts(Kubernetes, other, x, x);
    AboveAccepts(Draft07, other, x, x);
  }

  // ---------------------------------------------------------------- why the keywords must be read alike

  /** A schema of one keyword. */
  function Single(k: string, x: Value): (s: Value)
    ensures s.Obj?
  {
    Obj(map[k := x])
  }

  lemma SingleConverts(k: string, x: Value)
    requires !IsMarker(k)
    ensures Convert(Single(k, x)) == Single(k, ConvertKeyword(k, x))
  {
    var m := Single(k, x).fields;
    KeywordsByName();
    assert m.Keys == {k};
    ConvertUnmarked(m);
    assert (map i | i in m && !IsMarker(i) :: ConvertKeyword(i, m[i])) == map[k := ConvertKeyword(k, x)];
  }

  lemma SingleAccepts(d: Dialect, other: Assertion, k: string, x: Value, v: Value)
    requires !IsMarker(k)
    ensures Accepts(d, other, Single(k, x), v) == Holds(d, other, Single(k, x), k, v)
  {
    var s := Single(k, x);
    KeywordsByName();
    assert s.fields.Keys == {k} && k in s.fields;
    assert !Flag(s.fields, INT_OR_STRING);
  }

  /** A schema of one keyword that says nothing of types, objects or lists. */
  predicate Apart(k: string) {
    (KeywordOf(k).Other? && !IsBound(k)) || KeywordOf(k).Not?
  }

  lemma SinglePlain(other: Assertion, k: string, x: Value, v: Value)
    requires Apart(k)
    ensures Everywhere(Overwritten(other), Single(k, x), v) && Everywhere(OffBounds, Single(k, x), v)
    ensures Everywhere(KnownKeys, Single(k, x), v) && Everywhere(NoNullByLeave, Single(k, x), v)
  {
    var s := Single(k, x);
    KeywordsByName();
    assert s.fields.Keys == {k};
    assert !Flag(s.fields, INT_OR_STRING) && !Declares(s.fields) && !IsNullable(s.fields);
  }

  lemma SingleExact(other: Assertion, k: string, x: Value, v: Value)
    requires Apart(k)
    ensures Exact(other, Single(k, x), v) <==>
      Holds(Draft07, other, Single(k, ConvertKeyword(k, x)), k, v) == Holds(Kubernetes, other, Single(k, x), k, v)
  {
    SingleConverts(k, x);
    SinglePlain(other, k, x, v);
    SingleAccepts(Draft07, other, k, ConvertKeyword(k, x), v);
    SingleAccepts(Kubernetes, other, k, x, v);
  }

  /** A schema of one keyword that is not interpreted keeps its meaning exactly when both dialects read it alike. */
  lemma OneKeyword(other: Assertion, k: string, x: Value)
    requires KeywordOf(k).Other? && !IsBound(k)
    ensures Structural(Single(k, x))
    ensures (forall v :: Exact(other, Single(k, x), v)) <==> ReadAlike(other, Single(k, x).fields, k)
  {
    var s := Single(k, x);
    assert s.fields.Keys == {k} && s.fields[k] == x;
    forall v
      ensures Exact(other, s, v) <==> other(Draft07, k, x, v) == other(Kubernetes, k, x, v)
    {
      SingleExact(other, k, x, v);
    }
  }

  lemma UnderNot(x: Value)
    requires ValueOnly(x)
    ensures Structural(Single("not", x))
  {
    BoundsByName();
    assert Single("not", x).fields.Keys == {"not"};
    assert ValueOnlyKeyword(KeywordOf("not"), x);
  }

  /** Under a junctor a flagged bound makes the converted schema too strict: it rejects the bound, which is no undeclared
      key. */
  lemma StrictBoundUnderNot(other: Assertion, x: real)
    ensures var s := Single("not", Above(x));
      Structural(s) && Accepts(Kubernetes, other, s, Num(x)) && !Accepts(Draft07, other, Convert(s), Num(x)) &&
      !Exact(other, s, Num(x))
  {
    BoundsByName();
    AboveShape(x);
    AboveConverts(x);
    var s, v := Single("not", Above(x)), Num(x);
    UnderNot(Above(x));
    AboveAccepts(Kubernetes, other, x, x);
    AboveAccepts(Draft07, other, x, x);
    SingleConverts("not", Above(x));
    SingleAccepts(Kubernetes, other, "not", Above(x), v);
    SingleAccepts(Draft07, other, "not", Above(x), v);
    SingleExact(other, "not", Above(x), v);
  }
}
