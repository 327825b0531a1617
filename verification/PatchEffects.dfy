/** What a patch does, read off the XR: which values it takes, what its transforms make of them, and when it leaves the
    document alone (hack/render-composition.py, `transform` and `apply_patches`). */
module PatchEffects {
  import opened Json
  import opened Wrappers
  import opened Lens
  import opened Paths
  import opened GoFormat
  import opened Patches

  // ---------------------------------------------------------------- transforms

  /** A map transform takes the entry for the value's text, `true` and `false` for the booleans, and keeps the value if
      the table has none; a format transform prints the value; there are no others. */
  lemma TransformRules(py: PyStr, value: Value, table: map<string, Value>, at: Path, fmt: string)
    ensures value == Bool(true) ==>
      ApplyTransforms(py, value, [MapTransform(table, at)]) == Success(if "true" in table then table["true"] else value)
    ensures value == Bool(false) ==>
      ApplyTransforms(py, value, [MapTransform(table, at)]) == Success(if "false" in table then table["false"] else value)
    ensures !value.Bool? ==>
      ApplyTransforms(py, value, [MapTransform(table, at)]) == Success(if py(value) in table then table[py(value)] else value)
    ensures ApplyTransforms(py, value, [FormatTransform(fmt)]) ==
      (var text := Format(fmt, [py(value)]); if text.Success? then Success(Str(text.value)) else Failure(text.error))
    ensures ApplyTransforms(py, value, [OtherTransform]) == Failure(Unsupported)
    ensures ApplyTransforms(py, value, []) == Success(value)
  {
    assert [MapTransform(table, at)][1..] == [] && [FormatTransform(fmt)][1..] == [];
  }

  /** Transforms are applied one after the other. */
  lemma {:induction false} TransformsInTurn(py: PyStr, value: Value, a: seq<Transform>, b: seq<Transform>)
    ensures var mid := ApplyTransforms(py, value, a);
      ApplyTransforms(py, value, a + b) == if mid.Failure? then mid else ApplyTransforms(py, mid.value, b)
    decreases |a|
  {
    if a == [] {
      assert a + b == b;
    } else {
      assert (a + b)[1..] == a[1..] + b;
      var next := ApplyTransform(py, value, a[0]);
      if next.Success? {
        TransformsInTurn(py, next.value, a[1..], b);
      }
    }
  }

  /** The versioning switch of the Composition. */
  lemma VersioningMapped(py: PyStr, at: Path, on: bool)
    ensures ApplyTransforms(py, Bool(on), [MapTransform(map["true" := Str("Enabled"), "false" := Str("Suspended")], at)]) ==
      Success(Str(if on then "Enabled" else "Suspended"))
  {
    TransformRules(py, Bool(on), map["true" := Str("Enabled"), "false" := Str("Suspended")], at, "");
  }

  // ---------------------------------------------------------------- sources

  /** A value the patch takes is missing from the XR, or null there. */
  predicate SourceMissing(xr: Value, p: Patch) {
    match p
    case FromField(from, _, _) => Get(xr, Segments(from)) == Null
    case Combine(variables, _, _) => exists i :: 0 <= i < |variables| && Get(xr, Segments(variables[i])) == Null
    case _ => false
  }

  lemma MissingIsSkip(py: PyStr, xr: Value, p: Patch)
    requires SourceMissing(xr, p) || p.ToComposite?
    ensures EffectOf(py, xr, p) == Success(Skip)
  {
    if p.Combine? {
      var i :| 0 <= i < |p.variables| && Get(xr, Segments(p.variables[i])) == Null;
      assert Sources(xr, p.variables)[i] == Null;
    }
  }

  /** A patch whose source is missing, or that goes to the XR, is as good as absent wherever it stands. */
  lemma MissingIsAbsent(py: PyStr, xr: Value, target: Value, a: seq<Patch>, p: Patch, b: seq<Patch>)
    requires SourceMissing(xr, p) || p.ToComposite?
    ensures Fold(py, xr, target, a + [p] + b) == Fold(py, xr, target, a + b)
  {
    MissingIsSkip(py, xr, p);
    SkippedPatch(py, xr, target, a, p, b);
  }

  lemma BelowParts(a: seq<Patch>, b: seq<Patch>, sets: PatchSets, rank: map<string, nat>, n: nat)
    ensures Below(a + b, sets, rank, n) <==> Below(a, sets, rank, n) && Below(b, sets, rank, n)
  {
    assert forall i :: 0 <= i < |a| ==> (a + b)[i] == a[i];
    assert forall i :: 0 <= i < |b| ==> (a + b)[|a| + i] == b[i];
    assert forall i :: |a| <= i < |a + b| ==> (a + b)[i] == b[i - |a|];
  }

  lemma ListAssoc(a: seq<Patch>, b: seq<Patch>, c: seq<Patch>)
    ensures a + (b + c) == (a + b) + c
  {
  }

  lemma {:induction false} InlineConcat(a: seq<Patch>, b: seq<Patch>, sets: PatchSets, rank: map<string, nat>, n: nat)
    requires Ranked(sets, rank) && Below(a + b, sets, rank, n)
    ensures Below(a, sets, rank, n) && Below(b, sets, rank, n)
    ensures Inline(a + b, sets, rank, n) == Inline(a, sets, rank, n) + Inline(b, sets, rank, n)
    decreases |a|
  {
    BelowParts(a, b, sets, rank, n);
    if a == [] {
      assert a + b == b;
    } else {
      assert (a + b)[1..] == a[1..] + b && (a + b)[0] == a[0];
      InlineSteps(a + b, sets, rank, n);
      InlineSteps(a, sets, rank, n);
      InlineConcat(a[1..], b, sets, rank, n);
      ListAssoc(FirstInlined(a, sets, rank, n), Inline(a[1..], sets, rank, n), Inline(b, sets, rank, n));
    }
  }

  lemma InlineOne(p: Patch, sets: PatchSets, rank: map<string, nat>, n: nat)
    requires Ranked(sets, rank) && Below([p], sets, rank, n) && !p.UsePatchSet?
    ensures Inline([p], sets, rank, n) == [p]
  {
    assert [p][1..] == [];
  }

  lemma BelowWithout(a: seq<Patch>, p: Patch, b: seq<Patch>, sets: PatchSets, rank: map<string, nat>, n: nat)
    requires Below(a + [p] + b, sets, rank, n)
    ensures Below(a + b, sets, rank, n) && Below(a + ([p] + b), sets, rank, n) && Below([p] + b, sets, rank, n)
    ensures a + ([p] + b) == a + [p] + b
  {
    assert a + ([p] + b) == a + [p] + b;
    BelowParts(a, [p] + b, sets, rank, n);
    BelowParts([p], b, sets, rank, n);
    BelowParts(a, b, sets, rank, n);
  }

  /** The same of the interpreter: with the source missing, interpreting the list is interpreting it without the patch,
      so that what patches before it wrote stays. */
  lemma MissingLeavesAlone(py: PyStr, xr: Value, target: Value, a: seq<Patch>, p: Patch, b: seq<Patch>, sets: PatchSets,
                           rank: map<string, nat>, n: nat)
    requires Ranked(sets, rank) && Below(a + [p] + b, sets, rank, n) && (SourceMissing(xr, p) || p.ToComposite?)
    ensures Below(a + b, sets, rank, n)
    ensures Interpret(py, xr, target, a + [p] + b, sets, rank, n) == Interpret(py, xr, target, a + b, sets, rank, n)
  {
    BelowWithout(a, p, b, sets, rank, n);
    InlineConcat(a, [p] + b, sets, rank, n);
    InlineConcat([p], b, sets, rank, n);
    InlineOne(p, sets, rank, n);
    InlineConcat(a, b, sets, rank, n);
    var x, y := Inline(a, sets, rank, n), Inline(b, sets, rank, n);
    assert x + ([p] + y) == x + [p] + y;
    InterpretIsFold(py, xr, target, a + [p] + b, sets, rank, n);
    InterpretIsFold(py, xr, target, a + b, sets, rank, n);
    MissingIsAbsent(py, xr, target, x, p, y);
  }

  /** A patch from one field, whose source is there, writes what the transforms make of it at its destination, and fails
      where they or the setter do. */
  lemma PresentIsWritten(py: PyStr, xr: Value, target: Value, from: string, to: string, transforms: seq<Transform>)
    requires Get(xr, Segments(from)) != Null
    ensures var value := ApplyTransforms(py, Get(xr, Segments(from)), transforms);
      var done := Fold(py, xr, target, [FromField(from, to, transforms)]);
      (value.Failure? ==> done == Failure(value.error)) &&
      (value.Success? ==> done == SetPath(target, Segments(to), value.value)) &&
      (value.Success? && done.Success? && Segments(to) != [] ==> Get(done.value, Segments(to)) == value.value)
  {
    var p := FromField(from, to, transforms);
    FoldOne(py, xr, target, p);
    var value := ApplyTransforms(py, Get(xr, Segments(from)), transforms);
    if value.Success? && Fold(py, xr, target, [p]).Success? && Segments(to) != [] {
      GetPut(target, Segments(to), value.value);
    }
  }

  /** A patch that combines fields, which are all there, writes their texts, formatted. */
  lemma CombinedIsWritten(py: PyStr, xr: Value, target: Value, variables: seq<string>, fmt: string, to: string, texts: seq<string>)
    requires |texts| == |variables|
    requires forall i :: 0 <= i < |variables| ==> Get(xr, Segments(variables[i])) != Null && texts[i] == py(Get(xr, Segments(variables[i])))
    ensures var text := Format(fmt, texts);
      var done := Fold(py, xr, target, [Combine(variables, fmt, to)]);
      (text.Failure? ==> done == Failure(text.error)) &&
      (text.Success? ==> done == SetPath(target, Segments(to), Str(text.value))) &&
      (text.Success? && done.Success? && Segments(to) != [] ==> Get(done.value, Segments(to)) == Str(text.value))
  {
    var p := Combine(variables, fmt, to);
    FoldOne(py, xr, target, p);
    assert Texts(py, Sources(xr, variables)) == texts;
    assert Null !in Sources(xr, variables);
    var text := Format(fmt, texts);
    if text.Success? && Fold(py, xr, target, [p]).Success? && Segments(to) != [] {
      GetPut(target, Segments(to), Str(text.value));
    }
  }

  /** What the script does not know stops it: a PatchSet nobody defined, and any other type of patch. */
  lemma UnknownFails(py: PyStr, xr: Value, target: Value, name: string, rest: seq<Patch>, sets: PatchSets, rank: map<string, nat>, n: nat)
    requires Ranked(sets, rank) && Below([UsePatchSet(name)] + rest, sets, rank, n) && Below([OtherPatch] + rest, sets, rank, n)
    requires name !in sets
    ensures Interpret(py, xr, target, [UsePatchSet(name)] + rest, sets, rank, n) == Failure(MissingKey)
    ensures Interpret(py, xr, target, [OtherPatch] + rest, sets, rank, n) == Failure(Unsupported)
  {
    InterpretSteps(py, xr, target, [UsePatchSet(name)] + rest, sets, rank, n);
    InterpretSteps(py, xr, target, [OtherPatch] + rest, sets, rank, n);
  }
}
