/** The one write the controller makes (controller/internal/controller/workflow_controller.go): a JSON merge patch,
    applied as section 2 of RFC 7396 says. */
module MergePatch {
  import opened Json
  import opened Wrappers
  import opened Lens

  const ANNOTATION := "migration-platform.io/notified-phase"

  /** MergePatch(Target, Patch). A missing target is read as null. */
  function Merge(target: Value, patch: Value): Value
    decreases patch
  {
    if !patch.Obj? then patch
    else
      var fields := if target.Obj? then target.fields else map[];
      Obj(map k | k in fields.Keys + patch.fields.Keys && !(k in patch.fields && patch.fields[k] == Null) ::
            if k in patch.fields then Merge(if k in fields then fields[k] else Null, patch.fields[k]) else fields[k])
  }

  /** An object holding `x` under the nested `names` and nothing else. */
  function Nest(names: seq<string>, x: Value): Value {
    if names == [] then x else Obj(map[names[0] := Nest(names[1..], x)])
  }

  /** The patch for a delivered phase. */
  function NotifiedPatch(phase: string): Value {
    Nest(["metadata", "annotations", ANNOTATION], Str(phase))
  }

  function PathOf(names: seq<string>): Path {
    if names == [] then [] else [Name(names[0])] + PathOf(names[1..])
  }

  /** Nothing the path goes through is a list with elements. */
  predicate Solid(v: Value, names: seq<string>) {
    names == [] ||
    (!(v.Arr? && v.elems != []) && (v.Obj? && names[0] in v.fields ==> Solid(v.fields[names[0]], names[1..])))
  }

  predicate Same(v: Value, w: Value, q: Path) {
    Has(v, q) == Has(w, q) && Get(v, q) == Get(w, q)
  }

  /** A nested patch changes, one level down, only the field it names. */
  lemma MergeNest(v: Value, names: seq<string>, x: Value)
    requires names != [] && x != Null
    ensures var fields := FieldsOf(v);
      Merge(v, Nest(names, x)) == Obj(fields[names[0] :=
        Merge(if names[0] in fields then fields[names[0]] else Null, Nest(names[1..], x))])
  {
    var fields := FieldsOf(v);
    var inner := Nest(names[1..], x);
    assert inner != Null;
    assert Nest(names, x).fields == map[names[0] := inner];
    assert Merge(v, Nest(names, x)).fields ==
      fields[names[0] := Merge(if names[0] in fields then fields[names[0]] else Null, inner)];
  }

  /** Applying the nested patch is writing the path, exactly where writing succeeds. */
  lemma {:induction false} MergeIsPut(v: Value, names: seq<string>, x: Value)
    requires x != Null && !x.Obj?
    ensures Put(v, PathOf(names), x) == Success(Merge(v, Nest(names, x))) <==> Fits(v, PathOf(names))
    ensures Fits(Null, PathOf(names)) <==> names == []
    ensures Merge(Null, Nest(names, x)) == Merge(Filler(PathOf(names)), Nest(names, x))
    decreases |names|
  {
    var p := PathOf(names);
    if names != [] {
      PutSucceeds(v, p, x);
      MergeNest(v, names, x);
      MergeNest(Null, names, x);
      MergeNest(Filler(p), names, x);
      assert p[1..] == PathOf(names[1..]);
      MergeIsPut(Null, names[1..], x);
      if v.Obj? {
        MergeIsPut(Child(v.fields, names[0], p[1..]), names[1..], x);
      }
    }
  }

  /** On solid ground every diverging path is as it was: it holds the same value, or still leads nowhere. */
  lemma {:induction false} MergeKeeps(v: Value, names: seq<string>, x: Value, q: Path)
    requires x != Null && Solid(v, names) && Diverge(PathOf(names), q)
    ensures Same(v, Merge(v, Nest(names, x)), q)
    decreases |names|
  {
    MergeNest(v, names, x);
    var fields := FieldsOf(v);
    var n := names[0];
    var child := if n in fields then fields[n] else Null;
    assert PathOf(names)[1..] == PathOf(names[1..]);
    if q[0] == Name(n) {
      MergeKeeps(child, names[1..], x, q[1..]);
    }
  }

  /** A list with elements on the way loses them. */
  lemma {:induction false} MergeLoses(v: Value, names: seq<string>, x: Value) returns (q: Path)
    requires x != Null && !Solid(v, names)
    ensures Diverge(PathOf(names), q) && !Same(v, Merge(v, Nest(names, x)), q)
    decreases |names|
  {
    MergeNest(v, names, x);
    if v.Arr? {
      q := [Index(0)];
      assert q[1..] == [];
      assert Has(v, q);
    } else {
      var rest := MergeLoses(v.fields[names[0]], names[1..], x);
      q := [Name(names[0])] + rest;
      assert q[1..] == rest && PathOf(names)[1..] == PathOf(names[1..]);
    }
  }

  /** What a patch is merged into: what is no object counts as an empty one. */
  function FieldsOf(v: Value): map<string, Value> {
    if v.Obj? then v.fields else map[]
  }

  /** A patch of one key: null takes the key away, anything else is merged into what is there; other keys stay. A
      patch that is no object takes the target's place. */
  lemma OneKey(v: Value, key: string, x: Value)
    ensures var fields := FieldsOf(v);
      Merge(v, Obj(map[key := x])) ==
        Obj(if x == Null then fields - {key} else fields[key := Merge(if key in fields then fields[key] else Null, x)])
    ensures !x.Obj? ==> Merge(v, x) == x
    ensures Merge(v, Obj(map[])) == Obj(FieldsOf(v))
  {
    var fields := FieldsOf(v);
    assert Obj(map[key := x]).fields.Keys == {key} && Obj(map[key := x]).fields[key] == x;
    assert Merge(v, Obj(map[key := x])).fields ==
      if x == Null then fields - {key} else fields[key := Merge(if key in fields then fields[key] else Null, x)];
    assert Merge(v, Obj(map[])).fields == fields;
  }

  /** The same of one key of any patch. */
  lemma KeyMerged(v: Value, patch: map<string, Value>, k: string)
    ensures var fields, merged := FieldsOf(v), FieldsOf(Merge(v, Obj(patch)));
      Merge(v, Obj(patch)).Obj? &&
      (k in merged <==> if k in patch then patch[k] != Null else k in fields) &&
      (k in merged ==>
        merged[k] == if k in patch then Merge(if k in fields then fields[k] else Null, patch[k]) else fields[k])
  {
  }

  /** A patch may be applied in parts, in any order. */
  lemma InParts(v: Value, a: map<string, Value>, b: map<string, Value>)
    requires a.Keys !! b.Keys
    ensures Merge(v, Obj(a + b)) == Merge(Merge(v, Obj(a)), Obj(b))
  {
    var x, y := Merge(v, Obj(a + b)), Merge(Merge(v, Obj(a)), Obj(b));
    forall k
      ensures k in FieldsOf(x) <==> k in FieldsOf(y)
      ensures k in FieldsOf(x) ==> FieldsOf(x)[k] == FieldsOf(y)[k]
    {
      KeyMerged(v, a + b, k);
      KeyMerged(v, a, k);
      KeyMerged(Merge(v, Obj(a)), b, k);
    }
    assert FieldsOf(x) == FieldsOf(y);
  }

  /** Applying any patch twice is applying it once, so a patch whose answer was lost may be sent again. */
  lemma {:induction false} MergeTwice(v: Value, patch: Value)
    ensures Merge(Merge(v, patch), patch) == Merge(v, patch)
    decreases patch
  {
    if patch.Obj? {
      var fields := FieldsOf(v);
      var once := Merge(v, patch).fields;
      forall k | k in patch.fields && patch.fields[k] != Null
        ensures Merge(once[k], patch.fields[k]) == once[k]
      {
        MergeTwice(if k in fields then fields[k] else Null, patch.fields[k]);
      }
      assert Merge(Merge(v, patch), patch).fields == once;
    }
  }

  // ---------------------------------------------------------------- the controller's patch

  const NOTIFIED_NAMES := ["metadata", "annotations", ANNOTATION]

  /** The patch as it is sent, and the path it names. */
  lemma PatchAsSent(phase: string)
    ensures NotifiedPatch(phase) ==
      Obj(map["metadata" := Obj(map["annotations" := Obj(map["migration-platform.io/notified-phase" := Str(phase)])])])
    ensures PathOf(NOTIFIED_NAMES) == [Name("metadata"), Name("annotations"), Name("migration-platform.io/notified-phase")]
  {
    var names := NOTIFIED_NAMES;
    assert names[1..] == ["annotations", ANNOTATION] && names[1..][1..] == [ANNOTATION] && names[1..][1..][1..] == [];
    assert PathOf([ANNOTATION]) == [Name(ANNOTATION)];
    assert PathOf(names[1..]) == [Name("annotations")] + [Name(ANNOTATION)];
    assert Nest([ANNOTATION], Str(phase)) == Obj(map[ANNOTATION := Str(phase)]);
    assert Nest(names[1..], Str(phase)) == Obj(map["annotations" := Nest([ANNOTATION], Str(phase))]);
  }

  /** The patch sets exactly the annotation: it is the same as writing that one path, on every Workflow whose
      metadata and annotations are objects where present. */
  lemma NotifiedPatchIsPut(wf: Value, phase: string)
    ensures var path := [Name("metadata"), Name("annotations"), Name("migration-platform.io/notified-phase")];
      SetPath(wf, path, Str(phase)) == Success(Merge(wf, NotifiedPatch(phase))) <==> Fits(wf, path)
  {
    PatchAsSent(phase);
    MergeIsPut(wf, NOTIFIED_NAMES, Str(phase));
  }

  /** After the patch the annotation reads as the phase, whatever the document was. */
  lemma {:induction false} MergeSets(v: Value, names: seq<string>, x: Value)
    requires x != Null && !x.Obj?
    ensures Get(Merge(v, Nest(names, x)), PathOf(names)) == x
    decreases |names|
  {
    if names != [] {
      MergeNest(v, names, x);
      var fields := FieldsOf(v);
      assert PathOf(names)[1..] == PathOf(names[1..]);
      MergeSets(if names[0] in fields then fields[names[0]] else Null, names[1..], x);
    }
  }

  /** Merge-patch frame: every other path keeps its value, fields the controller's type does not know among
      them, exactly when neither the document nor its metadata nor its annotations is a list with elements. */
  lemma NotifiedPatchFrame(wf: Value, phase: string)
    ensures var path := [Name("metadata"), Name("annotations"), Name("migration-platform.io/notified-phase")];
      Get(Merge(wf, NotifiedPatch(phase)), path) == Str(phase) &&
      ((forall q :: Diverge(path, q) ==> Same(wf, Merge(wf, NotifiedPatch(phase)), q)) <==> Solid(wf, NOTIFIED_NAMES))
  {
    PatchAsSent(phase);
    MergeSets(wf, NOTIFIED_NAMES, Str(phase));
    if Solid(wf, NOTIFIED_NAMES) {
      forall q | Diverge(PathOf(NOTIFIED_NAMES), q)
        ensures Same(wf, Merge(wf, NotifiedPatch(phase)), q)
      {
        MergeKeeps(wf, NOTIFIED_NAMES, Str(phase), q);
      }
    } else {
      var q := MergeLoses(wf, NOTIFIED_NAMES, Str(phase));
    }
  }
}
