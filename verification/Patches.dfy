/** Patches of a Composition (hack/render-composition.py): transforms, PatchSets and their interpretation. */
module Patches {
  import opened Json
  import opened Wrappers
  import opened Lens
  import opened Paths
  import opened GoFormat

  /** A map transform's table is a dictionary of the Composition, at path `at`. */
  datatype Transform =
    | MapTransform(table: map<string, Value>, at: Path)
    | FormatTransform(fmt: string)
    | OtherTransform

  datatype Patch =
    | UsePatchSet(name: string)
    | FromField(from: string, to: string, transforms: seq<Transform>)
    | Combine(variables: seq<string>, fmt: string, to: string)
    | ToComposite
    | OtherPatch

  type PatchSets = map<string, seq<Patch>>

  /** Python's `str`, which prints any document. */
  type PyStr = Value -> string

  /** The key a map transform looks up: booleans are lower-cased. */
  function MapKey(py: PyStr, value: Value): string {
    if value.Bool? then (if value.b then "true" else "false") else py(value)
  }

  function ApplyTransform(py: PyStr, value: Value, transform: Transform): Result<Value> {
    match transform
    case MapTransform(table, _) =>
      var key := MapKey(py, value);
      Success(if key in table then table[key] else value)
    case FormatTransform(fmt) =>
      var text :- Format(fmt, [py(value)]);
      Success(Str(text))
    case OtherTransform => Failure(Unsupported)
  }

  /** `transform`: each transform applied to the result of the one before. */
  function ApplyTransforms(py: PyStr, value: Value, transforms: seq<Transform>): Result<Value>
    decreases |transforms|
  {
    if transforms == [] then Success(value)
    else
      var next :- ApplyTransform(py, value, transforms[0]);
      ApplyTransforms(py, next, transforms[1..])
  }

  /** What a patch other than a PatchSet reference writes, if its sources exist: the target plays no part. */
  datatype Effect = Skip | Write(path: Path, value: Value)

  function Sources(xr: Value, variables: seq<string>): (values: seq<Value>)
    ensures |values| == |variables|
  {
    seq(|variables|, i requires 0 <= i < |variables| => Get(xr, Segments(variables[i])))
  }

  function Texts(py: PyStr, values: seq<Value>): seq<string> {
    seq(|values|, i requires 0 <= i < |values| => py(values[i]))
  }

  function EffectOf(py: PyStr, xr: Value, p: Patch): Result<Effect> {
    match p
    case FromField(from, to, transforms) =>
      var value := Get(xr, Segments(from));
      if value == Null then Success(Skip)
      else
        var written :- ApplyTransforms(py, value, transforms);
        Success(Write(Segments(to), written))
    case Combine(variables, fmt, to) =>
      var values := Sources(xr, variables);
      if Null in values then Success(Skip)
      else
        var text :- Format(fmt, Texts(py, values));
        Success(Write(Segments(to), Str(text)))
    case ToComposite => Success(Skip)
    case UsePatchSet(_) => Failure(MissingKey)
    case OtherPatch => Failure(Unsupported)
  }

  function Perform(target: Value, e: Effect): Result<Value> {
    match e
    case Skip => Success(target)
    case Write(path, value) => SetPath(target, path, value)
  }

  function ApplyOne(py: PyStr, xr: Value, target: Value, p: Patch): Result<Value> {
    var e :- EffectOf(py, xr, p);
    Perform(target, e)
  }

  // ---------------------------------------------------------------- PatchSets

  /** Every reference from `patches` into `sets` has a rank below `n`. */
  predicate Below(patches: seq<Patch>, sets: PatchSets, rank: map<string, nat>, n: nat) {
    forall i :: 0 <= i < |patches| && patches[i].UsePatchSet? && patches[i].name in sets ==>
      patches[i].name in rank && rank[patches[i].name] < n
  }

  lemma BelowTail(patches: seq<Patch>, sets: PatchSets, rank: map<string, nat>, n: nat)
    requires Below(patches, sets, rank, n) && patches != []
    ensures Below(patches[1..], sets, rank, n)
  {
    assert forall i :: 0 <= i < |patches[1..]| ==> patches[1..][i] == patches[i + 1];
  }

  /** A ranking that every reference between PatchSets descends: the reference graph is acyclic. */
  predicate Ranked(sets: PatchSets, rank: map<string, nat>) {
    forall name :: name in sets ==> name in rank && Below(sets[name], sets, rank, rank[name])
  }

  /** `apply_patches` as written: PatchSets are entered recursively, at the position of their reference. */
  function Interpret(py: PyStr, xr: Value, target: Value, patches: seq<Patch>, sets: PatchSets, ghost rank: map<string, nat>, ghost n: nat): Result<Value>
    requires Ranked(sets, rank) && Below(patches, sets, rank, n)
    decreases n, |patches|
  {
    if patches == [] then Success(target)
    else
      var p := patches[0];
      BelowTail(patches, sets, rank, n);
      var next :-
        if p.UsePatchSet? && p.name in sets then Interpret(py, xr, target, sets[p.name], sets, rank, rank[p.name])
        else ApplyOne(py, xr, target, p);
      Interpret(py, xr, next, patches[1..], sets, rank, n)
  }

  /** The patch list with every PatchSet written out in place. */
  function Inline(patches: seq<Patch>, sets: PatchSets, ghost rank: map<string, nat>, ghost n: nat): seq<Patch>
    requires Ranked(sets, rank) && Below(patches, sets, rank, n)
    decreases n, |patches|
  {
    if patches == [] then []
    else
      var p := patches[0];
      BelowTail(patches, sets, rank, n);
      (if p.UsePatchSet? && p.name in sets then Inline(sets[p.name], sets, rank, rank[p.name]) else [p])
        + Inline(patches[1..], sets, rank, n)
  }

  /** A left fold over a list of patches. */
  function Fold(py: PyStr, xr: Value, target: Value, patches: seq<Patch>): Result<Value>
    decreases |patches|
  {
    if patches == [] then Success(target)
    else
      var next :- ApplyOne(py, xr, target, patches[0]);
      Fold(py, xr, next, patches[1..])
  }

  lemma {:induction false} FoldConcat(py: PyStr, xr: Value, target: Value, a: seq<Patch>, b: seq<Patch>)
    ensures Fold(py, xr, target, a + b) ==
      (var mid := Fold(py, xr, target, a); if mid.Failure? then mid else Fold(py, xr, mid.value, b))
    decreases |a|
  {
    if a == [] {
      assert a + b == b;
    } else {
      assert (a + b)[1..] == a[1..] + b;
      var next := ApplyOne(py, xr, target, a[0]);
      if next.Success? {
        FoldConcat(py, xr, next.value, a[1..], b);
      }
    }
  }

  lemma FoldOne(py: PyStr, xr: Value, target: Value, p: Patch)
    ensures Fold(py, xr, target, [p]) == ApplyOne(py, xr, target, p)
  {
    assert [p][1..] == [];
  }

  /** What the first entry of a list does. */
  function FirstResult(py: PyStr, xr: Value, target: Value, patches: seq<Patch>, sets: PatchSets, ghost rank: map<string, nat>, ghost n: nat): Result<Value>
    requires Ranked(sets, rank) && Below(patches, sets, rank, n) && patches != []
  {
    var p := patches[0];
    if p.UsePatchSet? && p.name in sets then Interpret(py, xr, target, sets[p.name], sets, rank, rank[p.name])
    else ApplyOne(py, xr, target, p)
  }

  /** The first entry of a list, inlined. */
  function FirstInlined(patches: seq<Patch>, sets: PatchSets, ghost rank: map<string, nat>, ghost n: nat): seq<Patch>
    requires Ranked(sets, rank) && Below(patches, sets, rank, n) && patches != []
  {
    var p := patches[0];
    if p.UsePatchSet? && p.name in sets then Inline(sets[p.name], sets, rank, rank[p.name]) else [p]
  }

  lemma InterpretSteps(py: PyStr, xr: Value, target: Value, patches: seq<Patch>, sets: PatchSets, rank: map<string, nat>, n: nat)
    requires Ranked(sets, rank) && Below(patches, sets, rank, n) && patches != []
    ensures Below(patches[1..], sets, rank, n)
    ensures var next := FirstResult(py, xr, target, patches, sets, rank, n);
      Interpret(py, xr, target, patches, sets, rank, n) ==
        if next.Failure? then next else Interpret(py, xr, next.value, patches[1..], sets, rank, n)
    ensures Inline(patches, sets, rank, n) == FirstInlined(patches, sets, rank, n) + Inline(patches[1..], sets, rank, n)
  {
    BelowTail(patches, sets, rank, n);
  }

  lemma InlineSteps(patches: seq<Patch>, sets: PatchSets, rank: map<string, nat>, n: nat)
    requires Ranked(sets, rank) && Below(patches, sets, rank, n) && patches != []
    ensures Below(patches[1..], sets, rank, n)
    ensures Inline(patches, sets, rank, n) == FirstInlined(patches, sets, rank, n) + Inline(patches[1..], sets, rank, n)
  {
    BelowTail(patches, sets, rank, n);
  }

  /** Interpreting patches with acyclic PatchSets is folding over the list with every PatchSet inlined. */
  lemma {:induction false} InterpretIsFold(py: PyStr, xr: Value, target: Value, patches: seq<Patch>, sets: PatchSets, rank: map<string, nat>, n: nat)
    requires Ranked(sets, rank) && Below(patches, sets, rank, n)
    ensures Interpret(py, xr, target, patches, sets, rank, n) == Fold(py, xr, target, Inline(patches, sets, rank, n))
    decreases n, |patches|
  {
    if patches != [] {
      var p := patches[0];
      InterpretSteps(py, xr, target, patches, sets, rank, n);
      if p.UsePatchSet? && p.name in sets {
        InterpretIsFold(py, xr, target, sets[p.name], sets, rank, rank[p.name]);
      } else {
        FoldOne(py, xr, target, p);
      }
      FoldConcat(py, xr, target, FirstInlined(patches, sets, rank, n), Inline(patches[1..], sets, rank, n));
      var next := FirstResult(py, xr, target, patches, sets, rank, n);
      if next.Success? {
        InterpretIsFold(py, xr, next.value, patches[1..], sets, rank, n);
      }
    }
  }

  // ---------------------------------------------------------------- which patch decides

  /** A patch that writes nothing, a missing source for one, may be dropped from the list. */
  lemma SkippedPatch(py: PyStr, xr: Value, target: Value, a: seq<Patch>, p: Patch, b: seq<Patch>)
    requires EffectOf(py, xr, p) == Success(Skip)
    ensures Fold(py, xr, target, a + [p] + b) == Fold(py, xr, target, a + b)
  {
    FoldConcat(py, xr, target, a, b);
    FoldConcat(py, xr, target, a + [p], b);
    FoldConcat(py, xr, target, a, [p]);
  }

  /** No patch of the list writes to a destination overlapping `dest`. */
  predicate Untouched(py: PyStr, xr: Value, patches: seq<Patch>, dest: Path) {
    forall i :: 0 <= i < |patches| ==>
      EffectOf(py, xr, patches[i]).Success? && EffectOf(py, xr, patches[i]).value.Write? ==>
        Diverge(EffectOf(py, xr, patches[i]).value.path, dest)
  }

  lemma {:induction false} FoldFrame(py: PyStr, xr: Value, target: Value, patches: seq<Patch>, dest: Path)
    requires Untouched(py, xr, patches, dest) && Has(target, dest) && Fold(py, xr, target, patches).Success?
    ensures Has(Fold(py, xr, target, patches).value, dest)
    ensures Get(Fold(py, xr, target, patches).value, dest) == Get(target, dest)
    decreases |patches|
  {
    if patches != [] {
      var e := EffectOf(py, xr, patches[0]).value;
      if e.Write? {
        PutFrame(target, e.path, e.value, dest);
      }
      assert Untouched(py, xr, patches[1..], dest) by {
        assert forall i :: 0 <= i < |patches[1..]| ==> patches[1..][i] == patches[i + 1];
      }
      FoldFrame(py, xr, Perform(target, e).value, patches[1..], dest);
    }
  }

  /** A destination ends up with the value of the last patch that writes it, if no later one overlaps it. */
  lemma LastWriterWins(py: PyStr, xr: Value, target: Value, before: seq<Patch>, p: Patch, after: seq<Patch>, dest: Path, value: Value)
    requires EffectOf(py, xr, p) == Success(Write(dest, value)) && dest != []
    requires Untouched(py, xr, after, dest)
    requires Fold(py, xr, target, before + [p] + after).Success?
    ensures Has(Fold(py, xr, target, before + [p] + after).value, dest)
    ensures Get(Fold(py, xr, target, before + [p] + after).value, dest) == value
  {
    FoldConcat(py, xr, target, before + [p], after);
    FoldConcat(py, xr, target, before, [p]);
    var mid := Fold(py, xr, target, before).value;
    GetPut(mid, dest, value);
    FoldFrame(py, xr, Put(mid, dest, value).value, after, dest);
  }

  // ---------------------------------------------------------------- when a list of patches succeeds

  /** The patch has an effect, and what it writes the target has room for. */
  predicate HasRoom(py: PyStr, xr: Value, target: Value, p: Patch) {
    EffectOf(py, xr, p).Success? &&
    (EffectOf(py, xr, p).value.Write? ==> Fits(target, EffectOf(py, xr, p).value.path))
  }

  /** The second patch's destination is compatible with the first one's. */
  predicate Elsewhere(py: PyStr, xr: Value, p: Patch, q: Patch) {
    EffectOf(py, xr, p).Success? && EffectOf(py, xr, p).value.Write? && EffectOf(py, xr, p).value.path != [] &&
    EffectOf(py, xr, q).Success? && EffectOf(py, xr, q).value.Write? && EffectOf(py, xr, q).value.path != [] ==>
      Compatible(EffectOf(py, xr, p).value.path, EffectOf(py, xr, q).value.path)
  }

  /** Patches that have room and whose destinations are compatible all succeed. */
  lemma {:induction false} FoldSucceeds(py: PyStr, xr: Value, target: Value, patches: seq<Patch>)
    requires forall i :: 0 <= i < |patches| ==> HasRoom(py, xr, target, patches[i])
    requires forall i, j :: 0 <= i < j < |patches| ==> Elsewhere(py, xr, patches[i], patches[j])
    ensures Fold(py, xr, target, patches).Success?
    decreases |patches|
  {
    if patches != [] {
      var p, rest := patches[0], patches[1..];
      assert HasRoom(py, xr, target, p);
      var e := EffectOf(py, xr, p).value;
      if e.Write? {
        PutSucceeds(target, e.path, e.value);
      }
      var next := Perform(target, e).value;
      forall i | 0 <= i < |rest|
        ensures HasRoom(py, xr, next, rest[i])
      {
        assert rest[i] == patches[i + 1] && HasRoom(py, xr, target, patches[i + 1]) && Elsewhere(py, xr, p, patches[i + 1]);
        if e.Write? && e.path != [] && EffectOf(py, xr, rest[i]).value.Write? && EffectOf(py, xr, rest[i]).value.path != [] {
          FitsKept(target, e.path, e.value, EffectOf(py, xr, rest[i]).value.path);
        }
      }
      FoldSucceeds(py, xr, next, rest);
    }
  }
}
