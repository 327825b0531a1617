/** What a run of patches lends: a container copied out of the XR, or out of a transform's table in the Composition, is
    stored by reference, so a later write below that destination would go into the XR or the table. A ledger keeps track
    of it on the patch list alone. */
module Sharing {
  import opened Json
  import opened Wrappers
  import opened Lens
  import opened Paths
  import opened GoFormat
  import opened Patches

  datatype Owner = TheXr | TheComposition

  /** A place in the XR or in the Composition. */
  datatype Source = Source(owner: Owner, path: Path)

  /** Which destinations hold a container of another document, and which one. */
  type Ledger = map<Path, Source>

  predicate Writes(py: PyStr, xr: Value, p: Patch) {
    EffectOf(py, xr, p).Success? && EffectOf(py, xr, p).value.Write?
  }

  function Written(py: PyStr, xr: Value, p: Patch): Value
    requires Writes(py, xr, p)
  {
    EffectOf(py, xr, p).value.value
  }

  /** The patch writes somewhere: an empty path writes nothing. */
  predicate Fires(py: PyStr, xr: Value, p: Patch) {
    Writes(py, xr, p) && EffectOf(py, xr, p).value.path != []
  }

  function Dest(py: PyStr, xr: Value, p: Patch): Path
    requires Fires(py, xr, p)
  {
    EffectOf(py, xr, p).value.path
  }

  /** Where the value comes from that a transform makes of one from `source`, if it is a container: from the table that
      had an entry, or from there. */
  function StepOrigin(py: PyStr, value: Value, source: Source, transform: Transform): Source {
    if transform.MapTransform? && MapKey(py, value) in transform.table
    then Source(TheComposition, transform.at + [Name(MapKey(py, value))]) else source
  }

  function Origin(py: PyStr, value: Value, source: Source, transforms: seq<Transform>): Source
    decreases |transforms|
  {
    if transforms == [] then source
    else
      var next := ApplyTransform(py, value, transforms[0]);
      if next.Failure? then source
      else Origin(py, next.value, StepOrigin(py, value, source, transforms[0]), transforms[1..])
  }

  /** The tables are where the transforms say. */
  predicate Placed(composition: Value, transforms: seq<Transform>) {
    forall i :: 0 <= i < |transforms| && transforms[i].MapTransform? ==> Get(composition, transforms[i].at) == Obj(transforms[i].table)
  }

  predicate PatchPlaced(composition: Value, p: Patch) {
    p.FromField? ==> Placed(composition, p.transforms)
  }

  predicate AllPlaced(composition: Value, patches: seq<Patch>) {
    forall i :: 0 <= i < |patches| ==> PatchPlaced(composition, patches[i])
  }

  predicate SetsPlaced(composition: Value, sets: PatchSets) {
    forall name :: name in sets ==> AllPlaced(composition, sets[name])
  }

  predicate ScalarTables(transforms: seq<Transform>) {
    forall i, key :: 0 <= i < |transforms| && transforms[i].MapTransform? && key in transforms[i].table ==>
      transforms[i].table[key].Scalar()
  }

  /** With tables of scalars, only a container that comes through unchanged comes out as a container. */
  lemma {:induction false} ScalarTablesPass(py: PyStr, value: Value, transforms: seq<Transform>)
    requires ScalarTables(transforms)
    ensures var r := ApplyTransforms(py, value, transforms); r.Success? && !r.value.Scalar() ==> !value.Scalar()
    decreases |transforms|
  {
    if transforms != [] {
      var next := ApplyTransform(py, value, transforms[0]);
      if next.Success? {
        ScalarTablesPass(py, next.value, transforms[1..]);
      }
    }
  }

  /** Where the container comes from that the patch stores. */
  function SourceOf(py: PyStr, xr: Value, p: Patch): Option<Source> {
    if p.FromField? && Fires(py, xr, p) && !Written(py, xr, p).Scalar()
    then Some(Origin(py, Get(xr, Segments(p.from)), Source(TheXr, Segments(p.from)), p.transforms)) else None
  }

  // ---------------------------------------------------------------- the ledger along a list of patches

  /** After a write at `p`: what was lent there or below is gone, and `source`, if any, is lent there. */
  function Lent(ledger: Ledger, p: Path, source: Option<Source>): Ledger {
    var kept := map b | b in ledger && !(p <= b) :: ledger[b];
    if source.Some? then kept[p := source.value] else kept
  }

  function AfterPatch(py: PyStr, xr: Value, ledger: Ledger, p: Patch): Ledger {
    if Fires(py, xr, p) then Lent(ledger, Dest(py, xr, p), SourceOf(py, xr, p)) else ledger
  }

  /** The path goes on below a destination on loan. */
  predicate GoesBelow(ledger: Ledger, p: Path) {
    exists b :: b in ledger && b < p
  }

  /** The patch would write into another document. */
  predicate Trespasses(py: PyStr, xr: Value, ledger: Ledger, p: Patch) {
    Fires(py, xr, p) && GoesBelow(ledger, Dest(py, xr, p))
  }

  function LedgerAfter(py: PyStr, xr: Value, ledger: Ledger, patches: seq<Patch>): Ledger
    decreases |patches|
  {
    if patches == [] then ledger else LedgerAfter(py, xr, AfterPatch(py, xr, ledger, patches[0]), patches[1..])
  }

  /** No patch of the list would write into another document. */
  predicate Isolated(py: PyStr, xr: Value, ledger: Ledger, patches: seq<Patch>)
    decreases |patches|
  {
    patches == [] ||
    (!Trespasses(py, xr, ledger, patches[0]) &&
     Isolated(py, xr, AfterPatch(py, xr, ledger, patches[0]), patches[1..]))
  }

  lemma {:induction false} LedgerConcat(py: PyStr, xr: Value, ledger: Ledger, a: seq<Patch>, b: seq<Patch>)
    ensures LedgerAfter(py, xr, ledger, a + b) == LedgerAfter(py, xr, LedgerAfter(py, xr, ledger, a), b)
    ensures Isolated(py, xr, ledger, a + b) <==>
      Isolated(py, xr, ledger, a) && Isolated(py, xr, LedgerAfter(py, xr, ledger, a), b)
    decreases |a|
  {
    if a == [] {
      assert a + b == b;
    } else {
      assert (a + b)[1..] == a[1..] + b;
      LedgerConcat(py, xr, AfterPatch(py, xr, ledger, a[0]), a[1..], b);
    }
  }

  lemma IsolatedOne(py: PyStr, xr: Value, ledger: Ledger, p: Patch)
    ensures Isolated(py, xr, ledger, [p]) <==> !Trespasses(py, xr, ledger, p)
    ensures LedgerAfter(py, xr, ledger, [p]) == AfterPatch(py, xr, ledger, p)
  {
    assert [p][1..] == [];
    assert Isolated(py, xr, AfterPatch(py, xr, ledger, p), []);
  }

  // ---------------------------------------------------------------- a condition read off the list

  /** No patch that stores a container is followed by one that writes strictly below its destination. */
  predicate NothingBelow(py: PyStr, xr: Value, patches: seq<Patch>) {
    forall i, j :: 0 <= i < j < |patches| && SourceOf(py, xr, patches[i]).Some? && Fires(py, xr, patches[j]) ==>
      !(Dest(py, xr, patches[i]) < Dest(py, xr, patches[j]))
  }

  lemma {:induction false} NothingBelowIsolates(py: PyStr, xr: Value, ledger: Ledger, patches: seq<Patch>)
    requires NothingBelow(py, xr, patches)
    requires forall b, j :: b in ledger && 0 <= j < |patches| && Fires(py, xr, patches[j]) ==> !(b < Dest(py, xr, patches[j]))
    ensures Isolated(py, xr, ledger, patches)
    decreases |patches|
  {
    if patches != [] {
      var p, rest := patches[0], patches[1..];
      assert !Trespasses(py, xr, ledger, p);
      var next := AfterPatch(py, xr, ledger, p);
      assert forall j :: 0 <= j < |rest| ==> rest[j] == patches[j + 1];
      forall b, j | b in next && 0 <= j < |rest| && Fires(py, xr, rest[j])
        ensures !(b < Dest(py, xr, rest[j]))
      {
        assert Fires(py, xr, patches[j + 1]);
        if b !in ledger {
          assert Fires(py, xr, p) && b == Dest(py, xr, p) && SourceOf(py, xr, p).Some?;
        }
      }
      NothingBelowIsolates(py, xr, next, rest);
    }
  }

  /** From a document of its own, a list is isolated if no container it stores is written below later. */
  lemma IsolatedFromNothing(py: PyStr, xr: Value, patches: seq<Patch>)
    ensures NothingBelow(py, xr, patches) ==> Isolated(py, xr, map[], patches)
  {
    if NothingBelow(py, xr, patches) {
      NothingBelowIsolates(py, xr, map[], patches);
    }
  }

  /** A list that is not isolated has a first patch that would write into another document. */
  lemma {:induction false} FirstTrespass(py: PyStr, xr: Value, ledger: Ledger, patches: seq<Patch>) returns (i: nat)
    requires !Isolated(py, xr, ledger, patches)
    ensures i < |patches| && Isolated(py, xr, ledger, patches[..i])
    ensures Trespasses(py, xr, LedgerAfter(py, xr, ledger, patches[..i]), patches[i])
    decreases |patches|
  {
    if Trespasses(py, xr, ledger, patches[0]) {
      i := 0;
      assert patches[..0] == [];
    } else {
      var j := FirstTrespass(py, xr, AfterPatch(py, xr, ledger, patches[0]), patches[1..]);
      i := j + 1;
      assert patches[..i][1..] == patches[1..][..j];
    }
  }

  /** A patch that reads a scalar and maps it to scalars writes a scalar. */
  lemma ScalarsStayScalar(py: PyStr, xr: Value, p: Patch)
    requires p.FromField? ==> Get(xr, Segments(p.from)).Scalar() && ScalarTables(p.transforms)
    ensures Writes(py, xr, p) ==> Written(py, xr, p).Scalar()
  {
    if p.FromField? {
      ScalarTablesPass(py, Get(xr, Segments(p.from)), p.transforms);
    }
  }

  /** If every value that is read is a scalar, and so is every table entry, a list is isolated. */
  lemma ScalarReadsIsolate(py: PyStr, xr: Value, patches: seq<Patch>)
    requires forall i :: 0 <= i < |patches| && patches[i].FromField? ==>
      Get(xr, Segments(patches[i].from)).Scalar() && ScalarTables(patches[i].transforms)
    ensures Isolated(py, xr, map[], patches)
  {
    forall i | 0 <= i < |patches|
      ensures Writes(py, xr, patches[i]) ==> Written(py, xr, patches[i]).Scalar()
    {
      ScalarsStayScalar(py, xr, patches[i]);
    }
    IsolatedFromNothing(py, xr, patches);
  }

  // ---------------------------------------------------------------- lists that trespass in the end

  /** The last patch is the first that would write into another document, and it writes a scalar. */
  predicate TrespassesAtEnd(py: PyStr, xr: Value, ledger: Ledger, patches: seq<Patch>) {
    patches != [] &&
    var front, last := patches[..|patches| - 1], patches[|patches| - 1];
    Isolated(py, xr, ledger, front) && Trespasses(py, xr, LedgerAfter(py, xr, ledger, front), last) && Written(py, xr, last).Scalar()
  }

  lemma EndOfConcat(py: PyStr, xr: Value, ledger: Ledger, a: seq<Patch>, b: seq<Patch>)
    requires b != []
    ensures var after := LedgerAfter(py, xr, ledger, a);
      && (a + b)[|a + b| - 1] == b[|b| - 1]
      && LedgerAfter(py, xr, ledger, (a + b)[..|a + b| - 1]) == LedgerAfter(py, xr, after, b[..|b| - 1])
      && (TrespassesAtEnd(py, xr, ledger, a + b) <==> Isolated(py, xr, ledger, a) && TrespassesAtEnd(py, xr, after, b))
  {
    var front := b[..|b| - 1];
    assert (a + b)[..|a + b| - 1] == a + front;
    LedgerConcat(py, xr, ledger, a, front);
  }

  /** The one patch that trespasses makes the list no isolated one. */
  lemma EndIsNotIsolated(py: PyStr, xr: Value, ledger: Ledger, patches: seq<Patch>)
    requires TrespassesAtEnd(py, xr, ledger, patches)
    ensures !Isolated(py, xr, ledger, patches)
  {
    var front, last := patches[..|patches| - 1], patches[|patches| - 1];
    assert patches == front + [last];
    LedgerConcat(py, xr, ledger, front, [last]);
    IsolatedOne(py, xr, LedgerAfter(py, xr, ledger, front), last);
  }

  lemma EndOfOne(py: PyStr, xr: Value, ledger: Ledger, p: Patch)
    ensures TrespassesAtEnd(py, xr, ledger, [p]) <==> Trespasses(py, xr, ledger, p) && Written(py, xr, p).Scalar()
  {
    assert [p][..0] == [];
  }

  /** The last entry of the list, and of every PatchSet referred to last, is not a reference to an empty set. */
  predicate EndsInPatch(patches: seq<Patch>, sets: PatchSets, ghost rank: map<string, nat>, ghost n: nat)
    requires Ranked(sets, rank) && Below(patches, sets, rank, n)
    decreases n
  {
    patches != [] &&
    var p := patches[|patches| - 1];
    p.UsePatchSet? && p.name in sets ==> EndsInPatch(sets[p.name], sets, rank, rank[p.name])
  }

  lemma {:induction false} EndsNonEmpty(patches: seq<Patch>, sets: PatchSets, rank: map<string, nat>, n: nat)
    requires Ranked(sets, rank) && Below(patches, sets, rank, n) && EndsInPatch(patches, sets, rank, n)
    ensures Inline(patches, sets, rank, n) != []
    decreases n, |patches|
  {
    var p := patches[0];
    BelowTail(patches, sets, rank, n);
    if |patches| > 1 {
      EndsNonEmpty(patches[1..], sets, rank, n);
    } else if p.UsePatchSet? && p.name in sets {
      EndsNonEmpty(sets[p.name], sets, rank, rank[p.name]);
    }
  }

  // ---------------------------------------------------------------- along the loop of the interpreter

  /** What an interpretation is about to do to a target. */
  datatype Run = Run(py: PyStr, xr: Value, sets: PatchSets, ghost rank: map<string, nat>, ghost n: nat)
  {
    ghost predicate Ok(patches: seq<Patch>) {
      Ranked(sets, rank) && Below(patches, sets, rank, n)
    }

    ghost function Flat(patches: seq<Patch>): seq<Patch>
      requires Ok(patches)
    {
      Inline(patches, sets, rank, n)
    }

    ghost function First(patches: seq<Patch>): seq<Patch>
      requires Ok(patches) && patches != []
    {
      FirstInlined(patches, sets, rank, n)
    }

    ghost function After(ledger: Ledger, flat: seq<Patch>): Ledger {
      LedgerAfter(py, xr, ledger, flat)
    }

    ghost predicate Alone(ledger: Ledger, flat: seq<Patch>) {
      Isolated(py, xr, ledger, flat)
    }

    ghost predicate Trespassing(ledger: Ledger, flat: seq<Patch>) {
      TrespassesAtEnd(py, xr, ledger, flat)
    }

    ghost predicate Ends(patches: seq<Patch>)
      requires Ok(patches)
    {
      EndsInPatch(patches, sets, rank, n)
    }
  }

  /** The end of one list from one ledger is that of another from another. */
  ghost predicate SameEnd(run: Run, ledger: Ledger, flat: seq<Patch>, cur: Ledger, rest: seq<Patch>) {
    run.Trespassing(ledger, flat) ==>
      run.Trespassing(cur, rest) && flat[|flat| - 1] == rest[|rest| - 1] &&
      run.After(ledger, flat[..|flat| - 1]) == run.After(cur, rest[..|rest| - 1])
  }

  /** Behind the first `i` entries the target holds `now` and the ledger is `cur`; what is left does the rest. */
  ghost predicate Going(run: Run, start: Value, ledger: Ledger, patches: seq<Patch>, i: nat, now: Value, cur: Ledger)
    requires run.Ok(patches) && i <= |patches|
  {
    var rest := patches[i..];
    run.Ok(rest) &&
    Interpret(run.py, run.xr, now, rest, run.sets, run.rank, run.n) == Interpret(run.py, run.xr, start, patches, run.sets, run.rank, run.n) &&
    (run.Alone(ledger, run.Flat(patches)) <==> run.Alone(cur, run.Flat(rest))) &&
    run.After(ledger, run.Flat(patches)) == run.After(cur, run.Flat(rest)) &&
    SameEnd(run, ledger, run.Flat(patches), cur, run.Flat(rest)) &&
    (run.Alone(cur, run.Flat(rest)) || (run.Trespassing(cur, run.Flat(rest)) && run.Ends(rest)))
  }

  lemma RestOf(run: Run, patches: seq<Patch>, i: nat)
    requires run.Ok(patches) && i < |patches|
    ensures patches[i..] != [] && patches[i..][0] == patches[i] && patches[i..][1..] == patches[i + 1..]
    ensures run.Ok(patches[i..]) && run.Ok(patches[i + 1..])
    ensures run.Flat(patches[i..]) == run.First(patches[i..]) + run.Flat(patches[i + 1..])
  {
    var rest := patches[i..];
    assert forall j :: 0 <= j < |rest| ==> rest[j] == patches[i + j];
    assert rest[1..] == patches[i + 1..];
    BelowTail(rest, run.sets, run.rank, run.n);
  }

  /** A list that trespasses in the end does so in its first entry if that is the only one, and behind it if not. */
  lemma WhereItEnds(run: Run, cur: Ledger, rest: seq<Patch>)
    requires run.Ok(rest) && rest != [] && run.Ok(rest[1..])
    requires run.Flat(rest) == run.First(rest) + run.Flat(rest[1..])
    requires run.Alone(cur, run.Flat(rest)) || (run.Trespassing(cur, run.Flat(rest)) && run.Ends(rest))
    ensures |rest| > 1 && run.Trespassing(cur, run.Flat(rest)) ==> run.Ends(rest[1..]) && run.Flat(rest[1..]) != []
    ensures run.Alone(cur, run.First(rest)) ||
      (|rest| == 1 && run.Trespassing(cur, run.Flat(rest)) && run.First(rest) == run.Flat(rest) && run.Ends(rest))
  {
    LedgerConcat(run.py, run.xr, cur, run.First(rest), run.Flat(rest[1..]));
    if run.Trespassing(cur, run.Flat(rest)) {
      EndIsNotIsolated(run.py, run.xr, cur, run.Flat(rest));
      if |rest| > 1 {
        assert rest[1..][|rest[1..]| - 1] == rest[|rest| - 1];
        EndsNonEmpty(rest[1..], run.sets, run.rank, run.n);
        EndOfConcat(run.py, run.xr, cur, run.First(rest), run.Flat(rest[1..]));
      } else {
        assert rest[1..] == [];
        assert run.First(rest) + [] == run.First(rest);
      }
    }
  }

  lemma NextEntry(run: Run, start: Value, ledger: Ledger, patches: seq<Patch>, i: nat, now: Value, cur: Ledger)
    requires run.Ok(patches) && i < |patches| && Going(run, start, ledger, patches, i, now, cur)
    ensures patches[i..] != [] && run.Ok(patches[i..])
    ensures run.Alone(ledger, run.Flat(patches)) ==> run.Alone(cur, run.First(patches[i..]))
    ensures run.Alone(cur, run.First(patches[i..])) ||
      (i + 1 == |patches| && run.Trespassing(cur, run.First(patches[i..])) && run.First(patches[i..]) == run.Flat(patches[i..]) &&
       run.Ends(patches[i..]))
  {
    RestOf(run, patches, i);
    WhereItEnds(run, cur, patches[i..]);
    LedgerConcat(run.py, run.xr, cur, run.First(patches[i..]), run.Flat(patches[i + 1..]));
  }

  lemma EndMovesOn(run: Run, ledger: Ledger, flat: seq<Patch>, cur: Ledger, head: seq<Patch>, tail: seq<Patch>)
    requires SameEnd(run, ledger, flat, cur, head + tail) && run.Alone(cur, head)
    ensures SameEnd(run, ledger, flat, run.After(cur, head), tail)
    ensures run.Trespassing(cur, head + tail) ==> tail != [] && run.Trespassing(run.After(cur, head), tail)
  {
    if tail != [] {
      EndOfConcat(run.py, run.xr, cur, head, tail);
    } else if run.Trespassing(cur, head + tail) {
      assert head + tail == head;
      EndIsNotIsolated(run.py, run.xr, cur, head);
    }
  }

  lemma GoOn(run: Run, start: Value, ledger: Ledger, patches: seq<Patch>, i: nat, now: Value, cur: Ledger, next: Value)
    requires run.Ok(patches) && i < |patches| && Going(run, start, ledger, patches, i, now, cur)
    requires run.Ok(patches[i..]) && run.Alone(cur, run.First(patches[i..]))
    requires Success(next) == FirstResult(run.py, run.xr, now, patches[i..], run.sets, run.rank, run.n)
    ensures Going(run, start, ledger, patches, i + 1, next, run.After(cur, run.First(patches[i..])))
  {
    RestOf(run, patches, i);
    var rest := patches[i..];
    LedgerConcat(run.py, run.xr, cur, run.First(rest), run.Flat(rest[1..]));
    InterpretSteps(run.py, run.xr, now, rest, run.sets, run.rank, run.n);
    WhereItEnds(run, cur, rest);
    EndMovesOn(run, ledger, run.Flat(patches), cur, run.First(rest), run.Flat(rest[1..]));
  }
}
