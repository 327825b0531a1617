/** Where isolation fails: a container is stored by reference, and a later patch writes below it. The write goes into the
    document that the container was taken from, and into every other document that holds it. */
module Aliasing {
  import opened Json
  import opened Wrappers
  import opened Lens
  import opened Patches
  import opened PyHeap
  import opened PyLoans
  import opened PySet
  import opened Sharing
  import opened PyLend
  import opened PyPatches

  /** Two patches: one stores a container of the XR or of a table, the next writes a scalar below it. */
  predicate CopyThenWrite(py: PyStr, xr: Value, copy: Patch, write: Patch) {
    SourceOf(py, xr, copy).Some? && !write.UsePatchSet? &&
    Fires(py, xr, write) && Written(py, xr, write).Scalar() && Dest(py, xr, copy) < Dest(py, xr, write)
  }

  /** A run without PatchSets. */
  function Plain(py: PyStr, xr: Value): (run: Run)
    ensures run.py == py && run.xr == xr && run.sets == map[]
  {
    Run(py, xr, map[], map[], 0)
  }

  lemma PlainFlat(py: PyStr, xr: Value, copy: Patch, write: Patch)
    requires CopyThenWrite(py, xr, copy, write)
    ensures Plain(py, xr).Ok([copy]) && Plain(py, xr).Flat([copy]) == [copy]
    ensures Plain(py, xr).Ok([copy, write]) && Plain(py, xr).Flat([copy, write]) == [copy, write]
  {
    var run := Plain(py, xr);
    assert [copy, write][1..] == [write] && [write][1..] == [] && [copy][1..] == [];
    assert run.Flat([]) == [] && run.Flat([write]) == [write];
  }

  lemma CopyThenWriteLeaks(py: PyStr, xr: Value, copy: Patch, write: Patch)
    requires CopyThenWrite(py, xr, copy, write)
    ensures Plain(py, xr).Ok([copy]) && NeverTrespasses(Plain(py, xr), map[], [copy])
    ensures Plain(py, xr).Ok([copy, write]) && TrespassesLast(Plain(py, xr), map[], [copy, write])
    ensures LedgerAfter(py, xr, map[], [copy]) == map[Dest(py, xr, copy) := SourceOf(py, xr, copy).value]
  {
    PlainFlat(py, xr, copy, write);
    var d, s := Dest(py, xr, copy), SourceOf(py, xr, copy);
    var ledger: Ledger, lent: Ledger := map[], map[d := s.value];
    assert Lent(ledger, d, s) == lent;
    IsolatedOne(py, xr, ledger, copy);
    assert [copy, write][..1] == [copy];
    assert d in lent && d < Dest(py, xr, write);
    assert Trespasses(py, xr, lent, write);
  }

  /** Where the second patch writes, seen from the container that the first one stores. */
  function BelowCopy(py: PyStr, xr: Value, copy: Patch, write: Patch): Path
    requires CopyThenWrite(py, xr, copy, write)
  {
    Dest(py, xr, write)[|Dest(py, xr, copy)|..]
  }

  /** Isolation fails of the code: run on such a list, the interpreter leaves in the XR or the Composition itself, below
      the container that was stored, what the second patch wrote into the target. */
  method WritesIntoLender(py: PyStr, inputs: Inputs, target: Ref, copy: Patch, write: Patch, ghost x: Lenders, ghost t: Tree)
    returns (r: Result<()>, ghost lender: Lenders)
    requires Apart(inputs, x, target, t) && t.Owned() && CopyThenWrite(py, x.xr.Value(), copy, write)
    requires AllPlaced(x.composition.Value(), [copy, write])
    modifies t.Cells(), x.Cells()
    ensures r.Success? <==> Fold(py, x.xr.Value(), t.Value(), [copy, write]).Success?
    ensures r.Success? ==>
      lender.Roots() == inputs && lender.Stored() &&
      WrittenAt(x, SourceOf(py, x.xr.Value(), copy).value, BelowCopy(py, x.xr.Value(), copy, write),
                Written(py, x.xr.Value(), write), lender)
  {
    ghost var xr := x.xr.Value();
    ghost var run := Plain(py, xr);
    var patches := [copy, write];
    CopyThenWriteLeaks(py, xr, copy, write);
    PlainFlat(py, xr, copy, write);
    InterpretIsFold(py, xr, t.Value(), patches, map[], map[], 0);
    EmptyLedger(t, x);
    ghost var after, made;
    r, after, made, lender := ApplyPatches(py, inputs, target, patches, map[], run, x, t, map[]);
    if r.Success? {
      assert patches[..1] == [copy];
      assert Dest(py, xr, copy) in LedgerAfter(py, xr, map[], [copy]);
    }
  }

  /** The first patch alone: the document has the container on loan. */
  method Copies(py: PyStr, inputs: Inputs, target: Ref, copy: Patch, ghost write: Patch, ghost x: Lenders, ghost t: Tree)
    returns (r: Result<()>, ghost after: Tree, ghost made: set<Cell>)
    requires Apart(inputs, x, target, t) && t.Owned() && CopyThenWrite(py, x.xr.Value(), copy, write)
    requires PatchPlaced(x.composition.Value(), copy)
    modifies t.Cells()
    ensures x.Stored() && fresh(made) && Outcome(r, Fold(py, x.xr.Value(), t.Value(), [copy]), target, t, after, made)
    ensures r.Success? ==>
      LoanAt(after, Dest(py, x.xr.Value(), copy)).Some? &&
      Lends(x, SourceOf(py, x.xr.Value(), copy).value, LoanAt(after, Dest(py, x.xr.Value(), copy)).value)
  {
    ghost var xr := x.xr.Value();
    ghost var run := Plain(py, xr);
    CopyThenWriteLeaks(py, xr, copy, write);
    PlainFlat(py, xr, copy, write);
    InterpretIsFold(py, xr, t.Value(), [copy], map[], map[], 0);
    EmptyLedger(t, x);
    ghost var lender;
    r, after, made, lender := ApplyPatches(py, inputs, target, [copy], map[], run, x, t, map[]);
    if r.Success? {
      assert Dest(py, xr, copy) in LedgerAfter(py, xr, map[], [copy]);
    }
  }

  /** What was written into the lender is seen in a document that has the container on loan. */
  lemma SeenIn(ref: Ref, d: Tree, x: Lenders, lender: Lenders, py: PyStr, copy: Patch, write: Patch) returns (changed: Tree)
    requires CopyThenWrite(py, x.xr.Value(), copy, write)
    requires d.Root() == ref && d.Stored() && d.Tidy()
    requires LoanAt(d, Dest(py, x.xr.Value(), copy)).Some?
    requires Lends(x, SourceOf(py, x.xr.Value(), copy).value, LoanAt(d, Dest(py, x.xr.Value(), copy)).value)
    requires WrittenAt(x, SourceOf(py, x.xr.Value(), copy).value, BelowCopy(py, x.xr.Value(), copy, write),
                       Written(py, x.xr.Value(), write), lender)
    ensures changed.Root() == ref && changed.Stored() &&
      Success(changed.Value()) == Put(d.Value(), Dest(py, x.xr.Value(), write), Written(py, x.xr.Value(), write))
  {
    var xr := x.xr.Value();
    var s, path, below := SourceOf(py, xr, copy).value, Dest(py, xr, copy), BelowCopy(py, xr, copy, write);
    assert Dest(py, xr, write) == path + below;
    changed := ChangedToo(ref, d, path, below, Written(py, xr, write), TreeAt(lender.Of(s.owner), s.path).value.Value());
  }

  /** Running both patches on one document changes another one, `d` at `first`, that has the container on loan. */
  method WritesIntoHolder(py: PyStr, inputs: Inputs, target: Ref, copy: Patch, write: Patch, ghost x: Lenders, ghost t: Tree,
                          ghost first: Ref, ghost d: Tree)
    returns (r: Result<()>, ghost changed: Tree)
    requires Apart(inputs, x, target, t) && t.Owned() && CopyThenWrite(py, x.xr.Value(), copy, write)
    requires AllPlaced(x.composition.Value(), [copy, write])
    requires d.Root() == first && d.Stored() && d.Tidy() && d.Cells() !! t.Cells() && d.Cells() !! x.Cells()
    requires LoanAt(d, Dest(py, x.xr.Value(), copy)).Some?
    requires Lends(x, SourceOf(py, x.xr.Value(), copy).value, LoanAt(d, Dest(py, x.xr.Value(), copy)).value)
    modifies t.Cells(), x.Cells()
    ensures r.Success? <==> Fold(py, x.xr.Value(), t.Value(), [copy, write]).Success?
    ensures r.Success? ==>
      changed.Root() == first && changed.Stored() &&
      Success(changed.Value()) == Put(d.Value(), Dest(py, x.xr.Value(), write), Written(py, x.xr.Value(), write))
  {
    assert allocated(d.Cells());
    ghost var lender;
    changed := d;
    r, lender := WritesIntoLender(py, inputs, target, copy, write, x, t);
    if r.Success? {
      changed := SeenIn(first, d, x, lender, py, copy, write);
    }
  }

  /** Two documents are made with the container, by one patch, of a PatchSet both refer to, say. Writing below it in
      the second writes into the first: `v` is there as if it had been patched in. */
  method ChangesAnother(py: PyStr, inputs: Inputs, first: Ref, second: Ref, copy: Patch, write: Patch,
                        ghost x: Lenders, ghost d: Tree, ghost t: Tree)
    returns (r: Result<()>, ghost changed: Tree)
    requires Apart(inputs, x, first, d) && Apart(inputs, x, second, t) && d.Owned() && t.Owned() && d.Cells() !! t.Cells()
    requires CopyThenWrite(py, x.xr.Value(), copy, write) && AllPlaced(x.composition.Value(), [copy, write])
    modifies d.Cells(), t.Cells(), x.Cells()
    ensures r.Success? <==>
      Fold(py, x.xr.Value(), d.Value(), [copy]).Success? && Fold(py, x.xr.Value(), t.Value(), [copy, write]).Success?
    ensures r.Success? ==>
      changed.Root() == first && changed.Stored() &&
      Success(changed.Value()) == Put(Fold(py, x.xr.Value(), d.Value(), [copy]).value, Dest(py, x.xr.Value(), write),
                                      Written(py, x.xr.Value(), write))
  {
    assert allocated(x.Cells()) && allocated(d.Cells()) && allocated(t.Cells());
    assert [copy, write][0] == copy;
    ghost var after, made;
    changed := d;
    r, after, made := Copies(py, inputs, first, copy, write, x, d);
    if r.Success? {
      assert after.Cells() <= d.Cells() + made;
      r, changed := WritesIntoHolder(py, inputs, second, copy, write, x, t, first, after);
    }
  }
}
