/** Patching a document on the heap (hack/render-composition.py, `transform` and `apply_patches`). */
module PyPatches {
  import opened Json
  import opened Wrappers
  import opened Lens
  import opened Paths
  import opened GoFormat
  import opened Patches
  import opened PyHeap
  import opened PyLoans
  import opened PySet
  import opened PyCopy
  import opened Sharing
  import opened PyLend

  /** The documents that are read, and references to them. */
  ghost predicate Readable(inputs: Inputs, x: Lenders)
    reads x.Cells()
  {
    x.Roots() == inputs && x.Stored() && x.Proper()
  }

  /** `ref` is a reference to `v`: a container is the one at the source. */
  ghost predicate Held(x: Lenders, source: Source, v: Value, ref: Ref) {
    if v.Scalar() then ref == Atom(v) else ref.Box? && Lends(x, source, Loan(ref.cell, v))
  }

  /** The item that such a reference is when it is stored. */
  ghost function ItemAt(v: Value, ref: Ref): Tree {
    if v.Scalar() then Leaf(v) else if ref.Box? then Loan(ref.cell, v) else Leaf(Null)
  }

  /** The reference at a path of a document without loans, and the value there. */
  method ReadPath(root: Ref, p: Path, ghost t: Tree) returns (ref: Ref, v: Value)
    requires t.Root() == root && t.Stored() && t.Owned()
    ensures v == Get(t.Value(), p)
    ensures if v.Scalar() then ref == Atom(v) else ref.Box? && LendsAt(t, p, Loan(ref.cell, v))
  {
    assert allocated(t.Cells());
    ghost var found;
    ref, found := GetPathInPlace(root, p, t);
    v := ReadValue(ref, found);
    if !v.Scalar() {
      assert found.Container();
    }
  }

  lemma {:induction false} GetEntry(v: Value, p: Path, m: map<string, Value>, k: string)
    requires Get(v, p) == Obj(m) && k in m
    ensures Get(v, p + [Name(k)]) == m[k]
    decreases |p|
  {
    var q := p + [Name(k)];
    if p == [] {
      assert q[1..] == [];
    } else {
      assert q[1..] == p[1..] + [Name(k)];
      match p[0]
      case Index(i) => GetEntry(v.elems[i], p[1..], m, k);
      case Name(n) => GetEntry(v.fields[n], p[1..], m, k);
    }
  }

  /** `table[key]`, read from the table in the Composition. */
  method ReadEntry(inputs: Inputs, place: Path, table: map<string, Value>, key: string, ghost x: Lenders)
    returns (ref: Ref, v: Value)
    requires Readable(inputs, x) && Get(x.composition.Value(), place) == Obj(table) && key in table
    ensures x.Stored() && v == table[key] && Held(x, Source(TheComposition, place + [Name(key)]), v, ref)
  {
    assert allocated(x.Cells()) && allocated(x.xr.Cells()) && allocated(x.composition.Cells());
    GetEntry(x.composition.Value(), place, table, key);
    ref, v := ReadPath(inputs.composition, place + [Name(key)], x.composition);
  }

  /** One transform. */
  method TransformOnce(py: PyStr, inputs: Inputs, source: Ref, value: Value, transform: Transform, ghost x: Lenders, ghost at: Source)
    returns (r: Result<Value>, stored: Ref)
    requires Readable(inputs, x) && Placed(x.composition.Value(), [transform]) && Held(x, at, value, source)
    ensures x.Stored() && r == ApplyTransform(py, value, transform)
    ensures r.Success? ==> Held(x, StepOrigin(py, value, at, transform), r.value, stored)
  {
    assert allocated(x.Cells()) && allocated(x.xr.Cells()) && allocated(x.composition.Cells());
    assert [transform][0] == transform;
    stored := source;
    match transform
    case MapTransform(table, place) =>
      var key, next := MapKey(py, value), value;
      if key in table {
        stored, next := ReadEntry(inputs, place, table, key, x);
      }
      r := Success(next);
    case FormatTransform(fmt) =>
      var text := GoFormat.GoFormat(fmt, [py(value)]);
      if text.Failure? {
        return Failure(text.error), source;
      }
      r, stored := Success(Str(text.value)), Atom(Str(text.value));
    case OtherTransform =>
      r := Failure(Unsupported);
  }

  /** `transform`: the loop over a patch's transforms. A container that comes out of it is the one that went in, or
      the entry of a table in the Composition. */
  method TransformValue(py: PyStr, inputs: Inputs, source: Ref, given: Value, transforms: seq<Transform>,
                        ghost x: Lenders, ghost from: Source)
    returns (r: Result<Value>, stored: Ref)
    requires Readable(inputs, x) && Placed(x.composition.Value(), transforms) && Held(x, from, given, source)
    ensures r == ApplyTransforms(py, given, transforms)
    ensures r.Success? ==> Held(x, Origin(py, given, from, transforms), r.value, stored)
  {
    var value := given;
    stored := source;
    ghost var at := from;
    assert transforms[0..] == transforms;
    for i := 0 to |transforms|
      invariant x.Stored() && Held(x, at, value, stored)
      invariant ApplyTransforms(py, value, transforms[i..]) == ApplyTransforms(py, given, transforms)
      invariant Origin(py, value, at, transforms[i..]) == Origin(py, given, from, transforms)
    {
      assert transforms[i..][1..] == transforms[i + 1..];
      var next;
      next, stored := TransformOnce(py, inputs, stored, value, transforms[i], x, at);
      if next.Failure? {
        return next, Atom(Null);
      }
      at := StepOrigin(py, value, at, transforms[i]);
      value := next.value;
    }
    r := Success(value);
  }

  /** What a patch with effect `e` stores: `stored`, which is the item `u`, a container only if it is the source's. */
  ghost predicate Storable(py: PyStr, xr: Value, p: Patch, x: Lenders, stored: Ref, u: Tree) {
    (Writes(py, xr, p) ==> Item(u) && u.Root() == stored && u.Value() == Written(py, xr, p)) &&
    (Fires(py, xr, p) ==> ItemFrom(x, SourceOf(py, xr, p), u))
  }

  /** The reads of a FromCompositeFieldPath patch. */
  method ReadFromField(py: PyStr, inputs: Inputs, p: Patch, ghost x: Lenders) returns (e: Result<Effect>, stored: Ref, ghost u: Tree)
    requires Readable(inputs, x) && PatchPlaced(x.composition.Value(), p) && p.FromField?
    ensures e == EffectOf(py, x.xr.Value(), p) && Storable(py, x.xr.Value(), p, x, stored, u)
  {
    assert allocated(x.Cells()) && allocated(x.xr.Cells()) && allocated(x.composition.Cells());
    stored, u := Atom(Null), Leaf(Null);
    var from := ParseSegments(p.from);
    var ref, value := ReadPath(inputs.xr, from, x.xr);
    if value == Null {
      return Success(Skip), stored, u;
    }
    var written;
    written, stored := TransformValue(py, inputs, ref, value, p.transforms, x, Source(TheXr, from));
    if written.Failure? {
      return Failure(written.error), stored, u;
    }
    var path := ParseSegments(p.to);
    e := Success(Write(path, written.value));
    u := ItemAt(written.value, stored);
  }

  /** The values a CombineFromComposite patch combines. */
  method ReadSources(xr: Ref, variables: seq<string>, ghost t: Tree) returns (values: seq<Value>)
    requires t.Root() == xr && t.Stored() && t.Owned()
    ensures values == Sources(t.Value(), variables)
  {
    values := [];
    ghost var all := Sources(t.Value(), variables);
    for i := 0 to |variables|
      invariant t.Stored() && values == all[..i]
    {
      assert allocated(t.Cells());
      var path := ParseSegments(variables[i]);
      var _, value := ReadPath(xr, path, t);
      assert value == all[i];
      values := values + [value];
    }
    assert all[..|variables|] == all;
  }

  /** The reads of a CombineFromComposite patch. */
  method ReadCombine(py: PyStr, inputs: Inputs, p: Patch, ghost x: Lenders) returns (e: Result<Effect>, stored: Ref, ghost u: Tree)
    requires Readable(inputs, x) && p.Combine?
    ensures e == EffectOf(py, x.xr.Value(), p) && Storable(py, x.xr.Value(), p, x, stored, u)
  {
    stored, u := Atom(Null), Leaf(Null);
    var values := ReadSources(inputs.xr, p.variables, x.xr);
    if Null in values {
      return Success(Skip), stored, u;
    }
    var text := GoFormat.GoFormat(p.fmt, Texts(py, values));
    if text.Failure? {
      return Failure(text.error), stored, u;
    }
    var path := ParseSegments(p.to);
    e := Success(Write(path, Str(text.value)));
    stored, u := Atom(Str(text.value)), Leaf(Str(text.value));
  }

  /** One patch's reads: what it will write, computed from the documents in the heap, and the reference it will store,
      which for a container is the XR's own or a table's. */
  method ReadEffect(py: PyStr, inputs: Inputs, p: Patch, ghost x: Lenders) returns (e: Result<Effect>, stored: Ref, ghost u: Tree)
    requires Readable(inputs, x) && PatchPlaced(x.composition.Value(), p)
    ensures e == EffectOf(py, x.xr.Value(), p) && Storable(py, x.xr.Value(), p, x, stored, u)
  {
    stored, u := Atom(Null), Leaf(Null);
    match p
    case FromField(_, _, _) => e, stored, u := ReadFromField(py, inputs, p, x);
    case Combine(_, _, _) => e, stored, u := ReadCombine(py, inputs, p, x);
    case ToComposite => e := Success(Skip);
    case UsePatchSet(_) => e := Failure(MissingKey);
    case OtherPatch => e := Failure(Unsupported);
  }

  // ---------------------------------------------------------------- patching in place

  /** The target, given `ledger`, and what is lent to it. */
  ghost predicate Ready(inputs: Inputs, x: Lenders, target: Ref, t: Tree, ledger: Ledger)
    reads x.Cells(), t.Cells()
  {
    Apart(inputs, x, target, t) && LedgerOf(t, x, ledger)
  }

  /** The owner's document has `v` at `r` below its container at `s`, which is still in its place; the other document
      is as it was. */
  ghost predicate WrittenAt(x: Lenders, s: Source, r: Path, v: Value, lender: Lenders) {
    var before, after := x.Of(s.owner), lender.Of(s.owner);
    lender == x.With(s.owner, after) && Success(after.Value()) == Put(before.Value(), s.path + r, v) &&
    TreeAt(before, s.path).Some? && TreeAt(after, s.path).Some? &&
    TreeAt(after, s.path).value.Root() == TreeAt(before, s.path).value.Root() &&
    Success(TreeAt(after, s.path).value.Value()) == Put(TreeAt(before, s.path).value.Value(), r, v)
  }

  /** What a write of `v` at `p`, below a container on loan, makes of the lender: at the same place below its own
      container it has `v`. */
  ghost predicate WrittenInto(x: Lenders, ledger: Ledger, p: Path, v: Value, lender: Lenders)
    reads lender.Cells()
  {
    lender.Roots() == x.Roots() && lender.Stored() &&
    forall b :: b in ledger && b < p ==> WrittenAt(x, ledger[b], p[|b|..], v, lender)
  }

  ghost function CellsAtRisk(x: Lenders, safe: bool): set<Cell> {
    if safe then {} else x.Cells()
  }

  function Other(owner: Owner): Owner {
    if owner.TheXr? then TheComposition else TheXr
  }

  /** How the setter is to see the target: as it is, or with the loan opened that the path goes on below. */
  datatype View = AsIs | OpenAt(b: Path, y: Tree, inX: Around, inT: Around)

  ghost predicate Seen(x: Lenders, t: Tree, ledger: Ledger, path: Path, v: Value, view: View, doc: Tree) {
    match view
    case AsIs => !GoesBelow(ledger, path) && doc == t
    case OpenAt(b, y, inX, inT) =>
      b in ledger && b < path && (forall c :: c in ledger && c < path ==> c == b) &&
      TreeAt(x.Of(ledger[b].owner), ledger[b].path) == Some(y) && x.Of(Other(ledger[b].owner)).Cells() !! doc.Cells() &&
      Lender(x.Of(ledger[b].owner), ledger[b].path, path[|b|..], v, y, inX) && Opened(t, b, path[|b|..], y, inT, doc)
  }

  lemma LookBelow(inputs: Inputs, x: Lenders, target: Ref, t: Tree, ledger: Ledger, path: Path, v: Value, b: Path)
    returns (view: View, doc: Tree)
    requires Ready(inputs, x, target, t, ledger) && b in ledger && b < path
    ensures view.OpenAt? && view.b == b && TreeAt(x.Of(ledger[b].owner), ledger[b].path) == Some(view.y)
    ensures Lender(x.Of(ledger[b].owner), ledger[b].path, path[|b|..], v, view.y, view.inX) && view.inX.Stored()
    ensures x.Of(Other(ledger[b].owner)).Cells() !! doc.Cells()
    ensures Opened(t, b, path[|b|..], view.y, view.inT, doc)
    ensures doc.Stored() && doc.Cells() <= t.Cells() + x.Of(ledger[b].owner).Cells()
  {
    var rest, s := path[|b|..], ledger[b];
    assert LoanAt(t, b).Some? && Lends(x, s, LoanAt(t, b).value);
    var lender := x.Of(s.owner);
    var y, inX := FindLender(lender.Root(), lender, s.path, rest, v);
    var inT;
    inT, doc := OpenLoan(target, t, b, rest, y);
    view := OpenAt(b, y, inX, inT);
  }

  lemma LookInto(inputs: Inputs, x: Lenders, target: Ref, t: Tree, ledger: Ledger, path: Path, v: Value)
    returns (view: View, doc: Tree)
    requires Ready(inputs, x, target, t, ledger) && GoesBelow(ledger, path)
    ensures view.OpenAt? && Seen(x, t, ledger, path, v, view, doc) && view.inX.Stored()
    ensures doc.Root() == target && doc.Stored() && doc.Tidy() && !Crosses(doc, path) && doc.Value() == t.Value()
    ensures doc.Cells() <= t.Cells() + x.Cells()
  {
    var b :| b in ledger && b < path;
    assert path == b + path[|b|..];
    view, doc := LookBelow(inputs, x, target, t, ledger, path, v, b);
    OnlyOneBelow(t, x, ledger, path, b);
  }

  lemma LookAt(inputs: Inputs, x: Lenders, target: Ref, t: Tree, ledger: Ledger, path: Path, v: Value) returns (view: View, doc: Tree)
    requires Ready(inputs, x, target, t, ledger)
    ensures Seen(x, t, ledger, path, v, view, doc) && view.AsIs? == !GoesBelow(ledger, path)
    ensures view.OpenAt? ==> view.inX.Stored()
    ensures doc.Root() == target && doc.Stored() && doc.Tidy() && !Crosses(doc, path) && doc.Value() == t.Value()
    ensures doc.Cells() <= t.Cells() + CellsAtRisk(x, !GoesBelow(ledger, path))
  {
    CrossesIsBelow(t, x, ledger, path);
    view, doc := AsIs, t;
    if GoesBelow(ledger, path) {
      view, doc := LookInto(inputs, x, target, t, ledger, path, v);
    }
  }

  lemma OnlyOneBelow(t: Tree, x: Lenders, ledger: Ledger, path: Path, b: Path)
    requires LedgerOf(t, x, ledger) && b in ledger && b < path
    ensures forall c :: c in ledger && c < path ==> c == b
  {
    forall c | c in ledger && c < path
      ensures c == b
    {
      assert LoanAt(t, c).Some? && LoanAt(t, b).Some?;
      OneLoanOnTheWay(t, c, b, path);
    }
  }

  /** The lender's only container on loan on the way was written into. */
  lemma Leaked(x: Lenders, t: Tree, ledger: Ledger, path: Path, v: Value, view: View, doc: Tree, after: Tree, made: set<Cell>)
    returns (lender: Lenders)
    requires view.OpenAt? && Seen(x, t, ledger, path, v, view, doc)
    requires x.Cells() !! t.Cells() && view.inX.Stored() && view.inX.Cells() !! made
    requires x.Of(Other(ledger[view.b].owner)).Stored()
    requires after.Stored() && after.Tidy() && KeptRoots(doc, after, path) && after.Cells() <= doc.Cells() + made
    requires Put(t.Value(), path, v) == Success(after.Value())
    ensures WrittenInto(x, ledger, path, v, lender)
  {
    var b, s := view.b, ledger[view.b];
    var rest := path[|b|..];
    assert path == b + rest;
    var written := CloseLoan(x.Of(s.owner), t, s.path, b, rest, v, view.y, view.inX, view.inT, doc, after, made);
    lender := x.With(s.owner, written);
    OnlyLender(x, ledger, path, v, b, written);
  }

  lemma OnlyLender(x: Lenders, ledger: Ledger, path: Path, v: Value, b: Path, written: Tree)
    requires b in ledger && b < path && forall c :: c in ledger && c < path ==> c == b
    requires written.Stored() && x.Of(Other(ledger[b].owner)).Stored() && written.Root() == x.Of(ledger[b].owner).Root()
    requires WrittenAt(x, ledger[b], path[|b|..], v, x.With(ledger[b].owner, written))
    ensures WrittenInto(x, ledger, path, v, x.With(ledger[b].owner, written))
  {
  }

  /** The setter called on the target. If the path does not go on below a container on loan, the other documents are
      left as they were. If it does, and a scalar is stored, it is stored in the lender. */
  method Store(inputs: Inputs, target: Ref, path: Path, stored: Ref, ghost source: Option<Source>, ghost u: Tree,
               ghost x: Lenders, ghost t: Tree, ghost ledger: Ledger)
    returns (r: Result<()>, ghost after: Tree, ghost made: set<Cell>, ghost lender: Lenders)
    requires Ready(inputs, x, target, t, ledger) && Item(u) && u.Root() == stored
    requires path != [] ==> ItemFrom(x, source, u)
    modifies t.Cells(), CellsAtRisk(x, !GoesBelow(ledger, path))
    ensures fresh(made) && (r.Success? <==> SetPath(t.Value(), path, u.Value()).Success?)
    ensures !GoesBelow(ledger, path) ==>
      (x.Stored() && Outcome(r, SetPath(t.Value(), path, u.Value()), target, t, after, made) &&
       (r.Success? ==> LedgerOf(after, x, if path == [] then ledger else Lent(ledger, path, source))))
    ensures GoesBelow(ledger, path) && u.Leaf? && r.Success? ==> WrittenInto(x, ledger, path, u.Value(), lender)
  {
    assert allocated(x.Cells()) && allocated(t.Cells());
    ghost var view, doc := LookAt(inputs, x, target, t, ledger, path, u.Value());
    r, after, made := SetPathInPlace(target, path, stored, u, doc);
    lender := x;
    if r.Success? && path != [] {
      if view.AsIs? {
        LedgerKept(t, x, ledger, path, source, u, after);
      } else {
        assert view.inX.Cells() <= x.Cells();
        lender := Leaked(x, t, ledger, path, u.Value(), view, doc, after, made);
      }
    }
  }

  /** One patch that is no PatchSet reference, applied to a target in the heap. If its path does not go on below a
      container on loan, the other documents are left as they were. If it does, and a scalar is written, the lender is
      written into. */
  method ApplyInPlace(py: PyStr, inputs: Inputs, target: Ref, p: Patch, ghost x: Lenders, ghost t: Tree, ghost ledger: Ledger)
    returns (r: Result<()>, ghost after: Tree, ghost made: set<Cell>, ghost lender: Lenders)
    requires Ready(inputs, x, target, t, ledger) && PatchPlaced(x.composition.Value(), p)
    requires Trespasses(py, x.xr.Value(), ledger, p) ==> Written(py, x.xr.Value(), p).Scalar()
    modifies t.Cells(), CellsAtRisk(x, !Trespasses(py, x.xr.Value(), ledger, p))
    ensures r.Success? <==> ApplyOne(py, x.xr.Value(), t.Value(), p).Success?
    ensures fresh(made)
    ensures !Trespasses(py, x.xr.Value(), ledger, p) ==>
      (x.Stored() && Outcome(r, ApplyOne(py, x.xr.Value(), t.Value(), p), target, t, after, made) &&
       (r.Success? ==> LedgerOf(after, x, AfterPatch(py, x.xr.Value(), ledger, p))))
    ensures Trespasses(py, x.xr.Value(), ledger, p) && r.Success? ==>
      WrittenInto(x, ledger, Dest(py, x.xr.Value(), p), Written(py, x.xr.Value(), p), lender)
  {
    assert allocated(x.Cells()) && allocated(t.Cells());
    after, made, lender := t, {}, x;
    var e, stored;
    ghost var u;
    e, stored, u := ReadEffect(py, inputs, p, x);
    if e.Failure? {
      return Failure(e.error), t, {}, x;
    }
    if e.value.Skip? {
      return Success(()), t, {}, x;
    }
    r, after, made, lender := Store(inputs, target, e.value.path, stored, SourceOf(py, x.xr.Value(), p), u, x, t, ledger);
  }

  // ---------------------------------------------------------------- the interpreter

  /** The loop of the interpreter so far: `run` goes on from `now`, with `cur` lent. */
  ghost predicate Looped(run: Run, inputs: Inputs, x: Lenders, target: Ref, t: Tree, ledger: Ledger, patches: seq<Patch>, i: nat,
                         after: Tree, cur: Ledger, made: set<Cell>)
    requires run.Ok(patches) && i <= |patches|
    reads x.Cells(), after.Cells()
  {
    run.xr == x.xr.Value() && Ready(inputs, x, target, after, cur) && after.Cells() <= t.Cells() + made &&
    Going(run, t.Value(), ledger, patches, i, after.Value(), cur)
  }

  /** What the interpretation of patches whose last one is the first to trespass leaves in the lender. */
  ghost predicate LeakedInto(run: Run, x: Lenders, ledger: Ledger, flat: seq<Patch>, lender: Lenders)
    reads lender.Cells()
  {
    flat != [] &&
    var front, last := flat[..|flat| - 1], flat[|flat| - 1];
    Fires(run.py, run.xr, last) &&
    WrittenInto(x, run.After(ledger, front), Dest(run.py, run.xr, last), Written(run.py, run.xr, last), lender)
  }

  ghost predicate NeverTrespasses(run: Run, ledger: Ledger, patches: seq<Patch>)
    requires run.Ok(patches)
  {
    run.Alone(ledger, run.Flat(patches))
  }

  /** The last patch, PatchSets written out, is the first to trespass, and writes a scalar. */
  ghost predicate TrespassesLast(run: Run, ledger: Ledger, patches: seq<Patch>)
    requires run.Ok(patches)
  {
    run.Trespassing(ledger, run.Flat(patches)) && run.Ends(patches)
  }

  ghost function Interpreted(run: Run, start: Value, patches: seq<Patch>): Result<Value>
    requires run.Ok(patches)
  {
    Interpret(run.py, run.xr, start, patches, run.sets, run.rank, run.n)
  }

  ghost function EntryResult(run: Run, now: Value, entries: seq<Patch>): Result<Value>
    requires run.Ok(entries) && entries != []
  {
    FirstResult(run.py, run.xr, now, entries, run.sets, run.rank, run.n)
  }

  ghost predicate EntryIsolated(run: Run, cur: Ledger, entries: seq<Patch>)
    requires run.Ok(entries) && entries != []
  {
    run.Alone(cur, run.First(entries))
  }

  ghost predicate EntryTrespasses(run: Run, cur: Ledger, entries: seq<Patch>)
    requires run.Ok(entries) && entries != []
  {
    |entries| == 1 && run.Trespassing(cur, run.First(entries)) && run.Ends(entries)
  }

  lemma OneEntry(run: Run, cur: Ledger, entries: seq<Patch>)
    requires run.Ok(entries) && entries != [] && !(entries[0].UsePatchSet? && entries[0].name in run.sets)
    ensures run.First(entries) == [entries[0]]
    ensures EntryIsolated(run, cur, entries) <==> !Trespasses(run.py, run.xr, cur, entries[0])
    ensures EntryTrespasses(run, cur, entries) ==>
      Trespasses(run.py, run.xr, cur, entries[0]) && Written(run.py, run.xr, entries[0]).Scalar()
    ensures run.After(cur, run.First(entries)) == AfterPatch(run.py, run.xr, cur, entries[0])
    ensures run.After(cur, [entries[0]][..0]) == cur
  {
    IsolatedOne(run.py, run.xr, cur, entries[0]);
    EndOfOne(run.py, run.xr, cur, entries[0]);
    assert [entries[0]][..0] == [];
  }

  /** A reference to a PatchSet stands for the patches of the set. */
  lemma SetEntry(run: Run, cur: Ledger, entries: seq<Patch>)
    requires run.Ok(entries) && entries != [] && entries[0].UsePatchSet? && entries[0].name in run.sets
    ensures var inner, patches := run.(n := run.rank[entries[0].name]), run.sets[entries[0].name];
      inner.Ok(patches) && inner.n < run.n && inner.Flat(patches) == run.First(entries) &&
      (forall start :: Interpreted(inner, start, patches) == EntryResult(run, start, entries)) &&
      (EntryTrespasses(run, cur, entries) ==> TrespassesLast(inner, cur, patches))
  {
    assert entries[0] == entries[0..][0];
  }

  /** One iteration of the interpreter's loop: a PatchSet is entered, any other patch performed. */
  method ApplyEntry(py: PyStr, inputs: Inputs, target: Ref, p: Patch, sets: PatchSets,
                    ghost run: Run, ghost entries: seq<Patch>, ghost x: Lenders, ghost t: Tree, ghost cur: Ledger)
    returns (r: Result<()>, ghost after: Tree, ghost made: set<Cell>, ghost lender: Lenders)
    requires run.py == py && run.sets == sets && run.xr == x.xr.Value() && run.Ok(entries) && entries != [] && entries[0] == p
    requires Ready(inputs, x, target, t, cur) && PatchPlaced(x.composition.Value(), p) && SetsPlaced(x.composition.Value(), sets)
    requires EntryIsolated(run, cur, entries) || EntryTrespasses(run, cur, entries)
    modifies t.Cells(), CellsAtRisk(x, EntryIsolated(run, cur, entries))
    ensures fresh(made) && (r.Success? <==> EntryResult(run, t.Value(), entries).Success?)
    ensures EntryIsolated(run, cur, entries) ==>
      (x.Stored() && Outcome(r, EntryResult(run, t.Value(), entries), target, t, after, made) &&
       (r.Success? ==> LedgerOf(after, x, run.After(cur, run.First(entries)))))
    ensures !EntryIsolated(run, cur, entries) && r.Success? ==> LeakedInto(run, x, cur, run.First(entries), lender)
    decreases run.n, 0
  {
    if p.UsePatchSet? && p.name in sets {
      SetEntry(run, cur, entries);
      r, after, made, lender := ApplyPatches(py, inputs, target, sets[p.name], sets, run.(n := run.rank[p.name]), x, t, cur);
    } else {
      OneEntry(run, cur, entries);
      r, after, made, lender := ApplyInPlace(py, inputs, target, p, x, t, cur);
    }
  }

  /** The last patch has been performed, and was the first to trespass. */
  ghost predicate LeakDone(run: Run, x: Lenders, start: Value, ledger: Ledger, patches: seq<Patch>, lender: Lenders)
    requires run.Ok(patches)
    reads lender.Cells()
  {
    !NeverTrespasses(run, ledger, patches) && Interpreted(run, start, patches).Success? &&
    (TrespassesLast(run, ledger, patches) ==> LeakedInto(run, x, ledger, run.Flat(patches), lender))
  }

  lemma LastSucceeds(run: Run, start: Value, ledger: Ledger, patches: seq<Patch>, i: nat, now: Value, cur: Ledger)
    requires run.Ok(patches) && i + 1 == |patches| && Going(run, start, ledger, patches, i, now, cur)
    requires run.Ok(patches[i..]) && EntryResult(run, now, patches[i..]).Success?
    ensures Interpreted(run, start, patches).Success?
  {
    var rest := patches[i..];
    assert rest[1..] == [];
    var next := EntryResult(run, now, rest).value;
    assert Interpret(run.py, run.xr, next, [], run.sets, run.rank, run.n) == Success(next);
  }

  /** The last entry has trespassed: so has the whole list. */
  lemma LastEntry(run: Run, x: Lenders, start: Value, ledger: Ledger, patches: seq<Patch>, i: nat, now: Value, cur: Ledger, lender: Lenders)
    requires run.Ok(patches) && i < |patches| && Going(run, start, ledger, patches, i, now, cur)
    requires run.Ok(patches[i..]) && !EntryIsolated(run, cur, patches[i..]) && EntryResult(run, now, patches[i..]).Success?
    requires LeakedInto(run, x, cur, run.First(patches[i..]), lender)
    ensures i + 1 == |patches| && LeakDone(run, x, start, ledger, patches, lender)
  {
    NextEntry(run, start, ledger, patches, i, now, cur);
    LastSucceeds(run, start, ledger, patches, i, now, cur);
  }

  /** What the loop may do next: an entry that keeps to itself, or the last one, which does not. */
  lemma EntryCases(run: Run, x: Lenders, start: Value, ledger: Ledger, patches: seq<Patch>, i: nat, now: Value, cur: Ledger)
    requires run.Ok(patches) && i < |patches| && Going(run, start, ledger, patches, i, now, cur)
    ensures run.Ok(patches[i..]) && patches[i..] != [] && patches[i..][0] == patches[i]
    ensures EntryIsolated(run, cur, patches[i..]) || EntryTrespasses(run, cur, patches[i..])
    ensures NeverTrespasses(run, ledger, patches) ==> EntryIsolated(run, cur, patches[i..])
    ensures CellsAtRisk(x, EntryIsolated(run, cur, patches[i..])) <= CellsAtRisk(x, NeverTrespasses(run, ledger, patches))
  {
    NextEntry(run, start, ledger, patches, i, now, cur);
  }

  lemma LoopStart(run: Run, inputs: Inputs, x: Lenders, target: Ref, t: Tree, ledger: Ledger, patches: seq<Patch>)
    requires run.Ok(patches) && run.xr == x.xr.Value() && Ready(inputs, x, target, t, ledger)
    requires NeverTrespasses(run, ledger, patches) || TrespassesLast(run, ledger, patches)
    ensures Looped(run, inputs, x, target, t, ledger, patches, 0, t, ledger, {})
  {
    assert patches[0..] == patches;
  }

  lemma LoopOn(run: Run, inputs: Inputs, x: Lenders, target: Ref, t: Tree, ledger: Ledger, patches: seq<Patch>, i: nat, after: Tree,
               cur: Ledger, made: set<Cell>, next: Tree, created: set<Cell>)
    requires run.Ok(patches) && i < |patches| && run.Ok(patches[i..]) && run.xr == x.xr.Value()
    requires Going(run, t.Value(), ledger, patches, i, after.Value(), cur) && EntryIsolated(run, cur, patches[i..])
    requires Readable(inputs, x) && x.Cells() !! after.Cells() && x.Cells() !! created
    requires after.Cells() <= t.Cells() + made
    requires Outcome(Success(()), EntryResult(run, after.Value(), patches[i..]), target, after, next, created)
    requires LedgerOf(next, x, run.After(cur, run.First(patches[i..])))
    ensures Looped(run, inputs, x, target, t, ledger, patches, i + 1, next, run.After(cur, run.First(patches[i..])), made + created)
  {
    GoOn(run, t.Value(), ledger, patches, i, after.Value(), cur, next.Value());
  }

  lemma LoopEnd(run: Run, inputs: Inputs, x: Lenders, target: Ref, t: Tree, ledger: Ledger, patches: seq<Patch>, after: Tree,
                cur: Ledger, made: set<Cell>)
    requires run.Ok(patches) && Looped(run, inputs, x, target, t, ledger, patches, |patches|, after, cur, made)
    ensures x.Stored() && Outcome(Success(()), Interpreted(run, t.Value(), patches), target, t, after, made)
    ensures LedgerOf(after, x, run.After(ledger, run.Flat(patches)))
    ensures !TrespassesLast(run, ledger, patches)
  {
    assert patches[|patches|..] == [];
  }

  /** The whole list has been performed, either way. */
  lemma LoopDone(run: Run, inputs: Inputs, x: Lenders, target: Ref, t: Tree, ledger: Ledger, patches: seq<Patch>, after: Tree,
                 cur: Ledger, made: set<Cell>, leaked: bool, lender: Lenders)
    requires run.Ok(patches)
    requires !leaked ==> Looped(run, inputs, x, target, t, ledger, patches, |patches|, after, cur, made)
    requires leaked ==> LeakDone(run, x, t.Value(), ledger, patches, lender)
    ensures Interpreted(run, t.Value(), patches).Success?
    ensures NeverTrespasses(run, ledger, patches) ==>
      x.Stored() && Outcome(Success(()), Interpreted(run, t.Value(), patches), target, t, after, made) &&
      LedgerOf(after, x, run.After(ledger, run.Flat(patches)))
    ensures TrespassesLast(run, ledger, patches) ==> LeakedInto(run, x, ledger, run.Flat(patches), lender)
  {
    if !leaked {
      LoopEnd(run, inputs, x, target, t, ledger, patches, after, cur, made);
    }
  }

  /** An entry that fails ends the interpretation. */
  lemma StopsThere(run: Run, start: Value, ledger: Ledger, patches: seq<Patch>, i: nat, now: Value, cur: Ledger)
    requires run.Ok(patches) && i < |patches| && Going(run, start, ledger, patches, i, now, cur)
    requires run.Ok(patches[i..]) && EntryResult(run, now, patches[i..]).Failure?
    ensures Interpreted(run, start, patches).Failure?
  {
  }

  /** One iteration, seen from the whole list. */
  method Iterate(py: PyStr, inputs: Inputs, target: Ref, patches: seq<Patch>, sets: PatchSets, i: nat, ghost run: Run, ghost x: Lenders,
                 ghost t: Tree, ghost ledger: Ledger, ghost now: Tree, ghost cur: Ledger, ghost made: set<Cell>)
    returns (r: Result<()>, ghost after: Tree, ghost created: set<Cell>, ghost lender: Lenders, ghost next: Ledger, ghost leaked: bool)
    requires run.py == py && run.sets == sets && run.xr == x.xr.Value() && run.Ok(patches) && i < |patches|
    requires AllPlaced(x.composition.Value(), patches) && SetsPlaced(x.composition.Value(), sets)
    requires Looped(run, inputs, x, target, t, ledger, patches, i, now, cur, made)
    modifies now.Cells(), CellsAtRisk(x, NeverTrespasses(run, ledger, patches))
    ensures fresh(created)
    ensures r.Failure? ==> Interpreted(run, t.Value(), patches).Failure? && (NeverTrespasses(run, ledger, patches) ==> x.Stored())
    ensures r.Success? && !leaked ==> Looped(run, inputs, x, target, t, ledger, patches, i + 1, after, next, made + created)
    ensures r.Success? && leaked ==> i + 1 == |patches| && LeakDone(run, x, t.Value(), ledger, patches, lender)
    decreases run.n, 1
  {
    assert allocated(x.Cells()) && allocated(now.Cells());
    EntryCases(run, x, t.Value(), ledger, patches, i, now.Value(), cur);
    r, after, created, lender := ApplyEntry(py, inputs, target, patches[i], sets, run, patches[i..], x, now, cur);
    next, leaked := cur, !EntryIsolated(run, cur, patches[i..]);
    if r.Failure? {
      StopsThere(run, t.Value(), ledger, patches, i, now.Value(), cur);
    } else if leaked {
      LastEntry(run, x, t.Value(), ledger, patches, i, now.Value(), cur, lender);
    } else {
      LoopOn(run, inputs, x, target, t, ledger, patches, i, now, cur, made, after, created);
      next := run.After(cur, run.First(patches[i..]));
    }
  }

  /** `apply_patches`: the interpreter, recursive through PatchSets, writing into the target in place. If no patch
      writes below a container that an earlier one stored, the XR and the Composition are left as they were and the
      target is as interpretation on values makes it. If the last patch is the first to do so, the lender is written
      into, at the place that the container was copied from. */
  method ApplyPatches(py: PyStr, inputs: Inputs, target: Ref, patches: seq<Patch>, sets: PatchSets,
                      ghost run: Run, ghost x: Lenders, ghost t: Tree, ghost ledger: Ledger)
    returns (r: Result<()>, ghost after: Tree, ghost made: set<Cell>, ghost lender: Lenders)
    requires run.py == py && run.sets == sets && run.xr == x.xr.Value() && run.Ok(patches)
    requires Ready(inputs, x, target, t, ledger)
    requires AllPlaced(x.composition.Value(), patches) && SetsPlaced(x.composition.Value(), sets)
    requires NeverTrespasses(run, ledger, patches) || TrespassesLast(run, ledger, patches)
    modifies t.Cells(), CellsAtRisk(x, NeverTrespasses(run, ledger, patches))
    ensures fresh(made) && (r.Success? <==> Interpreted(run, t.Value(), patches).Success?)
    ensures NeverTrespasses(run, ledger, patches) ==>
      (x.Stored() && Outcome(r, Interpreted(run, t.Value(), patches), target, t, after, made) &&
       (r.Success? ==> LedgerOf(after, x, run.After(ledger, run.Flat(patches)))))
    ensures TrespassesLast(run, ledger, patches) && r.Success? ==> LeakedInto(run, x, ledger, run.Flat(patches), lender)
    decreases run.n, 2
  {
    after, made, lender := t, {}, x;
    ghost var cur, leaked := ledger, false;
    LoopStart(run, inputs, x, target, t, ledger, patches);
    for i := 0 to |patches|
      invariant fresh(made)
      invariant !leaked ==> Looped(run, inputs, x, target, t, ledger, patches, i, after, cur, made)
      invariant leaked ==> i == |patches| && LeakDone(run, x, t.Value(), ledger, patches, lender)
    {
      ghost var next, created, into;
      assert after.Cells() <= t.Cells() + made;
      r, next, created, into, cur, leaked := Iterate(py, inputs, target, patches, sets, i, run, x, t, ledger, after, cur, made);
      if r.Failure? {
        return r, t, {}, x;
      }
      after, made, lender := next, made + created, into;
    }
    r := Success(());
    LoopDone(run, inputs, x, target, t, ledger, patches, after, cur, made, leaked, lender);
  }
}
