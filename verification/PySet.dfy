/** The setter and the getter on the heap (hack/render-composition.py, `set_path` and `get_path`). */
module PySet {
  import opened Json
  import opened Wrappers
  import opened Lens
  import opened PyHeap
  import opened PyLoans

  /** One iteration of the setter on a list: pad, then assign or descend. */
  method StepIndex(cell: Cell, seg: nat, rest: Path, value: Ref, ghost u: Tree, ghost ctx: Around, ghost sub: Tree)
    returns (next: Ref, ghost ts: seq<Tree>, ghost made: set<Cell>)
    requires sub.ListTree? && sub.cell == cell && Focus(ctx, sub)
    requires Item(u) && u.Root() == value && !Crosses(sub, [Index(seg)] + rest)
    modifies cell
    ensures seg < |ts| && Focus(InList(ctx, cell, ts, seg), ts[seg]) && next == ts[seg].Root()
    ensures fresh(made) && InList(ctx, cell, ts, seg).Cells() + ts[seg].Cells() <= ctx.Cells() + sub.Cells() + made
    ensures if rest == [] then ts[seg] == u else !Crosses(ts[seg], rest)
    ensures StepDone(sub, Index(seg), rest, u, ListTree(cell, ts))
    ensures InList(ctx, cell, ts, seg).PlugValue(Put(ts[seg].Value(), rest, u.Value()))
         == ctx.PlugValue(Put(sub.Value(), [Index(seg)] + rest, u.Value()))
  {
    assert allocated(ctx.Cells()) && allocated(sub.Cells());
    ts, made := PadList(cell, seg, rest, sub.kids);
    ghost var padded := ListTree(cell, ts).Value().elems;
    if rest == [] {
      ListWritten(cell, sub.kids, ts, seg, u);
      SetElement(cell, seg, value, ts, u);
      ts := ts[seg := u];
      assert ListTree(cell, ts).Value().elems == padded[seg := u.Value()];
    } else {
      ListPadded(cell, sub.kids, ts, seg, rest, u);
    }
    next := cell.node.elems[seg];
    StepDownList(ctx, cell, ts, seg);
    PutIndex(sub.Value().elems, seg, rest, u.Value(), ListTree(cell, ts).Value().elems);
  }

  /** The value side of an indexed step, with `xs` the list after the step. */
  lemma PutIndex(elems: seq<Value>, i: nat, rest: Path, value: Value, xs: seq<Value>)
    requires var padded := Pad(elems, i, Filler(rest));
      xs == if rest == [] then padded[i := value] else padded
    ensures i < |xs|
    ensures var child := Put(xs[i], rest, value);
      Put(Arr(elems), [Index(i)] + rest, value) == if child.Failure? then child else Success(Arr(xs[i := child.value]))
  {
    assert ([Index(i)] + rest)[1..] == rest;
    var padded := Pad(elems, i, Filler(rest));
    var child := Put(xs[i], rest, value);
    if child.Success? {
      assert xs[i := child.value] == padded[i := child.value];
    }
  }

  /** The value side of a named step: what `Put` makes of the dictionary is what it makes of the entry, put back. */
  lemma PutName(fields: map<string, Value>, n: string, rest: Path, value: Value, entry: Value)
    requires if rest == [] then entry == value else entry == Child(fields, n, rest)
    ensures var child := Put(entry, rest, value);
      Put(Obj(fields), [Name(n)] + rest, value) ==
        if child.Failure? then child else Success(Obj(fields[n := entry][n := child.value]))
  {
    assert ([Name(n)] + rest)[1..] == rest;
    var child := Put(entry, rest, value);
    if child.Success? {
      assert fields[n := entry][n := child.value] == fields[n := child.value];
    }
  }

  lemma NameValue(ctx: Around, cell: Cell, before: map<string, Tree>, ts: map<string, Tree>, n: string, rest: Path, u: Tree)
    requires ctx.Valid() && ctx.Hole() == Box(cell) && n in ts && ts == before[n := ts[n]]
    requires if rest == [] then ts[n] == u else ts[n].Value() == Child(DictTree(cell, before).Value().fields, n, rest)
    ensures InDict(ctx, cell, ts, n).PlugValue(Put(ts[n].Value(), rest, u.Value()))
         == ctx.PlugValue(Put(DictTree(cell, before).Value(), [Name(n)] + rest, u.Value()))
  {
    EntryValue(cell, before, n, ts[n]);
    PutName(DictTree(cell, before).Value().fields, n, rest, u.Value(), ts[n].Value());
  }

  /** One iteration of the setter on a dictionary. */
  method StepName(cell: Cell, seg: string, rest: Path, value: Ref, ghost u: Tree, ghost ctx: Around, ghost sub: Tree)
    returns (next: Ref, ghost ts: map<string, Tree>, ghost made: set<Cell>)
    requires sub.DictTree? && sub.cell == cell && Focus(ctx, sub)
    requires Item(u) && u.Root() == value && !Crosses(sub, [Name(seg)] + rest)
    modifies cell
    ensures seg in ts && Focus(InDict(ctx, cell, ts, seg), ts[seg]) && next == ts[seg].Root()
    ensures fresh(made) && InDict(ctx, cell, ts, seg).Cells() + ts[seg].Cells() <= ctx.Cells() + sub.Cells() + made
    ensures if rest == [] then ts[seg] == u else !Crosses(ts[seg], rest)
    ensures StepDone(sub, Name(seg), rest, u, DictTree(cell, ts))
    ensures InDict(ctx, cell, ts, seg).PlugValue(Put(ts[seg].Value(), rest, u.Value()))
         == ctx.PlugValue(Put(sub.Value(), [Name(seg)] + rest, u.Value()))
  {
    assert allocated(ctx.Cells()) && allocated(sub.Cells());
    if rest == [] {
      SetEntry(cell, seg, value, sub.entries, u);
      ts, made := sub.entries[seg := u], {};
      DictWritten(cell, sub.entries, seg, u);
    } else {
      ts, made := EnsureEntry(cell, seg, rest, sub.entries);
      DictFilled(cell, sub.entries, ts, seg, rest, u);
    }
    next := cell.node.fields[seg];
    StepDownDict(ctx, cell, ts, seg);
    NameValue(ctx, cell, sub.entries, ts, seg, rest, u);
  }

  /** The cursor is at `sub`, in the hole of `ctx`, on the way along `p`. */
  ghost predicate At(root: Ref, cur: Ref, ctx: Around, sub: Tree, done: Path)
    reads ctx.Cells(), sub.Cells()
  {
    Focus(ctx, sub) && ctx.Base() == root && cur == sub.Root() && ContextPath(ctx) == done
  }

  /** What a step has done besides moving the cursor from `sub` to `sub'`. */
  ghost predicate Moved(ctx: Around, sub: Tree, seg: Seg, rest: Path, u: Tree, ctx': Around, sub': Tree, here: Tree, made: set<Cell>) {
    ctx.Valid() && ctx'.Valid() &&
    ctx'.Cells() + sub'.Cells() <= ctx.Cells() + sub.Cells() + made &&
    (if rest == [] then sub' == u else !Crosses(sub', rest)) &&
    StepDone(sub, seg, rest, u, here) && ctx'.Plug(sub') == ctx.Plug(here) &&
    ctx'.PlugValue(Put(sub'.Value(), rest, u.Value())) == ctx.PlugValue(Put(sub.Value(), [seg] + rest, u.Value()))
  }

  /** One iteration of the setter on a list position. */
  method StepToIndex(ghost root: Ref, cur: Ref, i: nat, rest: Path, value: Ref, ghost u: Tree, ghost ctx: Around, ghost sub: Tree)
    returns (next: Result<Ref>, ghost ctx': Around, ghost sub': Tree, ghost here: Tree, ghost made: set<Cell>)
    requires At(root, cur, ctx, sub, ContextPath(ctx))
    requires Item(u) && u.Root() == value && !Crosses(sub, [Index(i)] + rest)
    modifies sub.Cells()
    ensures fresh(made)
    ensures next.Failure? ==> ctx.PlugValue(Put(sub.Value(), [Index(i)] + rest, u.Value())) == Failure(BadContainer)
    ensures next.Success? ==> At(root, next.value, ctx', sub', ContextPath(ctx) + [Index(i)])
    ensures next.Success? ==> Moved(ctx, sub, Index(i), rest, u, ctx', sub', here, made)
  {
    if cur.Atom? || !cur.cell.node.ListNode? {
      PlugFailure(ctx, BadContainer);
      return Failure(BadContainer), ctx, sub, sub, {};
    }
    var ref;
    ghost var ts;
    ref, ts, made := StepIndex(cur.cell, i, rest, value, u, ctx, sub);
    assert ts[i := ts[i]] == ts;
    return Success(ref), InList(ctx, cur.cell, ts, i), ts[i], ListTree(cur.cell, ts), made;
  }

  /** One iteration of the setter on a dictionary key. */
  method StepToName(ghost root: Ref, cur: Ref, n: string, rest: Path, value: Ref, ghost u: Tree, ghost ctx: Around, ghost sub: Tree)
    returns (next: Result<Ref>, ghost ctx': Around, ghost sub': Tree, ghost here: Tree, ghost made: set<Cell>)
    requires At(root, cur, ctx, sub, ContextPath(ctx))
    requires Item(u) && u.Root() == value && !Crosses(sub, [Name(n)] + rest)
    modifies sub.Cells()
    ensures fresh(made)
    ensures next.Failure? ==> ctx.PlugValue(Put(sub.Value(), [Name(n)] + rest, u.Value())) == Failure(BadContainer)
    ensures next.Success? ==> At(root, next.value, ctx', sub', ContextPath(ctx) + [Name(n)])
    ensures next.Success? ==> Moved(ctx, sub, Name(n), rest, u, ctx', sub', here, made)
  {
    if cur.Atom? || !cur.cell.node.DictNode? {
      PlugFailure(ctx, BadContainer);
      return Failure(BadContainer), ctx, sub, sub, {};
    }
    var ref;
    ghost var ts;
    ref, ts, made := StepName(cur.cell, n, rest, value, u, ctx, sub);
    assert ts[n := ts[n]] == ts;
    return Success(ref), InDict(ctx, cur.cell, ts, n), ts[n], DictTree(cur.cell, ts), made;
  }

  /** One iteration of the setter: dispatch on the kind of step, failing on the wrong kind of container. */
  method Step(ghost root: Ref, cur: Ref, seg: Seg, rest: Path, value: Ref, ghost u: Tree, ghost ctx: Around, ghost sub: Tree)
    returns (next: Result<Ref>, ghost ctx': Around, ghost sub': Tree, ghost here: Tree, ghost made: set<Cell>)
    requires At(root, cur, ctx, sub, ContextPath(ctx))
    requires Item(u) && u.Root() == value && !Crosses(sub, [seg] + rest)
    modifies sub.Cells()
    ensures fresh(made)
    ensures next.Failure? ==> ctx.PlugValue(Put(sub.Value(), [seg] + rest, u.Value())) == Failure(BadContainer)
    ensures next.Success? ==> At(root, next.value, ctx', sub', ContextPath(ctx) + [seg])
    ensures next.Success? ==> Moved(ctx, sub, seg, rest, u, ctx', sub', here, made)
  {
    match seg
    case Index(i) => next, ctx', sub', here, made := StepToIndex(root, cur, i, rest, value, u, ctx, sub);
    case Name(n) => next, ctx', sub', here, made := StepToName(root, cur, n, rest, value, u, ctx, sub);
  }

  /** The in-place step that returned `r` did to document `t` at `ref` what `spec` says, keeping to its cells
      and those in `made`. */
  ghost predicate Outcome(r: Result<()>, spec: Result<Value>, ref: Ref, t: Tree, after: Tree, made: set<Cell>)
    reads after.Cells()
  {
    (r.Success? <==> spec.Success?) &&
    (r.Success? ==>
      after.Root() == ref && after.Stored() && after.Tidy() && after.Value() == spec.value &&
      after.Cells() <= t.Cells() + made)
  }

  /** The cursor has come to the end of `p`. */
  lemma Arrived(root: Ref, ctx: Around, u: Tree, t: Tree, p: Path, made: set<Cell>)
    requires p != [] && Focus(ctx, u) && ctx.Base() == root
    requires ctx.Cells() + u.Cells() <= t.Cells() + made
    requires ctx.PlugValue(Put(u.Value(), [], u.Value())) == Put(t.Value(), p, u.Value())
    ensures Outcome(Success(()), SetPath(t.Value(), p, u.Value()), root, t, ctx.Plug(u), made)
  {
    Refill(ctx, u);
  }

  /** `i` steps of the setter are done. */
  ghost predicate Track(t: Tree, p: Path, u: Tree, i: nat, ctx: Around, sub: Tree, made: set<Cell>)
    requires i <= |p|
  {
    ctx.Valid() && ContextPath(ctx) == p[..i] &&
    (if i == |p| then sub == u else !Crosses(sub, p[i..])) &&
    ctx.Cells() + sub.Cells() <= t.Cells() + made &&
    Progress(t, ctx.Plug(sub), p, u, i) &&
    ctx.PlugValue(Put(sub.Value(), p[i..], u.Value())) == Put(t.Value(), p, u.Value())
  }

  lemma TrackOn(t: Tree, p: Path, u: Tree, i: nat, ctx: Around, sub: Tree, ctx': Around, sub': Tree, here: Tree,
                made: set<Cell>, created: set<Cell>)
    requires i < |p| && Track(t, p, u, i, ctx, sub, made)
    requires Moved(ctx, sub, p[i], p[i + 1..], u, ctx', sub', here, created) && ContextPath(ctx') == ContextPath(ctx) + [p[i]]
    ensures Track(t, p, u, i + 1, ctx', sub', made + created)
  {
    Peel(p, i);
    Advance(t, ctx, sub, here, p, i, u);
  }

  lemma TrackStart(root: Ref, t: Tree, p: Path, u: Tree)
    requires t.Root() == root && t.Stored() && t.Tidy() && p != [] && !Crosses(t, p)
    ensures At(root, root, Top(root), t, p[..0]) && Track(t, p, u, 0, Top(root), t, {})
  {
    assert p[0..] == p;
  }

  /** The iteration of the setter for `p[i]`. */
  method Walk(ghost root: Ref, cur: Ref, p: Path, i: nat, value: Ref, ghost u: Tree, ghost t: Tree, ghost ctx: Around,
              ghost sub: Tree, ghost made: set<Cell>)
    returns (next: Result<Ref>, ghost ctx': Around, ghost sub': Tree, ghost created: set<Cell>)
    requires i < |p| && At(root, cur, ctx, sub, p[..i]) && Track(t, p, u, i, ctx, sub, made)
    requires Item(u) && u.Root() == value
    modifies sub.Cells()
    ensures fresh(created)
    ensures next.Failure? ==> Put(t.Value(), p, u.Value()).Failure?
    ensures next.Success? ==>
      At(root, next.value, ctx', sub', p[..i + 1]) && Track(t, p, u, i + 1, ctx', sub', made + created)
  {
    Peel(p, i);
    ghost var here;
    next, ctx', sub', here, created := Step(root, cur, p[i], p[i + 1..], value, u, ctx, sub);
    if next.Success? {
      TrackOn(t, p, u, i, ctx, sub, ctx', sub', here, made, created);
    }
  }

  /** What the setter has made of the document when the cursor has come to the end. */
  lemma TrackEnds(root: Ref, cur: Ref, ctx: Around, sub: Tree, u: Tree, t: Tree, p: Path, made: set<Cell>) returns (after: Tree)
    requires p != [] && At(root, cur, ctx, sub, p[..|p|]) && Track(t, p, u, |p|, ctx, sub, made)
    ensures Outcome(Success(()), SetPath(t.Value(), p, u.Value()), root, t, after, made)
    ensures KeptRoots(t, after, p) && LoansAfter(t, p, u, after)
  {
    Arrived(root, ctx, u, t, p, made);
    after := ctx.Plug(u);
  }

  /** The in-place setter, for any reference stored: the heap afterwards holds what `SetPath` says, in the same cells
      plus fresh ones. What is lent at `p` or below is replaced by the item stored, other loans stay, and so do the
      containers on the way. The path must not go on below a loan: there the setter leaves the document. */
  method SetPathInPlace(root: Ref, p: Path, value: Ref, ghost u: Tree, ghost t: Tree)
    returns (r: Result<()>, ghost after: Tree, ghost made: set<Cell>)
    requires t.Root() == root && t.Stored() && t.Tidy()
    requires Item(u) && u.Root() == value && !Crosses(t, p)
    modifies t.Cells()
    ensures Outcome(r, SetPath(t.Value(), p, u.Value()), root, t, after, made) && fresh(made)
    ensures r.Success? ==> KeptRoots(t, after, p) && (if p == [] then after == t else LoansAfter(t, p, u, after))
  {
    after, made := t, {};
    if p == [] {
      return Success(()), t, {};
    }
    var cur := root;
    ghost var ctx, sub := Top(root), t;
    TrackStart(root, t, p, u);
    for i := 0 to |p|
      invariant At(root, cur, ctx, sub, p[..i]) && fresh(made)
      invariant Track(t, p, u, i, ctx, sub, made)
    {
      var next;
      ghost var created;
      assert sub.Cells() <= t.Cells() + made;
      next, ctx, sub, created := Walk(root, cur, p, i, value, u, t, ctx, sub, made);
      if next.Failure? {
        return Failure(next.error), t, {};
      }
      cur, made := next.value, made + created;
    }
    r := Success(());
    after := TrackEnds(root, cur, ctx, sub, u, t, p, made);
  }

  lemma Peel(p: Path, i: nat)
    requires i < |p|
    ensures p[i..] == [p[i]] + p[i + 1..] && p[..i + 1] == p[..i] + [p[i]]
  {
  }

  /** `get_path` on the heap: the reference it returns holds the value `Get` finds, and is where `TreeAt` is. */
  method GetPathInPlace(root: Ref, p: Path, ghost t: Tree) returns (ref: Ref, ghost found: Tree)
    requires t.Root() == root && t.Stored() && t.Owned()
    ensures found.Root() == ref && found.Stored() && found.Owned() && found.Value() == Get(t.Value(), p)
    ensures if Get(t.Value(), p).Scalar() then ref == Atom(Get(t.Value(), p)) else ref.Box?
    ensures ref.Box? ==> TreeAt(t, p) == Some(found)
  {
    ref, found := root, t;
    assert p[0..] == p;
    for i := 0 to |p|
      invariant found.Root() == ref && found.Stored() && found.Owned()
      invariant Get(found.Value(), p[i..]) == Get(t.Value(), p) && TreeAt(found, p[i..]) == TreeAt(t, p)
    {
      assert p[i..][1..] == p[i+1..];
      match p[i]
      case Index(seg) =>
        if ref.Atom? || !ref.cell.node.ListNode? || seg >= |ref.cell.node.elems| {
          return Atom(Null), Leaf(Null);
        }
        ref, found := ref.cell.node.elems[seg], found.kids[seg];
      case Name(seg) =>
        if ref.Atom? || !ref.cell.node.DictNode? || seg !in ref.cell.node.fields {
          return Atom(Null), Leaf(Null);
        }
        ref, found := ref.cell.node.fields[seg], found.entries[seg];
    }
  }
}
