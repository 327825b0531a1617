/** Where a document holds what another lends it, and how a write changes that. */
module PyLoans {
  import opened Json
  import opened Wrappers
  import opened Lens
  import opened PyHeap

  /** The part of a document at a path. */
  function TreeAt(t: Tree, q: Path): Option<Tree> {
    if q == [] then Some(t)
    else match t
      case ListTree(_, ts) => if q[0].Index? && q[0].i < |ts| then TreeAt(ts[q[0].i], q[1..]) else None
      case DictTree(_, ts) => if q[0].Name? && q[0].name in ts then TreeAt(ts[q[0].name], q[1..]) else None
      case _ => None
  }

  function LoanAt(t: Tree, q: Path): Option<Tree> {
    if TreeAt(t, q).Some? && TreeAt(t, q).value.Loan? then TreeAt(t, q) else None
  }

  /** The path goes on below a place where the document holds a loan. */
  predicate Crosses(t: Tree, p: Path) {
    p != [] &&
    match t
    case Leaf(_) => false
    case Loan(_, _) => true
    case ListTree(_, ts) => p[0].Index? && p[0].i < |ts| && Crosses(ts[p[0].i], p[1..])
    case DictTree(_, ts) => p[0].Name? && p[0].name in ts && Crosses(ts[p[0].name], p[1..])
  }

  lemma TreeAtStep(t: Tree, q: Path)
    requires q != []
    ensures TreeAt(t, q) == if TreeAt(t, [q[0]]).Some? then TreeAt(TreeAt(t, [q[0]]).value, q[1..]) else None
  {
    assert [q[0]][1..] == [];
  }

  /** Crossing is passing a place before the path's end where something is on loan. */
  lemma {:induction false} CrossesLoan(t: Tree, p: Path)
    ensures Crosses(t, p) <==> exists q :: q < p && LoanAt(t, q).Some?
    decreases |p|
  {
    if p != [] && t.Loan? {
      assert [] < p && LoanAt(t, []).Some?;
    } else if p != [] && t.Container() {
      var first := TreeAt(t, [p[0]]);
      TreeAtStep(t, p);
      assert [p[0]][1..] == [];
      if first.Some? {
        CrossesLoan(first.value, p[1..]);
        if Crosses(first.value, p[1..]) {
          var r :| r < p[1..] && LoanAt(first.value, r).Some?;
          var q := [p[0]] + r;
          assert q[1..] == r && q < p;
          TreeAtStep(t, q);
          assert LoanAt(t, q).Some?;
        }
      }
      forall q | q < p && LoanAt(t, q).Some?
        ensures Crosses(t, p)
      {
        assert q != [];
        TreeAtStep(t, q);
        assert q[0] == p[0] && q[1..] < p[1..];
        assert LoanAt(first.value, q[1..]).Some?;
      }
    }
  }

  // ---------------------------------------------------------------- before and after a write

  ghost predicate SameLoans(a: Tree, b: Tree) {
    forall q :: LoanAt(b, q) == LoanAt(a, q)
  }

  /** Writing `u` at `p` replaced what was lent there or below. */
  ghost predicate LoansAfter(a: Tree, p: Path, u: Tree, b: Tree) {
    forall q :: LoanAt(b, q) == if p <= q then LoanAt(u, q[|p|..]) else LoanAt(a, q)
  }

  /** The containers on the way to `p` are still the same objects. */
  ghost predicate KeptRoots(a: Tree, b: Tree, p: Path) {
    forall q :: q < p && TreeAt(a, q).Some? && TreeAt(a, q).value.Root().Box? ==>
      TreeAt(b, q).Some? && TreeAt(b, q).value.Root() == TreeAt(a, q).value.Root()
  }

  /** What one step of the setter does to the part under the cursor: containers are made where there are none, and
      the last step stores `u`. */
  ghost predicate StepDone(sub: Tree, seg: Seg, rest: Path, u: Tree, here: Tree) {
    KeptRoots(sub, here, [seg] + rest) &&
    (if rest == [] then LoansAfter(sub, [seg], u, here) else SameLoans(sub, here))
  }

  lemma BareHasNothing(t: Tree, q: Path)
    requires Bare(t)
    ensures LoanAt(t, q) == None && !Crosses(t, q)
    ensures q != [] ==> TreeAt(t, q) == None
  {
  }

  lemma ListPadded(c: Cell, ts: seq<Tree>, padded: seq<Tree>, i: nat, rest: Path, u: Tree)
    requires ts <= padded && i < |padded| && rest != [] && forall j :: |ts| <= j < |padded| ==> Bare(padded[j])
    ensures StepDone(ListTree(c, ts), Index(i), rest, u, ListTree(c, padded))
    ensures !Crosses(ListTree(c, ts), [Index(i)] + rest) ==> !Crosses(padded[i], rest)
  {
    var a, b, p := ListTree(c, ts), ListTree(c, padded), [Index(i)] + rest;
    assert p[1..] == rest;
    if i >= |ts| {
      BareHasNothing(padded[i], rest);
    }
    forall q: Path
      ensures LoanAt(b, q) == LoanAt(a, q)
    {
      if q != [] && q[0].Index? && |ts| <= q[0].i < |padded| {
        BareHasNothing(padded[q[0].i], q[1..]);
      }
    }
  }

  lemma ListWritten(c: Cell, ts: seq<Tree>, padded: seq<Tree>, i: nat, u: Tree)
    requires ts <= padded && i < |padded| && forall j :: |ts| <= j < |padded| ==> Bare(padded[j])
    ensures StepDone(ListTree(c, ts), Index(i), [], u, ListTree(c, padded[i := u]))
  {
    var a, b := ListTree(c, ts), ListTree(c, padded[i := u]);
    forall q: Path
      ensures LoanAt(b, q) == if [Index(i)] <= q then LoanAt(u, q[1..]) else LoanAt(a, q)
    {
      if q != [] && q[0].Index? && |ts| <= q[0].i < |padded| && q[0].i != i {
        BareHasNothing(padded[q[0].i], q[1..]);
      }
    }
  }

  lemma DictFilled(c: Cell, ts: map<string, Tree>, us: map<string, Tree>, k: string, rest: Path, u: Tree)
    requires k in us && us == ts[k := us[k]] && rest != []
    requires if k in ts && ts[k] != Leaf(Null) then us[k] == ts[k] else Bare(us[k])
    ensures StepDone(DictTree(c, ts), Name(k), rest, u, DictTree(c, us))
    ensures !Crosses(DictTree(c, ts), [Name(k)] + rest) ==> !Crosses(us[k], rest)
  {
    var a, b, p := DictTree(c, ts), DictTree(c, us), [Name(k)] + rest;
    assert p[1..] == rest;
    var there := k in ts && ts[k] != Leaf(Null);
    if !there {
      BareHasNothing(us[k], rest);
    }
    forall q: Path
      ensures LoanAt(b, q) == LoanAt(a, q)
    {
      if q != [] && q[0] == Name(k) {
        TreeAtStep(a, q);
        TreeAtStep(b, q);
        if !there {
          BareHasNothing(us[k], q[1..]);
          assert TreeAt(b, q) == TreeAt(us[k], q[1..]);
        }
      }
    }
    forall q: Path | q < p && TreeAt(a, q).Some? && TreeAt(a, q).value.Root().Box?
      ensures TreeAt(b, q).Some? && TreeAt(b, q).value.Root() == TreeAt(a, q).value.Root()
    {
      if q != [] {
        assert q[0] == Name(k);
        TreeAtStep(a, q);
        TreeAtStep(b, q);
      }
    }
  }

  lemma DictWritten(c: Cell, ts: map<string, Tree>, k: string, u: Tree)
    ensures StepDone(DictTree(c, ts), Name(k), [], u, DictTree(c, ts[k := u]))
  {
  }

  // ---------------------------------------------------------------- seen from the whole document

  /** The path from the document's root to the hole. */
  function ContextPath(ctx: Around): Path {
    match ctx
    case Top(_) => []
    case InList(up, _, _, i) => ContextPath(up) + [Index(i)]
    case InDict(up, _, _, k) => ContextPath(up) + [Name(k)]
  }

  /** One level around a part. */
  function Wrap(ctx: Around, t: Tree): Tree
    requires !ctx.Top?
    requires ctx.InList? ==> ctx.i < |ctx.kids|
  {
    match ctx
    case InList(_, c, ts, i) => ListTree(c, ts[i := t])
    case InDict(_, c, ts, k) => DictTree(c, ts[k := t])
  }

  function LastSeg(ctx: Around): Seg
    requires !ctx.Top?
  {
    if ctx.InList? then Index(ctx.i) else Name(ctx.key)
  }

  lemma WrapAt(ctx: Around, t: Tree, q: Path)
    requires !ctx.Top? && ctx.Valid()
    ensures q == [] ==> TreeAt(Wrap(ctx, t), q) == Some(Wrap(ctx, t))
    ensures q != [] && q[0] == LastSeg(ctx) ==> TreeAt(Wrap(ctx, t), q) == TreeAt(t, q[1..])
    ensures q != [] && q[0] != LastSeg(ctx) ==> forall s :: TreeAt(Wrap(ctx, s), q) == TreeAt(Wrap(ctx, t), q)
  {
  }

  lemma WrapSame(ctx: Around, a: Tree, b: Tree)
    requires !ctx.Top? && ctx.Valid() && SameLoans(a, b)
    ensures SameLoans(Wrap(ctx, a), Wrap(ctx, b))
  {
    forall q: Path
      ensures LoanAt(Wrap(ctx, b), q) == LoanAt(Wrap(ctx, a), q)
    {
      WrapAt(ctx, a, q);
      WrapAt(ctx, b, q);
      if q != [] && q[0] == LastSeg(ctx) {
        assert LoanAt(b, q[1..]) == LoanAt(a, q[1..]);
      }
    }
  }

  lemma WrapAfter(ctx: Around, a: Tree, p: Path, u: Tree, b: Tree)
    requires !ctx.Top? && ctx.Valid() && LoansAfter(a, p, u, b)
    ensures LoansAfter(Wrap(ctx, a), [LastSeg(ctx)] + p, u, Wrap(ctx, b))
  {
    var w := [LastSeg(ctx)] + p;
    assert w[1..] == p;
    forall q: Path
      ensures LoanAt(Wrap(ctx, b), q) == if w <= q then LoanAt(u, q[|w|..]) else LoanAt(Wrap(ctx, a), q)
    {
      WrapAt(ctx, a, q);
      WrapAt(ctx, b, q);
      if q != [] && q[0] == LastSeg(ctx) {
        assert LoanAt(b, q[1..]) == if p <= q[1..] then LoanAt(u, q[1..][|p|..]) else LoanAt(a, q[1..]);
        assert w <= q <==> p <= q[1..];
        assert p <= q[1..] ==> q[1..][|p|..] == q[|w|..];
      }
    }
  }

  lemma {:induction false} PlugSame(ctx: Around, a: Tree, b: Tree)
    requires ctx.Valid() && SameLoans(a, b)
    ensures SameLoans(ctx.Plug(a), ctx.Plug(b))
    decreases ctx
  {
    if !ctx.Top? {
      WrapSame(ctx, a, b);
      PlugSame(ctx.up, Wrap(ctx, a), Wrap(ctx, b));
    }
  }

  lemma {:induction false} PlugAfter(ctx: Around, a: Tree, p: Path, u: Tree, b: Tree)
    requires ctx.Valid() && LoansAfter(a, p, u, b)
    ensures LoansAfter(ctx.Plug(a), ContextPath(ctx) + p, u, ctx.Plug(b))
    decreases ctx
  {
    if ctx.Top? {
      assert ContextPath(ctx) + p == p;
    } else {
      WrapAfter(ctx, a, p, u, b);
      PlugAfter(ctx.up, Wrap(ctx, a), [LastSeg(ctx)] + p, u, Wrap(ctx, b));
      assert ContextPath(ctx.up) + ([LastSeg(ctx)] + p) == ContextPath(ctx) + p;
    }
  }

  lemma {:induction false} PlugKept(ctx: Around, a: Tree, b: Tree, p: Path)
    requires ctx.Valid() && KeptRoots(a, b, p)
    ensures KeptRoots(ctx.Plug(a), ctx.Plug(b), ContextPath(ctx) + p)
    decreases ctx
  {
    if ctx.Top? {
      assert ContextPath(ctx) + p == p;
    } else {
      PlugKept(ctx.up, Wrap(ctx, a), Wrap(ctx, b), [LastSeg(ctx)] + p);
      assert ContextPath(ctx.up) + ([LastSeg(ctx)] + p) == ContextPath(ctx) + p;
    }
  }

  /** The first `i` steps of writing `u` at `p` have made `now` of `t`. */
  ghost predicate Progress(t: Tree, now: Tree, p: Path, u: Tree, i: nat) {
    KeptRoots(t, now, p) && (if i < |p| then SameLoans(t, now) else LoansAfter(t, p, u, now))
  }

  lemma Advance(t: Tree, ctx: Around, sub: Tree, here: Tree, p: Path, i: nat, u: Tree)
    requires ctx.Valid() && i < |p| && ContextPath(ctx) == p[..i]
    requires Progress(t, ctx.Plug(sub), p, u, i) && StepDone(sub, p[i], p[i + 1..], u, here)
    ensures Progress(t, ctx.Plug(here), p, u, i + 1)
  {
    var rest := p[i + 1..];
    assert ContextPath(ctx) + ([p[i]] + rest) == p;
    PlugKept(ctx, sub, here, [p[i]] + rest);
    if rest == [] {
      PlugAfter(ctx, sub, [p[i]], u, here);
      assert ContextPath(ctx) + [p[i]] == p;
    } else {
      PlugSame(ctx, sub, here);
    }
  }

}
