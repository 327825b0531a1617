/** Documents on the heap that hold containers of another document: what a ledger says of them, and what a write
    below such a container does to its lender. */
module PyLend {
  import opened Json
  import opened Wrappers
  import opened Lens
  import opened PyHeap
  import opened PyLoans
  import opened PySet
  import opened Sharing

  /** References to the documents that are read: the XR and the Composition. */
  datatype Inputs = Inputs(xr: Ref, composition: Ref)

  /** Those documents. */
  datatype Lenders = Lenders(xr: Tree, composition: Tree)
  {
    function Of(owner: Owner): Tree {
      if owner.TheXr? then xr else composition
    }

    /** `t` in the place of the owner's document. */
    function With(owner: Owner, t: Tree): Lenders {
      if owner.TheXr? then Lenders(t, composition) else Lenders(xr, t)
    }

    function Roots(): Inputs {
      Inputs(xr.Root(), composition.Root())
    }

    ghost function Cells(): set<Cell> {
      xr.Cells() + composition.Cells()
    }

    ghost predicate Stored()
      reads Cells()
    {
      xr.Stored() && composition.Stored()
    }

    /** Two documents in cells of their own, with nothing on loan. */
    ghost predicate Proper() {
      xr.Tidy() && xr.Owned() && composition.Tidy() && composition.Owned() && xr.Cells() !! composition.Cells()
    }
  }

  /** `u` is the container of `x` at `s`. */
  predicate LendsAt(x: Tree, s: Path, u: Tree) {
    TreeAt(x, s).Some? && TreeAt(x, s).value.Container() && u.Loan? &&
    u.Root() == TreeAt(x, s).value.Root() && u.lent == TreeAt(x, s).value.Value()
  }

  predicate Lends(x: Lenders, s: Source, u: Tree) {
    LendsAt(x.Of(s.owner), s.path, u)
  }

  /** The ledger says where in `t` containers of `x` are, and which. */
  ghost predicate LedgerOf(t: Tree, x: Lenders, ledger: Ledger) {
    forall q: Path :: (q in ledger <==> LoanAt(t, q).Some?) && (q in ledger ==> Lends(x, ledger[q], LoanAt(t, q).value))
  }

  /** What is stored is a scalar, or the container of `x` at the source. */
  ghost predicate ItemFrom(x: Lenders, source: Option<Source>, u: Tree) {
    if source.Some? then Lends(x, source.value, u) else u.Leaf?
  }

  lemma {:induction false} OwnedLendsNothing(t: Tree, q: Path)
    requires t.Owned()
    ensures LoanAt(t, q) == None
    decreases |q|
  {
    if q != [] && t.Container() {
      var first := TreeAt(t, [q[0]]);
      TreeAtStep(t, q);
      assert [q[0]][1..] == [];
      if first.Some? {
        OwnedLendsNothing(first.value, q[1..]);
      }
    }
  }

  lemma EmptyLedger(t: Tree, x: Lenders)
    requires t.Owned()
    ensures LedgerOf(t, x, map[])
  {
    forall q: Path
      ensures LoanAt(t, q) == None
    {
      OwnedLendsNothing(t, q);
    }
  }

  lemma LedgerKept(t: Tree, x: Lenders, ledger: Ledger, p: Path, source: Option<Source>, u: Tree, after: Tree)
    requires LedgerOf(t, x, ledger) && LoansAfter(t, p, u, after) && ItemFrom(x, source, u)
    ensures LedgerOf(after, x, Lent(ledger, p, source))
  {
    var next := Lent(ledger, p, source);
    forall q: Path
      ensures (q in next <==> LoanAt(after, q).Some?) && (q in next ==> Lends(x, next[q], LoanAt(after, q).value))
    {
      assert LoanAt(after, q) == if p <= q then LoanAt(u, q[|p|..]) else LoanAt(t, q);
      assert q in ledger <==> LoanAt(t, q).Some?;
      if p <= q {
        assert q[|p|..] == [] <==> q == p;
      }
    }
  }

  /** On the heap as in the ledger, a path goes on below a loan or does not. */
  lemma CrossesIsBelow(t: Tree, x: Lenders, ledger: Ledger, p: Path)
    requires LedgerOf(t, x, ledger)
    ensures Crosses(t, p) <==> GoesBelow(ledger, p)
  {
    CrossesLoan(t, p);
    if GoesBelow(ledger, p) {
      var b :| b in ledger && b < p;
      assert LoanAt(t, b).Some?;
    }
    if q: Path :| q < p && LoanAt(t, q).Some? {
      assert q in ledger;
    }
  }

  // ---------------------------------------------------------------- going down to a part of a document

  lemma {:induction false} TreeAtValue(t: Tree, q: Path)
    requires TreeAt(t, q).Some?
    ensures Has(t.Value(), q) && Get(t.Value(), q) == TreeAt(t, q).value.Value()
    decreases |q|
  {
    if q != [] {
      match t
      case ListTree(_, ts) => TreeAtValue(ts[q[0].i], q[1..]);
      case DictTree(_, ts) => TreeAtValue(ts[q[0].name], q[1..]);
    }
  }

  lemma {:induction false} PartStored(t: Tree, q: Path)
    requires t.Stored() && t.Tidy() && TreeAt(t, q).Some?
    ensures TreeAt(t, q).value.Stored() && TreeAt(t, q).value.Tidy() && TreeAt(t, q).value.Cells() <= t.Cells()
    decreases |q|
  {
    if q != [] {
      match t
      case ListTree(_, ts) =>
        var i := q[0].i;
        assert ts[i].Cells() <= t.Cells();
        PartStored(ts[i], q[1..]);
      case DictTree(_, ts) =>
        var n := q[0].name;
        assert ts[n].Cells() <= t.Cells();
        PartStored(ts[n], q[1..]);
    }
  }

  lemma {:induction false} OwnedPart(t: Tree, q: Path)
    requires t.Owned() && TreeAt(t, q).Some?
    ensures TreeAt(t, q).value.Owned()
    decreases |q|
  {
    if q != [] {
      match t
      case ListTree(_, ts) => OwnedPart(ts[q[0].i], q[1..]);
      case DictTree(_, ts) => OwnedPart(ts[q[0].name], q[1..]);
    }
  }

  /** `sub`, in the hole of `below`, is the part at `b` of `t`, in the hole of `ctx`; a write at `r` below is, for the
      whole, one at `b + r`. */
  ghost predicate PartOf(ctx: Around, t: Tree, b: Path, below: Around, sub: Tree, r: Path, v: Value)
    requires ctx.Valid() && below.Valid()
  {
    ContextPath(below) == ContextPath(ctx) + b && below.Base() == ctx.Base() &&
    below.Cells() + sub.Cells() == ctx.Cells() + t.Cells() && below.Plug(sub) == ctx.Plug(t) &&
    below.PlugValue(Put(sub.Value(), r, v)) == ctx.PlugValue(Put(t.Value(), b + r, v))
  }

  lemma InListPart(ctx: Around, c: Cell, ts: seq<Tree>, i: nat, r: Path, v: Value)
    requires Focus(ctx, ListTree(c, ts)) && i < |ts| && r != []
    ensures Focus(InList(ctx, c, ts, i), ts[i])
    ensures PartOf(ctx, ListTree(c, ts), [Index(i)], InList(ctx, c, ts, i), ts[i], r, v)
  {
    StepDownList(ctx, c, ts, i);
    assert ts[i := ts[i]] == ts;
    PutIndex(ListTree(c, ts).Value().elems, i, r, v, ListTree(c, ts).Value().elems);
  }

  lemma InDictPart(ctx: Around, c: Cell, ts: map<string, Tree>, n: string, r: Path, v: Value)
    requires Focus(ctx, DictTree(c, ts)) && n in ts && ts[n].Value() != Null && r != []
    ensures Focus(InDict(ctx, c, ts, n), ts[n])
    ensures PartOf(ctx, DictTree(c, ts), [Name(n)], InDict(ctx, c, ts, n), ts[n], r, v)
  {
    StepDownDict(ctx, c, ts, n);
    assert ts[n := ts[n]] == ts;
    var fields := DictTree(c, ts).Value().fields;
    PutName(fields, n, r, v, ts[n].Value());
    assert fields[n := ts[n].Value()] == fields;
  }

  lemma PartOfPart(ctx: Around, t: Tree, a: Path, mid: Around, m: Tree, b: Path, below: Around, sub: Tree, r: Path, v: Value)
    requires ctx.Valid() && mid.Valid() && below.Valid()
    requires PartOf(ctx, t, a, mid, m, b + r, v) && PartOf(mid, m, b, below, sub, r, v)
    ensures PartOf(ctx, t, a + b, below, sub, r, v)
  {
    PathAssoc(a, b, r);
    PathAssoc(ContextPath(ctx), a, b);
  }

  lemma PathAssoc(a: Path, b: Path, c: Path)
    ensures (a + b) + c == a + (b + c)
  {
  }

  /** The cursor goes down to a part. */
  lemma {:induction false} Descend(ctx: Around, t: Tree, b: Path, r: Path, v: Value) returns (below: Around)
    requires Focus(ctx, t) && TreeAt(t, b).Some? && TreeAt(t, b).value.Value() != Null && r != []
    ensures Focus(below, TreeAt(t, b).value) && PartOf(ctx, t, b, below, TreeAt(t, b).value, r, v)
    decreases |b|
  {
    if b == [] {
      below := ctx;
      assert b + r == r && ContextPath(ctx) + b == ContextPath(ctx);
    } else {
      assert [b[0]] + b[1..] == b;
      match t
      case ListTree(c, ts) =>
        var i := b[0].i;
        InListPart(ctx, c, ts, i, b[1..] + r, v);
        below := Descend(InList(ctx, c, ts, i), ts[i], b[1..], r, v);
        PartOfPart(ctx, t, [b[0]], InList(ctx, c, ts, i), ts[i], b[1..], below, TreeAt(t, b).value, r, v);
      case DictTree(c, ts) =>
        var n := b[0].name;
        InDictPart(ctx, c, ts, n, b[1..] + r, v);
        below := Descend(InDict(ctx, c, ts, n), ts[n], b[1..], r, v);
        PartOfPart(ctx, t, [b[0]], InDict(ctx, c, ts, n), ts[n], b[1..], below, TreeAt(t, b).value, r, v);
    }
  }

  lemma {:induction false} PlugAt(ctx: Around, t: Tree, r: Path)
    requires ctx.Valid()
    ensures TreeAt(ctx.Plug(t), ContextPath(ctx) + r) == TreeAt(t, r)
    decreases ctx
  {
    if ctx.Top? {
      assert ContextPath(ctx) + r == r;
    } else {
      var s := [LastSeg(ctx)] + r;
      assert s[1..] == r && ContextPath(ctx.up) + s == ContextPath(ctx) + r;
      WrapAt(ctx, t, s);
      PlugAt(ctx.up, Wrap(ctx, t), s);
    }
  }

  lemma {:induction false} AboveIsContainer(t: Tree, b: Path, q: Path)
    requires TreeAt(t, b).Some? && q < b
    ensures TreeAt(t, q).Some? && TreeAt(t, q).value.Container()
    decreases |q|
  {
    if q != [] {
      assert q[0] == b[0] && q[1..] < b[1..];
      match t
      case ListTree(_, ts) => AboveIsContainer(ts[q[0].i], b[1..], q[1..]);
      case DictTree(_, ts) => AboveIsContainer(ts[q[0].name], b[1..], q[1..]);
    }
  }

  /** With a container of the lender's own opened in its hole, nothing is lent on the way. */
  lemma OpenedIsClear(ctx: Around, y: Tree, r: Path)
    requires ctx.Valid() && y.Owned()
    ensures !Crosses(ctx.Plug(y), ContextPath(ctx) + r)
  {
    var t, b := ctx.Plug(y), ContextPath(ctx);
    CrossesLoan(t, b + r);
    PlugAt(ctx, y, []);
    assert b + [] == b;
    forall q: Path | q < b + r
      ensures LoanAt(t, q) == None
    {
      if q < b {
        AboveIsContainer(t, b, q);
      } else {
        assert q == b + q[|b|..];
        PlugAt(ctx, y, q[|b|..]);
        OwnedLendsNothing(y, q[|b|..]);
      }
    }
  }

  lemma OneLoanOnTheWay(t: Tree, a: Path, b: Path, p: Path)
    requires LoanAt(t, a).Some? && LoanAt(t, b).Some? && a < p && b < p
    ensures a == b
  {
    if a < b {
      AboveIsContainer(t, b, a);
    } else if b < a {
      AboveIsContainer(t, a, b);
    } else {
      assert a == p[..|a|] && b == p[..|b|];
    }
  }

  // ---------------------------------------------------------------- writing below a loan

  /** Documents in cells of their own; `t` may hold containers of `x`. */
  ghost predicate Apart(inputs: Inputs, x: Lenders, ref: Ref, t: Tree)
    reads x.Cells(), t.Cells()
  {
    x.Roots() == inputs && x.Stored() && x.Proper() &&
    t.Root() == ref && t.Stored() && t.Tidy() && x.Cells() !! t.Cells()
  }

  /** The container `y` of the lender `x` is its part at `s`, around which is `inX`. */
  ghost predicate Lender(x: Tree, s: Path, r: Path, v: Value, y: Tree, inX: Around) {
    y.Owned() && y.Container() && inX.Valid() && inX.Tidy() && inX.Hole() == y.Root() && inX.Cells() !! y.Cells() &&
    PartOf(Top(x.Root()), x, s, inX, y, r, v) && inX.Cells() + y.Cells() == x.Cells()
  }

  /** `doc` is `t` with the loan at `b` opened: there it is `y`, whose own cells count as its part. */
  ghost predicate Opened(t: Tree, b: Path, r: Path, y: Tree, inT: Around, doc: Tree) {
    inT.Valid() && ContextPath(inT) == b && inT.Cells() <= t.Cells() &&
    doc.Root() == t.Root() && doc.Tidy() && doc.Cells() == inT.Cells() + y.Cells() && doc.Value() == t.Value() &&
    Has(t.Value(), b) && Get(t.Value(), b) == y.Value() && TreeAt(doc, b) == Some(y) && !Crosses(doc, b + r)
  }

  lemma FindLender(xr: Ref, x: Tree, s: Path, r: Path, v: Value) returns (y: Tree, inX: Around)
    requires x.Root() == xr && x.Stored() && x.Tidy() && x.Owned() && r != []
    requires TreeAt(x, s).Some? && TreeAt(x, s).value.Container()
    ensures y == TreeAt(x, s).value && Lender(x, s, r, v, y, inX) && inX.Stored() && y.Stored() && y.Tidy()
  {
    y := TreeAt(x, s).value;
    OwnedPart(x, s);
    assert Focus(Top(xr), x);
    inX := Descend(Top(xr), x, s, r, v);
    assert Focus(inX, y);
  }

  lemma OpenLoan(ref: Ref, t: Tree, b: Path, r: Path, y: Tree) returns (inT: Around, doc: Tree)
    requires t.Root() == ref && t.Stored() && t.Tidy() && LoanAt(t, b).Some? && r != []
    requires y.Owned() && y.Container() && y.Stored() && y.Tidy() && y.Cells() !! t.Cells()
    requires LoanAt(t, b).value.Root() == y.Root() && LoanAt(t, b).value.Value() == y.Value()
    ensures Opened(t, b, r, y, inT, doc) && doc.Stored()
  {
    var loan := LoanAt(t, b).value;
    assert Focus(Top(ref), t);
    inT := Descend(Top(ref), t, b, r, Null);
    TreeAtValue(t, b);
    assert Focus(inT, y);
    doc := inT.Plug(y);
    Refill(inT, y);
    Refill(inT, loan);
    PlugAt(inT, y, []);
    assert b + [] == b;
    OpenedIsClear(inT, y, r);
  }

  /** The document around a hole, with `t` in it. */
  lemma Plugged(ctx: Around, t: Tree, q: Path)
    requires Focus(ctx, t) && ContextPath(ctx) == q
    ensures var d := ctx.Plug(t);
      d.Root() == ctx.Base() && d.Stored() && d.Tidy() && d.Cells() == ctx.Cells() + t.Cells() &&
      Success(d.Value()) == ctx.PlugValue(Success(t.Value())) && TreeAt(d, q) == Some(t)
  {
    Refill(ctx, t);
    PlugAt(ctx, t, []);
    assert q + [] == q;
  }

  /** What was written below the loan was written into the lender. */
  lemma CloseLoan(x: Tree, t: Tree, s: Path, b: Path, r: Path, v: Value, y: Tree, inX: Around, inT: Around, doc: Tree,
                  after: Tree, made: set<Cell>)
    returns (lender: Tree)
    requires Lender(x, s, r, v, y, inX) && Opened(t, b, r, y, inT, doc) && x.Cells() !! t.Cells() && r != []
    requires after.Stored() && after.Tidy() && KeptRoots(doc, after, b + r) && after.Cells() <= doc.Cells() + made
    requires Put(t.Value(), b + r, v) == Success(after.Value())
    requires inX.Stored() && inX.Cells() !! made
    ensures lender.Stored() && lender.Root() == x.Root() && Success(lender.Value()) == Put(x.Value(), s + r, v)
    ensures TreeAt(lender, s).Some? && TreeAt(lender, s).value.Root() == y.Root()
    ensures Success(TreeAt(lender, s).value.Value()) == Put(y.Value(), r, v)
  {
    var y' := WrittenPart(t, b, r, v, y, inT, doc, after);
    assert inX.Cells() !! y'.Cells() by {
      assert y'.Cells() <= after.Cells();
    }
    assert Focus(inX, y');
    assert ContextPath(inX) == s;
    Plugged(inX, y', s);
    lender := inX.Plug(y');
  }

  /** The part at a loan that was opened and written below. */
  lemma WrittenPart(t: Tree, b: Path, r: Path, v: Value, y: Tree, inT: Around, doc: Tree, after: Tree) returns (y': Tree)
    requires Opened(t, b, r, y, inT, doc) && y.Container() && r != []
    requires after.Stored() && after.Tidy() && KeptRoots(doc, after, b + r)
    requires Put(t.Value(), b + r, v) == Success(after.Value())
    ensures TreeAt(after, b) == Some(y') && y'.Root() == y.Root() && y'.Stored() && y'.Tidy() && y'.Cells() <= after.Cells()
    ensures Success(y'.Value()) == Put(y.Value(), r, v)
  {
    assert b < b + r;
    y' := TreeAt(after, b).value;
    PartStored(after, b);
    TreeAtValue(after, b);
    PutBelow(t.Value(), b, r, v);
  }

  // ---------------------------------------------------------------- another document that holds the same container

  /** Once a container that `d` has on loan holds `now`, with `v` written at `r` in it, so does `d`. */
  lemma ChangedToo(ref: Ref, d: Tree, q: Path, r: Path, v: Value, now: Value) returns (d': Tree)
    requires d.Root() == ref && d.Stored() && d.Tidy() && r != [] && LoanAt(d, q).Some?
    requires Success(now) == Put(LoanAt(d, q).value.Value(), r, v)
    ensures d'.Root() == ref && d'.Stored() && d'.Cells() == d.Cells() && Success(d'.Value()) == Put(d.Value(), q + r, v)
    ensures LoanAt(d', q) == Some(Loan(LoanAt(d, q).value.lender, now))
  {
    var loan := LoanAt(d, q).value;
    assert Focus(Top(ref), d);
    PartStored(d, q);
    var inD := Descend(Top(ref), d, q, r, v);
    Replaced(ref, d, q, r, v, inD, loan, Loan(loan.lender, now));
    d' := inD.Plug(Loan(loan.lender, now));
  }

  lemma Replaced(ref: Ref, d: Tree, q: Path, r: Path, v: Value, inD: Around, loan: Tree, now: Tree)
    requires Focus(inD, loan) && loan.Loan? && now.Loan? && now.lender == loan.lender && r != []
    requires PartOf(Top(ref), d, q, inD, loan, r, v) && Success(now.Value()) == Put(loan.Value(), r, v)
    ensures var d' := inD.Plug(now);
      d'.Root() == ref && d'.Stored() && d'.Cells() == d.Cells() && Success(d'.Value()) == Put(d.Value(), q + r, v) &&
      TreeAt(d', q) == Some(now)
  {
    assert Focus(inD, now);
    assert ContextPath(inD) == q;
    Plugged(inD, now, q);
  }
}
