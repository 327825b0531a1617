/** Documents as Python keeps them: mutable dictionaries and lists on the heap, shared by reference.
    A `Tree` names the cells that make up one document, so that "the document stored at this reference" and
    "the cells it occupies" can be spoken of. */
module PyHeap {
  import opened Json
  import opened Wrappers
  import opened Lens

  type Scalar = v: Value | v.Scalar() witness Null

  /** A Python reference: an immutable scalar or a container object. */
  datatype Ref = Atom(value: Scalar) | Box(cell: Cell)

  datatype Node = ListNode(elems: seq<Ref>) | DictNode(fields: map<string, Ref>)

  class Cell {
    var node: Node

    constructor (node: Node)
      ensures this.node == node
    {
      this.node := node;
    }
  }

  // ---------------------------------------------------------------- documents in the heap

  /** A document and the cells it is made of. A loan is a container that another document lends: storing a value
      stores the reference, so the container's cells stay the lender's. */
  datatype Tree =
    | Leaf(value: Scalar)
    | Loan(lender: Cell, lent: Value)
    | ListTree(cell: Cell, kids: seq<Tree>)
    | DictTree(cell: Cell, entries: map<string, Tree>)
  {
    predicate Container() {
      ListTree? || DictTree?
    }

    function Root(): Ref {
      match this
      case Leaf(v) => Atom(v)
      case Loan(c, _) => Box(c)
      case ListTree(c, _) => Box(c)
      case DictTree(c, _) => Box(c)
    }

    /** No part is on loan. */
    predicate Owned() {
      match this
      case Leaf(_) => true
      case Loan(_, _) => false
      case ListTree(_, ts) => forall i :: 0 <= i < |ts| ==> ts[i].Owned()
      case DictTree(_, ts) => forall k :: k in ts ==> ts[k].Owned()
    }

    /** What the container at the root must hold. */
    function Shape(): Node
      requires Container()
    {
      if ListTree? then ListNode(seq(|kids|, i requires 0 <= i < |kids| => kids[i].Root()))
      else DictNode(map k | k in entries :: entries[k].Root())
    }

    function Value(): Value {
      match this
      case Leaf(v) => v
      case Loan(_, v) => v
      case ListTree(_, ts) => Arr(seq(|ts|, i requires 0 <= i < |ts| => ts[i].Value()))
      case DictTree(_, ts) => Obj(map k | k in ts :: ts[k].Value())
    }

    /** Its own cells. */
    ghost function Cells(): set<Cell> {
      match this
      case Leaf(_) => {}
      case Loan(_, _) => {}
      case ListTree(c, ts) => {c} + set i: nat, d | i < |ts| && d in ts[i].Cells() :: d
      case DictTree(c, ts) => {c} + set k, d | k in ts && d in ts[k].Cells() :: d
    }

    /** No cell occurs twice. */
    ghost predicate Tidy() {
      match this
      case Leaf(_) => true
      case Loan(_, _) => true
      case ListTree(c, ts) =>
        (forall i :: 0 <= i < |ts| ==> ts[i].Tidy() && c !in ts[i].Cells()) &&
        (forall i, j :: 0 <= i < j < |ts| ==> ts[i].Cells() !! ts[j].Cells())
      case DictTree(c, ts) =>
        (forall k :: k in ts ==> ts[k].Tidy() && c !in ts[k].Cells()) &&
        (forall k, l :: k in ts && l in ts && k != l ==> ts[k].Cells() !! ts[l].Cells())
    }

    /** The heap holds this document, given that what is on loan is as the lender holds it. */
    ghost predicate Stored()
      reads Cells()
    {
      match this
      case Leaf(_) => true
      case Loan(_, v) => !v.Scalar()
      case ListTree(c, ts) => c.node == Shape() && forall i :: 0 <= i < |ts| ==> ts[i].Stored()
      case DictTree(c, ts) => c.node == Shape() && forall k :: k in ts ==> ts[k].Stored()
    }
  }

  // ---------------------------------------------------------------- a document with a hole

  /** The part of a document around a cursor: the containers above it with their other entries. */
  datatype Around =
    | Top(root: Ref)
    | InList(up: Around, cell: Cell, kids: seq<Tree>, i: nat)
    | InDict(up: Around, cell: Cell, entries: map<string, Tree>, key: string)
  {
    predicate Valid() {
      match this
      case Top(_) => true
      case InList(up, _, ts, i) => up.Valid() && i < |ts| && up.Hole() == Box(cell)
      case InDict(up, _, ts, k) => up.Valid() && k in ts && up.Hole() == Box(cell)
    }

    /** The reference at the hole. */
    function Hole(): Ref
      requires InList? ==> i < |kids|
      requires InDict? ==> key in entries
    {
      match this
      case Top(r) => r
      case InList(_, _, ts, i) => ts[i].Root()
      case InDict(_, _, ts, k) => ts[k].Root()
    }

    /** The reference to the whole document. */
    function Base(): Ref {
      match this
      case Top(r) => r
      case InList(up, _, _, _) => up.Base()
      case InDict(up, _, _, _) => up.Base()
    }

    ghost function Cells(): set<Cell> {
      match this
      case Top(_) => {}
      case InList(up, c, ts, i) => up.Cells() + {c} + set j: nat, d | j < |ts| && j != i && d in ts[j].Cells() :: d
      case InDict(up, c, ts, k) => up.Cells() + {c} + set l, d | l in ts && l != k && d in ts[l].Cells() :: d
    }

    ghost predicate Tidy() {
      match this
      case Top(_) => true
      case InList(up, c, ts, i) =>
        up.Tidy() && c !in up.Cells() &&
        (forall j :: 0 <= j < |ts| && j != i ==> ts[j].Tidy() && c !in ts[j].Cells() && up.Cells() !! ts[j].Cells()) &&
        (forall j, l :: 0 <= j < l < |ts| && j != i && l != i ==> ts[j].Cells() !! ts[l].Cells())
      case InDict(up, c, ts, k) =>
        up.Tidy() && c !in up.Cells() &&
        (forall l :: l in ts && l != k ==> ts[l].Tidy() && c !in ts[l].Cells() && up.Cells() !! ts[l].Cells()) &&
        (forall j, l :: j in ts && l in ts && j != l && j != k && l != k ==> ts[j].Cells() !! ts[l].Cells())
    }

    ghost predicate Stored()
      requires Valid()
      reads Cells()
    {
      match this
      case Top(_) => true
      case InList(up, c, ts, i) =>
        up.Stored() && c.node == ListTree(c, ts).Shape() && forall j :: 0 <= j < |ts| && j != i ==> ts[j].Stored()
      case InDict(up, c, ts, k) =>
        up.Stored() && c.node == DictTree(c, ts).Shape() && forall l :: l in ts && l != k ==> ts[l].Stored()
    }

    /** The whole document, with `t` in the hole. */
    function Plug(t: Tree): Tree
      requires Valid()
    {
      match this
      case Top(_) => t
      case InList(up, c, ts, i) => up.Plug(ListTree(c, ts[i := t]))
      case InDict(up, c, ts, k) => up.Plug(DictTree(c, ts[k := t]))
    }

    function PlugValue(v: Result<Json.Value>): Result<Json.Value>
      requires Valid()
      decreases this
    {
      match this
      case Top(_) => v
      case InList(up, _, ts, i) =>
        up.PlugValue(if v.Failure? then v else Success(Arr(ListTree(cell, ts).Value().elems[i := v.value])))
      case InDict(up, _, ts, k) =>
        up.PlugValue(if v.Failure? then v else Success(Obj(DictTree(cell, ts).Value().fields[k := v.value])))
    }
  }

  /** `sub` sits in the hole of `ctx`, and the heap holds both, disjointly. */
  ghost predicate Focus(ctx: Around, sub: Tree)
    reads ctx.Cells(), sub.Cells()
  {
    ctx.Valid() && ctx.Hole() == sub.Root() && ctx.Tidy() && sub.Tidy() && ctx.Cells() !! sub.Cells() &&
    ctx.Stored() && sub.Stored()
  }

  ghost function ListKids(ts: seq<Tree>): set<Cell> {
    set i: nat, d | i < |ts| && d in ts[i].Cells() :: d
  }

  ghost function ListOthers(ts: seq<Tree>, i: nat): set<Cell> {
    set j: nat, d | j < |ts| && j != i && d in ts[j].Cells() :: d
  }

  ghost function DictKids(ts: map<string, Tree>): set<Cell> {
    set k, d | k in ts && d in ts[k].Cells() :: d
  }

  ghost function DictOthers(ts: map<string, Tree>, k: string): set<Cell> {
    set l, d | l in ts && l != k && d in ts[l].Cells() :: d
  }

  /** The cells of a container after one entry is replaced. */
  lemma ListCells(c: Cell, ts: seq<Tree>, i: nat, t: Tree)
    requires i < |ts|
    ensures ListTree(c, ts[i := t]).Cells() == {c} + t.Cells() + ListOthers(ts, i)
  {
    var us := ts[i := t];
    forall d | d in t.Cells()
      ensures d in ListKids(us)
    {
      assert d in us[i].Cells();
    }
    forall d | d in ListOthers(ts, i)
      ensures d in ListKids(us)
    {
      var j: nat :| j < |ts| && j != i && d in ts[j].Cells();
      assert d in us[j].Cells();
    }
    forall d | d in ListKids(us)
      ensures d in t.Cells() + ListOthers(ts, i)
    {
      var j: nat :| j < |us| && d in us[j].Cells();
      assert d in if j == i then t.Cells() else ts[j].Cells();
    }
    assert ListTree(c, us).Cells() == {c} + ListKids(us);
  }

  lemma DictCells(c: Cell, ts: map<string, Tree>, k: string, t: Tree)
    ensures DictTree(c, ts[k := t]).Cells() == {c} + t.Cells() + DictOthers(ts, k)
  {
    var us := ts[k := t];
    forall d | d in t.Cells()
      ensures d in DictKids(us)
    {
      assert d in us[k].Cells();
    }
    forall d | d in DictOthers(ts, k)
      ensures d in DictKids(us)
    {
      var l :| l in ts && l != k && d in ts[l].Cells();
      assert d in us[l].Cells();
    }
    forall d | d in DictKids(us)
      ensures d in t.Cells() + DictOthers(ts, k)
    {
      var l :| l in us && d in us[l].Cells();
      assert d in if l == k then t.Cells() else ts[l].Cells();
    }
    assert DictTree(c, us).Cells() == {c} + DictKids(us);
  }

  /** One step up: the container around the hole, with `t` in it, sits in the hole above. */
  lemma StepUpList(up: Around, c: Cell, ts: seq<Tree>, i: nat, t: Tree)
    requires Focus(InList(up, c, ts, i), t)
    ensures Focus(up, ListTree(c, ts[i := t]))
    ensures up.Cells() + ListTree(c, ts[i := t]).Cells() == InList(up, c, ts, i).Cells() + t.Cells()
    ensures ListTree(c, ts[i := t]).Value() == Arr(ListTree(c, ts).Value().elems[i := t.Value()])
  {
    var us := ts[i := t];
    assert ListTree(c, us).Shape() == ListTree(c, ts).Shape();
    ListCells(c, ts, i, t);
    assert InList(up, c, ts, i).Cells() == up.Cells() + {c} + ListOthers(ts, i);
    assert ListTree(c, us).Value().elems == ListTree(c, ts).Value().elems[i := t.Value()];
    assert forall j :: 0 <= j < |ts| && j != i ==> us[j] == ts[j] && ts[j].Cells() <= InList(up, c, ts, i).Cells();
  }

  lemma UpDictCells(up: Around, c: Cell, ts: map<string, Tree>, k: string, t: Tree)
    requires k in ts
    ensures DictTree(c, ts[k := t]).Cells() == {c} + t.Cells() + DictOthers(ts, k)
    ensures InDict(up, c, ts, k).Cells() == up.Cells() + {c} + DictOthers(ts, k)
    ensures forall l :: l in ts && l != k ==> ts[l].Cells() <= InDict(up, c, ts, k).Cells()
  {
    DictCells(c, ts, k, t);
  }

  lemma UpDictTidy(up: Around, c: Cell, ts: map<string, Tree>, k: string, t: Tree)
    requires k in ts && InDict(up, c, ts, k).Tidy() && t.Tidy() && InDict(up, c, ts, k).Cells() !! t.Cells()
    ensures up.Tidy() && DictTree(c, ts[k := t]).Tidy() && up.Cells() !! DictTree(c, ts[k := t]).Cells()
    ensures up.Cells() + DictTree(c, ts[k := t]).Cells() == InDict(up, c, ts, k).Cells() + t.Cells()
  {
    UpDictCells(up, c, ts, k, t);
  }

  lemma StepUpDict(up: Around, c: Cell, ts: map<string, Tree>, k: string, t: Tree)
    requires Focus(InDict(up, c, ts, k), t)
    ensures Focus(up, DictTree(c, ts[k := t]))
    ensures up.Cells() + DictTree(c, ts[k := t]).Cells() == InDict(up, c, ts, k).Cells() + t.Cells()
    ensures DictTree(c, ts[k := t]).Value() == Obj(DictTree(c, ts).Value().fields[k := t.Value()])
  {
    var us := ts[k := t];
    UpDictTidy(up, c, ts, k, t);
    EntryValue(c, ts, k, t);
    assert DictTree(c, us).Shape() == DictTree(c, ts).Shape();
    assert forall l :: l in ts && l != k ==> us[l] == ts[l];
  }

  /** Refilling the hole gives back a stored document. */
  lemma {:induction false} Refill(ctx: Around, t: Tree)
    requires Focus(ctx, t)
    ensures ctx.Plug(t).Stored() && ctx.Plug(t).Tidy()
    ensures ctx.Plug(t).Cells() == ctx.Cells() + t.Cells() && ctx.Plug(t).Root() == ctx.Base()
    ensures Success(ctx.Plug(t).Value()) == ctx.PlugValue(Success(t.Value()))
    decreases ctx
  {
    match ctx
    case Top(_) =>
    case InList(up, c, ts, i) =>
      StepUpList(up, c, ts, i, t);
      Refill(up, ListTree(c, ts[i := t]));
    case InDict(up, c, ts, k) =>
      StepUpDict(up, c, ts, k, t);
      Refill(up, DictTree(c, ts[k := t]));
  }

  /** One step down: the cursor moves to an entry of the container under it. */
  lemma StepDownList(ctx: Around, c: Cell, ts: seq<Tree>, i: nat)
    requires Focus(ctx, ListTree(c, ts)) && i < |ts|
    ensures Focus(InList(ctx, c, ts, i), ts[i])
    ensures InList(ctx, c, ts, i).Cells() + ts[i].Cells() == ctx.Cells() + ListTree(c, ts).Cells()
  {
    assert ts[i := ts[i]] == ts;
    ListCells(c, ts, i, ts[i]);
    assert InList(ctx, c, ts, i).Cells() == ctx.Cells() + {c} + ListOthers(ts, i);
    assert forall j :: 0 <= j < |ts| ==> ts[j].Cells() <= ListTree(c, ts).Cells();
  }

  lemma StepDownDict(ctx: Around, c: Cell, ts: map<string, Tree>, k: string)
    requires Focus(ctx, DictTree(c, ts)) && k in ts
    ensures Focus(InDict(ctx, c, ts, k), ts[k])
    ensures InDict(ctx, c, ts, k).Cells() + ts[k].Cells() == ctx.Cells() + DictTree(c, ts).Cells()
  {
    assert ts[k := ts[k]] == ts;
    DictCells(c, ts, k, ts[k]);
    assert InDict(ctx, c, ts, k).Cells() == ctx.Cells() + {c} + DictOthers(ts, k);
    assert forall l :: l in ts ==> ts[l].Cells() <= DictTree(c, ts).Cells();
  }

  /** An empty container. */
  predicate Bare(t: Tree) {
    (t.ListTree? && t.kids == []) || (t.DictTree? && t.entries == map[])
  }

  /** A fresh `{}` or `[]`. */
  method NewContainer(rest: Path) returns (ref: Ref, ghost t: Tree)
    ensures t.Root() == ref && t.Stored() && t.Tidy() && fresh(t.Cells()) && Bare(t)
    ensures t.Value() == Filler(rest)
  {
    if rest != [] && rest[0].Name? {
      var c := new Cell(DictNode(map[]));
      ref, t := Box(c), DictTree(c, map[]);
    } else {
      var c := new Cell(ListNode([]));
      ref, t := Box(c), ListTree(c, []);
    }
  }

  /** `cur.append({})` or `cur.append([])`. */
  method AppendContainer(cell: Cell, rest: Path, ghost ts: seq<Tree>) returns (ghost t: Tree)
    requires ListTree(cell, ts).Stored() && ListTree(cell, ts).Tidy()
    modifies cell
    ensures ListTree(cell, ts + [t]).Stored() && ListTree(cell, ts + [t]).Tidy()
    ensures fresh(t.Cells()) && t.Value() == Filler(rest) && Bare(t)
    ensures ListTree(cell, ts + [t]).Cells() == ListTree(cell, ts).Cells() + t.Cells()
  {
    assert allocated(ListTree(cell, ts).Cells());
    var ref;
    ref, t := NewContainer(rest);
    AppendTidy(cell, ts, t);
    cell.node := ListNode(cell.node.elems + [ref]);
    assert cell.node == ListTree(cell, ts + [t]).Shape();
    assert forall j :: 0 <= j < |ts| ==> (ts + [t])[j] == ts[j] && ts[j].Stored();
  }

  /** The padding loop: append containers until the list has a position `i`. */
  method PadList(cell: Cell, i: nat, rest: Path, ghost ts: seq<Tree>) returns (ghost padded: seq<Tree>, ghost made: set<Cell>)
    requires ListTree(cell, ts).Stored() && ListTree(cell, ts).Tidy()
    modifies cell
    ensures ListTree(cell, padded).Stored() && ListTree(cell, padded).Tidy()
    ensures fresh(made) && ListTree(cell, padded).Cells() <= ListTree(cell, ts).Cells() + made
    ensures |padded| > i && ListTree(cell, padded).Value().elems == Pad(ListTree(cell, ts).Value().elems, i, Filler(rest))
    ensures ts <= padded && forall j :: |ts| <= j < |padded| ==> Bare(padded[j])
  {
    padded, made := ts, {};
    while |cell.node.elems| <= i
      invariant ListTree(cell, padded).Stored() && ListTree(cell, padded).Tidy()
      invariant fresh(made) && ListTree(cell, padded).Cells() <= ListTree(cell, ts).Cells() + made
      invariant ts <= padded && (|padded| <= |ts| || |padded| <= i + 1)
      invariant forall j :: |ts| <= j < |padded| ==> padded[j].Value() == Filler(rest) && Bare(padded[j])
      decreases i + 1 - |padded|
    {
      assert |cell.node.elems| == |padded|;
      ghost var t := AppendContainer(cell, rest, padded);
      padded, made := padded + [t], made + t.Cells();
    }
    assert |cell.node.elems| == |padded|;
  }

  lemma AppendTidy(c: Cell, ts: seq<Tree>, t: Tree)
    requires ListTree(c, ts).Tidy() && t.Tidy() && t.Cells() !! ListTree(c, ts).Cells()
    ensures ListTree(c, ts + [t]).Tidy()
    ensures ListTree(c, ts + [t]).Cells() == ListTree(c, ts).Cells() + t.Cells()
  {
    var us := ts + [t];
    forall d | d in ListKids(us)
      ensures d in ListKids(ts) + t.Cells()
    {
      var j: nat :| j < |us| && d in us[j].Cells();
      assert d in if j < |ts| then ts[j].Cells() else t.Cells();
    }
    forall d | d in ListKids(ts)
      ensures d in ListKids(us)
    {
      var j: nat :| j < |ts| && d in ts[j].Cells();
      assert d in us[j].Cells();
    }
    forall d | d in t.Cells()
      ensures d in ListKids(us)
    {
      assert d in us[|ts|].Cells();
    }
    assert ListTree(c, us).Cells() == {c} + ListKids(us);
    assert ListTree(c, ts).Cells() == {c} + ListKids(ts);
    assert forall j :: 0 <= j < |ts| ==> ts[j].Cells() <= ListTree(c, ts).Cells();
  }

  lemma {:induction false} PlugFailure(ctx: Around, error: Error)
    requires ctx.Valid()
    ensures ctx.PlugValue(Failure(error)) == Failure(error)
    decreases ctx
  {
    match ctx
    case Top(_) =>
    case InList(up, _, _, _) => PlugFailure(up, error);
    case InDict(up, _, _, _) => PlugFailure(up, error);
  }

  lemma EntryTidy(c: Cell, ts: map<string, Tree>, k: string, t: Tree)
    requires DictTree(c, ts).Tidy() && t.Tidy() && t.Cells() !! DictTree(c, ts).Cells()
    ensures DictTree(c, ts[k := t]).Tidy()
    ensures DictTree(c, ts[k := t]).Cells() <= DictTree(c, ts).Cells() + t.Cells()
  {
    DictCells(c, ts, k, t);
    assert forall l :: l in ts ==> ts[l].Cells() <= DictTree(c, ts).Cells();
    forall d | d in DictOthers(ts, k)
      ensures d in DictTree(c, ts).Cells()
    {
      var l :| l in ts && l != k && d in ts[l].Cells();
    }
  }

  lemma ElementTidy(c: Cell, ts: seq<Tree>, i: nat, u: Tree)
    requires ListTree(c, ts).Tidy() && i < |ts| && Item(u)
    ensures ListTree(c, ts[i := u]).Tidy()
    ensures ListTree(c, ts[i := u]).Cells() <= ListTree(c, ts).Cells()
  {
    var us := ts[i := u];
    assert u.Cells() == {} && u.Tidy();
    assert forall j :: 0 <= j < |us| && j != i ==> us[j] == ts[j];
    ListCells(c, ts, i, u);
    forall d | d in ListOthers(ts, i)
      ensures d in ListTree(c, ts).Cells()
    {
      var j: nat :| j < |ts| && j != i && d in ts[j].Cells();
    }
  }

  /** What an assignment stores: a scalar, or a container that stays its lender's. */
  predicate Item(u: Tree) {
    u.Leaf? || (u.Loan? && !u.lent.Scalar())
  }

  /** `cur[key] = value` on a dictionary. */
  method SetEntry(cell: Cell, key: string, ref: Ref, ghost ts: map<string, Tree>, ghost t: Tree)
    requires DictTree(cell, ts).Stored() && DictTree(cell, ts).Tidy()
    requires t.Stored() && t.Tidy() && t.Root() == ref && t.Cells() !! DictTree(cell, ts).Cells()
    modifies cell
    ensures DictTree(cell, ts[key := t]).Stored() && DictTree(cell, ts[key := t]).Tidy()
    ensures DictTree(cell, ts[key := t]).Cells() <= DictTree(cell, ts).Cells() + t.Cells()
  {
    EntryTidy(cell, ts, key, t);
    cell.node := DictNode(cell.node.fields[key := ref]);
    assert cell.node.fields == DictTree(cell, ts[key := t]).Shape().fields;
    assert forall l :: l in ts ==> ts[l].Stored();
  }

  /** `cur[i] = value` on a list. */
  method SetElement(cell: Cell, i: nat, ref: Ref, ghost ts: seq<Tree>, ghost u: Tree)
    requires ListTree(cell, ts).Stored() && ListTree(cell, ts).Tidy() && i < |ts|
    requires Item(u) && u.Root() == ref
    modifies cell
    ensures ListTree(cell, ts[i := u]).Stored() && ListTree(cell, ts[i := u]).Tidy()
    ensures ListTree(cell, ts[i := u]).Cells() <= ListTree(cell, ts).Cells()
  {
    ElementTidy(cell, ts, i, u);
    cell.node := ListNode(cell.node.elems[i := ref]);
    var us := ts[i := u];
    assert cell.node.elems == ListTree(cell, us).Shape().elems;
    assert forall j :: 0 <= j < |us| ==> us[j] == (if j == i then u else ts[j]) && us[j].Stored();
  }

  /** The missing-or-null test of the named step, filling the entry if it succeeds. */
  method EnsureEntry(cell: Cell, key: string, rest: Path, ghost ts: map<string, Tree>)
    returns (ghost us: map<string, Tree>, ghost made: set<Cell>)
    requires DictTree(cell, ts).Stored() && DictTree(cell, ts).Tidy()
    modifies cell
    ensures DictTree(cell, us).Stored() && DictTree(cell, us).Tidy()
    ensures fresh(made) && DictTree(cell, us).Cells() <= DictTree(cell, ts).Cells() + made
    ensures key in us && us[key].Value() == Child(DictTree(cell, ts).Value().fields, key, rest)
    ensures us == ts[key := us[key]]
    ensures if key in ts && ts[key] != Leaf(Null) then us[key] == ts[key] else Bare(us[key])
  {
    us, made := ts, {};
    if key !in cell.node.fields || cell.node.fields[key] == Atom(Null) {
      assert allocated(DictTree(cell, ts).Cells());
      var ref;
      ghost var t;
      ref, t := NewContainer(rest);
      SetEntry(cell, key, ref, ts, t);
      us, made := ts[key := t], t.Cells();
    }
  }

  lemma EntryValue(c: Cell, ts: map<string, Tree>, k: string, t: Tree)
    ensures DictTree(c, ts[k := t]).Value() == Obj(DictTree(c, ts).Value().fields[k := t.Value()])
  {
    assert DictTree(c, ts[k := t]).Value().fields == DictTree(c, ts).Value().fields[k := t.Value()];
  }
}
