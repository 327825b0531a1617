/** Reading a stored document out of the heap and copying it into fresh cells. */
module PyCopy {
  import opened Json
  import opened PyHeap

  /** What the container at the root of a stored document holds. */
  ghost predicate ListOf(t: Tree, elems: seq<Ref>)
    reads t.Cells()
  {
    t.ListTree? && t.Owned() && |elems| == |t.kids| && forall i :: 0 <= i < |elems| ==> elems[i] == t.kids[i].Root() && t.kids[i].Stored()
  }

  ghost predicate DictOf(t: Tree, fields: map<string, Ref>)
    reads t.Cells()
  {
    t.DictTree? && t.Owned() && fields.Keys == t.entries.Keys && forall k :: k in fields ==> fields[k] == t.entries[k].Root() && t.entries[k].Stored()
  }

  /** The document at a reference, as a value. */
  method ReadValue(ref: Ref, ghost t: Tree) returns (v: Value)
    requires t.Root() == ref && t.Stored() && t.Owned()
    ensures v == t.Value()
    decreases t
  {
    if ref.Atom? {
      return ref.value;
    }
    match ref.cell.node
    case ListNode(elems) =>
      var out: seq<Value> := [];
      for i := 0 to |elems|
        invariant ListOf(t, elems)
        invariant |out| == i && forall j :: 0 <= j < i ==> out[j] == t.kids[j].Value()
      {
        assert allocated(t.Cells());
        var x := ReadValue(elems[i], t.kids[i]);
        out := out + [x];
      }
      v := Arr(out);
    case DictNode(fields) =>
      var out: map<string, Value> := map[];
      var todo := fields.Keys;
      while todo != {}
        invariant DictOf(t, fields) && todo <= fields.Keys
        invariant out == map k | k in t.entries && k !in todo :: t.entries[k].Value()
        decreases todo
      {
        var k :| k in todo;
        todo := todo - {k};
        assert allocated(t.Cells());
        var x := ReadValue(fields[k], t.entries[k]);
        out := out[k := x];
      }
      v := Obj(out);
  }

  /** `k`, stored at `ref` within the cells `used`, is a copy of `original`. */
  ghost predicate CopyOf(k: Tree, ref: Ref, original: Tree, used: set<Cell>)
    reads used
  {
    k.Cells() <= used && k.Root() == ref && k.Value() == original.Value() && k.Stored() && k.Tidy() && k.Owned()
  }

  /** A deep copy, as the dump-and-load round trip of a document without shared parts makes it. */
  method DeepCopy(ref: Ref, ghost t: Tree) returns (copy: Ref, ghost u: Tree)
    requires t.Root() == ref && t.Stored() && t.Owned()
    ensures u.Root() == copy && u.Stored() && u.Tidy() && u.Owned() && fresh(u.Cells()) && u.Value() == t.Value()
    decreases t, 1
  {
    if ref.Atom? {
      return ref, t;
    }
    match ref.cell.node
    case ListNode(elems) => copy, u := CopyList(elems, t);
    case DictNode(fields) => copy, u := CopyDict(fields, t);
  }

  method CopyList(elems: seq<Ref>, ghost t: Tree) returns (copy: Ref, ghost u: Tree)
    requires ListOf(t, elems)
    ensures u.Root() == copy && u.Stored() && u.Tidy() && u.Owned() && fresh(u.Cells()) && u.Value() == t.Value()
    decreases t, 0
  {
    var refs: seq<Ref> := [];
    ghost var kids: seq<Tree>, used: set<Cell> := [], {};
    for i := 0 to |elems|
      invariant ListOf(t, elems) && |refs| == |kids| == i && fresh(used)
      invariant forall j :: 0 <= j < i ==> CopyOf(kids[j], refs[j], t.kids[j], used)
      invariant forall j, l :: 0 <= j < l < i ==> kids[j].Cells() !! kids[l].Cells()
    {
      assert allocated(t.Cells()) && allocated(used);
      var c;
      ghost var k;
      c, k := DeepCopy(elems[i], t.kids[i]);
      assert k.Cells() !! used;
      refs, kids, used := refs + [c], kids + [k], used + k.Cells();
    }
    assert allocated(used);
    var cell := new Cell(ListNode(refs));
    u := ListTree(cell, kids);
    assert u.Shape().elems == refs && u.Value().elems == t.Value().elems;
    assert u.Cells() <= {cell} + used;
    copy := Box(cell);
  }

  /** The copies made so far, in disjoint cells among `used`. */
  ghost predicate Copied(kids: map<string, Tree>, refs: map<string, Ref>, t: Tree, used: set<Cell>)
    requires t.DictTree?
    reads used
  {
    refs.Keys == kids.Keys <= t.entries.Keys &&
    (forall k :: k in kids ==> CopyOf(kids[k], refs[k], t.entries[k], used)) &&
    (forall k, l :: k in kids && l in kids && k != l ==> kids[k].Cells() !! kids[l].Cells())
  }

  lemma OneMoreCopy(kids: map<string, Tree>, refs: map<string, Ref>, t: Tree, used: set<Cell>, key: string, c: Ref, k: Tree)
    requires t.DictTree? && Copied(kids, refs, t, used) && key in t.entries && key !in kids
    requires CopyOf(k, c, t.entries[key], k.Cells()) && k.Cells() !! used
    ensures Copied(kids[key := k], refs[key := c], t, used + k.Cells())
  {
  }

  method CopyDict(fields: map<string, Ref>, ghost t: Tree) returns (copy: Ref, ghost u: Tree)
    requires DictOf(t, fields)
    ensures u.Root() == copy && u.Stored() && u.Tidy() && u.Owned() && fresh(u.Cells()) && u.Value() == t.Value()
    decreases t, 0
  {
    var refs: map<string, Ref> := map[];
    ghost var kids: map<string, Tree>, used: set<Cell> := map[], {};
    var todo := fields.Keys;
    while todo != {}
      invariant DictOf(t, fields) && todo <= fields.Keys && kids.Keys == fields.Keys - todo && fresh(used)
      invariant Copied(kids, refs, t, used)
      decreases todo
    {
      assert allocated(t.Cells()) && allocated(used);
      var key :| key in todo;
      todo := todo - {key};
      var c;
      ghost var k;
      c, k := DeepCopy(fields[key], t.entries[key]);
      assert k.Cells() !! used;
      OneMoreCopy(kids, refs, t, used, key, c, k);
      refs, kids, used := refs[key := c], kids[key := k], used + k.Cells();
    }
    assert allocated(used);
    var cell := new Cell(DictNode(refs));
    assert Copied(kids, refs, t, used);
    DictAssembled(cell, refs, kids, t, used);
    copy, u := Box(cell), DictTree(cell, kids);
  }

  lemma DictAssembled(cell: Cell, refs: map<string, Ref>, kids: map<string, Tree>, t: Tree, used: set<Cell>)
    requires t.DictTree? && kids.Keys == t.entries.Keys && Copied(kids, refs, t, used)
    requires cell.node == DictNode(refs) && cell !in used
    ensures DictTree(cell, kids).Stored() && DictTree(cell, kids).Tidy() && DictTree(cell, kids).Owned()
    ensures DictTree(cell, kids).Cells() <= {cell} + used
    ensures DictTree(cell, kids).Value() == t.Value()
  {
    assert DictTree(cell, kids).Shape().fields == refs;
    assert DictTree(cell, kids).Value().fields == t.Value().fields;
  }
}
