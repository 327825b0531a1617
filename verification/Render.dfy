/** Rendering composed resources on the heap (hack/render-composition.py, the per-resource loop of `main`). */
module Render {
  import opened Json
  import opened Wrappers
  import opened Lens
  import opened Patches
  import opened PyHeap
  import opened PySet
  import opened PyCopy
  import opened Sharing
  import opened PyLend
  import opened PyPatches

  // ---------------------------------------------------------------- one document per resource

  /** Where a document keeps its name and its namespace. */
  datatype Slots = Slots(name: Path, namespace: Path)

  const METADATA := Slots([Name("metadata"), Name("name")], [Name("metadata"), Name("namespace")])

  /** The copied base named after the XR and the resource. */
  function Named(py: PyStr, at: Slots, xr: Value, base: Value, resource: string): Result<Value> {
    if !base.Obj? || ("metadata" in base.fields && base.fields["metadata"] == Null) then Failure(BadContainer)
    else if !Has(xr, at.name) then Failure(MissingKey)
    else SetPath(base, at.name, Str(py(Get(xr, at.name)) + "-" + resource))
  }

  /** The XR's namespace, if it has one, carried over. */
  function Namespaced(at: Slots, xr: Value, obj: Value): Result<Value> {
    var namespace := Get(xr, at.namespace);
    if namespace.Truthy() then SetPath(obj, at.namespace, namespace) else Success(obj)
  }

  function Introduced(py: PyStr, at: Slots, xr: Value, base: Value, resource: string): Result<Value> {
    var named :- Named(py, at, xr, base, resource);
    Namespaced(at, xr, named)
  }

  /** What the XR lends a document before it is patched: nothing, unless its namespace is a container. */
  function StartLedger(at: Slots, xr: Value): Ledger {
    if at.namespace != [] && Get(xr, at.namespace).Truthy() && !Get(xr, at.namespace).Scalar()
    then map[at.namespace := Source(TheXr, at.namespace)] else map[]
  }

  /** One composed resource: its base, named, then patched. */
  function Composed(py: PyStr, at: Slots, xr: Value, base: Value, resource: string, patches: seq<Patch>, sets: PatchSets,
                    ghost rank: map<string, nat>, ghost n: nat): Result<Value>
    requires Ranked(sets, rank) && Below(patches, sets, rank, n)
  {
    var obj :- Introduced(py, at, xr, base, resource);
    Interpret(py, xr, obj, patches, sets, rank, n)
  }

  datatype Resource = Resource(name: string, base: Ref, patches: seq<Patch>)

  ghost function ComposedBy(run: Run, at: Slots, base: Value, res: Resource): Result<Value>
    requires run.Ok(res.patches)
  {
    Composed(run.py, at, run.xr, base, res.name, res.patches, run.sets, run.rank, run.n)
  }

  ghost function LedgerOfResource(run: Run, at: Slots, res: Resource): Ledger
    requires run.Ok(res.patches)
  {
    LedgerAfter(run.py, run.xr, StartLedger(at, run.xr), Inline(res.patches, run.sets, run.rank, run.n))
  }

  method NameInPlace(py: PyStr, at: Slots, inputs: Inputs, obj: Ref, resource: string, ghost x: Lenders, ghost t: Tree)
    returns (r: Result<()>, ghost after: Tree, ghost made: set<Cell>)
    requires Ready(inputs, x, obj, t, map[]) && t.Owned()
    modifies t.Cells()
    ensures x.Stored() && Outcome(r, Named(py, at, x.xr.Value(), t.Value(), resource), obj, t, after, made) && fresh(made)
    ensures r.Success? ==> LedgerOf(after, x, map[])
  {
    assert allocated(x.Cells()) && allocated(t.Cells());
    var doc := ReadValue(inputs.xr, x.xr);
    var base := ReadValue(obj, t);
    if !base.Obj? || ("metadata" in base.fields && base.fields["metadata"] == Null) {
      return Failure(BadContainer), t, {};
    }
    if !Has(doc, at.name) {
      return Failure(MissingKey), t, {};
    }
    var name := Str(py(Get(doc, at.name)) + "-" + resource);
    assert Named(py, at, x.xr.Value(), t.Value(), resource) == SetPath(t.Value(), at.name, name);
    ghost var lender;
    r, after, made, lender := Store(inputs, obj, at.name, Atom(name), None, Leaf(name), x, t, map[]);
    assert Lent(map[], at.name, None) == map[];
  }

  method NamespaceInPlace(at: Slots, inputs: Inputs, obj: Ref, ghost x: Lenders, ghost t: Tree)
    returns (r: Result<()>, ghost after: Tree, ghost made: set<Cell>)
    requires Ready(inputs, x, obj, t, map[])
    modifies t.Cells()
    ensures x.Stored() && Outcome(r, Namespaced(at, x.xr.Value(), t.Value()), obj, t, after, made) && fresh(made)
    ensures r.Success? ==> LedgerOf(after, x, StartLedger(at, x.xr.Value()))
  {
    assert allocated(x.Cells()) && allocated(x.xr.Cells()) && allocated(x.composition.Cells()) && allocated(t.Cells());
    var ref, namespace := ReadPath(inputs.xr, at.namespace, x.xr);
    if !namespace.Truthy() {
      return Success(()), t, {};
    }
    ghost var source := if namespace.Scalar() then None else Some(Source(TheXr, at.namespace));
    ghost var lender;
    r, after, made, lender := Store(inputs, obj, at.namespace, ref, source, ItemAt(namespace, ref), x, t, map[]);
    assert Lent(map[], at.namespace, source) == if source.Some? then map[at.namespace := source.value] else map[];
  }

  /** Name, then namespace, a copied base. */
  method Introduce(py: PyStr, at: Slots, inputs: Inputs, obj: Ref, resource: string, ghost x: Lenders, ghost t: Tree)
    returns (r: Result<()>, ghost after: Tree, ghost made: set<Cell>)
    requires Ready(inputs, x, obj, t, map[]) && t.Owned()
    modifies t.Cells()
    ensures x.Stored() && Outcome(r, Introduced(py, at, x.xr.Value(), t.Value(), resource), obj, t, after, made) && fresh(made)
    ensures r.Success? ==> LedgerOf(after, x, StartLedger(at, x.xr.Value()))
  {
    assert allocated(x.Cells());
    ghost var named, created;
    r, named, made := NameInPlace(py, at, inputs, obj, resource, x, t);
    if r.Failure? {
      return r, t, {};
    }
    r, after, created := NamespaceInPlace(at, inputs, obj, x, named);
    made := made + created;
  }

  /** The patches of a resource may be interpreted, their tables are the Composition's, and they never write below a
      container that was stored before. */
  ghost predicate Acceptable(run: Run, composition: Value, at: Slots, res: Resource) {
    run.Ok(res.patches) && AllPlaced(composition, res.patches) && SetsPlaced(composition, run.sets) &&
    NeverTrespasses(run, StartLedger(at, run.xr), res.patches)
  }

  /** Introduce and patch a copied base, in place. */
  method Finish(py: PyStr, at: Slots, inputs: Inputs, obj: Ref, res: Resource, sets: PatchSets, ghost run: Run, ghost x: Lenders, ghost t: Tree)
    returns (r: Result<()>, ghost doc: Tree, ghost made: set<Cell>)
    requires run.py == py && run.sets == sets && run.xr == x.xr.Value() && Acceptable(run, x.composition.Value(), at, res)
    requires Ready(inputs, x, obj, t, map[]) && t.Owned()
    modifies t.Cells()
    ensures x.Stored() && Outcome(r, ComposedBy(run, at, t.Value(), res), obj, t, doc, made) && fresh(made)
    ensures r.Success? ==> LedgerOf(doc, x, LedgerOfResource(run, at, res))
  {
    assert allocated(x.Cells());
    ghost var introduced, created, lender;
    r, introduced, made := Introduce(py, at, inputs, obj, res.name, x, t);
    if r.Failure? {
      return r, t, {};
    }
    r, doc, created, lender := ApplyPatches(py, inputs, obj, res.patches, sets, run, x, introduced, StartLedger(at, x.xr.Value()));
    made := made + created;
  }

  /** One iteration of the rendering loop: copy the base and finish the copy. Nothing that existed before is
      written. */
  method Compose(py: PyStr, at: Slots, inputs: Inputs, res: Resource, sets: PatchSets, ghost run: Run, ghost x: Lenders, ghost b: Tree)
    returns (r: Result<()>, obj: Ref, ghost doc: Tree, ghost made: set<Cell>)
    requires run.py == py && run.sets == sets && run.xr == x.xr.Value() && Acceptable(run, x.composition.Value(), at, res)
    requires Readable(inputs, x) && b.Root() == res.base && b.Stored() && b.Owned()
    ensures r.Success? ==> IsDocument(run, at, x, res, b, obj, doc)
    ensures r.Failure? ==> ComposedBy(run, at, b.Value(), res).Failure?
    ensures fresh(made) && (r.Success? ==> doc.Cells() <= made)
  {
    assert allocated(x.Cells());
    ghost var copy, created;
    obj, copy := DeepCopy(res.base, b);
    EmptyLedger(copy, x);
    r, doc, created := Finish(py, at, inputs, obj, res, sets, run, x, copy);
    made := copy.Cells() + created;
  }

  /** Document `doc`, at `ref`, is what resource `res` composes to; what it holds of the XR is in the ledger. */
  ghost predicate IsDocument(run: Run, at: Slots, x: Lenders, res: Resource, base: Tree, ref: Ref, doc: Tree)
    reads doc.Cells()
  {
    Acceptable(run, x.composition.Value(), at, res) && doc.Root() == ref && doc.Stored() && doc.Tidy() &&
    ComposedBy(run, at, base.Value(), res) == Success(doc.Value()) && LedgerOf(doc, x, LedgerOfResource(run, at, res))
  }

  /** The documents rendered so far: each, early or late, is exactly what its own resource composes to, and
      shares no cell of its own with another. */
  ghost predicate Documents(run: Run, at: Slots, x: Lenders, resources: seq<Resource>, bases: seq<Tree>, refs: seq<Ref>,
                            docs: seq<Tree>, cells: set<Cell>)
    reads cells
  {
    |docs| == |refs| <= |resources| == |bases| &&
    (forall i :: 0 <= i < |docs| ==> docs[i].Cells() <= cells) &&
    (forall i :: 0 <= i < |docs| ==> IsDocument(run, at, x, resources[i], bases[i], refs[i], docs[i])) &&
    (forall i, j :: 0 <= i < j < |docs| ==> docs[i].Cells() !! docs[j].Cells())
  }

  lemma OneMoreDocument(run: Run, at: Slots, x: Lenders, resources: seq<Resource>, bases: seq<Tree>, refs: seq<Ref>,
                        docs: seq<Tree>, cells: set<Cell>, ref: Ref, doc: Tree, created: set<Cell>)
    requires Documents(run, at, x, resources, bases, refs, docs, cells) && |docs| < |resources|
    requires IsDocument(run, at, x, resources[|docs|], bases[|docs|], ref, doc)
    requires doc.Cells() <= created && created !! cells
    ensures Documents(run, at, x, resources, bases, refs + [ref], docs + [doc], cells + created)
  {
    var n, refs', docs' := |docs|, refs + [ref], docs + [doc];
    forall i | 0 <= i <= n
      ensures docs'[i].Cells() <= cells + created && IsDocument(run, at, x, resources[i], bases[i], refs'[i], docs'[i])
    {
      if i < n {
        assert docs'[i] == docs[i] && refs'[i] == refs[i];
      }
    }
    forall i, j | 0 <= i < j <= n
      ensures docs'[i].Cells() !! docs'[j].Cells()
    {
      assert docs'[i] == docs[i];
      assert j < n ==> docs'[j] == docs[j];
    }
  }

  /** The per-resource loop of `main`. It writes only cells it creates: afterwards the XR, the Composition and every
      base are stored as before, so what the documents hold of them is what it was. */
  method RenderResources(py: PyStr, at: Slots, inputs: Inputs, resources: seq<Resource>, sets: PatchSets, ghost run: Run,
                         ghost x: Lenders, ghost bases: seq<Tree>)
    returns (r: Result<seq<Ref>>, failed: nat, ghost docs: seq<Tree>, ghost cells: set<Cell>)
    requires run.py == py && run.sets == sets && run.xr == x.xr.Value()
    requires Readable(inputs, x)
    requires |bases| == |resources| && forall i :: 0 <= i < |resources| ==> Acceptable(run, x.composition.Value(), at, resources[i])
    requires forall i :: 0 <= i < |resources| ==> bases[i].Root() == resources[i].base && bases[i].Stored() && bases[i].Owned()
    ensures x.Stored() && forall i :: 0 <= i < |bases| ==> bases[i].Stored()
    ensures r.Success? ==> fresh(cells) && |docs| == |resources|
    ensures r.Success? ==> Documents(run, at, x, resources, bases, r.value, docs, cells)
    ensures r.Failure? ==>
      failed < |resources| && Acceptable(run, x.composition.Value(), at, resources[failed]) &&
      ComposedBy(run, at, bases[failed].Value(), resources[failed]).Failure?
  {
    docs, cells, failed := [], {}, 0;
    var refs: seq<Ref> := [];
    for i := 0 to |resources|
      invariant x.Stored() && forall j :: 0 <= j < |bases| ==> bases[j].Stored()
      invariant |docs| == i && fresh(cells)
      invariant Documents(run, at, x, resources, bases, refs, docs, cells)
    {
      assert allocated(x.Cells()) && allocated(cells);
      assert forall j :: 0 <= j < |bases| ==> allocated(bases[j].Cells());
      assert Acceptable(run, x.composition.Value(), at, resources[i]);
      var done, ref;
      ghost var doc, created;
      done, ref, doc, created := Compose(py, at, inputs, resources[i], sets, run, x, bases[i]);
      if done.Failure? {
        return Failure(done.error), i, docs, cells;
      }
      OneMoreDocument(run, at, x, resources, bases, refs, docs, cells, ref, doc, created);
      refs, docs, cells := refs + [ref], docs + [doc], cells + created;
    }
    r := Success(refs);
  }

  // ---------------------------------------------------------------- what a document is called

  lemma MetadataSlots()
    ensures Diverge(METADATA.namespace, METADATA.name)
  {
    assert "namespace"[|"name"|] == 's';
    assert METADATA.namespace[1..][0] == Name("namespace") && METADATA.name[1..][0] == Name("name");
  }

  /** Unless a patch overlaps the slot, a document is named after the XR and its resource, and lies in the XR's
      namespace if that has one. */
  lemma NamedDocument(py: PyStr, at: Slots, xr: Value, base: Value, res: Resource, sets: PatchSets, rank: map<string, nat>, n: nat)
    requires Ranked(sets, rank) && Below(res.patches, sets, rank, n)
    requires at.name != [] && Diverge(at.namespace, at.name)
    requires Composed(py, at, xr, base, res.name, res.patches, sets, rank, n).Success?
    ensures var doc := Composed(py, at, xr, base, res.name, res.patches, sets, rank, n).value;
      Untouched(py, xr, Inline(res.patches, sets, rank, n), at.name) ==>
        Get(doc, at.name) == Str(py(Get(xr, at.name)) + "-" + res.name)
    ensures var doc := Composed(py, at, xr, base, res.name, res.patches, sets, rank, n).value;
      Untouched(py, xr, Inline(res.patches, sets, rank, n), at.namespace) && Get(xr, at.namespace).Truthy() ==>
        Get(doc, at.namespace) == Get(xr, at.namespace)
  {
    var name := Str(py(Get(xr, at.name)) + "-" + res.name);
    var named := Put(base, at.name, name).value;
    GetPut(base, at.name, name);
    var namespace := Get(xr, at.namespace);
    var obj := Introduced(py, at, xr, base, res.name).value;
    if namespace.Truthy() {
      GetPut(named, at.namespace, namespace);
      PutFrame(named, at.namespace, namespace, at.name);
    }
    var patches := Inline(res.patches, sets, rank, n);
    InterpretIsFold(py, xr, obj, res.patches, sets, rank, n);
    if Untouched(py, xr, patches, at.name) {
      FoldFrame(py, xr, obj, patches, at.name);
    }
    if namespace.Truthy() && Untouched(py, xr, patches, at.namespace) {
      FoldFrame(py, xr, obj, patches, at.namespace);
    }
  }

  /** A document is introduced where the script says: it is named XR-resource; it gets the XR's namespace if that is
      anything but null, false, zero or empty, and keeps its own if it is; it needs a dictionary for its metadata, or
      none, and the XR needs a name. */
  lemma IntroducedAtMetadata(py: PyStr, xr: Value, base: Value, resource: string)
    ensures var done := Introduced(py, METADATA, xr, base, resource);
      var namespace := Get(xr, [Name("metadata"), Name("namespace")]);
      done.Success? ==>
        Get(done.value, [Name("metadata"), Name("name")]) == Str(py(Get(xr, [Name("metadata"), Name("name")])) + "-" + resource) &&
        Get(done.value, [Name("metadata"), Name("namespace")]) ==
          if namespace == Null || namespace == Bool(false) || namespace == Num(0.0) || namespace == Str("") ||
             namespace == Arr([]) || namespace == Obj(map[])
          then Get(base, [Name("metadata"), Name("namespace")]) else namespace
    ensures Introduced(py, METADATA, xr, base, resource).Success? <==>
      base.Obj? && ("metadata" in base.fields ==> base.fields["metadata"].Obj?) &&
      xr.Obj? && "metadata" in xr.fields && xr.fields["metadata"].Obj? && "name" in xr.fields["metadata"].fields
  {
    MetadataSlots();
    var name, namespace := [Name("metadata"), Name("name")], [Name("metadata"), Name("namespace")];
    MetadataPaths(xr);
    var text := Str(py(Get(xr, name)) + "-" + resource);
    PutAtMetadata(base, "name", text);
    PutSucceeds(base, name, text);
    var named := Named(py, METADATA, xr, base, resource);
    if named.Success? {
      GetPut(base, name, text);
      GetAside(base, name, text, namespace);
      var value := Get(xr, namespace);
      PutAtMetadata(named.value, "namespace", value);
      PutSucceeds(named.value, namespace, value);
      if value.Truthy() {
        GetPut(named.value, namespace, value);
        GetAside(named.value, namespace, value, name);
      }
    }
  }

  lemma MetadataPaths(v: Value)
    ensures [Name("metadata"), Name("name")][1..] == [Name("name")] && [Name("metadata"), Name("namespace")][1..] == [Name("namespace")]
    ensures Has(v, [Name("metadata"), Name("name")]) <==>
      v.Obj? && "metadata" in v.fields && v.fields["metadata"].Obj? && "name" in v.fields["metadata"].fields
  {
    var p, last := [Name("metadata"), Name("name")], [Name("name")];
    assert p[1..] == last && last[1..] == [];
    if v.Obj? && "metadata" in v.fields {
      var inner := v.fields["metadata"];
      assert Has(v, p) == Has(inner, last);
      assert inner.Obj? && "name" in inner.fields ==> Has(inner.fields["name"], []);
      assert last[0] == Name("name");
    }
  }

  /** Writing a slot of the metadata: there must be a dictionary, or none; afterwards there is one. */
  lemma PutAtMetadata(v: Value, key: string, x: Value)
    ensures Fits(v, [Name("metadata"), Name(key)]) <==>
      v.Obj? && ("metadata" in v.fields && v.fields["metadata"] != Null ==> v.fields["metadata"].Obj?)
    ensures var done := Put(v, [Name("metadata"), Name(key)], x);
      done.Success? ==> done.value.Obj? && "metadata" in done.value.fields && done.value.fields["metadata"].Obj?
  {
    var p := [Name("metadata"), Name(key)];
    assert p[1..] == [Name(key)] && [Name(key)][1..] == [];
    if v.Obj? {
      var child := Child(v.fields, "metadata", p[1..]);
      assert Fits(child, p[1..]) <==> child.Obj?;
    }
  }

  /** The same of the composed document, at the slots the script uses, unless a patch overlaps them. */
  lemma NamedAtMetadata(py: PyStr, xr: Value, base: Value, res: Resource, sets: PatchSets, rank: map<string, nat>, n: nat)
    requires Ranked(sets, rank) && Below(res.patches, sets, rank, n)
    requires Composed(py, METADATA, xr, base, res.name, res.patches, sets, rank, n).Success?
    ensures var doc := Composed(py, METADATA, xr, base, res.name, res.patches, sets, rank, n).value;
      Untouched(py, xr, Inline(res.patches, sets, rank, n), [Name("metadata"), Name("name")]) ==>
        Get(doc, [Name("metadata"), Name("name")]) == Str(py(Get(xr, [Name("metadata"), Name("name")])) + "-" + res.name)
    ensures var doc := Composed(py, METADATA, xr, base, res.name, res.patches, sets, rank, n).value;
      var namespace := Get(xr, [Name("metadata"), Name("namespace")]);
      Untouched(py, xr, Inline(res.patches, sets, rank, n), [Name("metadata"), Name("namespace")]) ==>
        (namespace != Null && namespace != Bool(false) && namespace != Num(0.0) && namespace != Str("") &&
         namespace != Arr([]) && namespace != Obj(map[]) ==>
           Get(doc, [Name("metadata"), Name("namespace")]) == namespace) &&
        ((namespace == Null || namespace == Bool(false) || namespace == Num(0.0) || namespace == Str("") ||
          namespace == Arr([]) || namespace == Obj(map[])) && Has(base, [Name("metadata"), Name("namespace")]) ==>
           Get(doc, [Name("metadata"), Name("namespace")]) == Get(base, [Name("metadata"), Name("namespace")]))
  {
    MetadataSlots();
    NamedDocument(py, METADATA, xr, base, res, sets, rank, n);
    IntroducedAtMetadata(py, xr, base, res.name);
    var name, namespace := [Name("metadata"), Name("name")], [Name("metadata"), Name("namespace")];
    if !Get(xr, namespace).Truthy() && Has(base, namespace) && Untouched(py, xr, Inline(res.patches, sets, rank, n), namespace) {
      var obj := Introduced(py, METADATA, xr, base, res.name).value;
      PutFrame(base, name, Str(py(Get(xr, name)) + "-" + res.name), namespace);
      InterpretIsFold(py, xr, obj, res.patches, sets, rank, n);
      FoldFrame(py, xr, obj, Inline(res.patches, sets, rank, n), namespace);
    }
  }
}
