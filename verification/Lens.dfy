/** Reading and writing one path of a document: the specification of `get_path` and `set_path`
    (hack/render-composition.py) and its laws. */
module Lens {
  import opened Json
  import opened Wrappers

  /** One step into a container: a key of a dictionary or a position in a list. */
  datatype Seg = Name(name: string) | Index(i: nat)

  type Path = seq<Seg>

  /** `get_path`: null where the path leads nowhere. */
  function Get(v: Value, p: Path): Value {
    if p == [] then v
    else match p[0]
      case Index(i) => if v.Arr? && i < |v.elems| then Get(v.elems[i], p[1..]) else Null
      case Name(n) => if v.Obj? && n in v.fields then Get(v.fields[n], p[1..]) else Null
  }

  /** The path leads to a slot, which may hold null. */
  predicate Has(v: Value, p: Path) {
    p == [] ||
    match p[0]
    case Index(i) => v.Arr? && i < |v.elems| && Has(v.elems[i], p[1..])
    case Name(n) => v.Obj? && n in v.fields && Has(v.fields[n], p[1..])
  }

  /** The container made for the rest of a path. */
  function Filler(rest: Path): Value {
    if rest != [] && rest[0].Name? then Obj(map[]) else Arr([])
  }

  /** The list extended with fillers until it has a position `i`. */
  function Pad(xs: seq<Value>, i: nat, filler: Value): (ys: seq<Value>)
    ensures |ys| == if |xs| > i then |xs| else i + 1
    ensures forall j :: 0 <= j < |ys| ==> ys[j] == if j < |xs| then xs[j] else filler
  {
    if |xs| > i then xs else xs + seq(i + 1 - |xs|, _ => filler)
  }

  /** The value a named step finds, or the container made for it. */
  function Child(fields: map<string, Value>, n: string, rest: Path): Value {
    if n in fields && fields[n] != Null then fields[n] else Filler(rest)
  }

  /** The document with the slot at `p` replaced and containers created on the way; a failure where a step
      meets the wrong kind of container. */
  function Put(v: Value, p: Path, x: Value): Result<Value>
    decreases |p|
  {
    if p == [] then Success(x)
    else match p[0]
      case Index(i) =>
        if !v.Arr? then Failure(BadContainer)
        else
          var xs := Pad(v.elems, i, Filler(p[1..]));
          var child :- Put(xs[i], p[1..], x);
          Success(Arr(xs[i := child]))
      case Name(n) =>
        if !v.Obj? then Failure(BadContainer)
        else
          var child :- Put(Child(v.fields, n, p[1..]), p[1..], x);
          Success(Obj(v.fields[n := child]))
  }

  /** `set_path`: an empty path changes nothing. */
  function SetPath(v: Value, p: Path, x: Value): Result<Value> {
    if p == [] then Success(v) else Put(v, p, x)
  }

  /** Every container the path meets is of the kind its next step needs. */
  predicate Fits(v: Value, p: Path) {
    p == [] ||
    match p[0]
    case Index(i) => v.Arr? && (i < |v.elems| ==> Fits(v.elems[i], p[1..]))
    case Name(n) => v.Obj? && (n in v.fields && v.fields[n] != Null ==> Fits(v.fields[n], p[1..]))
  }

  /** Neither path is a prefix of the other. */
  predicate Diverge(p: Path, q: Path) {
    p != [] && q != [] && (p[0] != q[0] || Diverge(p[1..], q[1..]))
  }

  // ---------------------------------------------------------------- laws

  /** Writing succeeds exactly when the existing containers are of the right kind. */
  lemma {:induction false} PutSucceeds(v: Value, p: Path, x: Value)
    ensures Put(v, p, x).Success? <==> Fits(v, p)
    decreases |p|
  {
    if p != [] {
      match p[0]
      case Index(i) =>
        if v.Arr? {
          PutSucceeds(Pad(v.elems, i, Filler(p[1..]))[i], p[1..], x);
        }
      case Name(n) =>
        if v.Obj? {
          PutSucceeds(Child(v.fields, n, p[1..]), p[1..], x);
        }
    }
  }

  /** What was written is read back. */
  lemma {:induction false} GetPut(v: Value, p: Path, x: Value)
    requires Put(v, p, x).Success?
    ensures Has(Put(v, p, x).value, p) && Get(Put(v, p, x).value, p) == x
    decreases |p|
  {
    if p != [] {
      match p[0]
      case Index(i) => GetPut(Pad(v.elems, i, Filler(p[1..]))[i], p[1..], x);
      case Name(n) => GetPut(Child(v.fields, n, p[1..]), p[1..], x);
    }
  }

  /** A slot on a diverging path keeps its value. */
  lemma {:induction false} PutFrame(v: Value, p: Path, x: Value, q: Path)
    requires Put(v, p, x).Success? && Diverge(p, q) && Has(v, q)
    ensures Has(Put(v, p, x).value, q) && Get(Put(v, p, x).value, q) == Get(v, q)
    decreases |p|
  {
    if p[0] == q[0] {
      match p[0]
      case Index(i) => PutFrame(Pad(v.elems, i, Filler(p[1..]))[i], p[1..], x, q[1..]);
      case Name(n) => PutFrame(Child(v.fields, n, p[1..]), p[1..], x, q[1..]);
    }
  }

  /** Writing along dictionary keys changes nothing that is read aside, in the document or missing from it. */
  lemma {:induction false} GetAside(v: Value, p: Path, x: Value, q: Path)
    requires Put(v, p, x).Success? && Diverge(p, q) && AllNames(p) && AllNames(q)
    ensures Get(Put(v, p, x).value, q) == Get(v, q)
    decreases |p|
  {
    if p[0] == q[0] {
      var n := p[0].name;
      GetAside(Child(v.fields, n, p[1..]), p[1..], x, q[1..]);
    }
  }

  /** The paths part at steps of one kind; and where `q` parts to an earlier position of a list, a container made
      to pad the list on the way to `p` is one that `q` can go on in. */
  predicate Compatible(p: Path, q: Path) {
    p != [] && q != [] &&
    if p[0] == q[0] then Compatible(p[1..], q[1..])
    else p[0].Name? == q[0].Name? && (p[0].Index? && q[0].i < p[0].i ==> Fits(Filler(p[1..]), q[1..]))
  }

  /** A write does not get in the way of a compatible one. */
  lemma {:induction false} FitsKept(v: Value, p: Path, x: Value, q: Path)
    requires Put(v, p, x).Success? && Compatible(p, q) && Fits(v, q)
    ensures Fits(Put(v, p, x).value, q)
    decreases |p|
  {
    var rest := p[1..];
    if p[0] == q[0] {
      match p[0]
      case Index(i) => FitsKept(Pad(v.elems, i, Filler(rest))[i], rest, x, q[1..]);
      case Name(n) => FitsKept(Child(v.fields, n, rest), rest, x, q[1..]);
    }
  }

  /** Paths that part in any other way do clash: on an empty document of the kind of their first steps both can be
      written, but not `q` after `p`. */
  lemma {:induction false} IncompatibleClash(p: Path, q: Path, x: Value)
    requires Diverge(p, q) && !Compatible(p, q) && p[0].Name? == q[0].Name?
    ensures Put(Filler(p), p, x).Success? && Fits(Filler(p), q)
    ensures !Fits(Put(Filler(p), p, x).value, q)
    decreases |p|
  {
    var v, rest := Filler(p), p[1..];
    PutSucceeds(v, p, x);
    if p[0] == q[0] {
      PutSucceeds(Filler(rest), rest, x);
      if rest[0].Name? == q[1].Name? {
        IncompatibleClash(rest, q[1..], x);
      }
      match p[0]
      case Index(i) => assert Put(v, p, x).value.elems[i] == Put(Filler(rest), rest, x).value;
      case Name(n) => assert Put(v, p, x).value.fields[n] == Put(Filler(rest), rest, x).value;
    } else {
      assert Put(v, p, x).value.elems[q[0].i] == Filler(rest);
    }
  }

  predicate AllNames(p: Path) {
    forall i :: 0 <= i < |p| ==> p[i].Name?
  }

  lemma {:induction false} NamesCompatible(p: Path, q: Path)
    requires AllNames(p) && AllNames(q) && Diverge(p, q)
    ensures Compatible(p, q)
  {
    if p[0] == q[0] {
      NamesCompatible(p[1..], q[1..]);
    }
  }

  /** A second write to the same path leaves no trace of the first. */
  lemma {:induction false} PutPut(v: Value, p: Path, x: Value, y: Value)
    requires Put(v, p, x).Success?
    ensures Put(Put(v, p, x).value, p, y) == Put(v, p, y)
    decreases |p|
  {
    if p != [] {
      var w := Put(v, p, x).value;
      match p[0]
      case Index(i) =>
        var xs := Pad(v.elems, i, Filler(p[1..]));
        PutPut(xs[i], p[1..], x, y);
        assert Pad(w.elems, i, Filler(p[1..])) == w.elems;
        var c := Put(xs[i], p[1..], y);
        if c.Success? {
          assert w.elems[i := c.value] == xs[i := c.value];
        }
      case Name(n) =>
        var child := Child(v.fields, n, p[1..]);
        PutPut(child, p[1..], x, y);
        var c := Put(child, p[1..], y);
        if c.Success? {
          assert w.fields[n := c.value] == v.fields[n := c.value];
        }
    }
  }

  /** A write below a place is a write into what is there. */
  lemma {:induction false} PutBelow(v: Value, b: Path, r: Path, x: Value)
    requires r != [] && Has(v, b) && Get(v, b) != Null && Put(v, b + r, x).Success?
    ensures Success(Get(Put(v, b + r, x).value, b)) == Put(Get(v, b), r, x)
    decreases |b|
  {
    if b == [] {
      assert b + r == r;
    } else {
      assert (b + r)[1..] == b[1..] + r;
      match b[0]
      case Index(i) => PutBelow(v.elems[i], b[1..], r, x);
      case Name(n) =>
        assert v.fields[n] == Null ==> Get(v, b) == Null by {
          if b[1..] != [] {
            NullIsEmpty(b[1..]);
          }
        }
        PutBelow(v.fields[n], b[1..], r, x);
    }
  }

  /** The elements of a list, none for anything else. */
  function Elems(v: Value): seq<Value> {
    if v.Arr? then v.elems else []
  }

  /** A list stepped into grows to exactly hold the index; its other entries stay, new ones are fillers. */
  lemma {:induction false} ListGrowth(v: Value, p: Path, x: Value, k: nat)
    requires Put(v, p, x).Success? && k < |p| && p[k].Index?
    ensures var before, after := Elems(Get(v, p[..k])), Get(Put(v, p, x).value, p[..k]);
      && after.Arr?
      && |after.elems| == (if |before| > p[k].i then |before| else p[k].i + 1)
      && forall j :: 0 <= j < |after.elems| && j != p[k].i ==>
        after.elems[j] == if j < |before| then before[j] else Filler(p[k+1..])
    decreases |p|
  {
    if k > 0 {
      var rest := p[1..];
      assert p[..k][1..] == rest[..k-1] && p[k+1..] == rest[k..];
      match p[0]
      case Index(i) =>
        var xs := Pad(v.elems, i, Filler(rest));
        ListGrowth(xs[i], rest, x, k - 1);
        assert Elems(Get(v, p[..k])) == Elems(Get(xs[i], rest[..k-1])) by {
          if i >= |v.elems| {
            FillerIsEmpty(rest, k - 1);
          }
        }
      case Name(n) =>
        ListGrowth(Child(v.fields, n, rest), rest, x, k - 1);
        assert Elems(Get(v, p[..k])) == Elems(Get(Child(v.fields, n, rest), rest[..k-1])) by {
          if !(n in v.fields && v.fields[n] != Null) {
            FillerIsEmpty(rest, k - 1);
            NullIsEmpty(rest[..k-1]);
          }
        }
    } else {
      assert p[..0] == [];
    }
  }

  /** The entries of a dictionary, none for anything else. */
  function Fields(v: Value): map<string, Value> {
    if v.Obj? then v.fields else map[]
  }

  /** A dictionary stepped into gains at most the key; its other entries stay. */
  lemma {:induction false} DictGrowth(v: Value, p: Path, x: Value, k: nat)
    requires Put(v, p, x).Success? && k < |p| && p[k].Name?
    ensures var before, after := Fields(Get(v, p[..k])), Get(Put(v, p, x).value, p[..k]);
      after.Obj? && p[k].name in after.fields && after.fields == before[p[k].name := after.fields[p[k].name]]
    decreases |p|
  {
    if k > 0 {
      var rest := p[1..];
      assert p[..k][1..] == rest[..k-1];
      match p[0]
      case Index(i) =>
        var xs := Pad(v.elems, i, Filler(rest));
        DictGrowth(xs[i], rest, x, k - 1);
        assert Fields(Get(v, p[..k])) == Fields(Get(xs[i], rest[..k-1])) by {
          if i >= |v.elems| {
            FillerIsEmpty(rest, k - 1);
          }
        }
      case Name(n) =>
        DictGrowth(Child(v.fields, n, rest), rest, x, k - 1);
        assert Fields(Get(v, p[..k])) == Fields(Get(Child(v.fields, n, rest), rest[..k-1])) by {
          if !(n in v.fields && v.fields[n] != Null) {
            FillerIsEmpty(rest, k - 1);
            NullIsEmpty(rest[..k-1]);
          }
        }
    } else {
      assert p[..0] == [];
    }
  }

  lemma FillerIsEmpty(rest: Path, k: nat)
    requires k < |rest|
    ensures Elems(Get(Filler(rest), rest[..k])) == [] && Fields(Get(Filler(rest), rest[..k])) == map[]
  {
  }

  lemma NullIsEmpty(p: Path)
    ensures Get(Null, p) == Null
  {
  }
}
