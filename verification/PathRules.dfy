/** How a path text is read, and what one step of the getter and of the setter does, rule by rule
    (hack/render-composition.py, `_segments`, `get_path` and `set_path`). */
module PathRules {
  import opened Json
  import opened Wrappers
  import opened Lens
  import opened Paths

  // ---------------------------------------------------------------- reading a path

  /** Text up to a dot, a bracket or the end is one name. */
  lemma NameIsRead(name: string, rest: string)
    requires name != "" && forall i :: 0 <= i < |name| ==> name[i] != '.' && name[i] != '[' && name[i] != ']'
    requires rest == "" || rest[0] == '.' || rest[0] == '[' || rest[0] == ']'
    ensures Segments(name + rest) == [Name(name)] + Segments(rest)
  {
    NameRead(name, rest);
  }

  /** Text in brackets is one segment, dots and opening brackets included: a position if it is all digits. */
  lemma BracketIsRead(inner: string, rest: string)
    requires inner != "" && forall i :: 0 <= i < |inner| ==> inner[i] != ']'
    ensures (exists i :: 0 <= i < |inner| && !('0' <= inner[i] <= '9')) ==>
      Segments("[" + inner + "]" + rest) == [Name(inner)] + Segments(rest)
    ensures (forall i :: 0 <= i < |inner| ==> '0' <= inner[i] <= '9') ==>
      |Segments("[" + inner + "]" + rest)| > 0 && Segments("[" + inner + "]" + rest)[0].Index? &&
      Segments("[" + inner + "]" + rest)[1..] == Segments(rest)
  {
    BracketRead(inner, rest);
    assert AllDigits(inner) <==> forall i :: 0 <= i < |inner| ==> '0' <= inner[i] <= '9';
  }

  /** What a text in brackets is read as. */
  function InBrackets(inner: string): Path {
    Segments("[" + inner + "]")
  }

  lemma OneBracket(inner: string)
    requires inner != "" && forall i :: 0 <= i < |inner| ==> inner[i] != ']'
    ensures InBrackets(inner) == [Bracketed(inner)]
  {
    BracketRead(inner, "");
    assert "[" + inner + "]" + "" == "[" + inner + "]";
  }

  /** The digits are decimal. */
  lemma PositionIsDecimal(inner: string, digit: char)
    requires inner != "" && (forall i :: 0 <= i < |inner| ==> '0' <= inner[i] <= '9') && '0' <= digit <= '9'
    ensures InBrackets([digit]) == [Index(digit as int - '0' as int)]
    ensures |InBrackets(inner)| == 1 && InBrackets(inner)[0].Index?
    ensures InBrackets(inner + [digit]) == [Index(10 * InBrackets(inner)[0].i + (digit as int - '0' as int))]
  {
    OneBracket([digit]);
    OneBracket(inner);
    OneBracket(inner + [digit]);
    DigitAdded(inner, digit);
    DigitAdded("", digit);
    assert "" + [digit] == [digit];
  }

  lemma DigitAdded(s: string, digit: char)
    requires (forall i :: 0 <= i < |s| ==> '0' <= s[i] <= '9') && '0' <= digit <= '9'
    ensures AllDigits(s + [digit]) && (s != "" ==> AllDigits(s)) && ToNat("") == 0
    ensures ToNat(s + [digit]) == 10 * ToNat(s) + (digit as int - '0' as int)
  {
    assert forall i :: 0 <= i < |s| ==> IsDigit(s[i]);
    var t := s + [digit];
    assert t[|t| - 1] == digit && t[..|t| - 1] == s;
  }

  /** Dots are skipped, and so are brackets that enclose nothing or have no partner. */
  lemma OthersAreSkipped(rest: string)
    ensures Segments("." + rest) == Segments(rest) && Segments("]" + rest) == Segments(rest)
    ensures rest == "" || rest[0] == ']' || ']' !in rest ==> Segments("[" + rest) == Segments(rest)
    ensures Segments("") == []
  {
    assert ("." + rest)[1..] == rest && ("]" + rest)[1..] == rest && ("[" + rest)[1..] == rest;
    assert [] + Segments(rest) == Segments(rest);
    if rest == "" || rest[0] == ']' || ']' !in rest {
      assert CloseAt(rest) == 0 || CloseAt(rest) == |rest|;
      assert NextSegment("[" + rest) == (1, []);
    }
  }

  // ---------------------------------------------------------------- get_path

  /** A name looks up a dictionary, a position a list; null is what is not there, or not of the kind. */
  lemma GetRules(v: Value, p: Path, q: Path, n: string, i: nat)
    ensures Get(v, []) == v && Get(v, p + q) == Get(Get(v, p), q)
    ensures Get(v, [Name(n)]) == if v.Obj? && n in v.fields then v.fields[n] else Null
    ensures Get(v, [Index(i)]) == if v.Arr? && i < |v.elems| then v.elems[i] else Null
  {
    assert [Name(n)][1..] == [] && [Index(i)][1..] == [];
    GetConcat(v, p, q);
  }

  lemma {:induction false} GetConcat(v: Value, p: Path, q: Path)
    ensures Get(v, p + q) == Get(Get(v, p), q)
    decreases |p|
  {
    if p == [] {
      assert p + q == q;
    } else {
      assert (p + q)[1..] == p[1..] + q;
      match p[0]
      case Index(i) =>
        if v.Arr? && i < |v.elems| {
          GetConcat(v.elems[i], p[1..], q);
        } else {
          NullHasNothing(q);
        }
      case Name(n) =>
        if v.Obj? && n in v.fields {
          GetConcat(v.fields[n], p[1..], q);
        } else {
          NullHasNothing(q);
        }
    }
  }

  lemma NullHasNothing(q: Path)
    ensures Get(Null, q) == Null
  {
  }

  // ---------------------------------------------------------------- set_path

  function Copies(n: nat, v: Value): (xs: seq<Value>)
    ensures |xs| == n && forall i :: 0 <= i < n ==> xs[i] == v
  {
    seq(n, _ => v)
  }

  /** The last step stores the value: under a key, or at a position, before which a list that is too short is filled up
      with empty lists. Nothing else can be stored into; an empty path stores nothing. */
  lemma LastStep(v: Value, n: string, i: nat, x: Value)
    ensures SetPath(v, [], x) == Success(v)
    ensures SetPath(v, [Name(n)], x) == if v.Obj? then Success(Obj(v.fields[n := x])) else Failure(BadContainer)
    ensures SetPath(v, [Index(i)], x) ==
      if !v.Arr? then Failure(BadContainer)
      else if i < |v.elems| then Success(Arr(v.elems[i := x]))
      else Success(Arr(v.elems + Copies(i - |v.elems|, Arr([])) + [x]))
  {
    assert [Name(n)][1..] == [] && [Index(i)][1..] == [];
    if v.Obj? {
      assert Put(Child(v.fields, n, []), [], x) == Success(x);
    } else if v.Arr? {
      var xs := Pad(v.elems, i, Filler([]));
      assert Put(xs[i], [], x) == Success(x);
      assert i < |v.elems| ==> xs == v.elems;
      assert i >= |v.elems| ==> xs[i := x] == v.elems + Copies(i - |v.elems|, Arr([])) + [x];
    }
  }

  /** Any other step goes on below what is there. A key that is missing, or holds null, gets a dictionary if a name comes
      next, else a list; a list that is too short is filled up with such ones, but a null in it is not replaced. */
  lemma InnerStep(v: Value, n: string, i: nat, rest: Path, x: Value)
    requires rest != []
    ensures var made := if rest[0].Name? then Obj(map[]) else Arr([]);
      SetPath(v, [Name(n)] + rest, x) ==
        if !v.Obj? then Failure(BadContainer)
        else
          var below := SetPath(if n in v.fields && v.fields[n] != Null then v.fields[n] else made, rest, x);
          if below.Success? then Success(Obj(v.fields[n := below.value])) else below
    ensures var made := if rest[0].Name? then Obj(map[]) else Arr([]);
      SetPath(v, [Index(i)] + rest, x) ==
        if !v.Arr? then Failure(BadContainer)
        else
          var below := SetPath(if i < |v.elems| then v.elems[i] else made, rest, x);
          if below.Failure? then below
          else if i < |v.elems| then Success(Arr(v.elems[i := below.value]))
          else Success(Arr(v.elems + Copies(i - |v.elems|, made) + [below.value]))
  {
    assert ([Name(n)] + rest)[1..] == rest && ([Index(i)] + rest)[1..] == rest;
    var made := if rest[0].Name? then Obj(map[]) else Arr([]);
    if v.Arr? {
      var xs := Pad(v.elems, i, made);
      var below := Put(xs[i], rest, x);
      if below.Success? && i >= |v.elems| {
        assert xs[i := below.value] == v.elems + Copies(i - |v.elems|, made) + [below.value];
      }
    }
  }
}
