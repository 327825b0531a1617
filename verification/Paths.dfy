/** Field paths as written in patches: `_segments` (hack/render-composition.py) and its inverse. */
module Paths {
  import opened Lens

  /** A character of a plain name: anything but a dot or a bracket. */
  predicate PlainChar(c: char) {
    c != '.' && c != '[' && c != ']'
  }

  predicate IsDigit(c: char) {
    '0' <= c <= '9'
  }

  predicate AllDigits(s: string) {
    s != "" && forall i :: 0 <= i < |s| ==> IsDigit(s[i])
  }

  /** The value of a string of decimal digits. */
  function ToNat(s: string): nat
    requires forall i :: 0 <= i < |s| ==> IsDigit(s[i])
  {
    if s == "" then 0 else assert IsDigit(s[|s|-1]); 10 * ToNat(s[..|s|-1]) + (s[|s|-1] as int - '0' as int)
  }

  function FromNat(n: nat): string {
    (if n < 10 then "" else FromNat(n / 10)) + [(n % 10 + '0' as int) as char]
  }

  /** The length of the longest run of plain characters at the start of `s`. */
  function PlainRun(s: string): (k: nat)
    ensures k <= |s|
    ensures forall i :: 0 <= i < k ==> PlainChar(s[i])
    ensures k < |s| ==> !PlainChar(s[k])
  {
    if s == "" || !PlainChar(s[0]) then 0 else 1 + PlainRun(s[1..])
  }

  /** The position of the first `]`, or the length of `s`. */
  function CloseAt(s: string): (k: nat)
    ensures k <= |s|
    ensures forall i :: 0 <= i < k ==> s[i] != ']'
    ensures k < |s| ==> s[k] == ']'
  {
    if s == "" || s[0] == ']' then 0 else 1 + CloseAt(s[1..])
  }

  /** A bracketed segment: a position if it is all digits, a name otherwise. */
  function Bracketed(s: string): Seg {
    if AllDigits(s) then Index(ToNat(s)) else Name(s)
  }

  /** The next match of the segment pattern: how far it reaches and the segment, if any. */
  function NextSegment(s: string): (m: (nat, Path))
    requires s != ""
    ensures 0 < m.0 <= |s|
  {
    if PlainChar(s[0]) then (PlainRun(s), [Name(s[..PlainRun(s)])])
    else if s[0] == '[' && 0 < CloseAt(s[1..]) < |s| - 1 then
      (CloseAt(s[1..]) + 2, [Bracketed(s[1..][..CloseAt(s[1..])])])
    else (1, [])
  }

  /** `_segments`: the matches from left to right; characters no match covers are skipped. */
  function Segments(s: string): Path
    decreases |s|
  {
    if s == "" then [] else NextSegment(s).1 + Segments(s[NextSegment(s).0..])
  }

  /** `_segments` with the list it appends to. */
  method ParseSegments(path: string) returns (out: Path)
    ensures out == Segments(path)
  {
    out := [];
    var todo := path;
    while todo != ""
      invariant out + Segments(todo) == Segments(path)
      decreases |todo|
    {
      var (reach, segs) := NextSegment(todo);
      AppendAssoc(out, segs, Segments(todo[reach..]));
      out := out + segs;
      todo := todo[reach..];
    }
  }

  lemma AppendAssoc(a: Path, b: Path, c: Path)
    ensures a + (b + c) == (a + b) + c
  {
  }

  // ---------------------------------------------------------------- printing

  /** A plain name needs no brackets. */
  predicate IsPlain(name: string) {
    name != "" && forall i :: 0 <= i < |name| ==> PlainChar(name[i])
  }

  function PrintSegment(seg: Seg): string {
    match seg
    case Index(i) => "[" + FromNat(i) + "]"
    case Name(n) => if IsPlain(n) then "." + n else "[" + n + "]"
  }

  function Print(p: Path): string {
    if p == [] then "" else PrintSegment(p[0]) + Print(p[1..])
  }

  /** As people write paths: no dot before a leading name. */
  function PrintPath(p: Path): string {
    if p != [] && p[0].Name? && IsPlain(p[0].name) then Print(p)[1..] else Print(p)
  }

  /** What a path can hold: positions, and names that are non-empty and free of `]`. */
  predicate Printable(seg: Seg) {
    seg.Name? ==> seg.name != "" && forall i :: 0 <= i < |seg.name| ==> seg.name[i] != ']'
  }

  predicate AllPrintable(p: Path) {
    forall i :: 0 <= i < |p| ==> Printable(p[i])
  }

  lemma {:induction false} DigitsRoundTrip(n: nat)
    ensures AllDigits(FromNat(n)) && ToNat(FromNat(n)) == n
  {
    var s := FromNat(n);
    if n >= 10 {
      DigitsRoundTrip(n / 10);
      assert s[..|s|-1] == FromNat(n / 10);
    } else {
      assert s[..|s|-1] == "";
    }
  }

  lemma RunOfPrefix(name: string, rest: string)
    requires forall i :: 0 <= i < |name| ==> PlainChar(name[i])
    requires rest == "" || !PlainChar(rest[0])
    ensures PlainRun(name + rest) == |name|
  {
    var s := name + rest;
    assert forall i :: 0 <= i < |name| ==> s[i] == name[i];
    assert rest != "" ==> s[|name|] == rest[0];
  }

  lemma CloseOfPrefix(name: string, rest: string)
    requires forall i :: 0 <= i < |name| ==> name[i] != ']'
    ensures CloseAt(name + "]" + rest) == |name|
  {
    var s := name + "]" + rest;
    assert s[|name|] == ']';
    assert forall i :: 0 <= i < |name| ==> s[i] == name[i];
  }

  /** One bracketed segment is read back, whatever follows. */
  lemma BracketRead(inner: string, rest: string)
    requires inner != "" && forall i :: 0 <= i < |inner| ==> inner[i] != ']'
    ensures Segments("[" + inner + "]" + rest) == [Bracketed(inner)] + Segments(rest)
  {
    var s := "[" + inner + "]" + rest;
    assert s[1..] == inner + "]" + rest;
    CloseOfPrefix(inner, rest);
    assert s[1..][..|inner|] == inner;
    assert s[|inner| + 2..] == rest;
  }

  /** One dotted name is read back, if what follows does not extend it. */
  lemma NameRead(name: string, rest: string)
    requires IsPlain(name) && (rest == "" || !PlainChar(rest[0]))
    ensures Segments(name + rest) == [Name(name)] + Segments(rest)
    ensures Segments("." + name + rest) == [Name(name)] + Segments(rest)
  {
    RunOfPrefix(name, rest);
    assert (name + rest)[..|name|] == name && (name + rest)[|name|..] == rest;
    var s := "." + name + rest;
    assert s[1..] == name + rest;
    assert Segments(s) == [] + Segments(s[1..]);
  }

  /** Every list of printable segments is read back as written: all-digit names stay names, dotted keys stay
      one segment, indices stay indices. */
  lemma {:induction false} PrintRead(p: Path)
    requires AllPrintable(p)
    ensures Segments(Print(p)) == p
    decreases |p|
  {
    if p != [] {
      var rest := Print(p[1..]);
      PrintRead(p[1..]);
      assert rest == "" || !PlainChar(rest[0]) by {
        if p[1..] != [] {
          assert rest[0] == PrintSegment(p[1])[0];
        }
      }
      match p[0]
      case Index(i) =>
        DigitsRoundTrip(i);
        BracketRead(FromNat(i), rest);
        assert Print(p) == "[" + FromNat(i) + "]" + rest;
      case Name(n) =>
        if IsPlain(n) {
          NameRead(n, rest);
          assert Print(p) == "." + n + rest;
        } else {
          NotDigits(n);
          BracketRead(n, rest);
          assert Print(p) == "[" + n + "]" + rest;
        }
    }
  }

  lemma NotDigits(n: string)
    requires n != "" && !IsPlain(n)
    ensures !AllDigits(n)
  {
    var i :| 0 <= i < |n| && !PlainChar(n[i]);
    assert !IsDigit(n[i]);
  }

  /** Whatever the text, the segments read from it are printable. */
  lemma {:induction false} SegmentsPrintable(s: string)
    ensures AllPrintable(Segments(s))
    decreases |s|
  {
    if s != "" {
      SegmentsPrintable(s[NextSegment(s).0..]);
    }
  }

  /** The round trip holds for exactly the printable paths. */
  lemma RoundTrip(p: Path)
    ensures Segments(PrintPath(p)) == p <==> AllPrintable(p)
  {
    SegmentsPrintable(PrintPath(p));
    if AllPrintable(p) {
      PrintRead(p);
      if p != [] && p[0].Name? && IsPlain(p[0].name) {
        var s := Print(p);
        assert s[0] == '.';
        assert Segments(s) == [] + Segments(s[1..]);
      }
    }
  }
}
