/** Comment stripping (tools/migration-analyzer/src/migration_analyzer/parser.py): three passes over a
    Jenkinsfile whose output must stay aligned with its input, line by line. */
module Comments {

  // ---------------------------------------------------------------- lines

  /** `text.split("\n")` */
  function Lines(text: string): (ls: seq<string>)
    ensures ls != []
    ensures forall i :: 0 <= i < |ls| ==> '\n' !in ls[i]
  {
    if text == "" then [""]
    else
      var rest := Lines(text[1..]);
      if text[0] == '\n' then [""] + rest else [[text[0]] + rest[0]] + rest[1..]
  }

  /** `"\n".join(ls)` */
  function Join(ls: seq<string>): string {
    if ls == [] then "" else if |ls| == 1 then ls[0] else ls[0] + "\n" + Join(ls[1..])
  }

  lemma {:induction false} LinesOfPrefix(line: string, rest: string)
    requires '\n' !in line
    ensures Lines(line + "\n" + rest) == [line] + Lines(rest)
    decreases |line|
  {
    var text := line + "\n" + rest;
    if line == "" {
      assert text[1..] == rest;
    } else {
      assert text[1..] == line[1..] + "\n" + rest;
      LinesOfPrefix(line[1..], rest);
      assert [line[0]] + line[1..] == line;
    }
  }

  lemma {:induction false} LinesOfLine(line: string)
    requires '\n' !in line
    ensures Lines(line) == [line]
    decreases |line|
  {
    if line != "" {
      LinesOfLine(line[1..]);
      assert [line[0]] + line[1..] == line;
    }
  }

  lemma {:induction false} LinesOfJoin(ls: seq<string>)
    requires ls != [] && forall i :: 0 <= i < |ls| ==> '\n' !in ls[i]
    ensures Lines(Join(ls)) == ls
    decreases |ls|
  {
    if |ls| == 1 {
      LinesOfLine(ls[0]);
    } else {
      LinesOfJoin(ls[1..]);
      LinesOfPrefix(ls[0], Join(ls[1..]));
    }
  }

  lemma {:induction false} JoinOfLines(text: string)
    ensures Join(Lines(text)) == text
    decreases |text|
  {
    if text != "" {
      JoinOfLines(text[1..]);
      var rest := Lines(text[1..]);
      if text[0] == '\n' {
        assert ([""] + rest)[1..] == rest;
        assert "" + "\n" + text[1..] == text;
      } else {
        var ls := [[text[0]] + rest[0]] + rest[1..];
        if |rest| > 1 {
          assert ls[1..] == rest[1..];
        }
        assert Join(ls) == [text[0]] + Join(rest);
        assert [text[0]] + text[1..] == text;
      }
    }
  }

  // ---------------------------------------------------------------- the three passes

  predicate Starts(s: string, a: char, b: char) {
    |s| >= 2 && s[0] == a && s[1] == b
  }

  /** The length of the rest of the line. */
  function LineLength(s: string): (k: nat)
    ensures k <= |s| && '\n' !in s[..k]
    ensures k < |s| ==> s[k] == '\n'
  {
    if s == "" || s[0] == '\n' then 0 else 1 + LineLength(s[1..])
  }

  /** `^#!.*$` removed; `start` says that a line begins here. */
  function DropShebangs(s: string, start: bool): string
    decreases |s|
  {
    if s == "" then ""
    else if start && Starts(s, '#', '!') then DropShebangs(s[LineLength(s)..], false)
    else [s[0]] + DropShebangs(s[1..], s[0] == '\n')
  }

  /** Where the first closing star and slash end, if there is one. */
  function CloseEnd(s: string): (k: nat)
    ensures k <= |s|
  {
    if s == "" then 0
    else if Starts(s, '*', '/') then 2
    else if CloseEnd(s[1..]) == 0 then 0 else 1 + CloseEnd(s[1..])
  }

  function Newlines(s: string): string {
    if s == "" then "" else (if s[0] == '\n' then "\n" else "") + Newlines(s[1..])
  }

  /** The length of the block comment that begins here, 0 for none. */
  function CommentLength(s: string): (k: nat)
    ensures k <= |s|
  {
    if Starts(s, '/', '*') && CloseEnd(s[2..]) > 0 then 2 + CloseEnd(s[2..]) else 0
  }

  /** Every block comment replaced by its newlines. */
  function BlankBlocks(s: string): string
    decreases |s|
  {
    var k := CommentLength(s);
    if s == "" then ""
    else if k > 0 then Newlines(s[..k]) + BlankBlocks(s[k..])
    else [s[0]] + BlankBlocks(s[1..])
  }

  /** Two slashes that begin a comment: at the line's start, or behind anything but a colon or a quote. */
  predicate CommentAt(line: string, k: nat) {
    k + 1 < |line| && line[k] == '/' && line[k + 1] == '/' && (k == 0 || line[k - 1] !in {':', '\'', '"'})
  }

  /** Where the pattern first matches behind the first `k` characters, or the line's end. */
  function CommentStart(line: string, k: nat): (j: nat)
    requires k <= |line|
    ensures k <= j <= |line|
    ensures forall i :: k <= i < j ==> !CommentAt(line, i)
    ensures j < |line| ==> CommentAt(line, j)
    decreases |line| - k
  {
    if k == |line| || CommentAt(line, k) then k else CommentStart(line, k + 1)
  }

  /** `(^|[^:'\"])//.*$` cut off, but for the character before the slashes. */
  function CutLine(line: string): string {
    line[..CommentStart(line, 0)]
  }

  function CutLines(ls: seq<string>): seq<string> {
    seq(|ls|, i requires 0 <= i < |ls| => CutLine(ls[i]))
  }

  function StripComments(text: string): string {
    Join(CutLines(Lines(BlankBlocks(DropShebangs(text, true)))))
  }

  // ---------------------------------------------------------------- alignment

  /** `u` is `t` with characters other than newlines left out. Without newlines: `u` is a subsequence of `t`. */
  predicate Thins(t: string, u: string)
    decreases |t|
  {
    if t == "" then u == ""
    else (u != "" && u[0] == t[0] && Thins(t[1..], u[1..])) || (t[0] != '\n' && Thins(t[1..], u))
  }

  lemma {:induction false} ThinsSelf(t: string)
    ensures Thins(t, t)
  {
    if t != "" {
      ThinsSelf(t[1..]);
    }
  }

  lemma {:induction false} ThinsConcat(a: string, b: string, c: string, d: string)
    requires Thins(a, b) && Thins(c, d)
    ensures Thins(a + c, b + d)
    decreases |a|
  {
    if a == "" {
      assert a + c == c && b + d == d;
    } else {
      assert (a + c)[1..] == a[1..] + c;
      if b != "" && b[0] == a[0] && Thins(a[1..], b[1..]) {
        ThinsConcat(a[1..], b[1..], c, d);
        assert (b + d)[1..] == b[1..] + d;
      } else {
        ThinsConcat(a[1..], b, c, d);
      }
    }
  }

  lemma {:induction false} ThinsTrans(t: string, u: string, v: string)
    requires Thins(t, u) && Thins(u, v)
    ensures Thins(t, v)
    decreases |t|
  {
    if t != "" {
      if u != "" && u[0] == t[0] && Thins(t[1..], u[1..]) {
        if v != "" && v[0] == u[0] && Thins(u[1..], v[1..]) {
          ThinsTrans(t[1..], u[1..], v[1..]);
        } else {
          ThinsTrans(t[1..], u[1..], v);
        }
      } else {
        ThinsTrans(t[1..], u, v);
      }
    }
  }

  /** Text without newlines can be left out whole. */
  lemma {:induction false} ThinsAway(t: string)
    ensures Thins(t, Newlines(t))
    ensures '\n' !in t ==> Newlines(t) == ""
  {
    if t != "" {
      ThinsAway(t[1..]);
      if t[0] == '\n' {
        assert ("\n" + Newlines(t[1..]))[1..] == Newlines(t[1..]);
      } else {
        assert "" + Newlines(t[1..]) == Newlines(t[1..]);
      }
    }
  }

  lemma {:induction false} ShebangsThin(s: string, start: bool)
    ensures Thins(s, DropShebangs(s, start))
    decreases |s|
  {
    if s != "" {
      if start && Starts(s, '#', '!') {
        var k := LineLength(s);
        ShebangsThin(s[k..], false);
        ThinsAway(s[..k]);
        ThinsConcat(s[..k], "", s[k..], DropShebangs(s[k..], false));
        assert s[..k] + s[k..] == s && "" + DropShebangs(s[k..], false) == DropShebangs(s[k..], false);
      } else {
        ShebangsThin(s[1..], s[0] == '\n');
        assert DropShebangs(s, start)[1..] == DropShebangs(s[1..], s[0] == '\n');
      }
    }
  }

  lemma {:induction false} BlocksThin(s: string)
    ensures Thins(s, BlankBlocks(s))
    decreases |s|
  {
    if s != "" {
      if Starts(s, '/', '*') && CloseEnd(s[2..]) > 0 {
        var k := 2 + CloseEnd(s[2..]);
        BlocksThin(s[k..]);
        ThinsAway(s[..k]);
        ThinsConcat(s[..k], Newlines(s[..k]), s[k..], BlankBlocks(s[k..]));
        assert s[..k] + s[k..] == s;
      } else {
        BlocksThin(s[1..]);
        assert BlankBlocks(s)[1..] == BlankBlocks(s[1..]);
      }
    }
  }

  /** Thinned text has the same number of lines, each one a subsequence of the old. */
  lemma {:induction false} ThinLines(t: string, u: string)
    requires Thins(t, u)
    ensures |Lines(t)| == |Lines(u)|
    ensures forall i :: 0 <= i < |Lines(t)| ==> Thins(Lines(t)[i], Lines(u)[i])
    decreases |t|
  {
    if t != "" {
      if u != "" && u[0] == t[0] && Thins(t[1..], u[1..]) {
        ThinLines(t[1..], u[1..]);
        if t[0] != '\n' {
          ThinsHead(t[0], Lines(t[1..])[0], Lines(u[1..])[0]);
        }
      } else {
        ThinLines(t[1..], u);
      }
    }
  }

  lemma ThinsHead(c: char, t: string, u: string)
    requires Thins(t, u)
    ensures Thins([c] + t, [c] + u)
  {
    assert ([c] + t)[1..] == t && ([c] + u)[1..] == u;
  }

  lemma CutThins(line: string)
    requires '\n' !in line
    ensures Thins(line, CutLine(line)) && '\n' !in CutLine(line)
  {
    var k := CommentStart(line, 0);
    ThinsSelf(line[..k]);
    ThinsAway(line[k..]);
    ThinsConcat(line[..k], line[..k], line[k..], "");
    assert line[..k] + line[k..] == line && line[..k] + "" == line[..k];
  }

  /** What the third pass leaves of each line. */
  lemma StrippedLines(text: string)
    ensures Lines(StripComments(text)) == CutLines(Lines(BlankBlocks(DropShebangs(text, true))))
  {
    var ls := Lines(BlankBlocks(DropShebangs(text, true)));
    forall i | 0 <= i < |ls|
      ensures '\n' !in CutLines(ls)[i]
    {
      CutThins(ls[i]);
    }
    LinesOfJoin(CutLines(ls));
  }

  /** Line alignment: as many lines out as in, each a subsequence of the line it came from. */
  lemma LineAlignment(text: string)
    ensures |Lines(StripComments(text))| == |Lines(text)|
    ensures forall i :: 0 <= i < |Lines(text)| ==> Thins(Lines(text)[i], Lines(StripComments(text))[i])
  {
    var a := DropShebangs(text, true);
    var b := BlankBlocks(a);
    ShebangsThin(text, true);
    BlocksThin(a);
    ThinsTrans(text, a, b);
    ThinLines(text, b);
    StrippedLines(text);
    forall i | 0 <= i < |Lines(text)|
      ensures Thins(Lines(text)[i], Lines(StripComments(text))[i])
    {
      CutThins(Lines(b)[i]);
      ThinsTrans(Lines(text)[i], Lines(b)[i], CutLine(Lines(b)[i]));
    }
  }

  // ---------------------------------------------------------------- without block comments

  predicate HasBlock(s: string) {
    exists i :: 0 <= i < |s| - 1 && s[i] == '/' && s[i + 1] == '*'
  }

  /** Taking a character off the front can only lose the block comment that begins there. */
  lemma HeadBlock(c: char, s: string)
    ensures HasBlock([c] + s) <==> HasBlock(s) || (c == '/' && s != "" && s[0] == '*')
  {
    var t := [c] + s;
    if HasBlock(t) {
      var i :| 0 <= i < |t| - 1 && t[i] == '/' && t[i + 1] == '*';
      assert i > 0 ==> s[i - 1] == '/' && s[i - 1 + 1] == '*';
    }
    if HasBlock(s) {
      var i :| 0 <= i < |s| - 1 && s[i] == '/' && s[i + 1] == '*';
      assert t[i + 1] == '/' && t[i + 1 + 1] == '*';
    }
    if c == '/' && s != "" && s[0] == '*' {
      assert t[0] == '/' && t[0 + 1] == '*';
    }
  }

  lemma {:induction false} NoBlocks(s: string)
    requires !HasBlock(s)
    ensures BlankBlocks(s) == s
    decreases |s|
  {
    if s != "" {
      assert [s[0]] + s[1..] == s;
      HeadBlock(s[0], s[1..]);
      NoBlocks(s[1..]);
    }
  }

  // ---------------------------------------------------------------- what the second pass removes

  predicate HasEnd(s: string) {
    exists i :: 0 <= i < |s| - 1 && s[i] == '*' && s[i + 1] == '/'
  }

  lemma {:induction false} FirstEnd(b: string, c: string)
    requires !HasEnd(b)
    ensures CloseEnd(b + ("*/" + c)) == |b| + 2
    decreases |b|
  {
    var s := b + ("*/" + c);
    if b == "" {
      assert s[0] == '*' && s[1] == '/';
    } else {
      assert s[1..] == b[1..] + ("*/" + c);
      FirstEnd(b[1..], c);
    }
  }

  lemma {:induction false} NoEnd(s: string)
    requires !HasEnd(s)
    ensures CloseEnd(s) == 0
    decreases |s|
  {
    if s != "" {
      NoEnd(s[1..]);
    }
  }

  lemma {:induction false} CopiedBefore(a: string, s: string)
    requires !HasBlock(a) && (s != "" ==> s[0] == '/')
    ensures BlankBlocks(a + s) == a + BlankBlocks(s)
    decreases |a|
  {
    if a == "" {
      assert a + s == s;
    } else {
      assert [a[0]] + a[1..] == a;
      HeadBlock(a[0], a[1..]);
      assert (a + s)[1..] == a[1..] + s;
      assert |a| == 1 && s != "" ==> (a + s)[1] == s[0];
      CopiedBefore(a[1..], s);
    }
  }

  /** A block comment leaves its newlines, and nothing but the first end closes it. */
  lemma BlockBlanked(a: string, b: string, c: string)
    requires !HasBlock(a) && !HasEnd(b)
    ensures BlankBlocks(a + ("/*" + (b + ("*/" + c)))) == a + (Newlines(b) + BlankBlocks(c))
  {
    var s := "/*" + (b + ("*/" + c));
    CopiedBefore(a, s);
    assert s[2..] == b + ("*/" + c);
    FirstEnd(b, c);
    var k := |b| + 4;
    assert s[k..] == c;
    assert s[..k] == "/*" + (b + "*/");
    NewlinesConcat("/*", b + "*/");
    NewlinesConcat(b, "*/");
    ThinsAway("/*");
    ThinsAway("*/");
    assert "" + (Newlines(b) + "") == Newlines(b);
  }

  lemma {:induction false} NewlinesConcat(a: string, b: string)
    ensures Newlines(a + b) == Newlines(a) + Newlines(b)
    decreases |a|
  {
    if a == "" {
      assert a + b == b;
    } else {
      assert (a + b)[1..] == a[1..] + b;
      NewlinesConcat(a[1..], b);
      var head := if a[0] == '\n' then "\n" else "";
      assert head + Newlines(a[1..]) + Newlines(b) == head + (Newlines(a[1..]) + Newlines(b));
    }
  }

  /** An opening that is never closed is left as it is. */
  lemma {:induction false} UnclosedLeft(s: string)
    requires !HasEnd(s)
    ensures BlankBlocks(s) == s
    decreases |s|
  {
    if s != "" {
      UnclosedLeft(s[1..]);
      if |s| >= 2 {
        assert s[1..][1..] == s[2..];
        NoEnd(s[2..]);
      }
      assert [s[0]] + s[1..] == s;
    }
  }

  // ---------------------------------------------------------------- the first pass, line by line

  /** The first pass empties lines or leaves them. */
  function DropLine(line: string): string {
    if Starts(line, '#', '!') then "" else line
  }

  function DropLines(ls: seq<string>): seq<string> {
    seq(|ls|, i requires 0 <= i < |ls| => DropLine(ls[i]))
  }

  /** The first pass, from within a line or from a line's start, line by line. */
  lemma {:induction false} ShebangLines(s: string, start: bool)
    ensures var ls := Lines(s);
      Lines(DropShebangs(s, start)) == [if start then DropLine(ls[0]) else ls[0]] + DropLines(ls[1..])
    decreases |s|
  {
    var ls := Lines(s);
    if s != "" {
      if start && Starts(s, '#', '!') {
        var k := LineLength(s);
        ShebangLines(s[k..], false);
        LineEnds(s);
      } else {
        var more := DropShebangs(s[1..], s[0] == '\n');
        ShebangLines(s[1..], s[0] == '\n');
        assert DropShebangs(s, start)[1..] == more;
        var rest := Lines(s[1..]);
        if s[0] == '\n' {
          assert DropLines(ls[1..]) == [DropLine(rest[0])] + DropLines(rest[1..]);
        } else {
          assert ls[1..] == rest[1..];
        }
      }
    }
  }

  lemma {:induction false} LineEnds(s: string)
    ensures Lines(s[LineLength(s)..]) == [""] + Lines(s)[1..]
    decreases |s|
  {
    if s != "" && s[0] != '\n' {
      LineEnds(s[1..]);
      assert s[1..][LineLength(s[1..])..] == s[LineLength(s)..];
    } else {
      assert s[0..] == s;
    }
  }

  /** Emptying lines makes no block comment. */
  lemma {:induction false} ShebangsMakeNoBlock(s: string, start: bool)
    requires !HasBlock(s)
    ensures !HasBlock(DropShebangs(s, start))
    ensures DropShebangs(s, start) != "" && s != "" && !(start && Starts(s, '#', '!')) ==> DropShebangs(s, start)[0] == s[0]
    decreases |s|
  {
    if s != "" {
      if start && Starts(s, '#', '!') {
        var k := LineLength(s);
        ShebangsMakeNoBlock(s[k..], false);
      } else {
        var more := DropShebangs(s[1..], s[0] == '\n');
        assert [s[0]] + s[1..] == s;
        HeadBlock(s[0], s[1..]);
        ShebangsMakeNoBlock(s[1..], s[0] == '\n');
        HeadBlock(s[0], more);
      }
    }
  }

  lemma ShebangsByLine(text: string)
    ensures Lines(DropShebangs(text, true)) == DropLines(Lines(text))
  {
    ShebangLines(text, true);
  }

  /** Without block comments each line is cut, not thinned: what is left is a prefix, empty for a shebang. */
  lemma PrefixWithoutBlocks(text: string)
    requires !HasBlock(text)
    ensures Lines(StripComments(text)) == CutLines(DropLines(Lines(text)))
    ensures |Lines(StripComments(text))| == |Lines(text)|
    ensures forall i :: 0 <= i < |Lines(text)| ==> Lines(StripComments(text))[i] <= Lines(text)[i]
  {
    ShebangsMakeNoBlock(text, true);
    NoBlocks(DropShebangs(text, true));
    ShebangsByLine(text);
    StrippedLines(text);
  }

  // ---------------------------------------------------------------- what is gone, and what is not

  /** No cleaned line holds the start of a line comment. */
  lemma NoLineCommentLeft(text: string, i: nat, k: nat)
    requires i < |Lines(StripComments(text))|
    ensures !CommentAt(Lines(StripComments(text))[i], k)
  {
    StrippedLines(text);
    var line := Lines(BlankBlocks(DropShebangs(text, true)))[i];
    var j := CommentStart(line, 0);
    assert k + 1 < j ==> !CommentAt(line, k);
  }
}
