/** Which block comments survive stripping (tools/migration-analyzer/src/migration_analyzer/parser.py): those that
    the removal of others forms. When stripping twice is stripping once. */
module CommentsLeft {
  import opened Comments

  /** A closed block comment begins somewhere in `u`. */
  predicate HasComment(u: string) {
    u != "" && (CommentLength(u) > 0 || HasComment(u[1..]))
  }

  /** What is left of `s` behind the comments at its start that are removed without a trace. */
  function Silent(s: string): (r: string)
    ensures |r| <= |s|
    decreases |s|
  {
    var k := CommentLength(s);
    if k > 0 && '\n' !in s[..k] then Silent(s[k..]) else s
  }

  /** The next character that the pass leaves is `c`, a kept one. */
  predicate NextKept(s: string, c: char) {
    Silent(s) != "" && CommentLength(Silent(s)) == 0 && Silent(s)[0] == c
  }

  /** Kept characters form an end mark, with nothing left between them. */
  predicate EndFormed(s: string)
    decreases |s|
  {
    var k := CommentLength(s);
    s != "" &&
    if k > 0 then EndFormed(s[k..]) else (s[0] == '*' && NextKept(s[1..], '/')) || EndFormed(s[1..])
  }

  /** A kept slash and a kept star are brought together by the removal of what stood between them, and an end
      mark follows. */
  predicate CommentFormed(s: string)
    decreases |s|
  {
    var k := CommentLength(s);
    s != "" &&
    if k > 0 then CommentFormed(s[k..])
    else
      (s[0] == '/' && CommentLength(s[1..]) > 0 && NextKept(s[1..], '*') && EndFormed(Silent(s[1..])[1..])) ||
      CommentFormed(s[1..])
  }

  lemma {:induction false} SilentBlanked(s: string)
    ensures BlankBlocks(s) == BlankBlocks(Silent(s))
    decreases |s|
  {
    var k := CommentLength(s);
    if k > 0 && '\n' !in s[..k] {
      ThinsAway(s[..k]);
      SilentBlanked(s[k..]);
    }
  }

  lemma {:induction false} NewlinesOnly(s: string)
    ensures forall i :: 0 <= i < |Newlines(s)| ==> Newlines(s)[i] == '\n'
    ensures '\n' in s ==> Newlines(s) != ""
  {
    if s != "" {
      NewlinesOnly(s[1..]);
    }
  }

  /** The first character left, and what is left behind it. */
  lemma FirstLeft(s: string, c: char)
    requires c != '\n'
    ensures NextKept(s, c) <==> BlankBlocks(s) != "" && BlankBlocks(s)[0] == c
    ensures NextKept(s, c) ==> BlankBlocks(s) == [c] + BlankBlocks(Silent(s)[1..])
  {
    SilentBlanked(s);
    var r := Silent(s);
    SilentStops(s);
    var k := CommentLength(r);
    if k > 0 {
      NewlinesOnly(r[..k]);
      assert BlankBlocks(r)[0] == '\n';
    }
  }

  lemma {:induction false} SilentStops(s: string)
    ensures var r := Silent(s); CommentLength(r) > 0 ==> '\n' in r[..CommentLength(r)]
    decreases |s|
  {
    var k := CommentLength(s);
    if k > 0 && '\n' !in s[..k] {
      SilentStops(s[k..]);
    }
  }

  lemma {:induction false} EndFound(s: string)
    ensures CloseEnd(s) > 0 <==> HasEnd(s)
    decreases |s|
  {
    if s != "" {
      EndFound(s[1..]);
      if HasEnd(s) && !Starts(s, '*', '/') {
        var i :| 0 <= i < |s| - 1 && s[i] == '*' && s[i + 1] == '/';
        assert s[1..][i - 1] == '*' && s[1..][i - 1 + 1] == '/';
      }
    }
  }

  lemma {:induction false} EndSkipsNewlines(n: string, u: string)
    requires forall i :: 0 <= i < |n| ==> n[i] == '\n'
    ensures CloseEnd(n + u) > 0 <==> CloseEnd(u) > 0
    ensures HasComment(n + u) <==> HasComment(u)
    decreases |n|
  {
    if n == "" {
      assert n + u == u;
    } else {
      assert (n + u)[1..] == n[1..] + u && (n + u)[0] == '\n';
      EndSkipsNewlines(n[1..], u);
    }
  }

  /** An end mark is left exactly where kept characters form one. */
  lemma {:induction false} EndLeft(s: string)
    ensures CloseEnd(BlankBlocks(s)) > 0 <==> EndFormed(s)
    decreases |s|
  {
    if s != "" {
      var k := CommentLength(s);
      if k > 0 {
        EndLeft(s[k..]);
        NewlinesOnly(s[..k]);
        EndSkipsNewlines(Newlines(s[..k]), BlankBlocks(s[k..]));
      } else {
        EndLeft(s[1..]);
        FirstLeft(s[1..], '/');
        assert BlankBlocks(s)[1..] == BlankBlocks(s[1..]);
      }
    }
  }

  /** An opening that stood in the text as it is, and was left, has no end behind it. */
  lemma OpeningUnclosed(s: string)
    requires Starts(s, '/', '*') && CommentLength(s) == 0
    ensures BlankBlocks(s[1..]) != "" && CloseEnd(BlankBlocks(s[1..])[1..]) == 0
  {
    EndFound(s[2..]);
    UnclosedLeft(s[2..]);
    assert s[1..][1..] == s[2..] && s[1..][0] == '*';
    assert BlankBlocks(s[1..])[1..] == s[2..];
  }

  /** A closed block comment is left exactly where the removal of others forms one. */
  lemma {:induction false} CommentLeft(s: string)
    ensures HasComment(BlankBlocks(s)) <==> CommentFormed(s)
    decreases |s|
  {
    if s != "" {
      var k := CommentLength(s);
      if k > 0 {
        CommentLeft(s[k..]);
        NewlinesOnly(s[..k]);
        EndSkipsNewlines(Newlines(s[..k]), BlankBlocks(s[k..]));
      } else {
        CommentLeft(s[1..]);
        CommentHere(s);
      }
    }
  }

  /** Whether one begins with the character kept here. */
  lemma CommentHere(s: string)
    requires s != "" && CommentLength(s) == 0
    ensures BlankBlocks(s) == [s[0]] + BlankBlocks(s[1..]) && BlankBlocks(s)[1..] == BlankBlocks(s[1..])
    ensures CommentLength(BlankBlocks(s)) > 0 <==>
      (s[0] == '/' && CommentLength(s[1..]) > 0 && NextKept(s[1..], '*') && EndFormed(Silent(s[1..])[1..]))
  {
    var out, u := BlankBlocks(s), BlankBlocks(s[1..]);
    assert out[1..] == u;
    FirstLeft(s[1..], '*');
    if u != "" && u[0] == '*' {
      var r := Silent(s[1..]);
      assert u[1..] == BlankBlocks(r[1..]) == out[2..];
      EndLeft(r[1..]);
      if CommentLength(s[1..]) == 0 && s[0] == '/' {
        OpeningUnclosed(s);
      }
    }
  }

  lemma {:induction false} BlanksShrink(s: string)
    ensures |BlankBlocks(s)| <= |s|
    decreases |s|
  {
    if s != "" {
      var k := CommentLength(s);
      if k > 0 {
        BlanksShrink(s[k..]);
        NewlinesShort(s[..k]);
      } else {
        BlanksShrink(s[1..]);
      }
    }
  }

  lemma {:induction false} NewlinesShort(s: string)
    ensures |Newlines(s)| <= |s|
    ensures s != "" && s[0] != '\n' ==> |Newlines(s)| < |s|
  {
    if s != "" {
      NewlinesShort(s[1..]);
    }
  }

  /** The pass changes nothing exactly when there is no closed block comment. */
  lemma {:induction false} BlankedAlready(u: string)
    ensures BlankBlocks(u) == u <==> !HasComment(u)
    decreases |u|
  {
    if u != "" {
      var k := CommentLength(u);
      if k > 0 {
        BlanksShrink(u[k..]);
        NewlinesShort(u[..k]);
      } else {
        BlankedAlready(u[1..]);
        assert BlankBlocks(u)[1..] == BlankBlocks(u[1..]);
        assert u == [u[0]] + u[1..];
      }
    }
  }

  /** Removing block comments twice is removing them once exactly when their removal forms none. */
  lemma BlankTwice(s: string)
    ensures BlankBlocks(BlankBlocks(s)) == BlankBlocks(s) <==> !CommentFormed(s)
  {
    CommentLeft(s);
    BlankedAlready(BlankBlocks(s));
  }

  // ---------------------------------------------------------------- stripping twice

  predicate NoShebangLine(ls: seq<string>) {
    forall i :: 0 <= i < |ls| ==> !Starts(ls[i], '#', '!')
  }

  predicate NoLineComment(ls: seq<string>) {
    forall i, k :: 0 <= i < |ls| && 0 <= k < |ls[i]| ==> !CommentAt(ls[i], k)
  }

  lemma {:induction false} ThinsSameLength(t: string, u: string)
    requires Thins(t, u)
    ensures |u| <= |t| && (|u| == |t| ==> u == t)
    decreases |t|
  {
    if t != "" {
      if u != "" && u[0] == t[0] && Thins(t[1..], u[1..]) {
        ThinsSameLength(t[1..], u[1..]);
        assert u == [u[0]] + u[1..] && t == [t[0]] + t[1..];
      } else {
        ThinsSameLength(t[1..], u);
      }
    }
  }

  lemma CutLineShrinks(line: string)
    ensures |CutLine(line)| <= |line| && (|CutLine(line)| == |line| ==> CutLine(line) == line)
  {
    assert line[..|line|] == line;
  }

  lemma CutLinesHead(ls: seq<string>)
    requires ls != []
    ensures CutLines(ls) == [CutLine(ls[0])] + CutLines(ls[1..]) && CutLines(ls)[1..] == CutLines(ls[1..])
  {
  }

  lemma {:induction false} CutsShrink(ls: seq<string>)
    ensures |Join(CutLines(ls))| <= |Join(ls)|
    ensures |Join(CutLines(ls))| == |Join(ls)| ==> CutLines(ls) == ls
    decreases |ls|
  {
    if ls != [] {
      CutsShrink(ls[1..]);
      CutLineShrinks(ls[0]);
      CutLinesHead(ls);
      assert ls == [ls[0]] + ls[1..];
    }
  }

  lemma ShebangsGone(u: string)
    ensures DropShebangs(u, true) == u <==> NoShebangLine(Lines(u))
  {
    ShebangsByLine(u);
    JoinOfLines(u);
    JoinOfLines(DropShebangs(u, true));
    var ls := Lines(u);
    if NoShebangLine(ls) {
      assert DropLines(ls) == ls;
    }
    if DropLines(ls) == ls {
      forall i | 0 <= i < |ls|
        ensures !Starts(ls[i], '#', '!')
      {
        assert DropLines(ls)[i] == DropLine(ls[i]);
      }
    }
  }

  lemma CutLineAlready(line: string)
    ensures CutLine(line) == line <==> forall k :: 0 <= k < |line| ==> !CommentAt(line, k)
  {
    var j := CommentStart(line, 0);
    if j == |line| {
      assert line[..j] == line;
    }
  }

  lemma CutAlready(ls: seq<string>)
    ensures CutLines(ls) == ls <==> NoLineComment(ls)
  {
    forall i | 0 <= i < |ls|
      ensures CutLines(ls)[i] == ls[i] <==> forall k :: 0 <= k < |ls[i]| ==> !CommentAt(ls[i], k)
    {
      CutLineAlready(ls[i]);
    }
  }

  /** Stripping changes nothing exactly when there is no shebang line, no closed block comment and no line
      comment. */
  lemma StrippedAlready(u: string)
    ensures StripComments(u) == u <==> NoShebangLine(Lines(u)) && !HasComment(u) && NoLineComment(Lines(u))
  {
    var a := DropShebangs(u, true);
    var b := BlankBlocks(a);
    ShebangsThin(u, true);
    ThinsSameLength(u, a);
    BlocksThin(a);
    ThinsSameLength(a, b);
    CutsShrink(Lines(b));
    JoinOfLines(b);
    ShebangsGone(u);
    BlankedAlready(u);
    CutAlready(Lines(u));
    JoinOfLines(u);
  }

  /** The shortest case: what is left once is a comment, and stripping again removes it. */
  lemma BlockLeft()
    ensures CommentFormed("//**/**/")
    ensures StripComments("//**/**/") == "/**/" && StripComments("/**/") == ""
  {
    BlankedOnce();
    BlankedTwice();
    BlankTwice("//**/**/");
    StripsTo("//**/**/", "/**/");
    StripsTo("/**/", "");
  }

  lemma BlankedOnce()
    ensures BlankBlocks("//**/**/") == "/**/"
  {
    assert "/" + ("/**/" + "**/") == "//**/**/";
    SlashThenBlock("**/");
    NoBlocks("**/");
    assert "/" + "**/" == "/**/";
  }

  lemma BlankedTwice()
    ensures BlankBlocks("/**/") == ""
  {
    assert "/**/" + "" == "/**/";
    OneBlock("");
  }

  lemma StripsTo(text: string, left: string)
    requires '#' !in text && BlankBlocks(text) == left && '\n' !in left && forall k :: !CommentAt(left, k)
    ensures StripComments(text) == left
  {
    ShebangFree(text);
    OneLine(left);
  }

  lemma SlashThenBlock(rest: string)
    ensures BlankBlocks("/" + ("/**/" + rest)) == "/" + BlankBlocks(rest)
  {
    var s := "/" + ("/**/" + rest);
    assert s[1..] == "/**/" + rest;
    assert s[1] == '/';
    OneBlock(rest);
  }

  lemma OneLine(line: string)
    requires '\n' !in line && forall k :: !CommentAt(line, k)
    ensures Join(CutLines(Lines(line))) == line
  {
    LinesOfLine(line);
    assert CutLine(line) == line;
    assert CutLines([line]) == [line];
  }

  lemma OneBlock(rest: string)
    ensures BlankBlocks("/**/" + rest) == BlankBlocks(rest)
  {
    var s := "/**/" + rest;
    assert s[2..][0] == '*' && s[2..][1] == '/';
    assert s[..4] == "/**/" && s[4..] == rest;
    assert Newlines("/**/") == "" by {
      ThinsAway("/**/");
    }
  }

  lemma {:induction false} ShebangFree(s: string)
    requires '#' !in s
    ensures forall start :: DropShebangs(s, start) == s
    decreases |s|
  {
    if s != "" {
      ShebangFree(s[1..]);
    }
  }
}
