/** When stripping a Jenkinsfile twice is stripping it once (tools/migration-analyzer/src/migration_analyzer/parser.py),
    read off the text that goes in. */
module CommentsTwice {
  import opened Comments
  import opened CommentsLeft

  // ---------------------------------------------------------------- cutting lines, character by character

  /** Two slashes that begin a comment behind `prev`, a newline standing for the start of a line. */
  predicate Slashes(u: string, prev: char) {
    Starts(u, '/', '/') && prev !in {':', '\'', '"'}
  }

  /** The text with the line comments cut off; `cut` says that one has begun in this line. */
  function CutText(u: string, prev: char, cut: bool): string {
    if u == "" then ""
    else if u[0] == '\n' then "\n" + CutText(u[1..], '\n', false)
    else if cut || Slashes(u, prev) then CutText(u[1..], prev, true)
    else [u[0]] + CutText(u[1..], u[0], false)
  }

  /** The end of the text or of a line. */
  predicate LineEnd(r: string) {
    r == "" || r[0] == '\n'
  }

  lemma {:induction false} CutSkips(line: string, r: string, prev: char)
    requires '\n' !in line && LineEnd(r)
    ensures CutText(line + r, prev, true) == CutText(r, '\n', false)
    decreases |line|
  {
    if line == "" {
      assert line + r == r;
    } else {
      assert (line + r)[1..] == line[1..] + r;
      CutSkips(line[1..], r, prev);
    }
  }

  lemma {:induction false} CutRest(line: string, k: nat, r: string, prev: char)
    requires '\n' !in line && k <= |line| && LineEnd(r) && prev == (if k == 0 then '\n' else line[k - 1])
    ensures CutText(line[k..] + r, prev, false) == line[k..CommentStart(line, k)] + CutText(r, '\n', false)
    decreases |line| - k
  {
    var u := line[k..] + r;
    if k == |line| {
      assert u == r;
    } else {
      assert u[1..] == line[k + 1..] + r && u[0] == line[k];
      assert Slashes(u, prev) <==> CommentAt(line, k);
      if CommentAt(line, k) {
        CutSkips(line[k + 1..], r, prev);
      } else {
        CutRest(line, k + 1, r, line[k]);
        assert line[k..CommentStart(line, k)] == [line[k]] + line[k + 1..CommentStart(line, k + 1)];
      }
    }
  }

  /** The cut text is the cut lines, joined. */
  lemma {:induction false} CutOfLines(ls: seq<string>)
    requires ls != [] && forall i :: 0 <= i < |ls| ==> '\n' !in ls[i]
    ensures CutText(Join(ls), '\n', false) == Join(CutLines(ls))
    decreases |ls|
  {
    if |ls| == 1 {
      CutRest(ls[0], 0, "", '\n');
      assert ls[0][0..] + "" == ls[0];
      assert CutLines(ls) == [CutLine(ls[0])];
    } else {
      CutOfLines(ls[1..]);
      var r := "\n" + Join(ls[1..]);
      assert r[1..] == Join(ls[1..]);
      CutRest(ls[0], 0, r, '\n');
      assert Join(ls) == ls[0][0..] + r;
      CutLinesHead(ls);
    }
  }

  /** The last two passes, behind the first. */
  lemma StripsByCharacter(text: string)
    ensures StripComments(text) == CutText(BlankBlocks(DropShebangs(text, true)), '\n', false)
  {
    var b := BlankBlocks(DropShebangs(text, true));
    JoinOfLines(b);
    CutOfLines(Lines(b));
  }

  lemma {:induction false} CutNewlines(n: string, u: string, prev: char, cut: bool)
    requires n != "" && forall i :: 0 <= i < |n| ==> n[i] == '\n'
    ensures CutText(n + u, prev, cut) == n + CutText(u, '\n', false)
    decreases |n|
  {
    assert (n + u)[1..] == n[1..] + u && (n + u)[0] == '\n';
    if |n| == 1 {
      assert n[1..] + u == u;
    } else {
      CutNewlines(n[1..], u, '\n', false);
    }
  }

  // ---------------------------------------------------------------- what stays, read off the text before

  /** The character at the start of `s` and the next kept one begin a line comment. */
  predicate SlashesFormed(s: string, prev: char)
    requires s != ""
  {
    s[0] == '/' && NextKept(s[1..], '/') && prev !in {':', '\'', '"'}
  }

  /** Kept characters form an end mark that no line comment cuts off: its slash begins none, nor does one before it. */
  predicate EndStays(s: string, prev: char, cut: bool)
    decreases |s|
  {
    var k := CommentLength(s);
    s != "" &&
    if k > 0 && '\n' in s[..k] then EndStays(s[k..], '\n', false)
    else if k > 0 then EndStays(s[k..], prev, cut)
    else if s[0] == '\n' then EndStays(s[1..], '\n', false)
    else if cut || SlashesFormed(s, prev) then EndStays(s[1..], prev, true)
    else
      (s[0] == '*' && NextKept(s[1..], '/') && !NextKept(Silent(s[1..])[1..], '/')) || EndStays(s[1..], s[0], false)
  }

  /** A slash and a star are brought together where no line comment cuts them off, and an end mark stays behind them. */
  predicate CommentStays(s: string, prev: char, cut: bool)
    decreases |s|
  {
    var k := CommentLength(s);
    s != "" &&
    if k > 0 && '\n' in s[..k] then CommentStays(s[k..], '\n', false)
    else if k > 0 then CommentStays(s[k..], prev, cut)
    else if s[0] == '\n' then CommentStays(s[1..], '\n', false)
    else if cut || SlashesFormed(s, prev) then CommentStays(s[1..], prev, true)
    else
      (s[0] == '/' && NextKept(s[1..], '*') && EndStays(Silent(s[1..])[1..], '*', false)) || CommentStays(s[1..], s[0], false)
  }

  /** A hash and an exclamation mark are brought together at the start of a line, or brought to it. */
  predicate ShebangFormed(s: string, start: bool)
    decreases |s|
  {
    var k := CommentLength(s);
    s != "" &&
    if k > 0 then ShebangFormed(s[k..], start || '\n' in s[..k])
    else (start && s[0] == '#' && NextKept(s[1..], '!')) || ShebangFormed(s[1..], s[0] == '\n')
  }

  /** A comment at the start of `s` leaves its newlines and nothing else. */
  lemma BlockSkipped(s: string, prev: char, cut: bool)
    requires CommentLength(s) > 0
    ensures var k := CommentLength(s);
      var n := Newlines(s[..k]);
      (forall i :: 0 <= i < |n| ==> n[i] == '\n') && (n != "" <==> '\n' in s[..k]) &&
      BlankBlocks(s) == n + BlankBlocks(s[k..]) &&
      CutText(BlankBlocks(s), prev, cut) ==
        n + if n != "" then CutText(BlankBlocks(s[k..]), '\n', false) else CutText(BlankBlocks(s[k..]), prev, cut)
  {
    var k := CommentLength(s);
    var n := Newlines(s[..k]);
    NewlinesOnly(s[..k]);
    if '\n' in s[..k] {
      CutNewlines(n, BlankBlocks(s[k..]), prev, cut);
    } else {
      ThinsAway(s[..k]);
      assert n + BlankBlocks(s[k..]) == BlankBlocks(s[k..]);
    }
  }

  /** What the last two passes make of a character that the block pass keeps. */
  lemma CharacterKept(s: string, prev: char, cut: bool)
    requires s != "" && CommentLength(s) == 0 && s[0] != '\n'
    ensures CutText(BlankBlocks(s), prev, cut) ==
      if cut || SlashesFormed(s, prev) then CutText(BlankBlocks(s[1..]), prev, true)
      else [s[0]] + CutText(BlankBlocks(s[1..]), s[0], false)
  {
    var u := BlankBlocks(s[1..]);
    assert BlankBlocks(s)[1..] == u;
    FirstLeft(s[1..], '/');
    assert Slashes(BlankBlocks(s), prev) <==> SlashesFormed(s, prev);
  }

  lemma NewlineKept(s: string, prev: char, cut: bool)
    requires s != "" && CommentLength(s) == 0 && s[0] == '\n'
    ensures CutText(BlankBlocks(s), prev, cut) == "\n" + CutText(BlankBlocks(s[1..]), '\n', false)
  {
    assert BlankBlocks(s)[1..] == BlankBlocks(s[1..]);
  }

  lemma {:induction false} CutEndsLine(b: string, prev: char)
    ensures LineEnd(CutText(b, prev, true))
    decreases |b|
  {
    if b != "" && b[0] != '\n' {
      CutEndsLine(b[1..], prev);
    }
  }

  /** Where a line comment begins, nothing or a newline comes next. */
  lemma SlashedAway(b: string, prev: char)
    requires Slashes(b, prev)
    ensures LineEnd(CutText(b, prev, false))
  {
    CutEndsLine(b[1..], prev);
  }

  /** The first character stays, if it is none that begins a line comment. */
  lemma CutHead(b: string, c: char, prev: char)
    requires c != '\n' && c != '/'
    ensures var x := CutText(b, prev, false);
      (x != "" && x[0] == c <==> b != "" && b[0] == c) && (b != "" && b[0] == c ==> x[1..] == CutText(b[1..], c, false))
  {
    if Slashes(b, prev) {
      SlashedAway(b, prev);
    }
  }

  lemma FirstStays(s: string, c: char, prev: char)
    requires c != '\n' && c != '/'
    ensures var x := CutText(BlankBlocks(s), prev, false);
      (x != "" && x[0] == c <==> NextKept(s, c)) &&
      (NextKept(s, c) ==> x[1..] == CutText(BlankBlocks(Silent(s)[1..]), c, false))
  {
    FirstLeft(s, c);
    CutHead(BlankBlocks(s), c, prev);
    if NextKept(s, c) {
      assert BlankBlocks(s)[1..] == BlankBlocks(Silent(s)[1..]);
    }
  }

  /** A slash behind a star stays unless it begins a line comment. */
  lemma SlashStays(s: string)
    ensures var x := CutText(BlankBlocks(s), '*', false);
      x != "" && x[0] == '/' <==> NextKept(s, '/') && !NextKept(Silent(s)[1..], '/')
  {
    FirstLeft(s, '/');
    var b := BlankBlocks(s);
    if NextKept(s, '/') {
      FirstLeft(Silent(s)[1..], '/');
      assert Slashes(b, '*') <==> NextKept(Silent(s)[1..], '/');
    }
    if Slashes(b, '*') {
      SlashedAway(b, '*');
    }
  }

  lemma EndBegins(c: char, x: string)
    ensures CloseEnd([c] + x) > 0 <==> (c == '*' && x != "" && x[0] == '/') || CloseEnd(x) > 0
  {
    assert ([c] + x)[1..] == x;
  }

  lemma CommentBegins(c: char, x: string)
    ensures HasComment([c] + x) <==> (c == '/' && x != "" && x[0] == '*' && CloseEnd(x[1..]) > 0) || HasComment(x)
  {
    assert ([c] + x)[1..] == x;
    if x != "" {
      assert ([c] + x)[2..] == x[1..];
    }
  }

  lemma {:induction false} EndStaysExact(s: string, prev: char, cut: bool)
    ensures CloseEnd(CutText(BlankBlocks(s), prev, cut)) > 0 <==> EndStays(s, prev, cut)
    decreases |s|
  {
    if s != "" {
      var k := CommentLength(s);
      if k > 0 {
        BlockSkipped(s, prev, cut);
        EndStaysExact(s[k..], '\n', false);
        EndStaysExact(s[k..], prev, cut);
        EndSkipsNewlines(Newlines(s[..k]), CutText(BlankBlocks(s[k..]), '\n', false));
        EndSkipsNewlines(Newlines(s[..k]), CutText(BlankBlocks(s[k..]), prev, cut));
      } else if s[0] == '\n' {
        NewlineKept(s, prev, cut);
        EndStaysExact(s[1..], '\n', false);
        EndBegins('\n', CutText(BlankBlocks(s[1..]), '\n', false));
      } else {
        CharacterKept(s, prev, cut);
        EndStaysExact(s[1..], prev, true);
        EndStaysExact(s[1..], s[0], false);
        EndBegins(s[0], CutText(BlankBlocks(s[1..]), s[0], false));
        SlashStays(s[1..]);
      }
    }
  }

  /** A closed block comment is left by all three passes exactly where `CommentStays` says so. */
  lemma {:induction false} CommentStaysExact(s: string, prev: char, cut: bool)
    ensures HasComment(CutText(BlankBlocks(s), prev, cut)) <==> CommentStays(s, prev, cut)
    decreases |s|
  {
    if s != "" {
      var k := CommentLength(s);
      if k > 0 {
        BlockSkipped(s, prev, cut);
        CommentStaysExact(s[k..], '\n', false);
        CommentStaysExact(s[k..], prev, cut);
        EndSkipsNewlines(Newlines(s[..k]), CutText(BlankBlocks(s[k..]), '\n', false));
        EndSkipsNewlines(Newlines(s[..k]), CutText(BlankBlocks(s[k..]), prev, cut));
      } else if s[0] == '\n' {
        NewlineKept(s, prev, cut);
        CommentStaysExact(s[1..], '\n', false);
        CommentBegins('\n', CutText(BlankBlocks(s[1..]), '\n', false));
      } else {
        CharacterKept(s, prev, cut);
        CommentStaysExact(s[1..], prev, true);
        CommentStaysExact(s[1..], s[0], false);
        CommentBegins(s[0], CutText(BlankBlocks(s[1..]), s[0], false));
        FirstStays(s[1..], '*', s[0]);
        if NextKept(s[1..], '*') {
          EndStaysExact(Silent(s[1..])[1..], '*', false);
        }
      }
    }
  }

  // ---------------------------------------------------------------- shebang lines

  /** A line begins with a shebang; `start` says that one begins here. */
  predicate HasShebang(u: string, start: bool) {
    u != "" && ((start && Starts(u, '#', '!')) || HasShebang(u[1..], u[0] == '\n'))
  }

  lemma {:induction false} ShebangInLines(u: string)
    ensures HasShebang(u, true) <==> !NoShebangLine(Lines(u))
    ensures HasShebang(u, false) <==> !NoShebangLine(Lines(u)[1..])
    decreases |u|
  {
    if u != "" {
      ShebangInLines(u[1..]);
      var ls, rest := Lines(u), Lines(u[1..]);
      LinesHead(u);
      if u[0] == '\n' {
        assert ls[1..] == rest;
        assert ls == [""] + rest;
        assert !NoShebangLine(ls) <==> !NoShebangLine(rest) by {
          assert forall i :: 1 <= i < |ls| ==> ls[i] == rest[i - 1];
          assert forall i :: 0 <= i < |rest| ==> rest[i] == ls[i + 1];
        }
      } else {
        assert ls[1..] == rest[1..];
        assert forall i :: 1 <= i < |ls| ==> ls[i] == ls[1..][i - 1];
        assert forall i :: 0 <= i < |ls[1..]| ==> ls[1..][i] == ls[i + 1];
        assert !NoShebangLine(ls) <==> Starts(ls[0], '#', '!') || !NoShebangLine(ls[1..]);
      }
    }
  }

  /** The first line begins as the text does. */
  lemma LinesHead(u: string)
    ensures Starts(Lines(u)[0], '#', '!') <==> Starts(u, '#', '!')
  {
    if u != "" && u[0] == '#' && |u| >= 2 {
      assert Lines(u)[0] == ['#'] + Lines(u[1..])[0];
      assert u[1..][0] == u[1];
    }
  }

  lemma {:induction false} ShebangCut(u: string, prev: char, cut: bool, start: bool)
    requires start && !cut ==> prev == '\n'
    ensures HasShebang(CutText(u, prev, cut), start) <==> HasShebang(u, start && !cut)
    decreases |u|
  {
    if u != "" {
      var x := CutText(u, prev, cut);
      if u[0] == '\n' {
        ShebangCut(u[1..], '\n', false, true);
        assert x[1..] == CutText(u[1..], '\n', false);
      } else if cut || Slashes(u, prev) {
        ShebangCut(u[1..], prev, true, start);
      } else {
        ShebangCut(u[1..], u[0], false, false);
        assert x[1..] == CutText(u[1..], u[0], false);
        CutHead(u[1..], '!', u[0]);
        assert |x| >= 2 ==> x[1] == x[1..][0];
      }
    }
  }

  lemma {:induction false} ShebangSkipsNewlines(n: string, u: string, start: bool)
    requires forall i :: 0 <= i < |n| ==> n[i] == '\n'
    ensures HasShebang(n + u, start) <==> HasShebang(u, start || n != "")
    decreases |n|
  {
    if n == "" {
      assert n + u == u;
    } else {
      assert (n + u)[1..] == n[1..] + u && (n + u)[0] == '\n';
      ShebangSkipsNewlines(n[1..], u, true);
    }
  }

  lemma {:induction false} ShebangLeft(s: string, start: bool)
    ensures HasShebang(BlankBlocks(s), start) <==> ShebangFormed(s, start)
    decreases |s|
  {
    if s != "" {
      var k := CommentLength(s);
      if k > 0 {
        BlockSkipped(s, '\n', false);
        ShebangLeft(s[k..], start || '\n' in s[..k]);
        ShebangSkipsNewlines(Newlines(s[..k]), BlankBlocks(s[k..]), start);
      } else {
        ShebangLeft(s[1..], s[0] == '\n');
        FirstLeft(s[1..], '!');
        assert BlankBlocks(s)[1..] == BlankBlocks(s[1..]);
      }
    }
  }

  // ---------------------------------------------------------------- stripping twice

  lemma {:induction false} EndStaysFormed(s: string, prev: char, cut: bool)
    ensures EndStays(s, prev, cut) ==> EndFormed(s)
    decreases |s|
  {
    if s != "" {
      var k := CommentLength(s);
      var rest := if k > 0 then s[k..] else s[1..];
      EndStaysFormed(rest, '\n', false);
      EndStaysFormed(rest, prev, cut);
      EndStaysFormed(rest, prev, true);
      EndStaysFormed(rest, s[0], false);
    }
  }

  /** What all three passes leave, the removal of block comments has formed. */
  lemma {:induction false} CommentStaysFormed(s: string, prev: char, cut: bool)
    ensures CommentStays(s, prev, cut) ==> CommentFormed(s)
    decreases |s|
  {
    if s != "" {
      var k := CommentLength(s);
      var rest := if k > 0 then s[k..] else s[1..];
      CommentStaysFormed(rest, '\n', false);
      CommentStaysFormed(rest, prev, cut);
      CommentStaysFormed(rest, prev, true);
      CommentStaysFormed(rest, s[0], false);
      if k == 0 && s[0] == '/' && NextKept(s[1..], '*') && EndStays(Silent(s[1..])[1..], '*', false) {
        EndStaysFormed(Silent(s[1..])[1..], '*', false);
        FormedHere(s);
      }
    }
  }

  /** Only a removal can bring such a slash and star together. */
  lemma FormedHere(s: string)
    requires s != "" && CommentLength(s) == 0 && s[0] == '/' && NextKept(s[1..], '*') && EndFormed(Silent(s[1..])[1..])
    ensures CommentLength(s[1..]) > 0
  {
    if CommentLength(s[1..]) == 0 {
      OpeningUnclosed(s);
      EndLeft(s[1..][1..]);
    }
  }

  /** Stripping twice is stripping once exactly when, in the text without its shebang lines, the removal of block
      comments brings no shebang to the start of a line and forms no comment that the line comments let stand. */
  lemma StripTwice(text: string)
    ensures var a := DropShebangs(text, true);
      StripComments(StripComments(text)) == StripComments(text) <==> !ShebangFormed(a, true) && !CommentStays(a, '\n', false)
    ensures var once := StripComments(text);
      StripComments(once) == once <==> NoShebangLine(Lines(once)) && !HasComment(once)
    ensures !CommentFormed(DropShebangs(text, true)) ==> !HasComment(StripComments(text))
  {
    var a, once := DropShebangs(text, true), StripComments(text);
    StrippedAlready(once);
    forall i, k | 0 <= i < |Lines(once)| && 0 <= k < |Lines(once)[i]|
      ensures !CommentAt(Lines(once)[i], k)
    {
      NoLineCommentLeft(text, i, k);
    }
    StripsByCharacter(text);
    CommentStaysExact(a, '\n', false);
    CommentStaysFormed(a, '\n', false);
    ShebangInLines(once);
    ShebangCut(BlankBlocks(a), '\n', false, true);
    ShebangLeft(a, true);
  }
}
