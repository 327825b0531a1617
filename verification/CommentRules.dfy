/** Which lines are emptied and where the others are cut, in the characters themselves
    (tools/migration-analyzer/src/migration_analyzer/parser.py, `strip_comments`). */
module CommentRules {
  import opened Comments

  /** Two slashes at position `k`, at the line's start or behind anything but a colon or a quote. */
  predicate Marked(line: string, k: nat) {
    k + 1 < |line| && line[k] == '/' && line[k + 1] == '/' &&
    (k == 0 || (line[k - 1] != ':' && line[k - 1] != '\'' && line[k - 1] != '"'))
  }

  /** `k` is the first such position, or the line's end. */
  predicate FirstMark(line: string, k: nat) {
    (k == |line| || Marked(line, k)) && forall j :: 0 <= j < k ==> !Marked(line, j)
  }

  /** A text that opens no block comment, line by line: a shebang is emptied, any other line is cut before its first line
      comment. */
  lemma LineRules(text: string, i: nat, k: nat)
    requires forall j :: 0 <= j < |text| - 1 && text[j] == '/' ==> text[j + 1] != '*'
    requires i < |Lines(text)| && FirstMark(Lines(text)[i], k)
    ensures |Lines(StripComments(text))| == |Lines(text)|
    ensures Lines(StripComments(text))[i] == if "#!" <= Lines(text)[i] then "" else Lines(text)[i][..k]
  {
    assert !HasBlock(text);
    PrefixWithoutBlocks(text);
    var line := Lines(text)[i];
    assert "#!" <= line <==> |line| >= 2 && line[0] == '#' && line[1] == '!' by {
      assert |line| >= 2 ==> ("#!" <= line <==> line[..2] == "#!");
    }
    var cut := CommentStart(line, 0);
    assert cut < |line| ==> Marked(line, cut);
    assert k < |line| ==> CommentAt(line, k);
    assert DropLine(line) == line ==> CutLine(DropLine(line)) == line[..cut];
    assert CutLine("") == "";
  }

  /** A URL stays; so do slashes in front of which a quote closes or opens. */
  lemma SlashesKept(a: string, c: char, b: string)
    requires c == ':' || c == '\'' || c == '"'
    requires forall i :: 0 <= i < |a| ==> a[i] != '/'
    requires forall i :: 0 <= i < |b| ==> b[i] != '/'
    ensures CutLine(a + [c] + "//" + b) == a + [c] + "//" + b
  {
    var line := a + [c] + "//" + b;
    var k := |a| + 1;
    assert line[|a|] == c && line[k] == '/' && line[k + 1] == '/';
    assert forall i :: k + 2 <= i < |line| ==> line[i] == b[i - (k + 2)];
    assert forall i :: 0 <= i < |a| ==> line[i] == a[i];
    assert forall i :: 0 <= i < |line| ==> !CommentAt(line, i);
  }

  /** Behind any other character slashes and what follows are cut off. */
  lemma SlashesCut(a: string, b: string)
    requires forall i :: 0 <= i < |a| ==> a[i] != '/'
    requires a != "" ==> a[|a| - 1] != ':' && a[|a| - 1] != '\'' && a[|a| - 1] != '"'
    ensures CutLine(a + "//" + b) == a
  {
    var line := a + "//" + b;
    assert line[|a|] == '/' && line[|a| + 1] == '/';
    assert forall i :: 0 <= i < |a| ==> line[i] == a[i];
    assert CommentAt(line, |a|);
    assert CommentStart(line, 0) == |a|;
    assert line[..|a|] == a;
  }
}
