/** What the skeleton renderer finds and puts in place, character by character (hack/render-skeleton.py). */
module SkeletonTexts {
  import opened Wrappers
  import opened Skeleton

  /** The example values; any other name is the placeholder. */
  lemma LookedUp(name: string)
    ensures Lookup("name") == "example-svc" && Lookup("description") == "Example service"
    ensures Lookup("owner") == "group:default/team-a" && Lookup("goVersion") == "1.22" && Lookup("healthUrlStaging") == ""
    ensures Lookup("repoUrl") == "github.com?owner=example-org&repo=example-svc"
    ensures Lookup("destination.owner") == "example-org" && Lookup("destination.repo") == "example-svc"
    ensures name !in {"name", "description", "owner", "goVersion", "healthUrlStaging", "repoUrl",
                      "destination.owner", "destination.repo"} ==>
      Lookup(name) == "placeholder"
  {
    Addresses();
  }

  lemma Addresses()
    ensures "github.com?owner=" + "example-org" + "&repo=" + "example-svc" == "github.com?owner=example-org&repo=example-svc"
  {
    assert "github.com?owner=" + "example-org" == "github.com?owner=example-org";
    assert "&repo=" + "example-svc" == "&repo=example-svc";
    assert "github.com?owner=example-org" + "&repo=example-svc" == "github.com?owner=example-org&repo=example-svc";
  }

  /** White space: of ASCII, the blank, the five control characters from tab to carriage return, and the four
      separators; beyond, the next line, the no-break space and the spaces of Unicode. */
  lemma Blanks(c: char)
    ensures c < '\U{0080}' ==> (IsSpace(c) <==> c == ' ' || '\U{0009}' <= c <= '\U{000d}' || '\U{001c}' <= c <= '\U{001f}')
    ensures c >= '\U{0080}' ==>
      (IsSpace(c) <==> c in {'\U{0085}', '\U{00a0}', '\U{1680}', '\U{2028}', '\U{2029}', '\U{202f}', '\U{205f}', '\U{3000}'} ||
                       '\U{2000}' <= c <= '\U{200a}')
    ensures IsNameChar(c) <==> 'a' <= c <= 'z' || 'A' <= c <= 'Z' || '0' <= c <= '9' || c == '_' || c == '.'
  {
  }

  predicate AllBlank(w: string) {
    forall i :: 0 <= i < |w| ==> w[i] == ' ' || '\U{0009}' <= w[i] <= '\U{000d}'
  }

  lemma {:induction false} BlanksEaten(w: string, r: string)
    requires AllBlank(w) && (r == "" || !IsSpace(r[0]))
    ensures EatSpace(w + r) == r
    decreases |w|
  {
    if w == "" {
      assert w + r == r;
    } else {
      assert (w + r)[1..] == w[1..] + r && (w + r)[0] == w[0];
      BlanksEaten(w[1..], r);
    }
  }

  predicate NameText(name: string) {
    name != "" && forall i :: 0 <= i < |name| ==>
      'a' <= name[i] <= 'z' || 'A' <= name[i] <= 'Z' || '0' <= name[i] <= '9' || name[i] == '_' || name[i] == '.'
  }

  lemma {:induction false} NameTaken(name: string, r: string)
    requires forall i :: 0 <= i < |name| ==> IsNameChar(name[i])
    requires r == "" || !IsNameChar(r[0])
    ensures NameRun(name + r) == |name|
    decreases |name|
  {
    if name == "" {
      assert name + r == r;
    } else {
      assert (name + r)[1..] == name[1..] + r;
      NameTaken(name[1..], r);
    }
  }

  lemma ClosesBehind(w: string, r: string)
    requires AllBlank(w)
    ensures Close(w + ("}}" + r)) == Some(r)
  {
    BlanksEaten(w, "}}" + r);
    assert ("}}" + r)[2..] == r;
  }

  lemma OpensBefore(w: string, r: string)
    requires AllBlank(w) && (r == "" || !IsSpace(r[0]))
    ensures Open("${{" + (w + r)) == Some(r)
  {
    var s := "${{" + (w + r);
    assert s[3..] == w + r;
    BlanksEaten(w, r);
  }

  /** A value reference: blanks may stand inside the braces; the name is of letters, digits, underscores and dots. */
  lemma ReferenceMatched(w: string, name: string, x: string, r: string)
    requires AllBlank(w) && AllBlank(x) && NameText(name)
    ensures MatchValue("${{" + (w + ("values." + (name + (x + ("}}" + r)))))) == Some(Match(name, r))
  {
    var tail := x + ("}}" + r);
    var body := "values." + (name + tail);
    OpensBefore(w, body);
    assert body[7..] == name + tail;
    assert tail[0] == if x == "" then '}' else x[0];
    NameTaken(name, tail);
    assert (name + tail)[..|name|] == name && (name + tail)[|name|..] == tail;
    ClosesBehind(x, r);
  }

  /** A quoted literal: what is between the quotes, if that holds no quote. */
  lemma LiteralMatched(w: string, text: string, x: string, r: string)
    requires AllBlank(w) && AllBlank(x) && '\'' !in text
    ensures MatchLiteral("${{" + (w + ("'" + (text + ("'" + (x + ("}}" + r))))))) == Some(Match(text, r))
    ensures Undouble(text) == text
  {
    var tail := x + ("}}" + r);
    var body := "'" + (text + ("'" + tail));
    OpensBefore(w, body);
    assert body[1..] == text + ("'" + tail);
    QuotedTaken(text, tail);
    var b := body[1..];
    assert b[..|text|] == text && b[|text|] == '\'' && b[|text| + 1..] == tail;
    ClosesBehind(x, r);
    NothingDoubled(text);
  }

  lemma {:induction false} QuotedTaken(text: string, tail: string)
    requires '\'' !in text && tail != "" && tail[0] != '\''
    ensures QuotedRun(text + ("'" + tail)) == |text|
    decreases |text|
  {
    var s := text + ("'" + tail);
    if text == "" {
      assert s[0] == '\'' && s[1] == tail[0];
    } else {
      assert s[1..] == text[1..] + ("'" + tail) && s[0] == text[0];
      QuotedTaken(text[1..], tail);
    }
  }

  lemma {:induction false} NothingDoubled(text: string)
    requires '\'' !in text
    ensures Undouble(text) == text
    decreases |text|
  {
    if text != "" {
      NothingDoubled(text[1..]);
      assert [text[0]] + text[1..] == text;
    }
  }

  /** Two quotes in a literal are one. */
  lemma QuotesHalved(a: string, b: string)
    requires '\'' !in a
    ensures Undouble(a + ("''" + b)) == a + ("'" + Undouble(b))
  {
    var s := "''" + b;
    assert s[2..] == b && Undouble(s) == "'" + Undouble(b);
    UndoubledBehind(a, s);
  }

  /** Text without quotes stays where it is. */
  lemma {:induction false} UndoubledBehind(a: string, r: string)
    requires '\'' !in a
    ensures Undouble(a + r) == a + Undouble(r)
    decreases |a|
  {
    if a == "" {
      assert a + r == r;
    } else {
      var s := a + r;
      assert s[1..] == a[1..] + r && s[0] == a[0];
      UndoubledBehind(a[1..], r);
      Assoc([a[0]], a[1..], Undouble(r));
      assert [a[0]] + a[1..] == a;
    }
  }
}
