/** Rendering of the Backstage skeleton (hack/render-skeleton.py): quoted literals, then value references. */
module Skeleton {
  import opened Wrappers

  /** The example values, and what stands for any other. */
  function Lookup(name: string): string {
    match name
    case "name" => "example-svc"
    case "description" => "Example service"
    case "owner" => "group:default/team-a"
    case "goVersion" => "1.22"
    case "healthUrlStaging" => ""
    case "repoUrl" => "github.com?owner=" + "example-org" + "&repo=" + "example-svc"
    case "destination.owner" => "example-org"
    case "destination.repo" => "example-svc"
    case _ => "placeholder"
  }

  // ---------------------------------------------------------------- the two patterns as scanners

  /** Python's `\s` on text. */
  predicate IsSpace(c: char) {
    '\t' <= c <= '\r' || '\U{001c}' <= c <= ' ' || c == '\U{0085}' || c == '\U{00a0}' || c == '\U{1680}' ||
    '\U{2000}' <= c <= '\U{200a}' || c == '\U{2028}' || c == '\U{2029}' || c == '\U{202f}' || c == '\U{205f}' ||
    c == '\U{3000}'
  }

  predicate IsNameChar(c: char) {
    'a' <= c <= 'z' || 'A' <= c <= 'Z' || '0' <= c <= '9' || c == '_' || c == '.'
  }

  function EatSpace(s: string): (r: string)
    ensures |r| <= |s|
  {
    if s != "" && IsSpace(s[0]) then EatSpace(s[1..]) else s
  }

  function NameRun(s: string): (k: nat)
    ensures k <= |s|
  {
    if s != "" && IsNameChar(s[0]) then 1 + NameRun(s[1..]) else 0
  }

  /** The longest run of characters other than quotes and of doubled quotes. */
  function QuotedRun(s: string): (k: nat)
    ensures k <= |s|
  {
    if s == "" then 0
    else if s[0] != '\'' then 1 + QuotedRun(s[1..])
    else if |s| >= 2 && s[1] == '\'' then 2 + QuotedRun(s[2..])
    else 0
  }

  /** A match at the start of a text: what was captured, and the text behind the match. */
  datatype Match = Match(captured: string, rest: string)

  predicate Opens(s: string) {
    |s| >= 3 && s[0] == '$' && s[1] == '{' && s[2] == '{'
  }

  /** `\$\{\{\s*` */
  function Open(s: string): (r: Option<string>)
    ensures r.Some? ==> |r.value| < |s|
  {
    if Opens(s) then Some(EatSpace(s[3..])) else None
  }

  predicate Closes(s: string) {
    |s| >= 2 && s[0] == '}' && s[1] == '}'
  }

  /** `\s*\}\}` */
  function Close(s: string): (r: Option<string>)
    ensures r.Some? ==> |r.value| < |s|
  {
    var t := EatSpace(s);
    if Closes(t) then Some(t[2..]) else None
  }

  predicate Values(s: string) {
    |s| >= 7 && s[0] == 'v' && s[1] == 'a' && s[2] == 'l' && s[3] == 'u' && s[4] == 'e' && s[5] == 's' && s[6] == '.'
  }

  /** `([a-zA-Z0-9_.]+)` */
  function Named(s: string): (m: Option<Match>)
    ensures m.Some? ==> |m.value.rest| <= |s|
  {
    var k := NameRun(s);
    if k > 0 then Some(Match(s[..k], s[k..])) else None
  }

  /** `values\.([a-zA-Z0-9_.]+)` */
  function Name(s: string): (m: Option<Match>)
    ensures m.Some? ==> |m.value.rest| < |s|
  {
    if Values(s) then Named(s[7..]) else None
  }

  /** `'((?:[^']|'')*)'`. The run in quotes can end nowhere but at its longest: any earlier stop is followed by
      no single quote. */
  function Quoted(s: string): (m: Option<Match>)
    ensures m.Some? ==> |m.value.rest| < |s|
  {
    if s == "" || s[0] != '\'' then None
    else
      var b := s[1..];
      var k := QuotedRun(b);
      if k < |b| && b[k] == '\'' then Some(Match(b[..k], b[k + 1..])) else None
  }

  /** An opening, a body and a closing. */
  function Bracketed(body: string -> Option<Match>, s: string): Option<Match> {
    match Open(s)
    case None => None
    case Some(a) =>
      match body(a)
      case None => None
      case Some(m) =>
        match Close(m.rest)
        case None => None
        case Some(c) => Some(Match(m.captured, c))
  }

  function MatchLiteral(s: string): (m: Option<Match>)
    ensures m.Some? ==> |m.value.rest| < |s|
  {
    Bracketed(Quoted, s)
  }

  function MatchValue(s: string): (m: Option<Match>)
    ensures m.Some? ==> |m.value.rest| < |s|
  {
    Bracketed(Name, s)
  }

  /** `.replace("''", "'")` */
  function Undouble(s: string): string {
    if s == "" then ""
    else if |s| >= 2 && s[0] == '\'' && s[1] == '\'' then "'" + Undouble(s[2..])
    else [s[0]] + Undouble(s[1..])
  }

  /** Every match of `pattern` takes something. */
  ghost predicate Consumes(pattern: string -> Option<Match>) {
    forall s :: pattern(s).Some? ==> |pattern(s).value.rest| < |s|
  }

  /** Python's `pattern.sub(put, s)`. */
  function Sub(pattern: string -> Option<Match>, put: string -> string, s: string): string
    requires Consumes(pattern)
    decreases |s|
  {
    if s == "" then ""
    else match pattern(s)
      case Some(m) => put(m.captured) + Sub(pattern, put, m.rest)
      case None => [s[0]] + Sub(pattern, put, s[1..])
  }

  function SubLiterals(s: string): string {
    Sub(MatchLiteral, Undouble, s)
  }

  function SubValues(s: string): string {
    Sub(MatchValue, Lookup, s)
  }

  function Render(text: string): string {
    SubValues(SubLiterals(text))
  }

  // ---------------------------------------------------------------- how skeleton files are written

  datatype Item = Plain(text: string) | Reference(name: string) | Literal(text: string)

  /** The escaper: every quote doubled. */
  function Double(t: string): string {
    if t == "" then "" else (if t[0] == '\'' then "''" else [t[0]]) + Double(t[1..])
  }

  function ReferenceSource(name: string): string {
    "${{ " + ("values." + (name + " }}"))
  }

  function LiteralSource(text: string): string {
    "${{ " + ("'" + (Double(text) + "' }}"))
  }

  function ItemSource(item: Item): string {
    match item
    case Plain(t) => t
    case Reference(n) => ReferenceSource(n)
    case Literal(t) => LiteralSource(t)
  }

  /** The file as written. */
  function Source(items: seq<Item>): string {
    if items == [] then "" else ItemSource(items[0]) + Source(items[1..])
  }

  /** The file as meant: plain text, looked-up values and literal texts. */
  function Meaning(items: seq<Item>): string {
    if items == [] then ""
    else (match items[0]
          case Plain(t) => t
          case Reference(n) => Lookup(n)
          case Literal(t) => t) + Meaning(items[1..])
  }

  /** What the first pass should leave: literals replaced, references as written. */
  function Halfway(items: seq<Item>): string {
    if items == [] then ""
    else (match items[0]
          case Plain(t) => t
          case Reference(n) => ReferenceSource(n)
          case Literal(t) => t) + Halfway(items[1..])
  }

  /** Plain pieces hold no opening and do not touch each other; references have names. Literals hold anything. */
  predicate Writable(items: seq<Item>) {
    (forall i :: 0 <= i < |items| && items[i].Plain? ==> OpensNowhere(items[i].text)) &&
    (forall i :: 0 <= i < |items| && items[i].Reference? ==> IsName(items[i].name)) &&
    (forall i :: 0 < i < |items| ==> !(items[i-1].Plain? && items[i].Plain?))
  }

  predicate OpensNowhere(t: string) {
    forall i :: 0 <= i < |t| ==> !Opens(t[i..])
  }

  predicate IsName(name: string) {
    name != "" && forall j :: 0 <= j < |name| ==> IsNameChar(name[j])
  }

  /** The texts up to the first reference, joined. */
  function Run(items: seq<Item>): string {
    if items == [] || items[0].Reference? then "" else items[0].text + Run(items[1..])
  }

  /** The items from the first reference on. */
  function Behind(items: seq<Item>): (rest: seq<Item>)
    ensures |rest| <= |items|
    ensures rest != [] ==> rest[0].Reference?
  {
    if items == [] || items[0].Reference? then items else Behind(items[1..])
  }

  /** No value reference is found anywhere in `s`. */
  predicate NoReference(s: string) {
    forall i :: 0 <= i < |s| ==> MatchValue(s[i..]).None?
  }

  /** Between references, the joined texts read as no reference. */
  predicate NoneReadIn(items: seq<Item>)
    decreases |items|
  {
    NoReference(Run(items)) && (Behind(items) == [] || NoneReadIn(Behind(items)[1..]))
  }

  // ---------------------------------------------------------------- substitution, for any pattern

  /** Text in which the pattern matches nowhere is copied. */
  lemma {:induction false} SubCopies(pattern: string -> Option<Match>, put: string -> string, t: string, r: string)
    requires Consumes(pattern)
    requires forall i :: 0 <= i < |t| ==> pattern(t[i..] + r).None?
    ensures Sub(pattern, put, t + r) == t + Sub(pattern, put, r)
    decreases |t|
  {
    if t == "" {
      assert t + r == r;
    } else {
      assert t[0..] == t;
      assert (t + r)[1..] == t[1..] + r;
      forall i | 0 <= i < |t[1..]|
        ensures pattern(t[1..][i..] + r).None?
      {
        assert t[1..][i..] == t[i + 1..];
      }
      SubCopies(pattern, put, t[1..], r);
    }
  }

  /** What `r` behind a text does to a match: nothing but to stay behind it. */
  function Followed(m: Option<Match>, r: string): Option<Match> {
    if m.None? then None else Some(Match(m.value.captured, m.value.rest + r))
  }

  /** Matches at every place before `r` do not depend on `r`. */
  ghost predicate Unaffected(pattern: string -> Option<Match>, r: string) {
    forall t :: t != "" ==> pattern(t + r) == Followed(pattern(t), r)
  }

  lemma Assoc(a: string, b: string, c: string)
    ensures a + b + c == a + (b + c)
  {
  }

  lemma {:induction false} SubConcat(pattern: string -> Option<Match>, put: string -> string, s: string, r: string)
    requires Consumes(pattern) && Unaffected(pattern, r)
    ensures Sub(pattern, put, s + r) == Sub(pattern, put, s) + Sub(pattern, put, r)
    decreases |s|
  {
    if s == "" {
      assert s + r == r;
    } else {
      assert pattern(s + r) == Followed(pattern(s), r);
      match pattern(s)
      case Some(m) =>
        SubConcat(pattern, put, m.rest, r);
        Assoc(put(m.captured), Sub(pattern, put, m.rest), Sub(pattern, put, r));
      case None =>
        SubConcat(pattern, put, s[1..], r);
        SubSkips(pattern, put, s, r);
        Assoc([s[0]], Sub(pattern, put, s[1..]), Sub(pattern, put, r));
    }
  }

  lemma SubSkips(pattern: string -> Option<Match>, put: string -> string, s: string, r: string)
    requires Consumes(pattern) && s != "" && pattern(s + r).None?
    ensures Sub(pattern, put, s + r) == [s[0]] + Sub(pattern, put, s[1..] + r)
  {
    assert (s + r)[1..] == s[1..] + r && (s + r)[0] == s[0];
  }

  // ---------------------------------------------------------------- a text and the item behind it

  /** What may follow a piece: nothing, or an item that starts with a dollar sign. */
  predicate Follows(r: string) {
    r == "" || r[0] == '$'
  }

  predicate HasClose(s: string) {
    exists j :: 0 <= j < |s| - 1 && s[j] == '}' && s[j + 1] == '}'
  }

  lemma HasCloseFrom(s: string, k: nat)
    requires k <= |s| && HasClose(s) && forall j :: 0 <= j < k ==> s[j] != '}'
    ensures HasClose(s[k..])
  {
    var j :| 0 <= j < |s| - 1 && s[j] == '}' && s[j + 1] == '}';
    assert s[k..][j - k] == '}' && s[k..][j - k + 1] == '}';
  }

  lemma {:induction false} EatSpaceBoth(s: string, r: string)
    requires Follows(r) || HasClose(s)
    ensures EatSpace(s + r) == EatSpace(s) + r
    ensures HasClose(s) ==> HasClose(EatSpace(s))
  {
    if s == "" {
      assert s + r == r;
      assert EatSpace(r) == r;
    } else if IsSpace(s[0]) {
      assert (s + r)[1..] == s[1..] + r;
      if HasClose(s) {
        HasCloseFrom(s, 1);
      }
      EatSpaceBoth(s[1..], r);
    }
  }

  lemma {:induction false} NameRunBoth(s: string, r: string)
    requires Follows(r) || HasClose(s)
    ensures NameRun(s + r) == NameRun(s)
    ensures HasClose(s) ==> HasClose(s[NameRun(s)..])
  {
    if s == "" {
      assert s + r == r;
    } else if IsNameChar(s[0]) {
      assert (s + r)[1..] == s[1..] + r;
      if HasClose(s) {
        HasCloseFrom(s, 1);
      }
      NameRunBoth(s[1..], r);
      assert s[1..][NameRun(s[1..])..] == s[NameRun(s)..];
    } else {
      assert s[0..] == s;
    }
  }

  lemma OpenBoth(s: string, r: string)
    requires s != "" && (Follows(r) || HasClose(s))
    ensures Open(s).None? ==> Open(s + r).None?
    ensures Open(s).Some? ==> Open(s + r) == Some(Open(s).value + r)
    ensures Open(s).Some? && HasClose(s) ==> HasClose(Open(s).value)
  {
    if Opens(s) {
      assert (s + r)[3..] == s[3..] + r;
      if HasClose(s) {
        HasCloseFrom(s, 3);
      }
      EatSpaceBoth(s[3..], r);
    }
  }

  lemma NamedBoth(s: string, r: string)
    requires Follows(r) || HasClose(s)
    ensures Named(s + r) == Followed(Named(s), r)
    ensures Named(s).Some? && HasClose(s) ==> HasClose(Named(s).value.rest)
  {
    NameRunBoth(s, r);
    var k := NameRun(s);
    assert (s + r)[..k] == s[..k] && (s + r)[k..] == s[k..] + r;
  }

  lemma NameBoth(s: string, r: string)
    requires Follows(r) || HasClose(s)
    ensures Name(s + r) == Followed(Name(s), r)
    ensures Name(s).Some? && HasClose(s) ==> HasClose(Name(s).value.rest)
  {
    if Values(s) {
      assert (s + r)[7..] == s[7..] + r;
      if HasClose(s) {
        HasCloseFrom(s, 7);
      }
      NamedBoth(s[7..], r);
    }
  }

  lemma CloseBoth(s: string, r: string)
    requires Follows(r) || HasClose(s)
    ensures Close(s).None? ==> Close(s + r).None?
    ensures Close(s).Some? ==> Close(s + r) == Some(Close(s).value + r)
  {
    EatSpaceBoth(s, r);
    var e := EatSpace(s);
    if Closes(e) {
      assert (e + r)[2..] == e[2..] + r;
    }
  }

  /** A reference is found at the start of a piece whether or not something follows the piece. */
  lemma MatchValueBoth(s: string, r: string)
    requires s != "" && (Follows(r) || HasClose(s))
    ensures MatchValue(s + r) == Followed(MatchValue(s), r)
  {
    OpenBoth(s, r);
    if Open(s).Some? {
      var a := Open(s).value;
      NameBoth(a, r);
      if Name(a).Some? {
        CloseBoth(Name(a).value.rest, r);
      }
    }
  }

  // ---------------------------------------------------------------- the pieces as written

  lemma OpenFound(a: string)
    requires a == "" || !IsSpace(a[0])
    ensures Open("${{ " + a) == Some(a)
  {
    var s := "${{ " + a;
    assert s[3..][1..] == a;
    assert EatSpace(a) == a;
  }

  lemma CloseFound(r: string)
    ensures Close(" }}" + r) == Some(r)
  {
    var s := " }}" + r;
    assert EatSpace(s[1..]) == s[1..];
    assert s[1..][2..] == r;
  }

  lemma {:induction false} NameRunIs(name: string, rest: string)
    requires forall j :: 0 <= j < |name| ==> IsNameChar(name[j])
    requires rest != "" ==> !IsNameChar(rest[0])
    ensures NameRun(name + rest) == |name|
  {
    if name == "" {
      assert name + rest == rest;
    } else {
      assert (name + rest)[1..] == name[1..] + rest;
      NameRunIs(name[1..], rest);
    }
  }

  lemma NameFound(name: string, end: string)
    requires IsName(name) && (end != "" ==> !IsNameChar(end[0]))
    ensures Name("values." + (name + end)) == Some(Match(name, end))
  {
    var s := "values." + (name + end);
    assert s[7..] == name + end;
    NameRunIs(name, end);
    assert s[7..7 + |name|] == name && s[7 + |name|..] == end;
  }

  lemma BracketedFound(body: string -> Option<Match>, a: string, captured: string, r: string)
    requires a == "" || !IsSpace(a[0])
    requires body(a) == Some(Match(captured, " }}" + r))
    ensures Bracketed(body, "${{ " + a) == Some(Match(captured, r))
  {
    OpenFound(a);
    CloseFound(r);
  }

  lemma Regroup(a: string, b: string, c: string, d: string, r: string)
    ensures a + (b + (c + d)) + r == a + (b + (c + (d + r)))
  {
  }

  /** A reference as written is found and its name captured. */
  lemma ReferenceFound(name: string, r: string)
    requires IsName(name)
    ensures MatchValue(ReferenceSource(name) + r) == Some(Match(name, r))
  {
    var end := " }}" + r;
    Regroup("${{ ", "values.", name, " }}", r);
    NameFound(name, end);
    BracketedFound(Name, "values." + (name + end), name, r);
  }

  lemma {:induction false} DoubledRun(text: string, end: string)
    requires |end| >= 2 && end[0] == '\'' && end[1] != '\''
    ensures QuotedRun(Double(text) + end) == |Double(text)|
    decreases |text|
  {
    if text == "" {
      assert Double(text) + end == end;
    } else {
      var more := Double(text[1..]);
      DoubledRun(text[1..], end);
      Assoc(if text[0] == '\'' then "''" else [text[0]], more, end);
    }
  }

  lemma {:induction false} DoubleUndone(text: string)
    ensures Undouble(Double(text)) == text
    decreases |text|
  {
    if text != "" {
      var more := Double(text[1..]);
      DoubleUndone(text[1..]);
      if text[0] == '\'' {
        assert Double(text)[2..] == more;
      } else {
        assert Double(text)[1..] == more;
      }
    }
  }

  lemma QuotedParts(t: string, end: string)
    ensures var b := t + ("'" + end);
      ("'" + b)[0] == '\'' && ("'" + b)[1..] == b && b[..|t|] == t && b[|t|] == '\'' && b[|t| + 1..] == end
  {
  }

  lemma QuotedFound(text: string, end: string)
    requires end != "" && end[0] != '\''
    ensures Quoted("'" + (Double(text) + ("'" + end))) == Some(Match(Double(text), end))
  {
    var t := Double(text);
    DoubledRun(text, "'" + end);
    QuotedParts(t, end);
  }

  /** A quoted literal as written is found, whatever its text, and its doubled text captured. */
  lemma LiteralFound(text: string, r: string)
    ensures MatchLiteral(LiteralSource(text) + r) == Some(Match(Double(text), r))
  {
    var end := " }}" + r;
    Regroup("${{ ", "'", Double(text), "' }}", r);
    assert "' }}" + r == "'" + end;
    QuotedFound(text, end);
    BracketedFound(Quoted, "'" + (Double(text) + ("'" + end)), Double(text), r);
  }

  // ---------------------------------------------------------------- first pass

  /** Plain text is copied by the first pass. */
  lemma CopyPlain(t: string, r: string)
    requires OpensNowhere(t) && Follows(r)
    ensures SubLiterals(t + r) == t + SubLiterals(r)
  {
    forall i | 0 <= i < |t|
      ensures MatchLiteral(t[i..] + r).None?
    {
      var u := t[i..];
      assert |u| < 3 && |u + r| >= 3 ==> (u + r)[|u|] == '$';
    }
    SubCopies(MatchLiteral, Undouble, t, r);
  }

  /** A value reference is copied by the first pass. */
  lemma CopyReference(name: string, r: string)
    requires IsName(name)
    ensures SubLiterals(ReferenceSource(name) + r) == ReferenceSource(name) + SubLiterals(r)
  {
    var s := ReferenceSource(name);
    forall i | 0 <= i < |s|
      ensures MatchLiteral(s[i..] + r).None?
    {
      if i > 0 {
        assert (s[i..] + r)[0] == s[i];
      } else {
        NotQuoted(name, r);
        assert s[0..] == s;
      }
    }
    SubCopies(MatchLiteral, Undouble, s, r);
  }

  lemma NotQuoted(name: string, r: string)
    ensures MatchLiteral(ReferenceSource(name) + r).None?
  {
    var a := "values." + (name + (" }}" + r));
    assert ReferenceSource(name) + r == "${{ " + a;
    OpenFound(a);
    assert Quoted(a).None?;
  }

  /** A quoted literal, whatever its text, is turned into its text. */
  lemma ReplaceLiteral(text: string, r: string)
    ensures SubLiterals(LiteralSource(text) + r) == text + SubLiterals(r)
  {
    LiteralFound(text, r);
    DoubleUndone(text);
    var s := LiteralSource(text) + r;
    assert s[0] == '$';
  }

  /** The first pass replaces exactly the literals, whatever texts they hold. */
  lemma {:induction false} FirstPass(items: seq<Item>)
    requires Writable(items)
    ensures SubLiterals(Source(items)) == Halfway(items)
    decreases |items|
  {
    if items != [] {
      var rest := items[1..];
      WritableTail(items);
      FirstPass(rest);
      match items[0]
      case Plain(t) =>
        CopyPlain(t, Source(rest));
      case Reference(n) => CopyReference(n, Source(rest));
      case Literal(t) => ReplaceLiteral(t, Source(rest));
    }
  }

  lemma WritableTail(items: seq<Item>)
    requires Writable(items) && items != []
    ensures Writable(items[1..])
  {
    assert forall i :: 0 <= i < |items[1..]| ==> items[1..][i] == items[i + 1];
  }

  // ---------------------------------------------------------------- second pass

  lemma {:induction false} HalfwaySplits(items: seq<Item>)
    ensures Halfway(items) == Run(items) + Halfway(Behind(items))
    ensures Meaning(items) == Run(items) + Meaning(Behind(items))
    ensures Writable(items) ==> Writable(Behind(items))
    decreases |items|
  {
    if items != [] && !items[0].Reference? {
      var rest := items[1..];
      HalfwaySplits(rest);
      Assoc(items[0].text, Run(rest), Halfway(Behind(items)));
      Assoc(items[0].text, Run(rest), Meaning(Behind(items)));
      if Writable(items) {
        WritableTail(items);
      }
    }
  }

  lemma ReferenceRead(name: string, r: string)
    requires IsName(name)
    ensures SubValues(ReferenceSource(name) + r) == Lookup(name) + SubValues(r)
  {
    ReferenceFound(name, r);
  }

  lemma RunRead(run: string, r: string)
    requires Follows(r)
    ensures SubValues(run + r) == SubValues(run) + SubValues(r)
  {
    forall t | t != ""
      ensures MatchValue(t + r) == Followed(MatchValue(t), r)
    {
      MatchValueBoth(t, r);
    }
    SubConcat(MatchValue, Lookup, run, r);
  }

  /** The second pass treats the text up to the first reference, that reference, and the rest separately. */
  lemma SecondPass(items: seq<Item>)
    requires Writable(items)
    ensures Behind(items) == [] ==> Halfway(items) == Run(items)
    ensures Behind(items) != [] ==>
      (SubValues(Halfway(items)) ==
       SubValues(Run(items)) + (Lookup(Behind(items)[0].name) + SubValues(Halfway(Behind(items)[1..]))))
  {
    HalfwaySplits(items);
    var behind := Behind(items);
    if behind == [] {
      assert Halfway(items) == Run(items);
    } else {
      var n := behind[0].name;
      var r := Halfway(behind[1..]);
      ReferenceRead(n, r);
      assert (ReferenceSource(n) + r)[0] == '$';
      RunRead(Run(items), ReferenceSource(n) + r);
    }
  }

  // ---------------------------------------------------------------- nothing lost: counting dollar signs

  function Dollars(s: string): nat {
    if s == "" then 0 else (if s[0] == '$' then 1 else 0) + Dollars(s[1..])
  }

  lemma {:induction false} DollarsConcat(s: string, r: string)
    ensures Dollars(s + r) == Dollars(s) + Dollars(r)
  {
    if s == "" {
      assert s + r == r;
    } else {
      assert (s + r)[1..] == s[1..] + r;
      DollarsConcat(s[1..], r);
    }
  }

  /** Every match gives up a dollar sign, and no replacement brings one. */
  ghost predicate Spends(pattern: string -> Option<Match>, put: string -> string) {
    (forall s :: pattern(s).Some? ==> Dollars(pattern(s).value.rest) < Dollars(s)) &&
    (forall name :: Dollars(put(name)) == 0)
  }

  /** Then a substitution that keeps all the dollar signs has found no match. */
  lemma {:induction false} SubSpends(pattern: string -> Option<Match>, put: string -> string, s: string)
    requires Consumes(pattern) && Spends(pattern, put)
    ensures Dollars(Sub(pattern, put, s)) <= Dollars(s)
    ensures Dollars(Sub(pattern, put, s)) == Dollars(s) <==> forall i :: 0 <= i < |s| ==> pattern(s[i..]).None?
    decreases |s|
  {
    if s != "" {
      assert s[0..] == s;
      match pattern(s)
      case Some(m) =>
        SubSpends(pattern, put, m.rest);
        DollarsConcat(put(m.captured), Sub(pattern, put, m.rest));
        assert Dollars(pattern(s).value.rest) < Dollars(s);
      case None =>
        SubSpends(pattern, put, s[1..]);
        DollarsConcat([s[0]], Sub(pattern, put, s[1..]));
        assert forall i :: 0 <= i < |s[1..]| ==> s[1..][i..] == s[i + 1..];
        assert forall i :: 0 < i < |s| ==> s[i..] == s[1..][i - 1..];
    }
  }

  lemma {:induction false} DollarsOfTail(s: string, k: nat)
    requires k <= |s|
    ensures Dollars(s[k..]) <= Dollars(s)
  {
    if k == 0 {
      assert s[0..] == s;
    } else {
      DollarsOfTail(s[1..], k - 1);
      assert s[1..][k - 1..] == s[k..];
    }
  }

  lemma {:induction false} SpaceSpends(s: string)
    ensures Dollars(EatSpace(s)) <= Dollars(s)
  {
    if s != "" && IsSpace(s[0]) {
      SpaceSpends(s[1..]);
    }
  }

  lemma OpenSpends(s: string)
    requires Open(s).Some?
    ensures Dollars(Open(s).value) < Dollars(s)
  {
    SpaceSpends(s[3..]);
    DollarsOfTail(s[1..], 2);
    assert s[1..][2..] == s[3..];
  }

  lemma NameSpends(s: string)
    requires Name(s).Some?
    ensures Dollars(Name(s).value.rest) <= Dollars(s)
  {
    DollarsOfTail(s, 7);
    DollarsOfTail(s[7..], NameRun(s[7..]));
  }

  lemma CloseSpends(s: string)
    requires Close(s).Some?
    ensures Dollars(Close(s).value) <= Dollars(s)
  {
    SpaceSpends(s);
    DollarsOfTail(EatSpace(s), 2);
  }

  lemma MatchSpends(s: string)
    requires MatchValue(s).Some?
    ensures Dollars(MatchValue(s).value.rest) < Dollars(s)
  {
    OpenSpends(s);
    var a := Open(s).value;
    NameSpends(a);
    CloseSpends(Name(a).value.rest);
  }

  lemma ValuesSpend()
    ensures Spends(MatchValue, Lookup)
  {
    forall s | MatchValue(s).Some?
      ensures Dollars(MatchValue(s).value.rest) < Dollars(s)
    {
      MatchSpends(s);
    }
    forall name
      ensures Dollars(Lookup(name)) == 0
    {
      LookupHasNone(name);
    }
  }

  lemma {:induction false} NoneCounted(s: string)
    requires '$' !in s
    ensures Dollars(s) == 0
  {
    if s != "" {
      NoneCounted(s[1..]);
    }
  }

  lemma LookupHasNone(name: string)
    ensures Dollars(Lookup(name)) == 0
  {
    NoDollar(name);
    NoneCounted(Lookup(name));
  }

  /** No text of the table holds a dollar sign. */
  lemma NoDollar(name: string)
    ensures '$' !in Lookup(name)
  {
    assert '$' !in "example-svc" && '$' !in "Example service" && '$' !in "group:default/team-a" && '$' !in "1.22";
    assert '$' !in "github.com?owner=" && '$' !in "example-org" && '$' !in "&repo=" && '$' !in "placeholder";
  }

  // ---------------------------------------------------------------- the round trip

  lemma {:induction false} NoReferenceUnchanged(s: string)
    ensures NoReference(s) ==> SubValues(s) == s
    ensures Dollars(SubValues(s)) <= Dollars(s)
    ensures Dollars(SubValues(s)) == Dollars(s) ==> NoReference(s)
  {
    ValuesSpend();
    SubSpends(MatchValue, Lookup, s);
    if NoReference(s) {
      assert forall i :: 0 <= i < |s| ==> s[i..] + "" == s[i..];
      SubCopies(MatchValue, Lookup, s, "");
      assert s + "" == s;
    }
  }

  lemma {:induction false} SecondPassExact(items: seq<Item>)
    requires Writable(items)
    ensures NoneReadIn(items) ==> SubValues(Halfway(items)) == Meaning(items)
    ensures Dollars(SubValues(Halfway(items))) <= Dollars(Meaning(items))
    ensures Dollars(SubValues(Halfway(items))) == Dollars(Meaning(items)) ==> NoneReadIn(items)
    decreases |items|
  {
    HalfwaySplits(items);
    SecondPass(items);
    NoReferenceUnchanged(Run(items));
    var behind := Behind(items);
    if behind == [] {
      assert Meaning(items) == Run(items);
    } else {
      WritableTail(behind);
      SecondPassExact(behind[1..]);
      var value := Lookup(behind[0].name);
      DollarsSplit(Run(items), value, Meaning(behind[1..]));
      DollarsSplit(SubValues(Run(items)), value, SubValues(Halfway(behind[1..])));
      assert Meaning(items) == Run(items) + (value + Meaning(behind[1..]));
    }
  }

  lemma DollarsSplit(a: string, b: string, c: string)
    ensures Dollars(a + (b + c)) == Dollars(a) + Dollars(b) + Dollars(c)
  {
    DollarsConcat(a, b + c);
    DollarsConcat(b, c);
  }

  /** A written file renders to what is meant exactly when the joined texts between its references read as no
      reference themselves: the second pass runs over the output of the first. */
  lemma RenderMeans(items: seq<Item>)
    requires Writable(items)
    ensures Render(Source(items)) == Meaning(items) <==> NoneReadIn(items)
  {
    FirstPass(items);
    SecondPassExact(items);
  }

  // ---------------------------------------------------------------- a condition on each piece alone

  /** A text that closes what it opens, does not stop inside an opening, and holds no reference. */
  predicate Sealed(t: string) {
    NoReference(t) &&
    (forall i :: 0 <= i < |t| && Opens(t[i..]) ==> HasClose(t[i..])) &&
    (t != "" ==> t[|t| - 1] != '$') && (|t| >= 2 ==> !(t[|t| - 2] == '$' && t[|t| - 1] == '{'))
  }

  /** As is any text without a dollar sign. */
  lemma DollarFreeIsSealed(t: string)
    requires '$' !in t
    ensures Sealed(t)
  {
    assert forall i :: 0 <= i < |t| ==> t[i..][0] == t[i];
  }

  lemma SealedBefore(t: string, r: string)
    requires Sealed(t) && NoReference(r)
    ensures NoReference(t + r)
  {
    var u := t + r;
    forall i | 0 <= i < |u|
      ensures MatchValue(u[i..]).None?
    {
      if i >= |t| {
        assert u[i..] == r[i - |t|..];
      } else {
        var s := t[i..];
        assert u[i..] == s + r;
        if Opens(s) {
          MatchValueBoth(s, r);
        } else {
          StaysClosed(t, i, r);
        }
      }
    }
  }

  lemma StaysClosed(t: string, i: nat, r: string)
    requires Sealed(t) && i < |t| && !Opens(t[i..])
    ensures !Opens(t[i..] + r)
  {
    var s := t[i..];
    if |s| == 1 {
      assert s[0] == t[|t| - 1];
    } else if |s| == 2 {
      assert s[0] == t[|t| - 2] && s[1] == t[|t| - 1];
    }
  }

  lemma {:induction false} SealedRun(items: seq<Item>)
    requires forall i :: 0 <= i < |items| && !items[i].Reference? ==> Sealed(items[i].text)
    ensures NoReference(Run(items))
    ensures forall i :: 0 <= i < |Behind(items)| && !Behind(items)[i].Reference? ==> Sealed(Behind(items)[i].text)
  {
    if items != [] && !items[0].Reference? {
      SealedRun(items[1..]);
      SealedBefore(items[0].text, Run(items[1..]));
    }
  }

  /** Texts that are each sealed can stand next to each other and to references. */
  lemma {:induction false} SealedTextsSuffice(items: seq<Item>)
    requires forall i :: 0 <= i < |items| && !items[i].Reference? ==> Sealed(items[i].text)
    ensures NoneReadIn(items)
    decreases |items|
  {
    SealedRun(items);
    if Behind(items) != [] {
      SealedTextsSuffice(Behind(items)[1..]);
    }
  }

  /** Why each text, plain ones too, must not stop inside an opening: a dollar sign before a literal that
      starts with braces makes a reference of the two. */
  lemma TornOpening(name: string)
    requires IsName(name)
    ensures Writable([Plain("$"), Literal(ReferenceSource(name)[1..])])
    ensures Meaning([Plain("$"), Literal(ReferenceSource(name)[1..])]) == ReferenceSource(name)
    ensures Render(Source([Plain("$"), Literal(ReferenceSource(name)[1..])])) == Lookup(name)
  {
    var tail := ReferenceSource(name)[1..];
    var items := [Plain("$"), Literal(tail)];
    assert Writable(items) by {
      assert |"$"[0..]| == 1;
    }
    Joined("$", tail);
    assert "$" + tail == ReferenceSource(name) == ReferenceSource(name) + "";
    FirstPass(items);
    ReferenceRead(name, "");
  }

  lemma Joined(a: string, b: string)
    ensures Meaning([Plain(a), Literal(b)]) == a + b
    ensures Halfway([Plain(a), Literal(b)]) == a + b
  {
    var last := [Literal(b)];
    assert [Plain(a), Literal(b)][1..] == last;
    assert last[1..] == [];
    assert Meaning(last) == b + "" == b;
    assert Halfway(last) == b + "" == b;
  }
}
