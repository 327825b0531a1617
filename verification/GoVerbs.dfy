/** What a format prints, verb by verb (hack/render-composition.py, `go_format`). */
module GoVerbs {
  import opened Wrappers
  import opened Paths
  import opened GoFormat

  /** Text without percent signs and NULs is printed as it is. */
  lemma PlainText(t: string, values: seq<string>)
    requires forall i :: 0 <= i < |t| ==> t[i] != '%' && t[i] != '\0'
    ensures Format(t, values) == Success(t)
  {
    HiddenAsIs(t);
    CopiedAsIs(t, values, 0);
    assert ShowPercents(t) == t;
  }

  lemma {:induction false} HiddenAsIs(t: string)
    requires forall i :: 0 <= i < |t| ==> t[i] != '%'
    ensures HidePercents(t) == t
    decreases |t|
  {
    if t != "" {
      HiddenAsIs(t[1..]);
      assert [t[0]] + t[1..] == t;
    }
  }

  lemma {:induction false} CopiedAsIs(t: string, values: seq<string>, next: nat)
    requires forall i :: 0 <= i < |t| ==> t[i] != '%'
    ensures Substitute(t, values, next) == Success(t)
    decreases |t|
  {
    if t != "" {
      CopiedAsIs(t[1..], values, next);
      assert [t[0]] + t[1..] == t;
    }
  }

  /** The three verbs print the next argument; in brackets they name theirs, counted from one, and those behind go on
      from there. An argument that is not there is an error; argument zero is the last. Any other character behind a
      percent sign makes it text, and two percent signs are one. */
  lemma VerbsInTurn(c: char, rest: string, values: seq<string>, next: nat)
    ensures c == 's' || c == 'd' || c == 'v' ==>
      Sprintf("%" + [c] + rest, values, next) ==
        if next < |values| then Prefixed(values[next], Sprintf(rest, values, next + 1)) else Failure(BadIndex)
    ensures c == '%' ==> Sprintf("%" + [c] + rest, values, next) == Prefixed("%", Sprintf(rest, values, next))
    ensures c !in {'s', 'd', 'v', '%', '['} ==>
      Sprintf("%" + [c] + rest, values, next) == Prefixed("%", Sprintf([c] + rest, values, next))
  {
    var t := "%" + [c] + rest;
    assert t[0] == '%' && t[1] == c && t[2..] == rest && t[1..] == [c] + rest;
  }

  lemma VerbsByNumber(digits: string, n: nat, c: char, rest: string, values: seq<string>, next: nat)
    requires AllDigits(digits) && ToNat(digits) == n && (c == 's' || c == 'd' || c == 'v')
    ensures var r := Sprintf("%[" + digits + "]" + [c] + rest, values, next);
      (1 <= n <= |values| ==> r == Prefixed(values[n - 1], Sprintf(rest, values, n))) &&
      (n == 0 && values != [] ==> r == Prefixed(values[|values| - 1], Sprintf(rest, values, 0))) &&
      (n > |values| || values == [] ==> r == Failure(BadIndex))
  {
    var t := "%[" + digits + "]" + [c] + rest;
    var k := |digits|;
    assert t[0] == '%' && t[1] == '[';
    assert t[2..] == digits + ("]" + [c] + rest);
    DigitsRun(digits, "]" + [c] + rest);
    assert t[2..][..k] == digits;
    assert t[k + 2] == ']' && t[k + 3] == c;
    assert t[k + 4..] == rest;
    assert MatchVerb(t) == Some(Verb(k + 4, Some(n)));
  }

  lemma {:induction false} DigitsRun(digits: string, rest: string)
    requires (forall i :: 0 <= i < |digits| ==> '0' <= digits[i] <= '9') && rest != "" && !('0' <= rest[0] <= '9')
    ensures DigitRun(digits + rest) == |digits|
    decreases |digits|
  {
    if digits == "" {
      assert digits + rest == rest;
    } else {
      assert (digits + rest)[1..] == digits[1..] + rest;
      DigitsRun(digits[1..], rest);
    }
  }

  /** `s` goes on with digits up to position `k`, a closing bracket and a verb. */
  predicate NumberedTo(s: string, k: nat) {
    2 < k && k + 1 < |s| && (forall i :: 2 <= i < k ==> '0' <= s[i] <= '9') &&
    s[k] == ']' && (s[k + 1] == 's' || s[k + 1] == 'd' || s[k + 1] == 'v')
  }

  /** A bracket that is not closed behind digits by one of the verbs is text. */
  lemma OtherBrackets(s: string, values: seq<string>, next: nat)
    requires |s| >= 2 && s[0] == '%' && s[1] == '[' && forall k :: !NumberedTo(s, k)
    ensures Sprintf(s, values, next) == Prefixed("%", Sprintf(s[1..], values, next))
  {
    var k := DigitRun(s[2..]) + 2;
    assert !NumberedTo(s, k);
    assert forall i :: 2 <= i < k ==> s[i] == s[2..][i - 2];
  }

  /** The formats of one verb. */
  lemma OneVerb(c: char, v: string)
    requires c == 's' || c == 'd' || c == 'v'
    requires forall i :: 0 <= i < |v| ==> v[i] != '\0'
    ensures Format("%" + [c], [v]) == Success(v) && Format("%" + [c], []) == Failure(BadIndex)
    ensures Format("%%", [v]) == Success("%")
  {
    var t := "%" + [c];
    assert t[0] == '%' && t[1] == c && t[1..] == [c] && t[2..] == "" && [c][1..] == "";
    assert HidePercents([c]) == [c] && HidePercents(t) == t;
    assert MatchVerb(t) == Some(Verb(2, None));
    assert Substitute(t, [v], 0) == Success(v + "") && v + "" == v;
    assert ShowPercents(v) == v;
    assert "%%"[2..] == "" && HidePercents("%%") == [NUL] + "";
    assert [NUL][1..] == "" && Substitute([NUL], [v], 0) == Success([NUL] + "");
    assert [NUL] + "" == [NUL] && ShowPercents([NUL]) == "%";
  }
}
