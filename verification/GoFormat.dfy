/** `go_format` (hack/render-composition.py): three textual passes standing in for Go's Sprintf. */
module GoFormat {
  import opened Wrappers
  import opened Paths

  const NUL: char := 0 as char

  predicate IsVerb(c: char) {
    c == 's' || c == 'd' || c == 'v'
  }

  /** The length of the run of digits at the start of `s`. */
  function DigitRun(s: string): (k: nat)
    ensures k <= |s|
    ensures forall i :: 0 <= i < k ==> IsDigit(s[i])
    ensures k < |s| ==> !IsDigit(s[k])
  {
    if s == "" || !IsDigit(s[0]) then 0 else 1 + DigitRun(s[1..])
  }

  /** A verb at the start of a text: how long it is, and its explicit argument number. */
  datatype Verb = Verb(length: nat, explicit: Option<nat>)

  /** The verb pattern `%(?:\[(\d+)\])?([sdv])`, anchored at the start of `s`. */
  function MatchVerb(s: string): (m: Option<Verb>)
    ensures m.Some? ==> 2 <= m.value.length <= |s|
  {
    if |s| < 2 || s[0] != '%' then None
    else if IsVerb(s[1]) then Some(Verb(2, None))
    else if s[1] == '[' then
      var k := DigitRun(s[2..]);
      if 0 < k && k + 3 < |s| && s[k + 2] == ']' && IsVerb(s[k + 3])
      then Some(Verb(k + 4, Some(ToNat(s[2..][..k]))))
      else None
    else None
  }

  /** `values[idx]` as Python indexes: -1, the index of `%[0]`, is the last value. */
  function Pick(values: seq<string>, idx: int): Result<string>
    requires idx >= -1
  {
    if 0 <= idx < |values| then Success(values[idx])
    else if idx == -1 && values != [] then Success(values[|values|-1])
    else Failure(BadIndex)
  }

  /** The argument a verb takes, given the next sequential one. */
  function Argument(verb: Verb, next: nat): (idx: int)
    ensures idx >= -1
  {
    if verb.explicit.Some? then verb.explicit.value - 1 else next
  }

  // ---------------------------------------------------------------- the passes

  /** First pass: `fmt.replace("%%", "\x00")`. */
  function HidePercents(s: string): string {
    if s == "" then ""
    else if |s| >= 2 && s[0] == '%' && s[1] == '%' then [NUL] + HidePercents(s[2..])
    else [s[0]] + HidePercents(s[1..])
  }

  /** Second pass: every verb replaced, left to right. */
  function Substitute(s: string, values: seq<string>, next: nat): Result<string>
    decreases |s|
  {
    if s == "" then Success("")
    else
      var m := MatchVerb(s);
      if m.Some? then
        var idx := Argument(m.value, next);
        var text :- Pick(values, idx);
        var rest :- Substitute(s[m.value.length..], values, idx + 1);
        Success(text + rest)
      else
        var rest :- Substitute(s[1..], values, next);
        Success([s[0]] + rest)
  }

  /** Third pass: `.replace("\x00", "%")`. */
  function ShowPercents(s: string): (r: string)
    ensures |r| == |s|
    ensures forall i :: 0 <= i < |s| ==> r[i] == if s[i] == NUL then '%' else s[i]
  {
    seq(|s|, i requires 0 <= i < |s| => if s[i] == NUL then '%' else s[i])
  }

  function Format(fmt: string, values: seq<string>): Result<string> {
    var text :- Substitute(HidePercents(fmt), values, 0);
    Success(ShowPercents(text))
  }

  /** `go_format`, with the replacement callback's counter as a variable of the scan. */
  method GoFormat(fmt: string, values: seq<string>) returns (r: Result<string>)
    ensures r == Format(fmt, values)
  {
    var todo, out := HidePercents(fmt), "";
    var next: nat := 0;
    PrefixedEmpty(Substitute(todo, values, 0));
    while todo != ""
      invariant Prefixed(out, Substitute(todo, values, next)) == Substitute(HidePercents(fmt), values, 0)
      decreases |todo|
    {
      var m := MatchVerb(todo);
      if m.Some? {
        var idx := Argument(m.value, next);
        var text := Pick(values, idx);
        if text.Failure? {
          return Failure(text.error);
        }
        next := idx + 1;
        PrefixedTwice(out, text.value, Substitute(todo[m.value.length..], values, next));
        out := out + text.value;
        todo := todo[m.value.length..];
      } else {
        PrefixedTwice(out, [todo[0]], Substitute(todo[1..], values, next));
        out := out + [todo[0]];
        todo := todo[1..];
      }
    }
    assert out + "" == out;
    r := Success(ShowPercents(out));
  }

  /** A result with text written before it. */
  function Prefixed(text: string, r: Result<string>): Result<string> {
    if r.Failure? then r else Success(text + r.value)
  }

  lemma PrefixedEmpty(r: Result<string>)
    ensures Prefixed("", r) == r
  {
    if r.Success? {
      assert "" + r.value == r.value;
    }
  }

  lemma PrefixedTwice(a: string, b: string, r: Result<string>)
    ensures Prefixed(a, Prefixed(b, r)) == Prefixed(a + b, r)
  {
    if r.Success? {
      assert a + (b + r.value) == (a + b) + r.value;
    }
  }

  // ---------------------------------------------------------------- one pass

  /** Sprintf as one interpreter from left to right: `%%` is a percent sign, a verb is an argument, later
      verbs continue after an explicit index, and anything else is itself. */
  function Sprintf(s: string, values: seq<string>, next: nat): Result<string>
    decreases |s|
  {
    if s == "" then Success("")
    else if |s| >= 2 && s[0] == '%' && s[1] == '%' then Prefixed("%", Sprintf(s[2..], values, next))
    else if MatchVerb(s).Some? then
      var verb := MatchVerb(s).value;
      var text :- Pick(values, Argument(verb, next));
      Prefixed(text, Sprintf(s[verb.length..], values, Argument(verb, next) + 1))
    else Prefixed([s[0]], Sprintf(s[1..], values, next))
  }

  function Shown(r: Result<string>): Result<string> {
    if r.Failure? then r else Success(ShowPercents(r.value))
  }

  lemma ShowConcat(a: string, r: Result<string>)
    ensures Shown(Prefixed(a, r)) == Prefixed(ShowPercents(a), Shown(r))
  {
    if r.Success? {
      assert ShowPercents(a + r.value) == ShowPercents(a) + ShowPercents(r.value);
    }
  }

  /** Hiding percents neither makes nor breaks a verb at the front. */
  lemma HideKeepsVerb(s: string)
    requires s != "" && !(|s| >= 2 && s[0] == '%' && s[1] == '%')
    ensures MatchVerb(HidePercents(s)) == MatchVerb(s)
    ensures MatchVerb(s).Some? ==>
      HidePercents(s)[MatchVerb(s).value.length..] == HidePercents(s[MatchVerb(s).value.length..])
    ensures HidePercents(s)[0] == s[0] && HidePercents(s)[1..] == HidePercents(s[1..])
  {
    if |s| >= 2 && s[0] == '%' {
      HideRun(s, 1);
      if s[1] == '[' {
        HideKeepsIndexedVerb(s);
      } else if IsVerb(s[1]) {
        HideRun(s, 2);
      }
    }
  }

  lemma HideKeepsIndexedVerb(s: string)
    requires |s| >= 2 && s[0] == '%' && s[1] == '['
    ensures MatchVerb(HidePercents(s)) == MatchVerb(s)
    ensures MatchVerb(s).Some? ==>
      HidePercents(s)[MatchVerb(s).value.length..] == HidePercents(s[MatchVerb(s).value.length..])
  {
    var t, k := HidePercents(s), DigitRun(s[2..]);
    HideKeepsDigits(s);
    HideRun(s, 2 + k);
    HideKeepsVerbTail(s, t, k);
  }

  /** The bracket and the digits behind it are copied, and no digit is added. */
  lemma HideKeepsDigits(s: string)
    requires |s| >= 2 && s[0] == '%' && s[1] == '['
    ensures var t, k := HidePercents(s), DigitRun(s[2..]);
      |t| >= 2 + k && t[0] == '%' && t[1] == '[' && DigitRun(t[2..]) == k && t[2..][..k] == s[2..][..k] &&
      forall i :: 1 <= i < 2 + k ==> s[i] != '%'
  {
    var t, k := HidePercents(s), DigitRun(s[2..]);
    assert forall i :: 2 <= i < 2 + k ==> IsDigit(s[2..][i - 2]) && s[i] != '%';
    HideRun(s, 1);
    HideRun(s, 2 + k);
    assert t[..2 + k] == s[..2 + k];
    assert t[2..][..k] == t[..2 + k][2..];
    assert s[2..][..k] == s[..2 + k][2..];
    DigitRunAgrees(s[2..], t[2..], k);
    assert t[0] == '%' && t[1] == '[' by {
      assert t[..2 + k][0] == s[0] && t[..2 + k][1] == s[1];
    }
  }

  lemma HideKeepsVerbTail(s: string, t: string, k: nat)
    requires t == HidePercents(s) && |s| >= 2 && s[0] == '%' && s[1] == '[' && k + 2 <= |s| && k + 2 <= |t|
    requires forall i :: 1 <= i < 2 + k ==> s[i] != '%'
    requires |t| > k + 2 <==> |s| > k + 2
    requires |s| > k + 2 ==> t[k + 2] == s[k + 2] || t[k + 2] == NUL
    requires |s| > k + 2 && s[k + 2] != '%' ==> t[k + 2] == s[k + 2]
    ensures |s| > k + 3 && s[k + 2] == ']' && IsVerb(s[k + 3]) <==> |t| > k + 3 && t[k + 2] == ']' && IsVerb(t[k + 3])
    ensures |s| > k + 3 && s[k + 2] == ']' && IsVerb(s[k + 3]) ==> t[k + 4..] == HidePercents(s[k + 4..])
  {
    if k + 2 < |s| && s[k + 2] == ']' {
      HideRun(s, 3 + k);
      if k + 3 < |s| && IsVerb(s[k + 3]) {
        HideRun(s, 4 + k);
      }
    }
  }

  /** A prefix without adjacent percents is copied. */
  lemma {:induction false} HideRun(s: string, k: nat)
    requires k <= |s| && forall i :: 0 < i < k ==> s[i] != '%'
    requires k > 0 && !(|s| >= 2 && s[0] == '%' && s[1] == '%')
    ensures k <= |HidePercents(s)| && HidePercents(s)[..k] == s[..k]
    ensures HidePercents(s)[k..] == HidePercents(s[k..])
    ensures |HidePercents(s)| > k <==> |s| > k
    ensures |s| > k ==> HidePercents(s)[k] == if |s| >= k + 2 && s[k] == '%' && s[k+1] == '%' then NUL else s[k]
    decreases k
  {
    if k > 1 {
      HideRun(s[1..], k - 1);
      assert s[1..][k-1..] == s[k..];
    }
  }

  lemma DigitRunAgrees(s: string, t: string, k: nat)
    requires k == DigitRun(s) && k <= |t| && t[..k] == s[..k]
    requires k < |t| ==> k < |s| && (t[k] == s[k] || t[k] == NUL)
    ensures DigitRun(t) == k
  {
    assert forall i :: 0 <= i < k ==> IsDigit(t[..k][i]);
  }

  /** The three passes are the one-pass interpreter, up to NULs shown as percent signs. */
  lemma {:induction false} PassesAreSprintf(s: string, values: seq<string>, next: nat)
    ensures Shown(Substitute(HidePercents(s), values, next)) == Shown(Sprintf(s, values, next))
    decreases |s|
  {
    if s != "" {
      var t := HidePercents(s);
      if |s| >= 2 && s[0] == '%' && s[1] == '%' {
        PassesAreSprintf(s[2..], values, next);
        assert t[1..] == HidePercents(s[2..]);
        ShowConcat([NUL], Substitute(t[1..], values, next));
        ShowConcat("%", Sprintf(s[2..], values, next));
        assert ShowPercents([NUL]) == ShowPercents("%");
      } else {
        HideKeepsVerb(s);
        if MatchVerb(s).Some? {
          var verb := MatchVerb(s).value;
          var idx := Argument(verb, next);
          PassesAreSprintf(s[verb.length..], values, idx + 1);
          if Pick(values, idx).Success? {
            ShowConcat(Pick(values, idx).value, Substitute(t[verb.length..], values, idx + 1));
            ShowConcat(Pick(values, idx).value, Sprintf(s[verb.length..], values, idx + 1));
          }
        } else {
          PassesAreSprintf(s[1..], values, next);
          ShowConcat([s[0]], Substitute(t[1..], values, next));
          ShowConcat([s[0]], Sprintf(s[1..], values, next));
        }
      }
    }
  }

  // ---------------------------------------------------------------- what the passes promise

  predicate NulFree(s: string) {
    NUL !in s
  }

  /** The values a format interpolates, in order, up to the first index out of range. */
  function Used(s: string, values: seq<string>, next: nat): seq<string>
    decreases |s|
  {
    if s == "" then []
    else if |s| >= 2 && s[0] == '%' && s[1] == '%' then Used(s[2..], values, next)
    else if MatchVerb(s).Some? then
      var verb := MatchVerb(s).value;
      var text := Pick(values, Argument(verb, next));
      if text.Failure? then [] else [text.value] + Used(s[verb.length..], values, Argument(verb, next) + 1)
    else Used(s[1..], values, next)
  }

  lemma NulConcat(a: string, b: string)
    ensures NulFree(a + b) <==> NulFree(a) && NulFree(b)
  {
  }

  predicate AllNulFree(xs: seq<string>) {
    forall i :: 0 <= i < |xs| ==> NulFree(xs[i])
  }

  lemma AllNulFreeCons(x: string, xs: seq<string>)
    ensures AllNulFree([x] + xs) <==> NulFree(x) && AllNulFree(xs)
  {
    assert ([x] + xs)[0] == x;
    assert forall i :: 0 <= i < |xs| ==> ([x] + xs)[i + 1] == xs[i];
  }

  /** A NUL in the output is a NUL of the format or of a value it used. */
  lemma {:induction false} NulsComeFromInputs(s: string, values: seq<string>, next: nat)
    requires Sprintf(s, values, next).Success?
    ensures NulFree(Sprintf(s, values, next).value) <==> NulFree(s) && AllNulFree(Used(s, values, next))
    decreases |s|
  {
    if s == "" {
      assert Used(s, values, next) == [];
    } else if |s| >= 2 && s[0] == '%' && s[1] == '%' {
      NulsComeFromInputs(s[2..], values, next);
      NulsJoined(s, 2, "%", Sprintf(s[2..], values, next).value);
      assert Used(s, values, next) == Used(s[2..], values, next);
    } else if MatchVerb(s).Some? {
      var verb := MatchVerb(s).value;
      var idx := Argument(verb, next);
      var text := Pick(values, idx).value;
      NulsComeFromInputs(s[verb.length..], values, idx + 1);
      VerbNulFree(s);
      NulsJoined(s, verb.length, text, Sprintf(s[verb.length..], values, idx + 1).value);
      AllNulFreeCons(text, Used(s[verb.length..], values, idx + 1));
    } else {
      NulsComeFromInputs(s[1..], values, next);
      NulsJoined(s, 1, [s[0]], Sprintf(s[1..], values, next).value);
    }
  }

  /** A part of the format and what stands for it in the output. */
  lemma NulsJoined(s: string, k: nat, text: string, rest: string)
    requires k <= |s|
    ensures NulFree(s) <==> NulFree(s[..k]) && NulFree(s[k..])
    ensures NulFree(text + rest) <==> NulFree(text) && NulFree(rest)
    ensures k == 1 ==> s[..1] == [s[0]]
    ensures k == 2 && s[0] == '%' && s[1] == '%' ==> NulFree(s[..2]) && NulFree("%")
  {
    NulConcat(s[..k], s[k..]);
    NulConcat(text, rest);
    assert s == s[..k] + s[k..];
  }

  lemma VerbNulFree(s: string)
    requires MatchVerb(s).Some?
    ensures NulFree(s[..MatchVerb(s).value.length])
  {
    var n := MatchVerb(s).value.length;
    if s[1] == '[' {
      assert forall i :: 0 <= i < n - 4 ==> IsDigit(s[2..][i]);
      assert s[..n] == s[..2] + s[2..][..n - 4] + s[n - 2..n];
    }
  }

  /** For every format and values, errors included: the three passes give the one-pass result with NULs shown
      as percent signs, so inserted values are never read as verbs; and they give the one-pass result itself
      exactly when neither the format nor a value it uses holds a NUL. */
  lemma FormatIsSprintf(fmt: string, values: seq<string>)
    ensures Format(fmt, values) == Shown(Sprintf(fmt, values, 0))
    ensures Sprintf(fmt, values, 0).Success? ==>
      (Format(fmt, values) == Sprintf(fmt, values, 0) <==>
       NulFree(fmt) && AllNulFree(Used(fmt, values, 0)))
  {
    PassesAreSprintf(fmt, values, 0);
    var r := Sprintf(fmt, values, 0);
    if r.Success? {
      NulsComeFromInputs(fmt, values, 0);
      var shown := ShowPercents(r.value);
      if NulFree(r.value) {
        assert shown == r.value;
      } else {
        var i :| 0 <= i < |r.value| && r.value[i] == NUL;
        assert shown[i] != r.value[i];
      }
    }
  }
}
