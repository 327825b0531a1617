/** What the migration analyzer extracts from a Jenkinsfile
    (tools/migration-analyzer/src/migration_analyzer/parser.py), with its patterns as parameters. */
module Scanner {
  import opened Comments

  /** The patterns `scan` applies: the step names called on a line, in order; names defined in the file; and the
      credential ids of either spelling. */
  datatype Patterns = Patterns(
    steps: string -> seq<string>, defs: string -> set<string>,
    credentials: string -> seq<string>, credentialsIds: string -> seq<string>)

  /** One step call, at a 1-based line. */
  datatype Call = Call(name: string, line: nat)

  function At(names: seq<string>, line: nat): seq<Call> {
    seq(|names|, i requires 0 <= i < |names| => Call(names[i], line))
  }

  /** Every call of the file, in order. */
  function Calls(lines: seq<string>, steps: string -> seq<string>): seq<Call> {
    if lines == [] then []
    else Calls(lines[..|lines| - 1], steps) + At(steps(lines[|lines| - 1]), |lines|)
  }

  /** The lines of the calls of one name, in order. */
  function LinesOf(calls: seq<Call>, name: string): seq<nat> {
    if calls == [] then []
    else
      var last := calls[|calls| - 1];
      LinesOf(calls[..|calls| - 1], name) + if last.name == name then [last.line] else []
  }

  function NamesOf(calls: seq<Call>): seq<string> {
    seq(|calls|, i requires 0 <= i < |calls| => calls[i].name)
  }

  /** The elements in order of first occurrence: a dictionary's keys. */
  function Distinct(xs: seq<string>): (ys: seq<string>)
    ensures forall x :: x in ys <==> x in xs
    ensures forall i, j :: 0 <= i < j < |ys| ==> ys[i] != ys[j]
  {
    if xs == [] then []
    else
      var ys := Distinct(xs[..|xs| - 1]);
      if xs[|xs| - 1] in xs[..|xs| - 1] then ys else ys + [xs[|xs| - 1]]
  }

  lemma CallAppend(calls: seq<Call>, c: Call, name: string)
    ensures LinesOf(calls + [c], name) == LinesOf(calls, name) + if c.name == name then [c.line] else []
    ensures NamesOf(calls + [c]) == NamesOf(calls) + [c.name]
  {
    assert (calls + [c])[..|calls|] == calls;
  }

  lemma AtAppend(names: seq<string>, j: nat, line: nat)
    requires j < |names|
    ensures At(names[..j + 1], line) == At(names[..j], line) + [Call(names[j], line)]
  {
  }

  lemma NextCall(calls: seq<Call>, names: seq<string>, j: nat, line: nat)
    requires j < |names|
    ensures calls + At(names[..j + 1], line) == (calls + At(names[..j], line)) + [Call(names[j], line)]
  {
    AtAppend(names, j, line);
  }

  /** Each name once, in order of its first call, with the lines of its calls. */
  ghost predicate Filed(keys: seq<string>, filed: map<string, seq<nat>>, calls: seq<Call>) {
    keys == Distinct(NamesOf(calls)) &&
    (forall name :: name in filed <==> name in keys) &&
    (forall name :: name in filed ==> filed[name] == LinesOf(calls, name))
  }

  class Scanned {
    var originalLines: seq<string>
    var lines: seq<string>
    var credentialIds: seq<string>
    var localDefs: set<string>
    var stepNames: seq<string>
    var stepCalls: map<string, seq<nat>>

    /** The cleaned lines match the original ones in number; each name called is filed once, with the lines of
        its calls; and each credential id is listed once, in order of first mention. */
    constructor (text: string, patterns: Patterns)
      ensures originalLines == Lines(text) && lines == Lines(StripComments(text)) && |lines| == |originalLines|
      ensures credentialIds == Distinct(patterns.credentials(Join(lines)) + patterns.credentialsIds(Join(lines)))
      ensures localDefs == patterns.defs(Join(lines))
      ensures Filed(stepNames, stepCalls, Calls(lines, patterns.steps))
    {
      var original := Lines(text);
      var cleaned := Lines(StripComments(text));
      LineAlignment(text);
      assert |cleaned| == |original|;
      var joined := Join(cleaned);
      var found := patterns.credentials(joined) + patterns.credentialsIds(joined);
      var seen := [];
      for i := 0 to |found|
        invariant seen == Distinct(found[..i])
      {
        assert found[..i + 1] == found[..i] + [found[i]];
        if found[i] !in seen {
          seen := seen + [found[i]];
        }
      }
      assert found[..|found|] == found;
      var keys, filed := FileCalls(cleaned, patterns.steps);
      originalLines, lines, credentialIds, localDefs := original, cleaned, seen, patterns.defs(joined);
      stepNames, stepCalls := keys, filed;
    }
  }

  lemma FileKey(keys: seq<string>, calls: seq<Call>, c: Call)
    requires keys == Distinct(NamesOf(calls))
    ensures Distinct(NamesOf(calls + [c])) == if c.name in keys then keys else keys + [c.name]
  {
    CallAppend(calls, c, c.name);
  }

  lemma FileLines(filed: map<string, seq<nat>>, calls: seq<Call>, c: Call, name: string)
    requires forall n :: n in filed <==> n in NamesOf(calls)
    requires forall n :: n in filed ==> filed[n] == LinesOf(calls, n)
    requires name in filed || name == c.name
    ensures LinesOf(calls + [c], name) ==
      (if name in filed then filed[name] else []) + if c.name == name then [c.line] else []
  {
    CallAppend(calls, c, name);
    Uncalled(calls, name);
  }

  /** `setdefault(name, []).append(line)` */
  lemma FileOne(keys: seq<string>, filed: map<string, seq<nat>>, calls: seq<Call>, c: Call)
    requires Filed(keys, filed, calls)
    ensures Filed(if c.name in filed then keys else keys + [c.name],
                  filed[c.name := (if c.name in filed then filed[c.name] else []) + [c.line]], calls + [c])
  {
    FileKey(keys, calls, c);
    var more := filed[c.name := (if c.name in filed then filed[c.name] else []) + [c.line]];
    forall name | name in more
      ensures more[name] == LinesOf(calls + [c], name)
    {
      FileLines(filed, calls, c, name);
    }
  }

  lemma {:induction false} Uncalled(calls: seq<Call>, name: string)
    ensures name in NamesOf(calls) <==> LinesOf(calls, name) != []
  {
    if calls != [] {
      var front := calls[..|calls| - 1];
      Uncalled(front, name);
      assert NamesOf(calls) == NamesOf(front) + [calls[|calls| - 1].name];
    }
  }

  /** The calls of one line. */
  method FileLine(names: seq<string>, line: nat, keys: seq<string>, filed: map<string, seq<nat>>, ghost calls: seq<Call>)
    returns (keys': seq<string>, filed': map<string, seq<nat>>)
    requires Filed(keys, filed, calls)
    ensures Filed(keys', filed', calls + At(names, line))
  {
    keys', filed' := keys, filed;
    assert calls + At(names[..0], line) == calls;
    for j := 0 to |names|
      invariant Filed(keys', filed', calls + At(names[..j], line))
    {
      var name := names[j];
      FileOne(keys', filed', calls + At(names[..j], line), Call(name, line));
      NextCall(calls, names, j, line);
      keys' := if name in filed' then keys' else keys' + [name];
      filed' := filed'[name := (if name in filed' then filed'[name] else []) + [line]];
    }
    assert names[..|names|] == names;
  }

  method FileCalls(cleaned: seq<string>, steps: string -> seq<string>)
    returns (keys: seq<string>, filed: map<string, seq<nat>>)
    ensures Filed(keys, filed, Calls(cleaned, steps))
  {
    keys, filed := [], map[];
    for i := 0 to |cleaned|
      invariant Filed(keys, filed, Calls(cleaned[..i], steps))
    {
      keys, filed := FileLine(steps(cleaned[i]), i + 1, keys, filed, Calls(cleaned[..i], steps));
      assert cleaned[..i + 1][..i] == cleaned[..i];
    }
    assert cleaned[..|cleaned|] == cleaned;
  }

  // ---------------------------------------------------------------- what the filed lines are

  predicate AllCalling(ls: seq<nat>, lines: seq<string>, steps: string -> seq<string>, name: string) {
    forall i :: 0 <= i < |ls| ==> 1 <= ls[i] <= |lines| && name in steps(lines[ls[i] - 1])
  }

  lemma {:induction false} CallLines(lines: seq<string>, steps: string -> seq<string>, name: string)
    ensures AllCalling(LinesOf(Calls(lines, steps), name), lines, steps, name)
    decreases |lines|
  {
    if lines != [] {
      var front, names := lines[..|lines| - 1], steps(lines[|lines| - 1]);
      CallLines(front, steps, name);
      LinesConcat(Calls(front, steps), At(names, |lines|), name);
      LinesAt(names, |lines|, name);
      var ls, more := LinesOf(Calls(front, steps), name), LinesOf(At(names, |lines|), name);
      assert forall i :: 0 <= i < |ls| ==> lines[ls[i] - 1] == front[ls[i] - 1];
      assert AllCalling(ls, lines, steps, name) && AllCalling(more, lines, steps, name);
    }
  }

  lemma {:induction false} CallsAscend(lines: seq<string>, steps: string -> seq<string>, name: string)
    ensures Ascending(LinesOf(Calls(lines, steps), name))
    decreases |lines|
  {
    if lines != [] {
      var front, names := lines[..|lines| - 1], steps(lines[|lines| - 1]);
      CallsAscend(front, steps, name);
      CallLines(front, steps, name);
      LinesConcat(Calls(front, steps), At(names, |lines|), name);
      LinesAt(names, |lines|, name);
      var ls, more := LinesOf(Calls(front, steps), name), LinesOf(At(names, |lines|), name);
      assert forall i :: 0 <= i < |ls| ==> ls[i] <= |front|;
      assert Ascending(ls + more);
    }
  }

  /** The calls are exactly those of the lines, numbered from one; and a name's lines are those of its calls. */
  lemma CallsExact(lines: seq<string>, steps: string -> seq<string>, name: string)
    ensures forall line :: line in LinesOf(Calls(lines, steps), name) <==> 1 <= line <= |lines| && name in steps(lines[line - 1])
    ensures name in NamesOf(Calls(lines, steps)) <==> exists k :: 0 <= k < |lines| && name in steps(lines[k])
  {
    CallLines(lines, steps, name);
    Uncalled(Calls(lines, steps), name);
    var ls := LinesOf(Calls(lines, steps), name);
    forall k | 0 <= k < |lines| && name in steps(lines[k])
      ensures k + 1 in ls
    {
      AllCalls(lines, steps, name, k);
    }
    forall line | line in ls
      ensures 1 <= line <= |lines| && name in steps(lines[line - 1])
    {
      var i :| 0 <= i < |ls| && ls[i] == line;
    }
    forall line: nat | 1 <= line <= |lines| && name in steps(lines[line - 1])
      ensures line in ls
    {
      AllCalls(lines, steps, name, line - 1);
    }
    if ls != [] {
      assert ls[0] in ls;
    }
  }

  predicate Ascending(ls: seq<nat>) {
    forall i, j :: 0 <= i < j < |ls| ==> ls[i] <= ls[j]
  }

  lemma {:induction false} AllCalls(lines: seq<string>, steps: string -> seq<string>, name: string, k: nat)
    requires k < |lines| && name in steps(lines[k])
    ensures k + 1 in LinesOf(Calls(lines, steps), name)
    decreases |lines|
  {
    var front, names := lines[..|lines| - 1], steps(lines[|lines| - 1]);
    LinesConcat(Calls(front, steps), At(names, |lines|), name);
    LinesAt(names, |lines|, name);
    if k < |front| {
      AllCalls(front, steps, name, k);
    } else {
      assert LinesOf(At(names, |lines|), name)[0] == |lines|;
    }
  }

  lemma {:induction false} LinesConcat(a: seq<Call>, b: seq<Call>, name: string)
    ensures LinesOf(a + b, name) == LinesOf(a, name) + LinesOf(b, name)
    decreases |b|
  {
    if b == [] {
      assert a + b == a;
    } else {
      assert (a + b)[..|a + b| - 1] == a + b[..|b| - 1];
      LinesConcat(a, b[..|b| - 1], name);
    }
  }

  lemma {:induction false} LinesAt(names: seq<string>, line: nat, name: string)
    ensures forall i :: 0 <= i < |LinesOf(At(names, line), name)| ==> LinesOf(At(names, line), name)[i] == line
    ensures name in names <==> LinesOf(At(names, line), name) != []
    decreases |names|
  {
    if names != [] {
      AtAppend(names, |names| - 1, line);
      assert names[..|names| - 1 + 1] == names;
      LinesAt(names[..|names| - 1], line, name);
      CallAppend(At(names[..|names| - 1], line), Call(names[|names| - 1], line), name);
    }
  }

  /** The first line filed under a name is the least line that calls it. */
  lemma FirstCall(lines: seq<string>, steps: string -> seq<string>, name: string)
    requires name in NamesOf(Calls(lines, steps))
    ensures var ls := LinesOf(Calls(lines, steps), name);
      ls != [] && 1 <= ls[0] <= |lines| && name in steps(lines[ls[0] - 1]) &&
      forall k :: 0 <= k < ls[0] - 1 ==> name !in steps(lines[k])
  {
    Uncalled(Calls(lines, steps), name);
    CallLines(lines, steps, name);
    CallsAscend(lines, steps, name);
    var ls := LinesOf(Calls(lines, steps), name);
    forall k | 0 <= k < |lines| && name in steps(lines[k])
      ensures ls[0] <= k + 1
    {
      AllCalls(lines, steps, name, k);
      var i :| 0 <= i < |ls| && ls[i] == k + 1;
    }
  }
}
