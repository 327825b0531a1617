/** The rule loop and the report of the migration analyzer
    (tools/migration-analyzer/src/migration_analyzer/analyzer.py, model.py); a rule's pattern is any predicate. */
module Analyzer {
  import opened Wrappers
  import opened Comments
  import opened Scanner
  import opened Sorting

  datatype Category = Auto | Review | Manual | Drop

  datatype Finding = Finding(rule: string, category: Category, line: nat, snippet: string, detail: string)

  /** `matches` is the pattern's search: the detail it captures, "" for none. */
  datatype Rule = Rule(id: string, matches: string -> Option<string>, category: Category, once: bool)

  datatype Table = Table(rules: seq<Rule>, known: set<string>, plugins: set<string>, strip: string -> string)

  /** Cleaned lines, and the original lines the snippets are taken from. */
  datatype Text = Text(lines: seq<string>, original: seq<string>)
  {
    predicate Aligned() {
      |lines| == |original|
    }
  }

  const LIBRARY_STEP := "shared-library-step"

  // ---------------------------------------------------------------- findings as the loops make them

  function FindingAt(r: Rule, s: Text, strip: string -> string, i: nat): Finding
    requires s.Aligned() && i < |s.lines| && r.matches(s.lines[i]).Some?
  {
    Finding(r.id, r.category, i + 1, strip(s.original[i]), r.matches(s.lines[i]).value)
  }

  /** The findings of one rule on the first `n` lines. */
  function ByRule(r: Rule, s: Text, strip: string -> string, n: nat): seq<Finding>
    requires s.Aligned() && n <= |s.lines|
  {
    if n == 0 then []
    else
      var before := ByRule(r, s, strip, n - 1);
      if r.matches(s.lines[n - 1]).None? || (r.once && before != []) then before
      else before + [FindingAt(r, s, strip, n - 1)]
  }

  function ByRules(rules: seq<Rule>, s: Text, strip: string -> string): seq<Finding>
    requires s.Aligned()
  {
    if rules == [] then []
    else ByRules(rules[..|rules| - 1], s, strip) + ByRule(rules[|rules| - 1], s, strip, |s.lines|)
  }

  predicate StartsUpper(name: string) {
    name != "" && 'A' <= name[0] <= 'Z'
  }

  /** Neither built in nor from a plugin, not defined in the file, and not a class. */
  predicate FromLibrary(name: string, known: set<string>, defs: set<string>) {
    name !in known && name !in defs && !StartsUpper(name)
  }

  function LibraryOnly(known: set<string>, defs: set<string>): string -> bool {
    name => FromLibrary(name, known, defs)
  }

  function PluginOnly(plugins: set<string>): string -> bool {
    name => name in plugins
  }

  function Kept(names: seq<string>, keep: string -> bool): seq<string> {
    if names == [] then []
    else Kept(names[..|names| - 1], keep) + if keep(names[|names| - 1]) then [names[|names| - 1]] else []
  }

  function StepFinding(name: string, line: nat, s: Text, strip: string -> string): Finding
    requires s.Aligned() && 1 <= line <= |s.lines|
  {
    Finding(LIBRARY_STEP, Manual, line, strip(s.original[line - 1]), name)
  }

  /** Where a library step is first called. */
  function FirstLine(s: Text, steps: string -> seq<string>, name: string): (line: nat)
    requires name in NamesOf(Calls(s.lines, steps))
    ensures 1 <= line <= |s.lines| && name in steps(s.lines[line - 1])
    ensures forall k :: 0 <= k < line - 1 ==> name !in steps(s.lines[k])
  {
    FirstCall(s.lines, steps, name);
    LinesOf(Calls(s.lines, steps), name)[0]
  }

  predicate AllCalled(names: seq<string>, s: Text, steps: string -> seq<string>) {
    forall i :: 0 <= i < |names| ==> names[i] in NamesOf(Calls(s.lines, steps))
  }

  function StepFindings(names: seq<string>, s: Text, steps: string -> seq<string>, strip: string -> string): seq<Finding>
    requires s.Aligned() && AllCalled(names, s, steps)
  {
    if names == [] then []
    else
      var last := names[|names| - 1];
      StepFindings(names[..|names| - 1], s, steps, strip) + [StepFinding(last, FirstLine(s, steps, last), s, strip)]
  }

  /** The sort key. */
  predicate FindingLe(f: Finding, g: Finding) {
    f.line < g.line || (f.line == g.line && StrLe(f.rule, g.rule))
  }

  lemma FindingsOrdered()
    ensures TotalPreorder(FindingLe)
  {
    StringsOrdered();
    assert forall a: string, b: string :: StrLe(a, b) || StrLe(b, a);
    forall a: Finding, b: Finding, c: Finding | FindingLe(a, b) && FindingLe(b, c)
      ensures FindingLe(a, c)
    {
      assert StrLe(a.rule, b.rule) && StrLe(b.rule, c.rule) ==> StrLe(a.rule, c.rule);
    }
  }

  // ---------------------------------------------------------------- the analysis

  lemma {:induction false} OnceDone(r: Rule, s: Text, strip: string -> string, i: nat, n: nat)
    requires s.Aligned() && i <= n <= |s.lines| && r.once && ByRule(r, s, strip, i) != []
    ensures ByRule(r, s, strip, n) == ByRule(r, s, strip, i)
    decreases n
  {
    if i < n {
      OnceDone(r, s, strip, i, n - 1);
    }
  }

  /** The inner loop, which a rule that reports once leaves at its first match. */
  method ApplyRule(r: Rule, s: Text, strip: string -> string) returns (found: seq<Finding>)
    requires s.Aligned()
    ensures found == ByRule(r, s, strip, |s.lines|)
  {
    found := [];
    for i := 0 to |s.lines|
      invariant found == ByRule(r, s, strip, i) && (r.once ==> found == [])
    {
      var m := r.matches(s.lines[i]);
      if m.Some? {
        found := found + [Finding(r.id, r.category, i + 1, strip(s.original[i]), m.value)];
        if r.once {
          OnceDone(r, s, strip, i + 1, |s.lines|);
          break;
        }
      }
    }
  }

  class Report {
    var findings: seq<Finding>
    var lines: nat
    var credentialIds: seq<string>
    var sharedLibrarySteps: seq<string>
    var pluginSteps: seq<string>

    constructor ()
      ensures findings == [] && lines == 0
    {
      findings, lines, credentialIds, sharedLibrarySteps, pluginSteps := [], 0, [], [], [];
    }

    /** `count` */
    method Count(c: Category) returns (n: nat)
      ensures n == Tally(findings, c)
    {
      n := 0;
      for i := 0 to |findings|
        invariant n == Tally(findings[..i], c)
      {
        assert findings[..i + 1][..i] == findings[..i];
        if findings[i].category == c {
          n := n + 1;
        }
      }
      assert findings[..|findings|] == findings;
    }

    /** `summary`: a count for each category; together they account for every finding. */
    method Summary() returns (counts: map<Category, nat>)
      ensures counts.Keys == {Auto, Review, Manual, Drop}
      ensures forall c :: c in counts ==> counts[c] == Tally(findings, c)
      ensures counts[Auto] + counts[Review] + counts[Manual] + counts[Drop] == |findings|
    {
      var auto := Count(Auto);
      var review := Count(Review);
      var manual := Count(Manual);
      var drop := Count(Drop);
      CountsAddUp(findings);
      counts := map[Auto := auto, Review := review, Manual := manual, Drop := drop];
    }
  }

  /** The file as the rules see it. */
  function Scan(text: string): (s: Text)
    ensures s.Aligned()
  {
    LineAlignment(text);
    Text(Lines(StripComments(text)), Lines(text))
  }

  function LibrarySteps(text: string, patterns: Patterns, table: Table): seq<string> {
    var s := Scan(text);
    StableSort(StrLe, Kept(Distinct(NamesOf(Calls(s.lines, patterns.steps))),
                           LibraryOnly(table.known, patterns.defs(Join(s.lines)))))
  }

  lemma {:induction false} KeptMembers(names: seq<string>, keep: string -> bool)
    ensures forall x :: x in Kept(names, keep) <==> x in names && keep(x)
    decreases |names|
  {
    if names != [] {
      KeptMembers(names[..|names| - 1], keep);
      assert names == names[..|names| - 1] + [names[|names| - 1]];
    }
  }

  /** No element is listed twice. */
  ghost predicate Once<T>(xs: seq<T>) {
    forall i, j :: 0 <= i < j < |xs| ==> xs[i] != xs[j]
  }

  lemma {:induction false} KeptOnce(names: seq<string>, keep: string -> bool)
    requires Once(names)
    ensures Once(Kept(names, keep))
    decreases |names|
  {
    if names != [] {
      KeptOnce(names[..|names| - 1], keep);
      KeptMembers(names[..|names| - 1], keep);
    }
  }

  lemma {:induction false} OnceCounts<T>(xs: seq<T>)
    ensures Once(xs) <==> forall x :: multiset(xs)[x] <= 1
    decreases |xs|
  {
    if xs != [] {
      var front, last := xs[..|xs| - 1], xs[|xs| - 1];
      OnceCounts(front);
      assert xs == front + [last];
      assert multiset(xs) == multiset(front) + multiset{last};
      assert multiset(xs)[last] == multiset(front)[last] + 1;
      assert last in front <==> multiset(front)[last] > 0;
      if Once(xs) {
        assert Once(front) && last !in front;
      } else if Once(front) {
        var i, j :| 0 <= i < j < |xs| && xs[i] == xs[j];
        assert j == |front| && front[i] == last;
      } else {
        var x :| multiset(front)[x] > 1;
        assert multiset(xs)[x] > 1;
      }
    }
  }

  lemma SortedOnce(xs: seq<string>)
    requires Once(xs)
    ensures Once(StableSort(StrLe, xs))
  {
    StringsOrdered();
    StableSortSorts(StrLe, xs);
    OnceCounts(xs);
    OnceCounts(StableSort(StrLe, xs));
  }

  /** The library steps are exactly the called names that qualify, each once, in ascending order. */
  lemma LibraryStepsExact(text: string, patterns: Patterns, table: Table)
    ensures Sorted(StrLe, LibrarySteps(text, patterns, table)) && Once(LibrarySteps(text, patterns, table))
    ensures forall name :: name in LibrarySteps(text, patterns, table) <==>
      (name in NamesOf(Calls(Scan(text).lines, patterns.steps)) && name !in table.known &&
       name !in patterns.defs(Join(Scan(text).lines)) && !(name != "" && 'A' <= name[0] <= 'Z'))
  {
    var s := Scan(text);
    var names := Distinct(NamesOf(Calls(s.lines, patterns.steps)));
    var keep := LibraryOnly(table.known, patterns.defs(Join(s.lines)));
    KeptMembers(names, keep);
    KeptOnce(names, keep);
    SortedOnce(Kept(names, keep));
    StringsOrdered();
    StableSortSorts(StrLe, Kept(names, keep));
    SameMembers(StableSort(StrLe, Kept(names, keep)), Kept(names, keep));
  }

  lemma SameMembers<T>(xs: seq<T>, ys: seq<T>)
    requires multiset(xs) == multiset(ys)
    ensures |xs| == |ys|
    ensures forall x :: x in xs <==> x in ys
  {
    assert |multiset(xs)| == |xs| && |multiset(ys)| == |ys|;
    forall x
      ensures x in xs <==> x in ys
    {
      assert x in xs <==> x in multiset(xs);
      assert x in ys <==> x in multiset(ys);
    }
  }

  /** Everything found, in the order it is found. */
  function Found(text: string, patterns: Patterns, table: Table): seq<Finding> {
    var s := Scan(text);
    LibraryStepsExact(text, patterns, table);
    ByRules(table.rules, s, table.strip) +
    StepFindings(LibrarySteps(text, patterns, table), s, patterns.steps, table.strip)
  }

  /** The rule loop. */
  method ApplyRules(rules: seq<Rule>, s: Text, strip: string -> string) returns (findings: seq<Finding>)
    requires s.Aligned()
    ensures findings == ByRules(rules, s, strip)
  {
    findings := [];
    for k := 0 to |rules|
      invariant findings == ByRules(rules[..k], s, strip)
    {
      var found := ApplyRule(rules[k], s, strip);
      findings := findings + found;
      assert rules[..k + 1][..k] == rules[..k];
    }
    assert rules[..|rules|] == rules;
  }

  lemma FiledFirst(keys: seq<string>, filed: map<string, seq<nat>>, s: Text, steps: string -> seq<string>, name: string)
    requires Filed(keys, filed, Calls(s.lines, steps)) && name in NamesOf(Calls(s.lines, steps))
    ensures name in filed && filed[name] != [] && filed[name][0] == FirstLine(s, steps, name)
  {
    FirstCall(s.lines, steps, name);
  }

  lemma NextStep(names: seq<string>, i: nat, s: Text, steps: string -> seq<string>, strip: string -> string)
    requires s.Aligned() && i < |names| && AllCalled(names, s, steps)
    ensures AllCalled(names[..i], s, steps) && AllCalled(names[..i + 1], s, steps)
    ensures StepFindings(names[..i + 1], s, steps, strip) ==
      StepFindings(names[..i], s, steps, strip) + [StepFinding(names[i], FirstLine(s, steps, names[i]), s, strip)]
  {
    assert names[..i + 1][..i] == names[..i];
  }

  /** The loop over the library steps, with the filed calls. */
  method ReportSteps(names: seq<string>, s: Text, steps: string -> seq<string>, ghost keys: seq<string>,
                     stepCalls: map<string, seq<nat>>, strip: string -> string)
    returns (findings: seq<Finding>)
    requires s.Aligned() && AllCalled(names, s, steps)
    requires Filed(keys, stepCalls, Calls(s.lines, steps))
    ensures findings == StepFindings(names, s, steps, strip)
  {
    findings := [];
    for i := 0 to |names|
      invariant AllCalled(names[..i], s, steps)
      invariant findings == StepFindings(names[..i], s, steps, strip)
    {
      var name := names[i];
      FiledFirst(keys, stepCalls, s, steps, name);
      NextStep(names, i, s, steps, strip);
      var first := stepCalls[name][0];
      findings := findings + [Finding(LIBRARY_STEP, Manual, first, strip(s.original[first - 1]), name)];
    }
    assert names[..|names|] == names;
  }

  function PluginSteps(text: string, patterns: Patterns, table: Table): seq<string> {
    StableSort(StrLe, Kept(Distinct(NamesOf(Calls(Scan(text).lines, patterns.steps))), PluginOnly(table.plugins)))
  }

  /** The plugin steps are exactly the called names a plugin provides, each once, in ascending order. */
  lemma PluginStepsExact(text: string, patterns: Patterns, table: Table)
    ensures Sorted(StrLe, PluginSteps(text, patterns, table)) && Once(PluginSteps(text, patterns, table))
    ensures forall name :: name in PluginSteps(text, patterns, table) <==>
      (name in table.plugins && name in NamesOf(Calls(Scan(text).lines, patterns.steps)))
  {
    var names := Distinct(NamesOf(Calls(Scan(text).lines, patterns.steps)));
    var keep := PluginOnly(table.plugins);
    KeptMembers(names, keep);
    KeptOnce(names, keep);
    SortedOnce(Kept(names, keep));
    StringsOrdered();
    StableSortSorts(StrLe, Kept(names, keep));
    SameMembers(StableSort(StrLe, Kept(names, keep)), Kept(names, keep));
  }

  /** The sorted names and findings that a scanned file gives. */
  method Examine(text: string, patterns: Patterns, table: Table, s: Text, names: seq<string>,
                 stepCalls: map<string, seq<nat>>, defs: set<string>)
    returns (findings: seq<Finding>, librarySteps: seq<string>, pluginSteps: seq<string>)
    requires s == Scan(text) && Filed(names, stepCalls, Calls(s.lines, patterns.steps)) && defs == patterns.defs(Join(s.lines))
    ensures findings == Found(text, patterns, table)
    ensures librarySteps == LibrarySteps(text, patterns, table) && pluginSteps == PluginSteps(text, patterns, table)
  {
    var byRules := ApplyRules(table.rules, s, table.strip);
    librarySteps := StableSort(StrLe, Kept(names, LibraryOnly(table.known, defs)));
    LibraryStepsExact(text, patterns, table);
    var steps := ReportSteps(librarySteps, s, patterns.steps, names, stepCalls, table.strip);
    pluginSteps := StableSort(StrLe, Kept(names, PluginOnly(table.plugins)));
    findings := byRules + steps;
  }

  /** `analyze_text`. */
  method AnalyzeText(text: string, patterns: Patterns, table: Table) returns (report: Report)
    ensures fresh(report)
    ensures report.lines == |Lines(text)|
    ensures report.findings == StableSort(FindingLe, Found(text, patterns, table))
    ensures report.sharedLibrarySteps == LibrarySteps(text, patterns, table)
    ensures report.pluginSteps == PluginSteps(text, patterns, table)
  {
    var scanned := new Scanned(text, patterns);
    var s := Text(scanned.lines, scanned.originalLines);
    var findings, librarySteps, pluginSteps :=
      Examine(text, patterns, table, s, scanned.stepNames, scanned.stepCalls, scanned.localDefs);
    report := new Report();
    report.lines, report.credentialIds := |s.lines|, scanned.credentialIds;
    report.sharedLibrarySteps, report.pluginSteps := librarySteps, pluginSteps;
    report.findings := StableSort(FindingLe, findings);
  }

  // ---------------------------------------------------------------- what is found

  /** The rule reports line `i`: it matches there, and nowhere before if it reports once. */
  predicate Reports(r: Rule, s: Text, i: nat) {
    i < |s.lines| && r.matches(s.lines[i]).Some? &&
    (r.once ==> forall j :: 0 <= j < i ==> r.matches(s.lines[j]).None?)
  }

  ghost predicate RuleFinding(f: Finding, r: Rule, s: Text, strip: string -> string, n: nat)
    requires s.Aligned() && n <= |s.lines|
  {
    exists i :: 0 <= i < n && Reports(r, s, i) &&
      f == Finding(r.id, r.category, i + 1, strip(s.original[i]), r.matches(s.lines[i]).value)
  }

  lemma {:induction false} ByRuleEmpty(r: Rule, s: Text, strip: string -> string, n: nat)
    requires s.Aligned() && n <= |s.lines|
    ensures ByRule(r, s, strip, n) == [] <==> forall j :: 0 <= j < n ==> r.matches(s.lines[j]).None?
  {
    if n > 0 {
      ByRuleEmpty(r, s, strip, n - 1);
    }
  }

  /** One finding for each line the rule reports, in line order. */
  lemma {:induction false} ByRuleExact(r: Rule, s: Text, strip: string -> string, n: nat)
    requires s.Aligned() && n <= |s.lines|
    ensures forall f :: f in ByRule(r, s, strip, n) <==> RuleFinding(f, r, s, strip, n)
  {
    if n > 0 {
      ByRuleExact(r, s, strip, n - 1);
      ByRuleEmpty(r, s, strip, n - 1);
      forall f
        ensures f in ByRule(r, s, strip, n) <==> RuleFinding(f, r, s, strip, n)
      {
        assert RuleFinding(f, r, s, strip, n - 1) ==> RuleFinding(f, r, s, strip, n);
        if Reports(r, s, n - 1) {
          assert f == FindingAt(r, s, strip, n - 1) ==> RuleFinding(f, r, s, strip, n);
        }
      }
    }
  }

  /** No line is reported twice by one rule. */
  lemma {:induction false} ByRuleAscends(r: Rule, s: Text, strip: string -> string, n: nat)
    requires s.Aligned() && n <= |s.lines|
    ensures forall i :: 0 <= i < |ByRule(r, s, strip, n)| ==> ByRule(r, s, strip, n)[i].line <= n
    ensures forall i, j :: 0 <= i < j < |ByRule(r, s, strip, n)| ==>
      ByRule(r, s, strip, n)[i].line < ByRule(r, s, strip, n)[j].line
  {
    if n > 0 {
      ByRuleAscends(r, s, strip, n - 1);
    }
  }

  lemma {:induction false} ByRulesExact(rules: seq<Rule>, s: Text, strip: string -> string)
    requires s.Aligned()
    ensures forall f :: f in ByRules(rules, s, strip) <==>
      exists k :: 0 <= k < |rules| && RuleFinding(f, rules[k], s, strip, |s.lines|)
    decreases |rules|
  {
    if rules != [] {
      var front, last := rules[..|rules| - 1], rules[|rules| - 1];
      ByRulesExact(front, s, strip);
      ByRuleExact(last, s, strip, |s.lines|);
      forall f
        ensures f in ByRules(rules, s, strip) <==>
          exists k :: 0 <= k < |rules| && RuleFinding(f, rules[k], s, strip, |s.lines|)
      {
        if f in ByRules(front, s, strip) {
          var k :| 0 <= k < |front| && RuleFinding(f, front[k], s, strip, |s.lines|);
          assert rules[k] == front[k];
        }
        if k :| 0 <= k < |rules| && RuleFinding(f, rules[k], s, strip, |s.lines|) {
          assert k < |front| ==> front[k] == rules[k];
        }
      }
    }
  }

  lemma {:induction false} StepFindingsExact(names: seq<string>, s: Text, steps: string -> seq<string>, strip: string -> string)
    requires s.Aligned() && AllCalled(names, s, steps)
    ensures |StepFindings(names, s, steps, strip)| == |names|
    ensures forall i :: 0 <= i < |names| ==>
      StepFindings(names, s, steps, strip)[i] == StepFinding(names[i], FirstLine(s, steps, names[i]), s, strip)
    decreases |names|
  {
    if names != [] {
      StepFindingsExact(names[..|names| - 1], s, steps, strip);
    }
  }

  ghost predicate IsStepFinding(f: Finding, text: string, patterns: Patterns, table: Table) {
    var s := Scan(text);
    f.detail in NamesOf(Calls(s.lines, patterns.steps)) && f.detail !in table.known &&
    f.detail !in patterns.defs(Join(s.lines)) && !(f.detail != "" && 'A' <= f.detail[0] <= 'Z') &&
    1 <= f.line <= |s.lines| && f.detail in patterns.steps(s.lines[f.line - 1]) &&
    (forall k :: 0 <= k < f.line - 1 ==> f.detail !in patterns.steps(s.lines[k])) &&
    f == Finding("shared-library-step", Manual, f.line, table.strip(s.original[f.line - 1]), f.detail)
  }

  ghost predicate IsRuleFinding(f: Finding, text: string, table: Table) {
    exists k :: 0 <= k < |table.rules| && RuleFinding(f, table.rules[k], Scan(text), table.strip, |Scan(text).lines|)
  }

  /** There is but one first line. */
  lemma SameFirstLine(s: Text, steps: string -> seq<string>, name: string, line: nat)
    requires name in NamesOf(Calls(s.lines, steps)) && 1 <= line <= |s.lines| && name in steps(s.lines[line - 1])
    requires forall k :: 0 <= k < line - 1 ==> name !in steps(s.lines[k])
    ensures line == FirstLine(s, steps, name)
  {
    var first := FirstLine(s, steps, name);
    assert !(line < first) && !(first < line);
  }

  /** What a library step's finding is. */
  lemma StepIsListed(f: Finding, text: string, patterns: Patterns, table: Table)
    ensures IsStepFinding(f, text, patterns, table) <==>
      f.detail in LibrarySteps(text, patterns, table) && f.detail in NamesOf(Calls(Scan(text).lines, patterns.steps)) &&
      f == StepFinding(f.detail, FirstLine(Scan(text), patterns.steps, f.detail), Scan(text), table.strip)
  {
    LibraryStepsExact(text, patterns, table);
    var s := Scan(text);
    if IsStepFinding(f, text, patterns, table) {
      SameFirstLine(s, patterns.steps, f.detail, f.line);
    } else if f.detail in NamesOf(Calls(s.lines, patterns.steps)) {
      var first := FirstLine(s, patterns.steps, f.detail);
    }
  }

  lemma StepsFound(text: string, patterns: Patterns, table: Table)
    requires AllCalled(LibrarySteps(text, patterns, table), Scan(text), patterns.steps)
    ensures var steps := StepFindings(LibrarySteps(text, patterns, table), Scan(text), patterns.steps, table.strip);
      |steps| == |LibrarySteps(text, patterns, table)| && Once(steps) &&
      forall f :: f in steps <==> IsStepFinding(f, text, patterns, table)
  {
    var s := Scan(text);
    var names := LibrarySteps(text, patterns, table);
    LibraryStepsExact(text, patterns, table);
    StepFindingsExact(names, s, patterns.steps, table.strip);
    var steps := StepFindings(names, s, patterns.steps, table.strip);
    assert forall i :: 0 <= i < |steps| ==> steps[i].detail == names[i];
    forall f
      ensures f in steps <==> IsStepFinding(f, text, patterns, table)
    {
      StepIsListed(f, text, patterns, table);
      if f in steps {
        var i :| 0 <= i < |steps| && steps[i] == f;
        assert names[i] in names;
      }
      if f.detail in names {
        var i :| 0 <= i < |names| && names[i] == f.detail;
        assert steps[i] in steps;
      }
    }
  }

  /** How often a finding is listed: as often as the rules report it, and once for a library step. */
  ghost function Times(f: Finding, text: string, patterns: Patterns, table: Table): nat {
    multiset(ByRules(table.rules, Scan(text), table.strip))[f] + if IsStepFinding(f, text, patterns, table) then 1 else 0
  }

  lemma AllFound(text: string, patterns: Patterns, table: Table)
    ensures |Found(text, patterns, table)| ==
      |ByRules(table.rules, Scan(text), table.strip)| + |LibrarySteps(text, patterns, table)|
    ensures forall f :: f in Found(text, patterns, table) <==>
      IsRuleFinding(f, text, table) || IsStepFinding(f, text, patterns, table)
    ensures forall f :: multiset(Found(text, patterns, table))[f] == Times(f, text, patterns, table)
  {
    LibraryStepsExact(text, patterns, table);
    ByRulesExact(table.rules, Scan(text), table.strip);
    StepsFound(text, patterns, table);
    var steps := StepFindings(LibrarySteps(text, patterns, table), Scan(text), patterns.steps, table.strip);
    OnceCounts(steps);
    assert forall f :: f in steps <==> multiset(steps)[f] > 0;
    assert multiset(Found(text, patterns, table)) ==
      multiset(ByRules(table.rules, Scan(text), table.strip)) + multiset(steps);
  }

  /** `f` may stand before `g`: by line, then by the text of the rule. */
  ghost predicate NotAfter(f: Finding, g: Finding) {
    f.line < g.line ||
    (f.line == g.line &&
     ((|f.rule| <= |g.rule| && f.rule == g.rule[..|f.rule|]) ||
      exists i :: 0 <= i < |f.rule| && i < |g.rule| && f.rule[..i] == g.rule[..i] && f.rule[i] < g.rule[i]))
  }

  /** Findings are exact: the report lists, by line and rule, a finding for each line each rule reports and exactly one
      for each library step, at its first call, and no other. */
  lemma FindingsExact(text: string, patterns: Patterns, table: Table)
    ensures var findings := StableSort(FindingLe, Found(text, patterns, table));
      (forall i, j :: 0 <= i < j < |findings| ==> NotAfter(findings[i], findings[j])) &&
      multiset(findings) == multiset(Found(text, patterns, table)) &&
      |findings| == |ByRules(table.rules, Scan(text), table.strip)| + |LibrarySteps(text, patterns, table)| &&
      (forall f :: f in findings <==> IsRuleFinding(f, text, table) || IsStepFinding(f, text, patterns, table)) &&
      forall f :: multiset(findings)[f] == Times(f, text, patterns, table)
  {
    var found := Found(text, patterns, table);
    FindingsOrdered();
    StableSortSorts(FindingLe, found);
    SameMembers(StableSort(FindingLe, found), found);
    AllFound(text, patterns, table);
    forall f: Finding, g: Finding
      ensures FindingLe(f, g) <==> NotAfter(f, g)
    {
      StrLeExact(f.rule, g.rule);
    }
  }

  // ---------------------------------------------------------------- the summary

  function Tally(findings: seq<Finding>, c: Category): nat {
    if findings == [] then 0
    else Tally(findings[..|findings| - 1], c) + if findings[|findings| - 1].category == c then 1 else 0
  }

  /** The four counts of the summary add up to the number of findings. */
  lemma {:induction false} CountsAddUp(findings: seq<Finding>)
    ensures Tally(findings, Auto) + Tally(findings, Review) + Tally(findings, Manual) + Tally(findings, Drop) == |findings|
    decreases |findings|
  {
    if findings != [] {
      CountsAddUp(findings[..|findings| - 1]);
    }
  }
}
