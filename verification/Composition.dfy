/** The bucket and its IAM policy in the ArtifactStore Composition (infra/crossplane/composition.yaml): two
    formats, one sequential and one indexed, that must name the same bucket. */
module Composition {
  import opened Json
  import opened Wrappers
  import opened Lens
  import opened Paths
  import opened GoFormat
  import opened Patches

  const ARN := "arn:aws:s3:::"

  const LIST_STATEMENT: seq<string> := [
    "{\"Version\":\"2012-10-17\",\"Statement\":[\n",
    " {\"Sid\":\"ListBucket\",\"Effect\":\"Allow\",",
    "\"Action\":[\"s3:ListBucket\",",
    "\"s3:GetBucketLocation\"],\n",
    "  \"Resource\":\"", ARN]

  const OBJECT_STATEMENT: seq<string> := [
    "\"},\n {\"Sid\":\"ObjectReadWrite\",",
    "\"Effect\":\"Allow\",\n  \"Action\":[",
    "\"s3:GetObject\",\"s3:PutObject\",",
    "\"s3:DeleteObject\",",
    "\"s3:AbortMultipartUpload\"],\n",
    "  \"Resource\":\"", ARN]

  const END: seq<string> := ["/*\"}]}\n"]

  const BUCKET_FMT := "%s-%s"
  const INDEXED_FMT := "%[1]s-%[2]s"

  function Joined(parts: seq<string>): string {
    if parts == [] then "" else parts[0] + Joined(parts[1..])
  }

  function PolicyFormat(): string {
    Joined(LIST_STATEMENT) + (INDEXED_FMT + (Joined(OBJECT_STATEMENT) + (INDEXED_FMT + Joined(END))))
  }

  /** The policy document for a bucket. */
  function PolicyFor(bucket: string): string {
    Joined(LIST_STATEMENT) + (bucket + (Joined(OBJECT_STATEMENT) + (bucket + Joined(END))))
  }

  lemma {:induction false} JoinedLast(parts: seq<string>)
    requires parts != []
    ensures Joined(parts) == Joined(parts[..|parts| - 1]) + parts[|parts| - 1]
    decreases |parts|
  {
    var n := |parts| - 1;
    if n == 0 {
      assert Joined(parts) == parts[0] + "";
    } else {
      JoinedLast(parts[1..]);
      assert parts[1..][..n - 1] == parts[..n][1..];
      ConcatAssoc(parts[0], Joined(parts[..n][1..]), parts[n]);
    }
  }

  lemma ConcatAssoc(a: string, b: string, c: string)
    ensures a + (b + c) == (a + b) + c
  {
  }

  lemma ArnsApart(a: string, arn: string, bucket: string, b: string, c: string)
    ensures (a + arn) + (bucket + ((b + arn) + (bucket + c))) == a + (arn + (bucket + (b + (arn + (bucket + c)))))
  {
    assert (b + arn) + (bucket + c) == b + (arn + (bucket + c));
    assert (a + arn) + (bucket + (b + (arn + (bucket + c)))) == a + (arn + (bucket + (b + (arn + (bucket + c)))));
  }

  /** The policy names the bucket by its ARN, in quotes, and again the objects below it. */
  lemma PolicyArns(bucket: string) returns (a: string, b: string, c: string)
    ensures PolicyFor(bucket) == a + ("arn:aws:s3:::" + (bucket + (b + ("arn:aws:s3:::" + (bucket + c)))))
    ensures a != "" && a[|a| - 1] == '"' && b != "" && b[0] == '"' && b[|b| - 1] == '"'
    ensures c == "/*\"}]}\n"
  {
    a := Joined(LIST_STATEMENT[..5]);
    b := Joined(OBJECT_STATEMENT[..6]);
    c := Joined(END);
    ListFront();
    ObjectFront();
    EndText();
    ArnsApart(a, "arn:aws:s3:::", bucket, b, c);
  }

  lemma ListFront()
    ensures Joined(LIST_STATEMENT) == Joined(LIST_STATEMENT[..5]) + "arn:aws:s3:::"
    ensures Joined(LIST_STATEMENT[..5]) != "" && Joined(LIST_STATEMENT[..5])[|Joined(LIST_STATEMENT[..5])| - 1] == '"'
  {
    var front := LIST_STATEMENT[..5];
    JoinedLast(LIST_STATEMENT);
    JoinedLast(front);
    assert front[4] == "  \"Resource\":\"";
  }

  lemma ObjectFront()
    ensures Joined(OBJECT_STATEMENT) == Joined(OBJECT_STATEMENT[..6]) + "arn:aws:s3:::"
    ensures Joined(OBJECT_STATEMENT[..6]) != "" && Joined(OBJECT_STATEMENT[..6])[0] == '"'
    ensures Joined(OBJECT_STATEMENT[..6])[|Joined(OBJECT_STATEMENT[..6])| - 1] == '"'
  {
    var front := OBJECT_STATEMENT[..6];
    JoinedLast(OBJECT_STATEMENT);
    JoinedLast(front);
    assert front[5] == "  \"Resource\":\"";
    assert front[0][0] == '"';
  }

  lemma EndText()
    ensures Joined(END) == "/*\"}]}\n"
  {
    assert Joined(END) == END[0] + "";
  }

  // ---------------------------------------------------------------- formatting

  /** Text a format copies as it is. */
  predicate IsText(s: string) {
    forall i :: 0 <= i < |s| ==> s[i] != '%' && s[i] != NUL
  }

  lemma {:induction false} JoinedText(parts: seq<string>)
    requires forall i :: 0 <= i < |parts| ==> IsText(parts[i])
    ensures IsText(Joined(parts))
    decreases |parts|
  {
    if parts != [] {
      assert forall i :: 0 <= i < |parts[1..]| ==> parts[1..][i] == parts[i + 1];
      JoinedText(parts[1..]);
      assert IsText(parts[0]);
    }
  }

  lemma PartsAreText()
    ensures IsText(Joined(LIST_STATEMENT)) && IsText(Joined(OBJECT_STATEMENT)) && IsText(Joined(END))
  {
    ListParts();
    ObjectParts();
    JoinedText(LIST_STATEMENT);
    JoinedText(OBJECT_STATEMENT);
    assert IsText(END[0]);
    JoinedText(END);
  }

  lemma ListParts()
    ensures forall i :: 0 <= i < |LIST_STATEMENT| ==> IsText(LIST_STATEMENT[i])
  {
    ListFormatEnds();
    ListBack();
  }

  lemma ListFormatEnds()
    ensures IsText(LIST_STATEMENT[0]) && IsText(LIST_STATEMENT[1]) && IsText(LIST_STATEMENT[2])
  {
  }

  lemma ListBack()
    ensures IsText(LIST_STATEMENT[3]) && IsText(LIST_STATEMENT[4]) && IsText(LIST_STATEMENT[5])
  {
  }

  lemma ObjectParts()
    ensures forall i :: 0 <= i < |OBJECT_STATEMENT| ==> IsText(OBJECT_STATEMENT[i])
  {
    ObjectFormatEnds();
    ObjectBack();
  }

  lemma ObjectFormatEnds()
    ensures IsText(OBJECT_STATEMENT[0]) && IsText(OBJECT_STATEMENT[1]) && IsText(OBJECT_STATEMENT[2]) && IsText(OBJECT_STATEMENT[3])
  {
  }

  lemma ObjectBack()
    ensures IsText(OBJECT_STATEMENT[4]) && IsText(OBJECT_STATEMENT[5]) && IsText(OBJECT_STATEMENT[6])
  {
  }

  lemma {:induction false} SprintfText(t: string, s: string, values: seq<string>, next: nat)
    requires IsText(t)
    ensures Sprintf(t + s, values, next) == Prefixed(t, Sprintf(s, values, next))
    decreases |t|
  {
    if t == "" {
      assert t + s == s;
      PrefixedEmpty(Sprintf(s, values, next));
    } else {
      assert (t + s)[1..] == t[1..] + s;
      SprintfText(t[1..], s, values, next);
      PrefixedTwice([t[0]], t[1..], Sprintf(s, values, next));
      assert [t[0]] + t[1..] == t;
    }
  }

  lemma SprintfIndexed(n: nat, s: string, values: seq<string>, next: nat)
    requires 1 <= n <= 9 && n <= |values|
    ensures Sprintf("%[" + [(n + '0' as int) as char] + "]s" + s, values, next) == Prefixed(values[n - 1], Sprintf(s, values, n))
  {
    var d := (n + '0' as int) as char;
    var t := "%[" + [d] + "]s" + s;
    assert t[2..][0] == d && t[2..][1] == ']' && t[2..][2] == 's';
    assert DigitRun(t[2..]) == 1;
    assert t[2..][..1] == [d] && [d][..0] == "";
    assert ToNat([d]) == n;
    assert MatchVerb(t) == Some(Verb(5, Some(n)));
    assert t[5..] == s;
  }

  lemma SprintfSequential(s: string, values: seq<string>, next: nat)
    requires next < |values|
    ensures Sprintf("%s" + s, values, next) == Prefixed(values[next], Sprintf(s, values, next + 1))
  {
    var t := "%s" + s;
    assert MatchVerb(t) == Some(Verb(2, None)) && t[2..] == s;
  }

  lemma IndexedSplit(s: string, second: string)
    requires second == "%[" + ['2'] + "]s" + s
    ensures INDEXED_FMT + s == "%[" + ['1'] + "]s" + ("-" + second)
  {
  }

  lemma IndexedPair(n: string, u: string, s: string, next: nat)
    ensures Sprintf(INDEXED_FMT + s, [n, u], next) == Prefixed(n + "-" + u, Sprintf(s, [n, u], 2))
  {
    var rest := Sprintf(s, [n, u], 2);
    var second := "%[" + ['2'] + "]s" + s;
    IndexedSplit(s, second);
    SprintfIndexed(1, "-" + second, [n, u], next);
    SprintfText("-", second, [n, u], 1);
    SprintfIndexed(2, s, [n, u], 1);
    PrefixedTwice("-", u, rest);
    PrefixedTwice(n, "-" + u, rest);
    assert n + ("-" + u) == n + "-" + u;
  }

  lemma BucketFormatted(n: string, u: string)
    requires NulFree(n) && NulFree(u)
    ensures Format(BUCKET_FMT, [n, u]) == Success(n + "-" + u)
  {
    var values := [n, u];
    assert BUCKET_FMT == "%s" + ("-" + ("%s" + ""));
    SprintfSequential("-" + ("%s" + ""), values, 0);
    SprintfText("-", "%s" + "", values, 1);
    SprintfSequential("", values, 1);
    assert n + ("-" + (u + "")) == n + "-" + u;
    UsedNulFree(BUCKET_FMT, values, 0);
    assert NulFree(BUCKET_FMT);
    FormatIsSprintf(BUCKET_FMT, values);
  }

  lemma PolicyPrinted(n: string, u: string)
    ensures Sprintf(PolicyFormat(), [n, u], 0) == Success(PolicyFor(n + "-" + u))
  {
    PartsAreText();
    var values := [n, u];
    var list, objects, end := Joined(LIST_STATEMENT), Joined(OBJECT_STATEMENT), Joined(END);
    var tail := INDEXED_FMT + end;
    var middle := INDEXED_FMT + (objects + tail);
    SprintfText(list, middle, values, 0);
    IndexedPair(n, u, objects + tail, 0);
    SprintfText(objects, tail, values, 2);
    IndexedPair(n, u, end, 2);
    SprintfText(end, "", values, 2);
    assert end + "" == end;
  }

  /** The two formats agree: the bucket's name, and the policy that names that bucket twice. */
  lemma FormatsAgree(n: string, u: string)
    requires NulFree(n) && NulFree(u)
    ensures Format(BUCKET_FMT, [n, u]) == Success(n + "-" + u)
    ensures Format(PolicyFormat(), [n, u]) == Success(PolicyFor(n + "-" + u))
  {
    BucketFormatted(n, u);
    PolicyPrinted(n, u);
    UsedNulFree(PolicyFormat(), [n, u], 0);
    PolicyNulFree();
    FormatIsSprintf(PolicyFormat(), [n, u]);
  }

  lemma PolicyNulFree()
    ensures NulFree(PolicyFormat())
  {
    PartsAreText();
    assert NulFree(INDEXED_FMT);
    assert NulFree(INDEXED_FMT + Joined(END));
    assert NulFree(Joined(OBJECT_STATEMENT) + (INDEXED_FMT + Joined(END)));
  }

  /** What a format uses are its arguments. */
  lemma {:induction false} UsedNulFree(s: string, values: seq<string>, next: nat)
    requires AllNulFree(values)
    ensures AllNulFree(Used(s, values, next))
    decreases |s|
  {
    if s != "" {
      if |s| >= 2 && s[0] == '%' && s[1] == '%' {
        UsedNulFree(s[2..], values, next);
      } else if MatchVerb(s).Some? {
        var verb := MatchVerb(s).value;
        var idx := Argument(verb, next);
        if Pick(values, idx).Success? {
          UsedNulFree(s[verb.length..], values, idx + 1);
          AllNulFreeCons(Pick(values, idx).value, Used(s[verb.length..], values, idx + 1));
        }
      } else {
        UsedNulFree(s[1..], values, next);
      }
    }
  }

  // ---------------------------------------------------------------- the rendered documents

  /** The fields the two resources use. Patches name them in print, so they must be printable; the component
      tag must not overlap the bucket's external name. */
  datatype Fields = Fields(name: Path, uid: Path, externalName: Path, policy: Path, component: Path, region: Path, target: Path)
  {
    function Region(): Patch { FromField(PrintPath(region), PrintPath(target), []) }
    function BucketName(): Patch { Combine([PrintPath(name), PrintPath(uid)], BUCKET_FMT, PrintPath(externalName)) }
    function Component(): Patch { FromField(PrintPath(name), PrintPath(component), []) }
    function Policy(): Patch { Combine([PrintPath(name), PrintPath(uid)], PolicyFormat(), PrintPath(policy)) }

    function Sets(): PatchSets {
      map["region" := [Region()], "bucket-name" := [BucketName()]]
    }

    /** The patch lists of the bucket and of the policy. */
    function BucketPatches(): seq<Patch> {
      [UsePatchSet("region"), UsePatchSet("bucket-name"), Component(), ToComposite, ToComposite]
    }

    function PolicyPatches(): seq<Patch> {
      [Component(), Policy()]
    }

    predicate Usable() {
      AllPrintable(name) && AllPrintable(uid) && AllPrintable(externalName) && AllPrintable(policy) && AllPrintable(component) &&
      AllPrintable(target) && AllNames(externalName) && AllNames(policy) && AllNames(component) && AllNames(target) &&
      externalName != [] && policy != [] && target != [] && Diverge(component, externalName) &&
      Diverge(externalName, component) && Diverge(target, externalName) && Diverge(target, component) && Diverge(component, policy)
    }
  }

  const RANK: map<string, nat> := map["region" := 0, "bucket-name" := 0]

  const EXTERNAL_NAME := Name("crossplane.io/external-name")

  /** The fields of the Composition. */
  const WRITTEN := Fields(
    [Name("metadata"), Name("name")],
    [Name("metadata"), Name("uid")],
    [Name("metadata"), Name("annotations"), EXTERNAL_NAME],
    [Name("spec"), Name("forProvider"), Name("policy")],
    [Name("spec"), Name("forProvider"), Name("tags"), Name("component")],
    [Name("spec"), Name("parameters"), Name("region")],
    [Name("spec"), Name("forProvider"), Name("region")])

  lemma ExternalNamePrintable()
    ensures Printable(EXTERNAL_NAME)
  {
  }

  lemma ThreePrintable(a: Seg, b: Seg, c: Seg)
    requires Printable(a) && Printable(b) && Printable(c)
    ensures AllPrintable([a, b]) && AllPrintable([a, b, c])
  {
  }

  lemma MetadataPrintable()
    ensures AllPrintable(WRITTEN.name) && AllPrintable(WRITTEN.uid) && AllPrintable(WRITTEN.externalName)
  {
    ExternalNamePrintable();
    ThreePrintable(Name("metadata"), Name("name"), Name("uid"));
    ThreePrintable(Name("metadata"), Name("uid"), Name("name"));
    ThreePrintable(Name("metadata"), Name("annotations"), EXTERNAL_NAME);
  }

  lemma SpecPrintable()
    ensures AllPrintable(WRITTEN.policy) && AllPrintable(WRITTEN.component) && AllPrintable(WRITTEN.target)
  {
    ThreePrintable(Name("spec"), Name("forProvider"), Name("policy"));
    ThreePrintable(Name("spec"), Name("forProvider"), Name("region"));
    assert AllPrintable(WRITTEN.component);
  }

  lemma MetadataAndSpecDiverge()
    ensures Diverge(WRITTEN.component, WRITTEN.externalName) && Diverge(WRITTEN.externalName, WRITTEN.component)
    ensures Diverge(WRITTEN.target, WRITTEN.externalName)
  {
    assert WRITTEN.component[0] == WRITTEN.target[0] == Name("spec") && WRITTEN.externalName[0] == Name("metadata");
    assert "spec"[0] != "metadata"[0];
  }

  lemma SpecFieldsDiverge()
    ensures Diverge(WRITTEN.target, WRITTEN.component) && Diverge(WRITTEN.component, WRITTEN.policy)
  {
    var region, tags, policy := WRITTEN.target[2], WRITTEN.component[2], WRITTEN.policy[2];
    assert region.name[0] == 'r' && tags.name[0] == 't' && policy.name[0] == 'p';
    ThirdDiverges(WRITTEN.target, WRITTEN.component);
    ThirdDiverges(WRITTEN.component, WRITTEN.policy);
  }

  lemma ThirdDiverges(p: Path, q: Path)
    requires |p| > 2 && |q| > 2 && p[2] != q[2]
    ensures Diverge(p, q)
  {
    assert p[1..][1..][0] == p[2] && q[1..][1..][0] == q[2];
    assert Diverge(p[1..][1..], q[1..][1..]);
    assert Diverge(p[1..], q[1..]);
  }

  lemma WrittenUsable()
    ensures WRITTEN.Usable()
  {
    MetadataPrintable();
    SpecPrintable();
    MetadataAndSpecDiverge();
    SpecFieldsDiverge();
  }

  /** The XR has a name and a uid, and `str` of a string is the string. */
  predicate Identified(f: Fields, py: PyStr, xr: Value, n: string, u: string) {
    Get(xr, f.name) == Str(n) && Get(xr, f.uid) == Str(u) && py(Str(n)) == n && py(Str(u)) == u && NulFree(n) && NulFree(u)
  }

  lemma NameEffects(f: Fields, py: PyStr, xr: Value, n: string, u: string)
    requires Identified(f, py, xr, n, u) && f.Usable()
    ensures EffectOf(py, xr, f.BucketName()) == Success(Write(f.externalName, Str(n + "-" + u)))
    ensures EffectOf(py, xr, f.Policy()) == Success(Write(f.policy, Str(PolicyFor(n + "-" + u))))
  {
    FormatsAgree(n, u);
    RoundTrip(f.name);
    RoundTrip(f.uid);
    RoundTrip(f.externalName);
    RoundTrip(f.policy);
    CombineEffect(py, xr, PrintPath(f.name), PrintPath(f.uid), BUCKET_FMT, PrintPath(f.externalName), n, u);
    CombineEffect(py, xr, PrintPath(f.name), PrintPath(f.uid), PolicyFormat(), PrintPath(f.policy), n, u);
  }

  lemma CombineEffect(py: PyStr, xr: Value, a: string, b: string, fmt: string, to: string, n: string, u: string)
    requires Get(xr, Segments(a)) == Str(n) && Get(xr, Segments(b)) == Str(u) && py(Str(n)) == n && py(Str(u)) == u
    requires Format(fmt, [n, u]).Success?
    ensures EffectOf(py, xr, Combine([a, b], fmt, to)) == Success(Write(Segments(to), Str(Format(fmt, [n, u]).value)))
  {
    TwoSources(py, xr, a, b, n, u);
    CombineFires(py, xr, [a, b], [Str(n), Str(u)], fmt, to);
  }

  lemma TwoSources(py: PyStr, xr: Value, a: string, b: string, n: string, u: string)
    requires Get(xr, Segments(a)) == Str(n) && Get(xr, Segments(b)) == Str(u) && py(Str(n)) == n && py(Str(u)) == u
    ensures Sources(xr, [a, b]) == [Str(n), Str(u)] && Texts(py, [Str(n), Str(u)]) == [n, u]
  {
    assert Sources(xr, [a, b]) == [Str(n), Str(u)];
    assert Texts(py, [Str(n), Str(u)]) == [n, u];
  }

  lemma CombineFires(py: PyStr, xr: Value, variables: seq<string>, values: seq<Value>, fmt: string, to: string)
    requires Sources(xr, variables) == values && Null !in values && Format(fmt, Texts(py, values)).Success?
    ensures EffectOf(py, xr, Combine(variables, fmt, to)) ==
      Success(Write(Segments(to), Str(Format(fmt, Texts(py, values)).value)))
  {
  }

  lemma SetsRanked(f: Fields)
    ensures Ranked(f.Sets(), RANK) && Below(f.BucketPatches(), f.Sets(), RANK, 1) && Below(f.PolicyPatches(), f.Sets(), RANK, 1)
  {
  }

  lemma BucketInlined(f: Fields)
    requires Ranked(f.Sets(), RANK) && Below(f.BucketPatches(), f.Sets(), RANK, 1)
    ensures Inline(f.BucketPatches(), f.Sets(), RANK, 1) == [f.Region()] + [f.BucketName()] + [f.Component(), ToComposite, ToComposite]
  {
    var p := f.BucketPatches();
    BelowTail(p, f.Sets(), RANK, 1);
    InlineSet(f, p, "region", f.Region());
    BelowTail(p[1..], f.Sets(), RANK, 1);
    InlineSet(f, p[1..], "bucket-name", f.BucketName());
    assert p[1..][1..] == [f.Component(), ToComposite, ToComposite];
    InlineDirect(f, [f.Component(), ToComposite, ToComposite], 1);
  }

  lemma InlineSet(f: Fields, patches: seq<Patch>, name: string, p: Patch)
    requires patches != [] && patches[0] == UsePatchSet(name) && name in f.Sets() && f.Sets()[name] == [p] && !p.UsePatchSet?
    requires Ranked(f.Sets(), RANK) && Below(patches, f.Sets(), RANK, 1) && Below(patches[1..], f.Sets(), RANK, 1)
    ensures Inline(patches, f.Sets(), RANK, 1) == [p] + Inline(patches[1..], f.Sets(), RANK, 1)
  {
    InlineDirect(f, [p], RANK[name]);
  }

  lemma {:induction false} InlineDirect(f: Fields, patches: seq<Patch>, n: nat)
    requires Ranked(f.Sets(), RANK) && forall i :: 0 <= i < |patches| ==> !patches[i].UsePatchSet?
    ensures Below(patches, f.Sets(), RANK, n) && Inline(patches, f.Sets(), RANK, n) == patches
    decreases |patches|
  {
    if patches != [] {
      InlineDirect(f, patches[1..], n);
    }
  }

  lemma ComponentElsewhere(f: Fields, py: PyStr, xr: Value)
    requires f.Usable()
    ensures Untouched(py, xr, [f.Component(), ToComposite, ToComposite], f.externalName)
  {
    RoundTrip(f.component);
  }

  /** The base is a dictionary wherever the bucket's, or the policy's, patches go through. */
  predicate BucketFits(f: Fields, base: Value) {
    Fits(base, f.target) && Fits(base, f.externalName) && Fits(base, f.component)
  }

  predicate PolicyFits(f: Fields, base: Value) {
    Fits(base, f.component) && Fits(base, f.policy)
  }

  /** The patch writes `dest`, if anything, and there is room for it. */
  predicate AimsAt(py: PyStr, xr: Value, base: Value, p: Patch, dest: Path) {
    EffectOf(py, xr, p).Success? && (EffectOf(py, xr, p).value.Write? ==> EffectOf(py, xr, p).value.path == dest) &&
    dest != [] && AllNames(dest) && Fits(base, dest)
  }

  lemma FieldAims(py: PyStr, xr: Value, base: Value, source: string, dest: Path)
    requires AllPrintable(dest) && dest != [] && AllNames(dest) && Fits(base, dest)
    ensures AimsAt(py, xr, base, FromField(source, PrintPath(dest), []), dest)
  {
    RoundTrip(dest);
  }

  lemma TwoApart(py: PyStr, xr: Value, base: Value, p: Patch, a: Path, q: Patch, b: Path)
    requires AimsAt(py, xr, base, p, a) && AimsAt(py, xr, base, q, b) && Diverge(a, b)
    ensures Fold(py, xr, base, [p, q]).Success?
  {
    NamesCompatible(a, b);
    FoldSucceeds(py, xr, base, [p, q]);
  }

  lemma ThreeApart(py: PyStr, xr: Value, base: Value, p: Patch, a: Path, q: Patch, b: Path, r: Patch, c: Path)
    requires AimsAt(py, xr, base, p, a) && AimsAt(py, xr, base, q, b) && AimsAt(py, xr, base, r, c)
    requires Diverge(a, b) && Diverge(a, c) && Diverge(b, c)
    ensures Fold(py, xr, base, [p] + [q] + [r, ToComposite, ToComposite]).Success?
  {
    NamesCompatible(a, b);
    NamesCompatible(a, c);
    NamesCompatible(b, c);
    var three := [p, q, r];
    assert Elsewhere(py, xr, p, q) && Elsewhere(py, xr, p, r) && Elsewhere(py, xr, q, r);
    FoldSucceeds(py, xr, base, three);
    SkipsAtEnd(py, xr, base, three);
    assert three + [ToComposite, ToComposite] == [p] + [q] + [r, ToComposite, ToComposite];
  }

  /** Patches to the XR change nothing in the document. */
  lemma SkipsAtEnd(py: PyStr, xr: Value, base: Value, patches: seq<Patch>)
    ensures Fold(py, xr, base, patches + [ToComposite, ToComposite]) == Fold(py, xr, base, patches)
  {
    SkippedPatch(py, xr, base, patches, ToComposite, []);
    SkippedPatch(py, xr, base, patches, ToComposite, [ToComposite]);
    assert patches + [ToComposite] + [ToComposite] == patches + [ToComposite, ToComposite];
    assert patches + [ToComposite] + [] == patches + [ToComposite] && patches + [] == patches;
  }

  lemma BucketRenders(f: Fields, py: PyStr, xr: Value, n: string, u: string, base: Value)
    requires Identified(f, py, xr, n, u) && f.Usable() && BucketFits(f, base)
    ensures Fold(py, xr, base, [f.Region()] + [f.BucketName()] + [f.Component(), ToComposite, ToComposite]).Success?
  {
    NameEffects(f, py, xr, n, u);
    FieldAims(py, xr, base, PrintPath(f.region), f.target);
    FieldAims(py, xr, base, PrintPath(f.name), f.component);
    ThreeApart(py, xr, base, f.Region(), f.target, f.BucketName(), f.externalName, f.Component(), f.component);
  }

  lemma PolicyRenders(f: Fields, py: PyStr, xr: Value, n: string, u: string, base: Value)
    requires Identified(f, py, xr, n, u) && f.Usable() && PolicyFits(f, base)
    ensures Fold(py, xr, base, f.PolicyPatches()).Success?
  {
    NameEffects(f, py, xr, n, u);
    FieldAims(py, xr, base, PrintPath(f.name), f.component);
    TwoApart(py, xr, base, f.Component(), f.component, f.Policy(), f.policy);
  }

  /** For every XR with a name and a uid: on bases that are dictionaries where the patches go through, both
      resources render; and whenever they do, the bucket's external name is name-uid and the policy is the one
      for that very bucket. */
  lemma CrossResourceAgreement(f: Fields, py: PyStr, xr: Value, n: string, u: string, bucket: Value, policy: Value)
    requires Identified(f, py, xr, n, u) && f.Usable()
    ensures Ranked(f.Sets(), RANK) && Below(f.BucketPatches(), f.Sets(), RANK, 1) && Below(f.PolicyPatches(), f.Sets(), RANK, 1)
    ensures var doc := Interpret(py, xr, bucket, f.BucketPatches(), f.Sets(), RANK, 1);
      (BucketFits(f, bucket) ==> doc.Success?) && (doc.Success? ==> Get(doc.value, f.externalName) == Str(n + "-" + u))
    ensures var doc := Interpret(py, xr, policy, f.PolicyPatches(), f.Sets(), RANK, 1);
      (PolicyFits(f, policy) ==> doc.Success?) && (doc.Success? ==> Get(doc.value, f.policy) == Str(PolicyFor(n + "-" + u)))
  {
    SetsRanked(f);
    BucketAgrees(f, py, xr, n, u, bucket);
    PolicyAgrees(f, py, xr, n, u, policy);
  }

  /** The shipped Composition: for every XR with a name and a uid, the external-name annotation of the rendered
      bucket and the policy field of the rendered policy name one bucket. */
  lemma ShippedAgreement(py: PyStr, xr: Value, n: string, u: string, bucket: Value, policy: Value)
    requires Get(xr, [Name("metadata"), Name("name")]) == Str(n) && Get(xr, [Name("metadata"), Name("uid")]) == Str(u)
    requires py(Str(n)) == n && py(Str(u)) == u && '\0' !in n && '\0' !in u
    ensures Ranked(WRITTEN.Sets(), RANK)
    ensures Below(WRITTEN.BucketPatches(), WRITTEN.Sets(), RANK, 1) && Below(WRITTEN.PolicyPatches(), WRITTEN.Sets(), RANK, 1)
    ensures var doc := Interpret(py, xr, bucket, WRITTEN.BucketPatches(), WRITTEN.Sets(), RANK, 1);
      (BucketFits(WRITTEN, bucket) ==> doc.Success?) &&
      (doc.Success? ==>
        Get(doc.value, [Name("metadata"), Name("annotations"), Name("crossplane.io/external-name")]) == Str(n + "-" + u))
    ensures var doc := Interpret(py, xr, policy, WRITTEN.PolicyPatches(), WRITTEN.Sets(), RANK, 1);
      (PolicyFits(WRITTEN, policy) ==> doc.Success?) &&
      (doc.Success? ==> Get(doc.value, [Name("spec"), Name("forProvider"), Name("policy")]) == Str(PolicyFor(n + "-" + u)))
  {
    WrittenUsable();
    CrossResourceAgreement(WRITTEN, py, xr, n, u, bucket, policy);
  }

  lemma BucketAgrees(f: Fields, py: PyStr, xr: Value, n: string, u: string, bucket: Value)
    requires Identified(f, py, xr, n, u) && f.Usable()
    requires Ranked(f.Sets(), RANK) && Below(f.BucketPatches(), f.Sets(), RANK, 1)
    ensures var doc := Interpret(py, xr, bucket, f.BucketPatches(), f.Sets(), RANK, 1);
      (BucketFits(f, bucket) ==> doc.Success?) && (doc.Success? ==> Get(doc.value, f.externalName) == Str(n + "-" + u))
  {
    NameEffects(f, py, xr, n, u);
    InterpretIsFold(py, xr, bucket, f.BucketPatches(), f.Sets(), RANK, 1);
    BucketInlined(f);
    ComponentElsewhere(f, py, xr);
    LastWrite(py, xr, bucket, [f.Region()], f.BucketName(), [f.Component(), ToComposite, ToComposite], f.externalName, Str(n + "-" + u));
    if BucketFits(f, bucket) {
      BucketRenders(f, py, xr, n, u, bucket);
    }
  }

  lemma PolicyAgrees(f: Fields, py: PyStr, xr: Value, n: string, u: string, policy: Value)
    requires Identified(f, py, xr, n, u) && f.Usable()
    requires Ranked(f.Sets(), RANK) && Below(f.PolicyPatches(), f.Sets(), RANK, 1)
    ensures var doc := Interpret(py, xr, policy, f.PolicyPatches(), f.Sets(), RANK, 1);
      (PolicyFits(f, policy) ==> doc.Success?) && (doc.Success? ==> Get(doc.value, f.policy) == Str(PolicyFor(n + "-" + u)))
  {
    NameEffects(f, py, xr, n, u);
    InterpretIsFold(py, xr, policy, f.PolicyPatches(), f.Sets(), RANK, 1);
    InlineDirect(f, f.PolicyPatches(), 1);
    assert f.PolicyPatches() == [f.Component()] + [f.Policy()] + [];
    LastWrite(py, xr, policy, [f.Component()], f.Policy(), [], f.policy, Str(PolicyFor(n + "-" + u)));
    if PolicyFits(f, policy) {
      PolicyRenders(f, py, xr, n, u, policy);
    }
  }

  lemma LastWrite(py: PyStr, xr: Value, target: Value, before: seq<Patch>, p: Patch, after: seq<Patch>, dest: Path, value: Value)
    requires EffectOf(py, xr, p) == Success(Write(dest, value)) && dest != [] && Untouched(py, xr, after, dest)
    ensures var doc := Fold(py, xr, target, before + [p] + after);
      doc.Success? ==> Get(doc.value, dest) == value
  {
    if Fold(py, xr, target, before + [p] + after).Success? {
      LastWriterWins(py, xr, target, before, p, after, dest, value);
    }
  }
}
