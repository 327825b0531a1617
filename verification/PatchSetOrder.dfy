/** PatchSets that refer to each other: a ranking exists exactly when no reference leads back, and which one is
    taken makes no difference. */
module PatchSetOrder {
  import opened Json
  import opened Patches

  /** Set `a` has a reference to set `b`. */
  predicate Refers(sets: PatchSets, a: string, b: string) {
    a in sets && b in sets && UsePatchSet(b) in sets[a]
  }

  /** Names each of which refers to the next. */
  predicate Chain(sets: PatchSets, names: seq<string>) {
    |names| <= 1 || (Refers(sets, names[0], names[1]) && Chain(sets, names[1..]))
  }

  lemma {:induction false} ChainPart(sets: PatchSets, names: seq<string>, i: nat, j: nat)
    requires Chain(sets, names) && i <= j <= |names|
    ensures Chain(sets, names[i..j])
    decreases i, |names|
  {
    var part := names[i..j];
    if i > 0 {
      ChainPart(sets, names[1..], i - 1, j - 1);
      assert names[1..][i - 1..j - 1] == part;
    } else if j >= 2 {
      ChainPart(sets, names[1..], 0, j - 1);
      assert names[1..][0..j - 1] == part[1..];
    }
  }

  /** No reference leads back to where it started. */
  ghost predicate Acyclic(sets: PatchSets) {
    forall names :: Chain(sets, names) && |names| >= 2 ==> names[0] != names[|names| - 1]
  }

  lemma {:induction false} ChainDescends(sets: PatchSets, rank: map<string, nat>, names: seq<string>)
    requires Ranked(sets, rank) && Chain(sets, names) && |names| >= 2
    ensures names[0] in rank && names[|names| - 1] in rank && rank[names[|names| - 1]] < rank[names[0]]
    decreases |names|
  {
    Descends(sets, rank, names[0], names[1]);
    if |names| > 2 {
      ChainDescends(sets, rank, names[1..]);
    }
  }

  lemma Descends(sets: PatchSets, rank: map<string, nat>, a: string, b: string)
    requires Ranked(sets, rank) && Refers(sets, a, b)
    ensures a in rank && b in rank && rank[b] < rank[a]
  {
    var i :| 0 <= i < |sets[a]| && sets[a][i] == UsePatchSet(b);
    assert Below(sets[a], sets, rank, rank[a]);
    assert sets[a][i].UsePatchSet? && sets[a][i].name == b;
  }

  /** More names than the set has: one comes twice. */
  lemma {:induction false} ComesTwice(names: seq<string>, all: set<string>) returns (i: nat, j: nat)
    requires |names| > |all| && forall k :: 0 <= k < |names| ==> names[k] in all
    ensures i < j < |names| && names[i] == names[j]
    decreases |names|
  {
    var front, last := names[..|names| - 1], names[|names| - 1];
    if last in front {
      i :| 0 <= i < |front| && front[i] == last;
      j := |names| - 1;
    } else {
      assert forall k :: 0 <= k < |front| ==> front[k] in all - {last};
      i, j := ComesTwice(front, all - {last});
    }
  }

  /** If every name of `all` has a reference to follow, there are chains of any length. */
  lemma {:induction false} LongChain(sets: PatchSets, all: set<string>, next: map<string, string>, start: string, n: nat)
    returns (names: seq<string>)
    requires start in all && next.Keys == all
    requires forall a {:trigger next[a]} :: a in all ==> next[a] in all && Refers(sets, a, next[a])
    ensures |names| == n + 1 && names[0] == start && Chain(sets, names) && forall k :: 0 <= k < |names| ==> names[k] in all
    decreases n
  {
    if n == 0 {
      names := [start];
    } else {
      var rest := LongChain(sets, all, next, next[start], n - 1);
      names := [start] + rest;
      assert names[1..] == rest;
    }
  }

  ghost predicate GoesOn(sets: PatchSets, all: set<string>, a: string) {
    exists b :: b in all && Refers(sets, a, b)
  }

  /** A set that refers to none of `all`. */
  lemma Last(sets: PatchSets, all: set<string>) returns (last: string)
    requires Acyclic(sets) && all != {}
    ensures last in all && !GoesOn(sets, all, last)
  {
    if a :| a in all && !GoesOn(sets, all, a) {
      last := a;
    } else {
      NoLast(sets, all);
      assert false;
    }
  }

  /** A reference to follow. */
  lemma Followed(sets: PatchSets, all: set<string>, a: string) returns (b: string)
    requires GoesOn(sets, all, a)
    ensures b in all && Refers(sets, a, b)
  {
    b :| b in all && Refers(sets, a, b);
  }

  lemma {:induction false} AllFollowed(sets: PatchSets, all: set<string>, some: set<string>) returns (next: map<string, string>)
    requires some <= all && forall a {:trigger GoesOn(sets, all, a)} :: a in all ==> GoesOn(sets, all, a)
    ensures next.Keys == some
    ensures forall a {:trigger next[a]} :: a in some ==> next[a] in all && Refers(sets, a, next[a])
    decreases some
  {
    if some == {} {
      next := map[];
    } else {
      var a :| a in some;
      assert GoesOn(sets, all, a);
      var b := Followed(sets, all, a);
      var rest := AllFollowed(sets, all, some - {a});
      next := rest[a := b];
    }
  }

  lemma NoLast(sets: PatchSets, all: set<string>)
    requires all != {} && forall a {:trigger GoesOn(sets, all, a)} :: a in all ==> GoesOn(sets, all, a)
    ensures !Acyclic(sets)
  {
    var next := AllFollowed(sets, all, all);
    var start :| start in all;
    var names := LongChain(sets, all, next, start, |all|);
    Round(sets, all, names);
  }

  /** A chain of more names than there are comes round. */
  lemma Round(sets: PatchSets, all: set<string>, names: seq<string>)
    requires Chain(sets, names) && |names| > |all| && forall k :: 0 <= k < |names| ==> names[k] in all
    ensures !Acyclic(sets)
  {
    var i, j := ComesTwice(names, all);
    ChainPart(sets, names, i, j + 1);
    var round := names[i..j + 1];
    assert round[0] == round[|round| - 1];
  }

  /** Names ranked so that references among them go down. */
  lemma {:induction false} RankUp(sets: PatchSets, all: set<string>) returns (rank: map<string, nat>)
    requires Acyclic(sets) && all <= sets.Keys
    ensures rank.Keys == all
    ensures forall a, b :: a in all && b in all && Refers(sets, a, b) ==> rank[b] < rank[a]
    decreases all
  {
    if all == {} {
      rank := map[];
    } else {
      var last := Last(sets, all);
      assert forall b :: b in all && Refers(sets, last, b) ==> GoesOn(sets, all, last);
      var rest := RankUp(sets, all - {last});
      rank := map a | a in all :: if a == last then 0 else rest[a] + 1;
    }
  }

  /** PatchSets can be ranked exactly when no reference leads back. */
  lemma RankedWhenAcyclic(sets: PatchSets)
    ensures (exists rank :: Ranked(sets, rank)) <==> Acyclic(sets)
  {
    if rank :| Ranked(sets, rank) {
      forall names | Chain(sets, names) && |names| >= 2
        ensures names[0] != names[|names| - 1]
      {
        ChainDescends(sets, rank, names);
      }
    }
    if Acyclic(sets) {
      var rank := RankUp(sets, sets.Keys);
      forall a | a in sets
        ensures Below(sets[a], sets, rank, rank[a])
      {
        assert forall i :: 0 <= i < |sets[a]| && sets[a][i].UsePatchSet? && sets[a][i].name in sets ==>
          Refers(sets, a, sets[a][i].name);
      }
      assert Ranked(sets, rank);
    }
  }

  /** Then any list can be interpreted. */
  lemma {:induction false} ListRanked(sets: PatchSets, rank: map<string, nat>, patches: seq<Patch>) returns (n: nat)
    requires Ranked(sets, rank)
    ensures Below(patches, sets, rank, n)
    decreases |patches|
  {
    n := 0;
    if patches != [] {
      var p := patches[|patches| - 1];
      var m := ListRanked(sets, rank, patches[..|patches| - 1]);
      n := if p.UsePatchSet? && p.name in sets && rank[p.name] >= m then rank[p.name] + 1 else m;
      assert forall i :: 0 <= i < |patches| - 1 ==> patches[i] == patches[..|patches| - 1][i];
    }
  }

  lemma {:induction false} SameInline(patches: seq<Patch>, sets: PatchSets, rank: map<string, nat>, n: nat,
                                      rank': map<string, nat>, n': nat)
    requires Ranked(sets, rank) && Below(patches, sets, rank, n) && Ranked(sets, rank') && Below(patches, sets, rank', n')
    ensures Inline(patches, sets, rank, n) == Inline(patches, sets, rank', n')
    decreases n, |patches|
  {
    if patches != [] {
      var p := patches[0];
      BelowTail(patches, sets, rank, n);
      BelowTail(patches, sets, rank', n');
      SameInline(patches[1..], sets, rank, n, rank', n');
      if p.UsePatchSet? && p.name in sets {
        SameInline(sets[p.name], sets, rank, rank[p.name], rank', rank'[p.name]);
      }
    }
  }

  /** Which ranking is taken makes no difference. */
  lemma AnyRanking(py: PyStr, xr: Value, target: Value, patches: seq<Patch>, sets: PatchSets,
                   rank: map<string, nat>, n: nat, rank': map<string, nat>, n': nat)
    requires Ranked(sets, rank) && Below(patches, sets, rank, n) && Ranked(sets, rank') && Below(patches, sets, rank', n')
    ensures Interpret(py, xr, target, patches, sets, rank, n) == Interpret(py, xr, target, patches, sets, rank', n')
  {
    SameInline(patches, sets, rank, n, rank', n');
    InterpretIsFold(py, xr, target, patches, sets, rank, n);
    InterpretIsFold(py, xr, target, patches, sets, rank', n');
  }
}
