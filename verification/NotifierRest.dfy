/** What the notifier comes to when the stored phases stop changing, the webhook accepts and patches succeed:
    every such run is finite, and ends with each terminal phase delivered. */
module NotifierRest {
  import opened Wrappers
  import opened Notifier

  // ---------------------------------------------------------------- quiet steps and the measure

  /** The steps left when the world is quiet: the watch catches up, forwards; the controller succeeds. */
  predicate QuietStep(f: Flow, a: Action)
    requires f.Coherent()
  {
    Enabled(f, a) &&
    match a
    case Observe(i) => if f.cache.Some? then f.cache.value < i else f.live
    case Forget => true
    case Handle => true
    case Start => true
    case Read => true
    case Accept => true
    case Record => true
    case _ => false
  }

  /** Nothing is left to do: the cache shows the store, no event, no queue entry, no reconcile. */
  predicate AtRest(f: Flow)
    requires f.Coherent()
  {
    f.events == [] && !f.queued && f.worker.Idle? &&
    f.cache == if f.live then Some(|f.history| - 1) else None
  }

  /** The cost of the versions the watch has yet to pass: a change of phase will cause a reconcile. */
  function Change(a: Object, b: Object): nat {
    if a.phase != b.phase then 8 else 2
  }

  function Changes(history: seq<Object>, lo: nat): nat
    decreases |history| - lo
  {
    if lo + 1 >= |history| then 0 else Change(history[lo], history[lo + 1]) + Changes(history, lo + 1)
  }

  function Lag(f: Flow): nat
    requires f.Coherent()
  {
    match f.cache
    case Some(i) => Changes(f.history, i) + if f.live then 0 else 2
    case None => if f.live then 8 + Changes(f.history, 0) else 0
  }

  function Backlog(events: seq<Event>): nat {
    if events == [] then 0 else (if PhaseChanged(events[0]) then 7 else 1) + Backlog(events[1..])
  }

  function Load(w: Worker): nat {
    match w
    case Idle => 0
    case Started => 5
    case Notifying(_) => 4
    case Recording(_) => 3
  }

  function Weight(f: Flow): nat
    requires f.Coherent()
  {
    Lag(f) + Backlog(f.events) + (if f.queued then 6 else 0) + Load(f.worker)
  }

  lemma {:induction false} BacklogGrows(events: seq<Event>, e: Event)
    ensures Backlog(events + [e]) == Backlog(events) + if PhaseChanged(e) then 7 else 1
  {
    if events == [] {
      assert events + [e] == [e];
    } else {
      assert (events + [e])[1..] == events[1..] + [e];
      BacklogGrows(events[1..], e);
    }
  }

  /** Catching up costs less than it saves. */
  lemma {:induction false} CatchingUp(history: seq<Object>, lo: nat, hi: nat)
    requires lo < hi < |history|
    ensures Changes(history, lo) >= Changes(history, hi) + Change(history[lo], history[hi])
    decreases hi - lo
  {
    if lo + 1 < hi {
      CatchingUp(history, lo + 1, hi);
    }
  }

  lemma {:induction false} ChangesGrow(history: seq<Object>, o: Object, lo: nat)
    requires lo < |history|
    ensures Changes(history + [o], lo) == Changes(history, lo) + Change(history[|history| - 1], o)
    decreases |history| - lo
  {
    if lo + 1 < |history| {
      ChangesGrow(history, o, lo + 1);
    }
  }

  lemma ObserveShrinks(f: Flow, i: nat)
    requires f.Coherent() && QuietStep(f, Observe(i))
    ensures Weight(Next(f, Observe(i))) < Weight(f)
  {
    var g := Next(f, Observe(i));
    BacklogGrows(f.events, g.events[|f.events|]);
    if f.cache.Some? {
      CatchingUp(f.history, f.cache.value, i);
    } else if i > 0 {
      CatchingUp(f.history, 0, i);
    }
  }

  lemma RecordShrinks(f: Flow)
    requires f.Coherent() && f.worker.Recording?
    ensures Weight(Next(f, Record)) < Weight(f)
  {
    if f.live {
      ChangesGrow(f.history, Object(f.Stored().phase, f.worker.phase), if f.cache.Some? then f.cache.value else 0);
    }
  }

  lemma ForgetShrinks(f: Flow)
    requires f.Coherent() && QuietStep(f, Forget)
    ensures Weight(Next(f, Forget)) < Weight(f)
  {
    BacklogGrows(f.events, Deleted(f.Cached()));
  }

  /** Every quiet step makes a flow lighter. */
  lemma QuietShrinks(f: Flow, a: Action)
    requires f.Coherent() && QuietStep(f, a)
    ensures Weight(Next(f, a)) < Weight(f)
  {
    match a
    case Observe(i) => ObserveShrinks(f, i);
    case Forget => ForgetShrinks(f);
    case Record => RecordShrinks(f);
    case Handle =>
    case Start =>
    case Read =>
    case Accept =>
  }

  /** A quiet step is possible until nothing is left to do. */
  function Todo(f: Flow): (a: Action)
    requires f.Coherent() && !AtRest(f)
    ensures QuietStep(f, a)
  {
    if f.events != [] then Handle
    else if f.worker.Started? then Read
    else if f.worker.Notifying? then Accept
    else if f.worker.Recording? then Record
    else if f.queued then Start
    else if f.live then Observe(|f.history| - 1)
    else Forget
  }

  // ---------------------------------------------------------------- the whole system

  predicate QuietMove(s: System, m: Move)
    requires Sound(s)
  {
    m.At? && m.key < |s| && QuietStep(s[m.key], m.action)
  }

  predicate QuietRun(s: System, run: seq<Move>, t: System)
    requires Sound(s)
    decreases |run|
  {
    if run == [] then s == t
    else QuietMove(s, run[0]) && QuietRun(Moved(s, run[0]), run[1..], t)
  }

  predicate AllAtRest(s: System)
    requires Sound(s)
  {
    forall k :: 0 <= k < |s| ==> AtRest(s[k])
  }

  function Total(s: System): nat
    requires Sound(s)
  {
    if s == [] then 0 else Weight(s[0]) + Total(s[1..])
  }

  lemma {:induction false} TotalAfter(s: System, k: nat, f: Flow)
    requires Sound(s) && k < |s| && f.Coherent()
    ensures Total(s[k := f]) == Total(s) - Weight(s[k]) + Weight(f)
  {
    if k == 0 {
      assert s[0 := f][1..] == s[1..];
    } else {
      assert s[k := f][1..] == s[1..][k - 1 := f];
      TotalAfter(s[1..], k - 1, f);
    }
  }

  /** A quiet run is no longer than the weight it starts with. */
  lemma {:induction false} QuietRunsEnd(s: System, run: seq<Move>, t: System)
    requires Sound(s) && QuietRun(s, run, t)
    ensures Sound(t) && Total(t) + |run| <= Total(s)
    decreases |run|
  {
    if run != [] {
      var k, a := run[0].key, run[0].action;
      QuietShrinks(s[k], a);
      TotalAfter(s, k, Next(s[k], a));
      QuietRunsEnd(Moved(s, run[0]), run[1..], t);
    }
  }

  /** A run that cannot go on quietly has come to rest. */
  lemma StuckIsAtRest(s: System)
    requires Sound(s) && forall m :: !QuietMove(s, m)
    ensures AllAtRest(s)
  {
    forall k | 0 <= k < |s|
      ensures AtRest(s[k])
    {
      if !AtRest(s[k]) {
        assert QuietMove(s, At(k, Todo(s[k])));
      }
    }
  }

  /** From every state, some quiet run leads to rest. */
  lemma {:induction false} ComesToRest(s: System) returns (run: seq<Move>, t: System)
    requires Sound(s)
    ensures QuietRun(s, run, t) && Sound(t) && AllAtRest(t)
    decreases Total(s)
  {
    if AllAtRest(s) {
      run, t := [], s;
    } else {
      var k :| 0 <= k < |s| && !AtRest(s[k]);
      var m := At(k, Todo(s[k]));
      QuietShrinks(s[k], m.action);
      TotalAfter(s, k, Next(s[k], m.action));
      var rest;
      rest, t := ComesToRest(Moved(s, m));
      run := [m] + rest;
      assert run[1..] == rest;
    }
  }

  lemma {:induction false} QuietKeeps(s: System, run: seq<Move>, t: System)
    requires AllInv(s) && QuietRun(s, run, t)
    ensures AllInv(t)
    decreases |run|
  {
    if run != [] {
      MoveKept(s, run[0]);
      QuietKeeps(Moved(s, run[0]), run[1..], t);
    }
  }

  /** Draining converges: every quiet run from a reachable state is bounded, and one that cannot go on leaves
      each present workflow's terminal phase delivered. */
  lemma Drains(s: System, run: seq<Move>, t: System)
    requires Reachable(s) && Sound(s) && QuietRun(s, run, t)
    ensures Sound(t) && |run| <= Total(s)
    ensures (forall m :: !QuietMove(t, m)) ==>
      forall k :: 0 <= k < |t| && t[k].live && Completed(t[k].Stored().phase) ==> t[k].Stored().phase in t[k].log.delivered
  {
    ReachableInv(s);
    QuietRunsEnd(s, run, t);
    QuietKeeps(s, run, t);
    if forall m :: !QuietMove(t, m) {
      StuckIsAtRest(t);
      forall k | 0 <= k < |t| && t[k].live && Completed(t[k].Stored().phase)
        ensures t[k].Stored().phase in t[k].log.delivered
      {
        RestIsDelivered(t[k]);
      }
    }
  }

  lemma RestIsDelivered(f: Flow)
    requires Inv(f) && AtRest(f) && f.live && Completed(f.Stored().phase)
    ensures f.Stored().phase in f.log.delivered
  {
    assert f.Cached() == f.Stored();
  }

  // ---------------------------------------------------------------- is the last delivery the current phase?

  /** What the annotation tells of the last accepted delivery: its phase, once that has been written; another
      phase, while it has not and the read behind it missed nothing. */
  predicate Recorded(f: Flow)
    requires f.Coherent()
  {
    (f.log.written ==>
       if f.log.delivered == [] then f.Stored().note == "" else LastIs(f.log.delivered, f.Stored().note)) &&
    (!f.log.written ==>
       f.log.delivered != [] && (!f.log.behindMissed ==> !LastIs(f.log.delivered, f.Stored().note))) &&
    (f.worker.Notifying? && !f.log.readMissed ==> f.Stored().note != f.worker.phase)
  }

  /** What the counters of faults say of the last delivery and the last read. */
  predicate Counted(f: Flow) {
    (f.worker.Recording? ==> !f.log.written) &&
    (!f.log.written && !f.worker.Recording? ==> f.log.unrecorded > 0) &&
    (f.log.readMissed || f.log.behindMissed ==> f.log.missed > 0)
  }

  /** Unless the last read missed an annotation, a terminal phase the cache shows of a present workflow is noted, or
      will be looked at again, also while another phase is being delivered. */
  predicate Current(f: Flow)
    requires f.Coherent()
  {
    f.live && !f.log.readMissed && f.cache.Some? && Completed(f.Cached().phase) ==>
      Passing(f.events) || f.queued || f.worker.Started? ||
      (f.worker.Idle? && f.Stored().note == f.Cached().phase) ||
      ((f.worker.Notifying? || f.worker.Recording?) && f.worker.phase == f.Cached().phase)
  }

  /** A read that missed an annotation, with nothing written since, found another phase noted than the one it left
      alone, unless there will be another read. */
  predicate Unnoted(f: Flow)
    requires f.Coherent()
  {
    f.live && f.log.readMissed && !f.log.written && f.worker.Idle? && f.cache.Some? && Completed(f.Cached().phase) ==>
      Passing(f.events) || f.queued || f.Stored().note != f.Cached().phase
  }

  predicate Latest(f: Flow) {
    Inv(f) && Recorded(f) && Counted(f) && Current(f) && Unnoted(f)
  }

  lemma RecordedRead(f: Flow)
    requires Latest(f) && Enabled(f, Read)
    ensures Recorded(Next(f, Read)) && Counted(Next(f, Read))
  {
  }

  lemma RecordedAccept(f: Flow, a: Action)
    requires Latest(f) && Enabled(f, a) && (a.Accept? || a.AcceptUnseen?)
    ensures Recorded(Next(f, a)) && Counted(Next(f, a))
  {
    assert LastIs(Next(f, a).log.delivered, f.worker.phase);
  }

  lemma RecordedWrite(f: Flow, a: Action)
    requires Latest(f) && Enabled(f, a) && (a.Record? || a.RecordUnseen? || a.RecordFails?)
    ensures Recorded(Next(f, a)) && Counted(Next(f, a))
  {
  }

  lemma RecordedKept(f: Flow, a: Action)
    requires Latest(f) && Enabled(f, a)
    ensures Recorded(Next(f, a)) && Counted(Next(f, a))
  {
    match a
    case Read => RecordedRead(f);
    case Accept => RecordedAccept(f, a);
    case AcceptUnseen => RecordedAccept(f, a);
    case Record => RecordedWrite(f, a);
    case RecordUnseen => RecordedWrite(f, a);
    case RecordFails => RecordedWrite(f, a);
    case _ => RecordedElse(f, a);
  }

  lemma RecordedElse(f: Flow, a: Action)
    requires Latest(f) && Enabled(f, a)
    requires !a.Read? && !a.Accept? && !a.AcceptUnseen? && !a.Record? && !a.RecordUnseen? && !a.RecordFails?
    ensures Recorded(Next(f, a)) && Counted(Next(f, a))
  {
    assert Next(f, a).log == f.log && Next(f, a).Stored().note == f.Stored().note;
  }

  lemma UnnotedKept(f: Flow, a: Action)
    requires Latest(f) && Enabled(f, a)
    ensures Unnoted(Next(f, a))
  {
    var g := Next(f, a);
    match a
    case Observe(i) => PassingKept(f.events, g.events[|f.events|]);
    case Handle => PassingHead(f.events);
    case _ =>
  }

  lemma CurrentKept(f: Flow, a: Action)
    requires Latest(f) && Enabled(f, a)
    ensures Current(Next(f, a))
  {
    var g := Next(f, a);
    match a
    case Observe(i) => PassingKept(f.events, g.events[|f.events|]);
    case Handle => PassingHead(f.events);
    case _ =>
  }

  ghost predicate AllLatest(s: System) {
    forall k :: 0 <= k < |s| ==> Latest(s[k])
  }

  lemma LatestMove(s: System, m: Move)
    requires AllLatest(s) && Possible(s, m)
    ensures AllLatest(Moved(s, m))
  {
    match m
    case Submit(p) =>
    case At(k, a) =>
      InvKept(s[k], a);
      RecordedKept(s[k], a);
      CurrentKept(s[k], a);
      UnnotedKept(s[k], a);
    case Crash =>
      forall k | 0 <= k < |s|
        ensures Latest(Crashed(s[k]))
      {
        CrashKept(s[k]);
      }
  }

  lemma {:induction false} LatestRun(s: System, run: seq<Move>, t: System)
    requires AllLatest(s) && Leads(s, run, t)
    ensures AllLatest(t)
    decreases |run|
  {
    if run != [] {
      LatestMove(s, run[0]);
      LatestRun(Moved(s, run[0]), run[1..], t);
    }
  }

  /** The receiver was last told the stored phase. */
  predicate Told(f: Flow)
    requires f.Coherent()
  {
    LastIs(f.log.delivered, f.Stored().phase)
  }

  predicate WhatRestTells(f: Flow)
    requires f.Coherent()
  {
    var told, noted := Told(f), f.Stored().note == f.Stored().phase;
    (f.log.written ==> (told <==> noted)) &&
    (!f.log.written && !f.log.behindMissed && noted ==> !told) &&
    (!f.log.readMissed ==> noted) &&
    (!f.log.written ==> (noted <==> !f.log.readMissed)) &&
    (!f.log.readMissed && !f.log.behindMissed ==> (told <==> f.log.written)) &&
    (f.log.unrecorded == 0 ==> f.log.written) &&
    (f.log.unrecorded == 0 && f.log.missed == 0 ==> told)
  }

  /** At rest with a terminal phase stored, whatever failed before. If the annotation of the last accepted delivery
      was written, the receiver was last told the stored phase exactly when the annotation equals it. If it was
      not written, an annotation equal to the stored phase means that the receiver was told another one, unless the
      read behind that delivery missed an annotation. The annotation equals the phase if the last read missed nothing,
      and if the last delivery's annotation was not written, only then. If neither that read nor the one behind the
      last delivery missed an annotation, the receiver was told the phase exactly when the last delivery's annotation
      was written. */
  lemma LastTold(s: System, k: nat)
    requires Reachable(s) && k < |s|
    ensures s[k].Coherent()
    ensures AtRest(s[k]) && s[k].live && Completed(s[k].Stored().phase) ==> WhatRestTells(s[k])
  {
    var run :| Leads([], run, s);
    LatestRun([], run, s);
    assert Latest(s[k]);
  }

  // ---------------------------------------------------------------- runs that end badly

  lemma {:induction false} RunOn(s: System, run: seq<Move>, t: System, m: Move)
    requires Sound(s) && Leads(s, run, t) && Sound(t) && Possible(t, m)
    ensures Leads(s, run + [m], Moved(t, m))
    decreases |run|
  {
    if run == [] {
      assert [m][1..] == [];
    } else {
      assert (run + [m])[1..] == run[1..] + [m];
      RunOn(Moved(s, run[0]), run[1..], t, m);
    }
  }

  lemma Onward(f: Flow, a: Action) returns (g: Flow)
    requires Reachable([f]) && f.Coherent() && Enabled(f, a)
    ensures g == Next(f, a) && Reachable([g])
  {
    g := Next(f, a);
    var run :| Leads([], run, [f]);
    RunOn([], run, [f], At(0, a));
    assert [f][0 := g] == [g];
  }

  lemma FirstSubmitted(p: Phase) returns (f: Flow)
    ensures f == Submitted(p) && Reachable([f])
  {
    f := Submitted(p);
    assert Leads([f], [], [f]);
    assert Moved([], Submit(p)) == [f];
    assert [Submit(p)][1..] == [];
    assert Leads([], [Submit(p)], [f]);
  }

  lemma Unplugged(f: Flow) returns (g: Flow)
    requires Reachable([f]) && f.Coherent()
    ensures g == Crashed(f) && Reachable([g])
  {
    g := Crashed(f);
    var run :| Leads([], run, [f]);
    RunOn([], run, [f], Crash);
    assert Moved([f], Crash) == [g];
  }

  /** A passing event, or a place in the queue, leads to a read. */
  lemma Looks(f: Flow) returns (g: Flow)
    requires Reachable([f]) && f.Coherent() && |f.events| == 1 && (PhaseChanged(f.events[0]) || f.queued)
    requires f.worker.Idle? && f.cache.Some?
    ensures Reachable([g])
    ensures g == f.(events := [], queued := false, worker := Due(f.Cached()),
                    log := AfterRead(f.log, f.Cached().note != f.Stored().note))
  {
    var started := Starts(f);
    ReadOff(started);
    g := Onward(started, Read);
  }

  lemma Starts(f: Flow) returns (g: Flow)
    requires Reachable([f]) && f.Coherent() && |f.events| == 1 && (PhaseChanged(f.events[0]) || f.queued) && f.worker.Idle?
    ensures Reachable([g]) && g == f.(events := [], queued := false, worker := Started)
  {
    Handled(f);
    var handled := Onward(f, Handle);
    TakenUp(handled);
    g := Onward(handled, Start);
  }

  lemma TakenUp(f: Flow)
    requires f.Coherent() && f.queued && f.worker.Idle?
    ensures Next(f, Start) == f.(queued := false, worker := Started)
  {
  }

  lemma ReadOff(f: Flow)
    requires f.Coherent() && f.worker.Started? && f.cache.Some?
    ensures Next(f, Read) == f.(worker := Due(f.Cached()), log := AfterRead(f.log, f.Cached().note != f.Stored().note))
  {
  }

  lemma Handled(f: Flow)
    requires f.Coherent() && |f.events| == 1 && (PhaseChanged(f.events[0]) || f.queued)
    ensures Next(f, Handle) == f.(events := [], queued := true)
  {
  }

  /** From the read on: a delivery is accepted, and its record fails. */
  lemma DeliveredUnrecorded(f: Flow) returns (g: Flow)
    requires Reachable([f]) && f.Coherent() && f.worker.Notifying?
    ensures Reachable([g])
    ensures g == f.(queued := true, worker := Idle, log := Unrecorded(AfterAccept(f.log, f.worker.phase)))
  {
    var accepted := Onward(f, Accept);
    g := Onward(accepted, RecordFails);
  }

  /** The watch shows a version. */
  lemma Shows(f: Flow, i: nat) returns (g: Flow)
    requires Reachable([f]) && f.Coherent() && f.events == [] && i < |f.history|
    ensures Reachable([g])
    ensures g == f.(cache := Some(i),
                    events := [if f.cache.Some? then Updated(f.Cached(), f.history[i]) else Created(f.history[i])])
  {
    g := Onward(f, Observe(i));
  }

  /** A first delivery, up to where the annotation is written. */
  lemma FirstDelivery(p: Phase) returns (f: Flow)
    requires Completed(p)
    ensures Reachable([f])
    ensures f == Flow([Object(p, "")], true, Some(0), [], false, Recording(p), Log([p], 0, 0, false, false, false))
  {
    f := FirstSubmitted(p);
    f := Shows(f, 0);
    f := Looks(f);
    f := Onward(f, Accept);
  }

  /** A restart between a delivery and its annotation makes the controller deliver the same phase again. */
  lemma RestartResends(p: Phase) returns (f: Flow)
    requires Completed(p)
    ensures Reachable([f])
    ensures f == Flow([Object(p, "")], true, Some(0), [], false, Recording(p), Log([p, p], 1, 0, false, false, false))
  {
    f := FirstDelivery(p);
    f := Unplugged(f);
    f := Shows(f, 0);
    f := Looks(f);
    f := Onward(f, Accept);
  }

  /** A second phase, stored after the first was noted. */
  lemma SecondPhase(p: Phase, q: Phase) returns (f: Flow)
    requires Completed(p)
    ensures Reachable([f])
    ensures f == Flow([Object(p, ""), Object(p, p), Object(q, p)], true, Some(0), [], false, Idle,
                      Log([p], 0, 0, true, false, false))
  {
    f := FirstDelivery(p);
    f := Onward(f, Record);
    f := Onward(f, SetPhase(q));
    assert f.history == [Object(p, ""), Object(p, p), Object(q, p)];
  }

  /** A second phase, delivered after the first was noted. */
  lemma SecondDelivery(p: Phase, q: Phase) returns (f: Flow)
    requires Completed(p) && Completed(q) && p != q
    ensures Reachable([f])
    ensures f == Flow([Object(p, ""), Object(p, p), Object(q, p)], true, Some(2), [], false, Recording(q),
                      Log([p, q], 0, 0, false, false, false))
  {
    f := SecondPhase(p, q);
    f := Shows(f, 2);
    f := Looks(f);
    f := Onward(f, Accept);
  }

  /** The first phase is stored again while the second is being delivered, and then that delivery is noted. */
  lemma BackWhileDelivering(p: Phase, q: Phase) returns (f: Flow)
    requires Completed(p) && Completed(q) && p != q
    ensures Reachable([f])
    ensures f == Flow([Object(p, ""), Object(p, p), Object(q, p), Object(p, p), Object(p, q)], true, Some(2), [], false, Idle,
                      Log([p, q], 0, 0, true, false, false))
  {
    f := SecondDelivery(p, q);
    f := Onward(f, SetPhase(p));
    f := Onward(f, Record);
    assert f.history == [Object(p, ""), Object(p, p), Object(q, p), Object(p, p), Object(p, q)];
  }

  /** One read that misses an annotation can leave the receiver with the wrong phase for good: `p`, then `q` and
      back to `p` while `q` is being delivered. The system is at rest with `p` stored and `q` last delivered. */
  lemma WrongPhaseAtRest(p: Phase, q: Phase) returns (f: Flow)
    requires Completed(p) && Completed(q) && p != q
    ensures Reachable([f]) && f.Coherent() && AtRest(f) && f.live
    ensures f.Stored() == Object(p, q) && f.log == Log([p, q], 0, 1, true, false, true)
  {
    f := BackWhileDelivering(p, q);
    f := Shows(f, 3);
    f := Looks(f);
    f := Shows(f, 4);
    f := Onward(f, Handle);
  }

  /** So can one record that fails, with every read up to date and the annotation equal to the stored phase. */
  lemma WrongPhaseUnwritten(p: Phase, q: Phase) returns (f: Flow)
    requires Completed(p) && Completed(q) && p != q
    ensures Reachable([f]) && f.Coherent() && AtRest(f) && f.live
    ensures f.Stored() == Object(p, p) && f.log == Log([p, q], 1, 0, false, false, false)
  {
    f := SecondDelivery(p, q);
    f := Onward(f, RecordFails);
    f := Onward(f, SetPhase(p));
    var history := [Object(p, ""), Object(p, p), Object(q, p), Object(p, p)];
    assert f == Flow(history, true, Some(2), [], true, Idle, Log([p, q], 1, 0, false, false, false));
    f := Shows(f, 3);
    f := Looks(f);
    assert f == Flow(history, true, Some(3), [], false, Idle, Log([p, q], 1, 0, false, false, false));
  }

  // ---------------------------------------------------------------- where nothing decides it

  /** The two flows differ only in what was delivered, `f` last in the phase stored, `g` in another one. */
  predicate Undecided(f: Flow, g: Flow) {
    f.Coherent() && AtRest(f) && f.live && Completed(f.Stored().phase) &&
    g == f.(log := f.log.(delivered := g.log.delivered)) && Told(f) && !Told(g)
  }

  /** A stored history with `p`, then `q` before the note of `p` was written, then `p` again; after a restart. */
  lemma Restarted(p: Phase, q: Phase) returns (f: Flow)
    requires Completed(p) && Completed(q) && p != q
    ensures Reachable([f])
    ensures f == Flow([Object(p, ""), Object(q, ""), Object(q, p), Object(p, p)], true, None, [], false, Idle,
                      Log([p], 0, 0, true, false, false))
  {
    f := FirstDelivery(p);
    f := Onward(f, SetPhase(q));
    assert f.history == [Object(p, ""), Object(q, "")];
    f := Onward(f, Record);
    assert f == Flow([Object(p, ""), Object(q, ""), Object(q, p)], true, Some(0), [], false, Idle,
                     Log([p], 0, 0, true, false, false));
    f := Onward(f, SetPhase(p));
    assert f.history == [Object(p, ""), Object(q, ""), Object(q, p), Object(p, p)];
    f := Unplugged(f);
  }

  /** Version `i` is shown, and its phase delivered without record. */
  lemma VersionDelivered(f: Flow, i: nat) returns (g: Flow)
    requires Reachable([f]) && f.Coherent() && f.events == [] && f.worker.Idle?
    requires i < |f.history| && Due(f.history[i]).Notifying?
    requires f.cache.Some? ==> f.Cached().phase != f.history[i].phase
    ensures Reachable([g]) && g.Coherent()
    ensures var missed := f.history[i].note != f.Stored().note;
      g == f.(cache := Some(i), queued := true,
              log := Unrecorded(AfterAccept(AfterRead(f.log, missed), f.history[i].phase)))
  {
    var shown := Shows(f, i);
    var due := Looks(shown);
    g := DeliveredUnrecorded(due);
  }

  /** Version `j` is shown, or listed after a restart, and read. */
  lemma VersionRead(f: Flow, j: nat) returns (g: Flow)
    requires Reachable([f]) && f.Coherent() && f.events == [] && f.worker.Idle? && (f.queued || f.cache.None?)
    requires j < |f.history|
    ensures Reachable([g]) && g.Coherent()
    ensures g == f.(cache := Some(j), queued := false, worker := Due(f.history[j]),
                    log := AfterRead(f.log, f.history[j].note != f.Stored().note))
  {
    var shown := Shows(f, j);
    g := Looks(shown);
  }

  /** From there: version `i`, an old one, is listed and its phase delivered without record, and then the watch
      catches up. */
  lemma OldVersionDelivered(f: Flow, i: nat) returns (g: Flow)
    requires Reachable([f]) && f.Coherent() && f.cache.None? && f.events == [] && f.worker.Idle? && f.live
    requires i < |f.history| && Due(f.history[i]).Notifying? && f.history[i].note != f.Stored().note
    requires Due(f.Stored()).Idle?
    ensures Reachable([g]) && g.Coherent()
    ensures g == f.(cache := Some(|f.history| - 1), queued := false,
                    log := AfterRead(Unrecorded(AfterAccept(AfterRead(f.log, true), f.history[i].phase)), false))
  {
    var delivered := VersionDelivered(f, i);
    var log := Unrecorded(AfterAccept(AfterRead(f.log, true), f.history[i].phase));
    assert delivered == f.(cache := Some(i), queued := true, log := log);
    assert delivered.Stored() == f.Stored();
    g := VersionRead(delivered, |f.history| - 1);
  }

  /** If the last delivery was not recorded and the read behind it missed an annotation, the stored state and the
      records of faults do not decide what the receiver was last told. */
  lemma UndecidedBehindMiss(p: Phase, q: Phase) returns (f: Flow, g: Flow)
    requires Completed(p) && Completed(q) && p != q
    ensures Reachable([f]) && Reachable([g]) && Undecided(f, g)
    ensures !f.log.written && f.log.behindMissed && !f.log.readMissed && f.Stored().note == f.Stored().phase
  {
    var start := Restarted(p, q);
    var h := start.history;
    assert Due(h[0]) == Notifying(p) && Due(h[1]) == Notifying(q) && Due(h[3]) == Idle;
    f := OldVersionDelivered(start, 0);
    g := OldVersionDelivered(start, 1);
  }

  /** After a restart the first listing shows an old version `j`, which needs no delivery; then the watch catches up. */
  lemma StaleListing(f: Flow, j: nat) returns (g: Flow)
    requires Reachable([f]) && f.Coherent() && f.worker.Idle? && f.live
    requires j < |f.history| && Due(f.history[j]).Idle? && f.history[j].note != f.Stored().note
    requires f.history[j].phase == f.Stored().phase
    ensures Reachable([g]) && g.Coherent()
    ensures g == f.(cache := Some(|f.history| - 1), events := [], queued := false, log := AfterRead(f.log, true))
  {
    var restarted := Unplugged(f);
    var read := VersionRead(restarted, j);
    assert read == f.(cache := Some(j), events := [], queued := false, log := AfterRead(f.log, true));
    g := CatchesUp(read);
  }

  /** The watch shows the latest version, which has the phase of the one in the cache. */
  lemma CatchesUp(f: Flow) returns (g: Flow)
    requires Reachable([f]) && f.Coherent() && f.events == [] && f.cache.Some? && f.Cached().phase == f.Stored().phase
    ensures Reachable([g]) && g == f.(cache := Some(|f.history| - 1))
  {
    var shown := Shows(f, |f.history| - 1);
    Passed(shown);
    g := Onward(shown, Handle);
  }

  lemma Passed(f: Flow)
    requires f.Coherent() && |f.events| == 1 && !PhaseChanged(f.events[0])
    ensures Next(f, Handle) == f.(events := [])
  {
  }

  /** Version `i` is delivered without record, and a stale listing read after a restart. */
  lemma DeliveredThenStale(f: Flow, i: nat, j: nat) returns (g: Flow)
    requires Reachable([f]) && f.Coherent() && f.events == [] && f.worker.Idle? && f.live
    requires i < |f.history| && Due(f.history[i]).Notifying?
    requires f.cache.Some? ==> f.Cached().phase != f.history[i].phase
    requires j < |f.history| && Due(f.history[j]).Idle? && f.history[j].note != f.Stored().note
    requires f.history[j].phase == f.Stored().phase
    ensures Reachable([g]) && g.Coherent()
    ensures var missed := f.history[i].note != f.Stored().note;
      g == f.(cache := Some(|f.history| - 1), queued := false,
              log := AfterRead(Unrecorded(AfterAccept(AfterRead(f.log, missed), f.history[i].phase)), true))
  {
    var delivered := VersionDelivered(f, i);
    var missed := f.history[i].note != f.Stored().note;
    var log := Unrecorded(AfterAccept(AfterRead(f.log, missed), f.history[i].phase));
    assert delivered == f.(cache := Some(i), queued := true, log := log);
    assert delivered.Stored() == f.Stored();
    g := StaleListing(delivered, j);
  }

  /** A stored history with `p` and `q` both delivered and noted, then `r`, then `p` again. */
  lemma Bounced(p: Phase, q: Phase, r: Phase) returns (f: Flow)
    requires Completed(p) && Completed(q) && p != q
    ensures Reachable([f])
    ensures f == Flow([Object(p, ""), Object(p, p), Object(q, p), Object(q, q), Object(r, q), Object(p, q)], true,
                      Some(2), [], false, Idle, Log([p, q], 0, 0, true, false, false))
  {
    f := SecondDelivery(p, q);
    f := Onward(f, Record);
    var history := [Object(p, ""), Object(p, p), Object(q, p), Object(q, q)];
    assert f == Flow(history, true, Some(2), [], false, Idle, Log([p, q], 0, 0, true, false, false));
    f := Onward(f, SetPhase(r));
    f := Onward(f, SetPhase(p));
    assert f.history == [Object(p, ""), Object(p, p), Object(q, p), Object(q, q), Object(r, q), Object(p, q)];
  }

  /** Nor do they if the last delivery was not recorded and the last read missed an annotation. */
  lemma UndecidedLastMiss(p: Phase, q: Phase, r: Phase) returns (f: Flow, g: Flow)
    requires Completed(p) && Completed(q) && Completed(r) && p != q && q != r && r != p
    ensures Reachable([f]) && Reachable([g]) && Undecided(f, g)
    ensures !f.log.written && !f.log.behindMissed && f.log.readMissed
  {
    var start := Bounced(p, q, r);
    var h := start.history;
    assert h[1] == Object(p, p) && h[4] == Object(r, q) && h[5] == Object(p, q);
    assert Due(h[1]) == Idle && Due(h[4]) == Notifying(r) && Due(h[5]) == Notifying(p);
    f := DeliveredThenStale(start, 5, 1);
    g := DeliveredThenStale(start, 4, 1);
  }

  /** Nor if both reads missed one. */
  lemma UndecidedBothMiss(p: Phase, q: Phase) returns (f: Flow, g: Flow)
    requires Completed(p) && Completed(q) && p != q
    ensures Reachable([f]) && Reachable([g]) && Undecided(f, g)
    ensures !f.log.written && f.log.behindMissed && f.log.readMissed
  {
    var start := Bounced(p, q, q);
    start := Unplugged(start);
    var h := start.history;
    assert h[0] == Object(p, "") && h[1] == Object(p, p) && h[2] == Object(q, p) && h[5] == Object(p, q);
    assert Due(h[0]) == Notifying(p) && Due(h[1]) == Idle && Due(h[2]) == Notifying(q);
    f := DeliveredThenStale(start, 0, 1);
    g := DeliveredThenStale(start, 2, 1);
  }
}
