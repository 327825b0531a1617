/** The workflow completion notifier (controller/internal/controller/workflow_controller.go) as a transition
    system: the API server's store, the informer's cache and events, the work queue, and Reconcile cut into its
    read, its delivery and its annotation patch, so that crashes and phase changes can fall in between. */
module Notifier {
  import opened Wrappers

  type Phase = string

  const SUCCEEDED: Phase := "Succeeded"
  const FAILED: Phase := "Failed"
  const ERRORED: Phase := "Error"

  predicate Completed(p: Phase) {
    p == SUCCEEDED || p == FAILED || p == ERRORED
  }

  /** The part of a Workflow the controller reads: its phase, and the notified-phase annotation, "" when absent. */
  datatype Object = Object(phase: Phase, note: string)

  datatype Event = Created(obj: Object) | Updated(before: Object, after: Object) | Deleted(obj: Object)

  /** The event filter. */
  predicate PhaseChanged(e: Event) {
    match e
    case Created(_) => true
    case Deleted(_) => false
    case Updated(before, after) => before.phase != after.phase
  }

  /** Where the one worker is in Reconcile. */
  datatype Worker = Idle | Started | Notifying(phase: Phase) | Recording(phase: Phase)

  /** What the webhook and the store have seen of the controller: the phases accepted so far, and the faults,
      which are deliveries whose record failed, was cut off or was left unknown, and reads that missed the latest
      annotation. Of the last accepted delivery it is kept whether its annotation has been written and whether the
      read behind it was such a miss, and of the last read whether it was. */
  datatype Log = Log(
    delivered: seq<Phase>, unrecorded: nat, missed: nat, written: bool, behindMissed: bool, readMissed: bool)

  /** One workflow: every version stored so far, the version in the informer's cache, events not yet handled, its
      place in the queue, and the log. */
  datatype Flow = Flow(
    history: seq<Object>, live: bool,
    cache: Option<nat>, events: seq<Event>, queued: bool, worker: Worker, log: Log)
  {
    predicate Coherent() {
      history != [] && (cache.Some? ==> cache.value < |history|)
    }

    function Stored(): Object
      requires Coherent()
    {
      history[|history| - 1]
    }

    function Cached(): Object
      requires Coherent() && cache.Some?
    {
      history[cache.value]
    }
  }

  /** A workflow as submitted. */
  function Submitted(p: Phase): Flow {
    Flow([Object(p, "")], true, None, [], false, Idle, Log([], 0, 0, true, false, false))
  }

  datatype Action =
    // the world: Argo or a user writes, the watch catches up
    | SetPhase(phase: Phase)
    | Remove
    | Observe(version: nat)
    | Forget
    // the controller
    | Handle
    | Start
    | Read
    | ReadFails
    | Accept
    | AcceptUnseen
    | Refuse
    | Record
    | RecordUnseen
    | RecordFails

  predicate Enabled(f: Flow, a: Action)
    requires f.Coherent()
  {
    match a
    case SetPhase(_) => f.live
    case Remove => f.live
    case Observe(i) => i < |f.history|
    case Forget => !f.live && f.cache.Some?
    case Handle => f.events != []
    case Start => f.queued && f.worker.Idle?
    case Read => f.worker.Started?
    case ReadFails => f.worker.Started?
    case Accept => f.worker.Notifying?
    case AcceptUnseen => f.worker.Notifying?
    case Refuse => f.worker.Notifying?
    case Record => f.worker.Recording?
    case RecordUnseen => f.worker.Recording? && f.live
    case RecordFails => f.worker.Recording?
  }

  /** Reconcile up to the delivery: which phase is to be sent. */
  function Due(o: Object): Worker {
    if !Completed(o.phase) then Idle
    else if o.note == o.phase then Idle
    else Notifying(o.phase)
  }

  /** A failed reconcile goes back to the queue. */
  function Requeued(f: Flow): Flow {
    f.(queued := true, worker := Idle)
  }

  function AfterRead(log: Log, missed: bool): Log {
    log.(missed := log.missed + (if missed then 1 else 0), readMissed := missed)
  }

  function AfterAccept(log: Log, p: Phase): Log {
    log.(delivered := log.delivered + [p], written := false, behindMissed := log.readMissed)
  }

  function Unrecorded(log: Log): Log {
    log.(unrecorded := log.unrecorded + 1)
  }

  function Annotated(f: Flow, note: string): seq<Object>
    requires f.Coherent()
  {
    f.history + [Object(f.Stored().phase, note)]
  }

  function Next(f: Flow, a: Action): (g: Flow)
    requires f.Coherent() && Enabled(f, a)
    ensures g.Coherent()
  {
    match a
    case SetPhase(p) => f.(history := f.history + [Object(p, f.Stored().note)])
    case Remove => f.(live := false)
    case Observe(i) =>
      var o := f.history[i];
      var e := if f.cache.Some? then Updated(f.Cached(), o) else Created(o);
      f.(cache := Some(i), events := f.events + [e])
    case Forget => f.(cache := None, events := f.events + [Deleted(f.Cached())])
    case Handle =>
      var g := f.(events := f.events[1..]);
      if PhaseChanged(f.events[0]) then g.(queued := true) else g
    case Start => f.(queued := false, worker := Started)
    case Read =>
      if f.cache.None? then f.(worker := Idle)
      else
        var o := f.Cached();
        f.(worker := Due(o), log := AfterRead(f.log, o.note != f.Stored().note))
    case ReadFails => Requeued(f)
    case Accept => f.(log := AfterAccept(f.log, f.worker.phase), worker := Recording(f.worker.phase))
    case AcceptUnseen => f.(log := Unrecorded(AfterAccept(f.log, f.worker.phase)))
    case Refuse => Requeued(f)
    case Record =>
      if f.live then f.(history := Annotated(f, f.worker.phase), log := f.log.(written := true), worker := Idle)
      else f.(worker := Idle, log := Unrecorded(f.log))
    case RecordUnseen =>
      Requeued(f.(history := Annotated(f, f.worker.phase), log := Unrecorded(f.log.(written := true))))
    case RecordFails => Requeued(f.(log := Unrecorded(f.log)))
  }

  /** The controller stops: all it holds in memory is gone. */
  function Crashed(f: Flow): Flow {
    f.(cache := None, events := [], queued := false, worker := Idle,
       log := if f.worker.Recording? then Unrecorded(f.log) else f.log)
  }

  // ---------------------------------------------------------------- runs of the whole system

  /** Workflows by order of submission: a name is never used again. */
  type System = seq<Flow>

  datatype Move = Submit(phase: Phase) | At(key: nat, action: Action) | Crash

  predicate Sound(s: System) {
    forall k :: 0 <= k < |s| ==> s[k].Coherent()
  }

  predicate Possible(s: System, m: Move)
    requires Sound(s)
  {
    m.At? ==> m.key < |s| && Enabled(s[m.key], m.action)
  }

  function Moved(s: System, m: Move): (t: System)
    requires Sound(s) && Possible(s, m)
    ensures Sound(t)
  {
    match m
    case Submit(p) => s + [Submitted(p)]
    case At(k, a) => s[k := Next(s[k], a)]
    case Crash => seq(|s|, k requires 0 <= k < |s| => Crashed(s[k]))
  }

  /** `t` is reached from `s` by `run`. */
  predicate Leads(s: System, run: seq<Move>, t: System)
    requires Sound(s)
    decreases |run|
  {
    if run == [] then s == t
    else Possible(s, run[0]) && Leads(Moved(s, run[0]), run[1..], t)
  }

  ghost predicate Reachable(s: System) {
    exists run :: Leads([], run, s)
  }

  // ---------------------------------------------------------------- the invariant

  predicate Passing(events: seq<Event>) {
    exists i :: 0 <= i < |events| && PhaseChanged(events[i])
  }

  /** Something the controller holds will make it look at the workflow again, or it is delivering `p`. */
  predicate Pending(f: Flow, p: Phase) {
    Passing(f.events) || f.queued || f.worker.Started? || f.worker == Notifying(p)
  }

  /** No terminal phase the cache shows is forgotten. */
  predicate Tracked(f: Flow)
    requires f.Coherent()
  {
    f.cache.Some? && Completed(f.Cached().phase) && f.Cached().phase !in f.log.delivered ==> Pending(f, f.Cached().phase)
  }

  /** What is noted, or is about to be, has been delivered. */
  predicate Noted(f: Flow) {
    (forall i :: 0 <= i < |f.history| && f.history[i].note != "" ==> f.history[i].note in f.log.delivered) &&
    (f.worker.Recording? ==> f.worker.phase in f.log.delivered)
  }

  /** Adjacent deliveries of the same phase. */
  function Repeats(log: seq<Phase>): nat {
    if |log| < 2 then 0
    else Repeats(log[..|log| - 1]) + if log[|log| - 1] == log[|log| - 2] then 1 else 0
  }

  predicate LastIs(log: seq<Phase>, p: Phase) {
    log != [] && log[|log| - 1] == p
  }

  /** Every repeat is paid for by a fault; a delivery that may become a repeat is paid for in advance. */
  predicate Paid(f: Flow)
    requires f.Coherent()
  {
    var unnoted := f.log.delivered != [] && !LastIs(f.log.delivered, f.Stored().note);
    var ahead := match f.worker
      case Idle => unnoted
      case Started => unnoted
      case Notifying(q) => unnoted || LastIs(f.log.delivered, q)
      case Recording(_) => false;
    Repeats(f.log.delivered) + (if ahead then 1 else 0) <= f.log.unrecorded + f.log.missed
  }

  predicate Underway(f: Flow) {
    match f.worker
    case Notifying(q) => Completed(q)
    case Recording(q) => LastIs(f.log.delivered, q)
    case _ => true
  }

  predicate Inv(f: Flow) {
    f.Coherent() && Tracked(f) && Noted(f) && Paid(f) && Underway(f)
  }

  lemma PassingKept(events: seq<Event>, e: Event)
    ensures Passing(events + [e]) <==> Passing(events) || PhaseChanged(e)
  {
    var more := events + [e];
    if PhaseChanged(e) {
      assert PhaseChanged(more[|events|]);
    }
    if Passing(events) {
      var i :| 0 <= i < |events| && PhaseChanged(events[i]);
      assert PhaseChanged(more[i]);
    }
  }

  lemma PassingHead(events: seq<Event>)
    requires events != []
    ensures Passing(events) <==> PhaseChanged(events[0]) || Passing(events[1..])
  {
    if Passing(events[1..]) {
      var i :| 0 <= i < |events[1..]| && PhaseChanged(events[1..][i]);
      assert PhaseChanged(events[i + 1]);
    }
    if Passing(events) {
      var i :| 0 <= i < |events| && PhaseChanged(events[i]);
      assert i > 0 ==> PhaseChanged(events[1..][i - 1]);
    }
  }

  lemma TrackedKept(f: Flow, a: Action)
    requires Inv(f) && Enabled(f, a)
    ensures Tracked(Next(f, a))
  {
    var g := Next(f, a);
    match a
    case Observe(i) => PassingKept(f.events, g.events[|f.events|]);
    case Forget =>
    case Handle => PassingHead(f.events);
    case _ =>
  }

  lemma NotedKept(f: Flow, a: Action)
    requires Inv(f) && Enabled(f, a)
    ensures Noted(Next(f, a))
  {
  }

  lemma OneMoreRepeat(log: seq<Phase>, p: Phase)
    ensures Repeats(log + [p]) == Repeats(log) + if LastIs(log, p) then 1 else 0
  {
    assert (log + [p])[..|log|] == log;
  }

  lemma PaidAccept(f: Flow, a: Action)
    requires Inv(f) && Enabled(f, a) && (a.Accept? || a.AcceptUnseen?)
    ensures Paid(Next(f, a)) && Underway(Next(f, a))
  {
    OneMoreRepeat(f.log.delivered, f.worker.phase);
  }

  lemma PaidRead(f: Flow)
    requires Inv(f) && f.worker.Started?
    ensures Paid(Next(f, Read)) && Underway(Next(f, Read))
  {
  }

  lemma PaidRecord(f: Flow, a: Action)
    requires Inv(f) && Enabled(f, a) && (a.Record? || a.RecordUnseen? || a.RecordFails?)
    ensures Paid(Next(f, a)) && Underway(Next(f, a))
  {
  }

  lemma PaidKept(f: Flow, a: Action)
    requires Inv(f) && Enabled(f, a)
    ensures Paid(Next(f, a)) && Underway(Next(f, a))
  {
    if a.Accept? || a.AcceptUnseen? {
      PaidAccept(f, a);
    } else if a.Read? {
      PaidRead(f);
    } else if a.Record? || a.RecordUnseen? || a.RecordFails? {
      PaidRecord(f, a);
    }
  }

  lemma InvKept(f: Flow, a: Action)
    requires Inv(f) && Enabled(f, a)
    ensures Inv(Next(f, a))
  {
    TrackedKept(f, a);
    NotedKept(f, a);
    PaidKept(f, a);
  }

  lemma CrashKept(f: Flow)
    requires Inv(f)
    ensures Inv(Crashed(f))
  {
  }

  ghost predicate AllInv(s: System) {
    forall k :: 0 <= k < |s| ==> Inv(s[k])
  }

  lemma MoveKept(s: System, m: Move)
    requires AllInv(s) && Possible(s, m)
    ensures AllInv(Moved(s, m))
  {
    match m
    case Submit(p) =>
    case At(k, a) => InvKept(s[k], a);
    case Crash =>
      forall k | 0 <= k < |s|
        ensures Inv(Crashed(s[k]))
      {
        CrashKept(s[k]);
      }
  }

  /** Every run keeps the invariant of every workflow. */
  lemma {:induction false} RunKeeps(s: System, run: seq<Move>, t: System)
    requires AllInv(s) && Leads(s, run, t)
    ensures AllInv(t)
    decreases |run|
  {
    if run != [] {
      MoveKept(s, run[0]);
      RunKeeps(Moved(s, run[0]), run[1..], t);
    }
  }

  lemma ReachableInv(s: System)
    requires Reachable(s)
    ensures AllInv(s)
  {
    var run :| Leads([], run, s);
    RunKeeps([], run, s);
  }

  // ---------------------------------------------------------------- what holds of every reachable state

  /** No lost completion: a workflow whose stored phase is terminal has had that phase accepted, or the watch has
      yet to show it, or the controller will look at it again. */
  lemma NoLostCompletion(s: System, k: nat)
    requires Reachable(s) && k < |s|
    ensures s[k].Coherent()
    ensures Completed(s[k].Stored().phase) ==>
      (s[k].Stored().phase in s[k].log.delivered ||
       s[k].cache.None? || s[k].Cached().phase != s[k].Stored().phase ||
       Pending(s[k], s[k].Stored().phase))
  {
    ReachableInv(s);
    assert Inv(s[k]);
  }

  /** A stored annotation tells of an accepted delivery of that very phase. */
  lemma NotesAreTrue(s: System, k: nat)
    requires Reachable(s) && k < |s|
    ensures s[k].Coherent()
    ensures s[k].Stored().note != "" ==> s[k].Stored().note in s[k].log.delivered
  {
    ReachableInv(s);
    assert Inv(s[k]);
  }

  /** Bounded duplication: a phase is delivered twice running at most as often as there were faults. */
  lemma BoundedDuplication(s: System, k: nat)
    requires Reachable(s) && k < |s|
    ensures Repeats(s[k].log.delivered) <= s[k].log.unrecorded + s[k].log.missed
  {
    ReachableInv(s);
    assert Inv(s[k]);
  }

  lemma {:induction false} NoRepeats(log: seq<Phase>)
    requires Repeats(log) == 0
    ensures forall i :: 0 < i < |log| ==> log[i] != log[i - 1]
    decreases |log|
  {
    if |log| >= 2 {
      var front := log[..|log| - 1];
      NoRepeats(front);
      forall i | 0 < i < |log|
        ensures log[i] != log[i - 1]
      {
        if i < |log| - 1 {
          assert front[i] == log[i] && front[i - 1] == log[i - 1];
        }
      }
    }
  }

  /** Without faults, consecutive deliveries always carry different phases. */
  lemma FaultFreeNeverRepeats(s: System, k: nat)
    requires Reachable(s) && k < |s| && s[k].log.unrecorded == 0 && s[k].log.missed == 0
    ensures forall i :: 0 < i < |s[k].log.delivered| ==> s[k].log.delivered[i] != s[k].log.delivered[i - 1]
  {
    BoundedDuplication(s, k);
    NoRepeats(s[k].log.delivered);
  }

  // ---------------------------------------------------------------- one call of Reconcile

  predicate Performs(f: Flow, steps: seq<Action>, g: Flow)
    requires f.Coherent()
    decreases |steps|
  {
    if steps == [] then f == g
    else Enabled(f, steps[0]) && Performs(Next(f, steps[0]), steps[1..], g)
  }

  /** The phase a reconcile now would deliver: terminal, and not the one noted. */
  function ToSend(f: Flow): seq<Phase>
    requires f.Coherent()
  {
    if f.cache.Some? && Completed(f.Cached().phase) && f.Cached().note != f.Cached().phase
    then [f.Cached().phase] else []
  }

  datatype PatchAnswer = Patched | NotFound | Failed(applied: bool)

  /** Reconcile without interruption, given how its three calls out turn out: it delivers exactly when the cached
      phase is terminal and differs from the cached annotation, annotates only when the delivery is accepted, and
      goes back to the queue exactly when it returns an error. */
  method Reconcile(f: Flow, getFails: bool, accepted: bool, patch: PatchAnswer)
    returns (g: Flow, err: bool, ghost steps: seq<Action>)
    requires f.Coherent() && f.worker == Started
    requires patch.NotFound? ==> !f.live
    requires patch.Patched? || (patch.Failed? && patch.applied) ==> f.live
    ensures Performs(f, steps, g) && g.worker == Idle && g.queued == (f.queued || err)
    ensures g.log.delivered == f.log.delivered + if !getFails && accepted then ToSend(f) else []
    ensures g.history == if |g.log.delivered| > |f.log.delivered| && (patch.Patched? || (patch.Failed? && patch.applied))
                         then Annotated(f, f.Cached().phase) else f.history
    ensures err <==> getFails || (ToSend(f) != [] && (!accepted || patch.Failed?))
    ensures !getFails && accepted && f.cache.Some? && f.Cached().phase in {"Succeeded", "Failed", "Error"} &&
            f.Cached().note != f.Cached().phase ==>
      g.log.delivered == f.log.delivered + [f.Cached().phase] &&
      (patch.Patched? ==> g.history == f.history + [Object(f.Stored().phase, f.Cached().phase)])
    ensures f.cache.Some? && f.Cached().phase !in {"Succeeded", "Failed", "Error"} ==>
      g.log.delivered == f.log.delivered && g.history == f.history && (err <==> getFails)
  {
    if getFails {
      steps := [ReadFails];
      return Next(f, ReadFails), true, steps;
    }
    g := Next(f, Read);
    steps := [Read];
    if f.cache.None? || !Completed(f.Cached().phase) {
      return g, false, steps;
    }
    if f.Cached().note == f.Cached().phase {
      return g, false, steps;
    }
    assert g == f.(worker := Notifying(f.Cached().phase), log := g.log);
    if !accepted {
      steps := [Read] + ([Refuse] + []);
      TwoSteps(f, Read, Refuse);
      return Next(g, Refuse), true, steps;
    }
    var last := match patch
      case Patched => Record
      case NotFound => Record
      case Failed(applied) => if applied then RecordUnseen else RecordFails;
    steps := [Read] + ([Accept] + ([last] + []));
    err := patch.Failed?;
    ThreeSteps(f, Read, Accept, last);
    g := Next(Next(g, Accept), last);
  }

  lemma Prepend(f: Flow, a: Action, steps: seq<Action>, g: Flow)
    requires f.Coherent() && Enabled(f, a) && Performs(Next(f, a), steps, g)
    ensures Performs(f, [a] + steps, g)
  {
    assert ([a] + steps)[1..] == steps;
  }

  lemma TwoSteps(f: Flow, a: Action, b: Action)
    requires f.Coherent() && Enabled(f, a) && Enabled(Next(f, a), b)
    ensures Performs(f, [a] + ([b] + []), Next(Next(f, a), b))
  {
    var g := Next(f, a);
    Prepend(g, b, [], Next(g, b));
    Prepend(f, a, [b] + [], Next(g, b));
  }

  lemma ThreeSteps(f: Flow, a: Action, b: Action, c: Action)
    requires f.Coherent() && Enabled(f, a) && Enabled(Next(f, a), b) && Enabled(Next(Next(f, a), b), c)
    ensures Performs(f, [a] + ([b] + ([c] + [])), Next(Next(Next(f, a), b), c))
  {
    var g := Next(f, a);
    var h := Next(g, b);
    Prepend(h, c, [], Next(h, c));
    Prepend(g, b, [c] + [], Next(h, c));
    Prepend(f, a, [b] + ([c] + []), Next(h, c));
  }
}
