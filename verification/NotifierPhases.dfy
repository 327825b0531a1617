/** The phases Argo gives a workflow, and what the controller does about each
    (controller/api/v1alpha1/types.go, controller/internal/controller/workflow_controller.go). */
module NotifierPhases {
  import opened Wrappers
  import opened Notifier

  /** Three phases are terminal; the unknown, pending and running ones are not, nor is any other text. */
  lemma TerminalPhases()
    ensures forall p :: Completed(p) <==> p == "Succeeded" || p == "Failed" || p == "Error"
    ensures !Completed("") && !Completed("Pending") && !Completed("Running")
  {
    assert "Failed"[0] == 'F' && "Succeeded"[0] == 'S' && "Error"[0] == 'E';
    assert "Pending"[0] == 'P' && "Running"[0] == 'R';
  }

  /** A read finds something to deliver exactly when the cache shows a terminal phase other than the one noted; and
      nothing but a read does. */
  lemma Delivers(f: Flow, a: Action)
    requires f.Coherent() && Enabled(f, a)
    ensures a.Read? && f.cache.Some? && f.Cached().phase in {"Succeeded", "Failed", "Error"} && f.Cached().note != f.Cached().phase ==>
      Next(f, a).worker == Notifying(f.Cached().phase)
    ensures !f.worker.Notifying? && Next(f, a).worker.Notifying? ==>
      a.Read? && f.cache.Some? && f.Cached().phase in {"Succeeded", "Failed", "Error"} && f.Cached().note != f.Cached().phase
  {
    TerminalPhases();
  }

  /** What is accepted is the phase that was read, and what is noted the phase that was accepted. */
  lemma Passes(f: Flow, a: Action)
    requires f.Coherent() && Enabled(f, a)
    ensures Next(f, a).log.delivered ==
      if a.Accept? || a.AcceptUnseen? then f.log.delivered + [f.worker.phase] else f.log.delivered
    ensures a.Accept? ==> Next(f, a).worker == Recording(f.worker.phase)
    ensures a.AcceptUnseen? ==> Next(f, a).worker == f.worker
    ensures a.RecordUnseen? || (a.Record? && f.live) ==>
      Next(f, a).history == f.history + [Object(f.Stored().phase, f.worker.phase)]
    ensures a.SetPhase? ==> Next(f, a).history == f.history + [Object(a.phase, f.Stored().note)]
    ensures !a.RecordUnseen? && !(a.Record? && f.live) && !a.SetPhase? ==> Next(f, a).history == f.history
  {
  }

  /** A reconcile that fails is queued again; one that has nothing to do, or is done, is not. */
  lemma Requeues(f: Flow, a: Action)
    requires f.Coherent() && Enabled(f, a)
    ensures a.ReadFails? || a.Refuse? || a.RecordUnseen? || a.RecordFails? ==> Next(f, a).queued && Next(f, a).worker.Idle?
    ensures a.Record? ==> Next(f, a).worker.Idle? && Next(f, a).queued == f.queued
    ensures a.Start? ==> !Next(f, a).queued && Next(f, a).worker.Started?
  {
  }

  /** The event filter: a first sight and a change of phase are queued, a deletion and any other update are not. */
  lemma Filtered(f: Flow)
    requires f.Coherent() && f.events != []
    ensures var g := Next(f, Handle);
      g == f.(events := f.events[1..], queued := g.queued) &&
      (g.queued <==> f.queued || f.events[0].Created? ||
                     (f.events[0].Updated? && f.events[0].before.phase != f.events[0].after.phase))
  {
  }

  /** Nothing is too unlikely: a workflow may change phase or be removed at any time, the watch may show any version, old
      ones included, and forgets only what is gone; and every call may fail, a write also after it was carried out. */
  lemma MayHappen(f: Flow, p: Phase, version: nat)
    requires f.Coherent()
    ensures f.live ==> Enabled(f, SetPhase(p)) && Enabled(f, Remove) && !Next(f, Remove).live
    ensures version < |f.history| ==> Enabled(f, Observe(version)) && Next(f, Observe(version)).cache == Some(version)
    ensures Enabled(f, Forget) <==> !f.live && f.cache.Some?
    ensures f.worker.Started? ==> Enabled(f, Read) && Enabled(f, ReadFails)
    ensures f.worker.Notifying? ==> Enabled(f, Accept) && Enabled(f, AcceptUnseen) && Enabled(f, Refuse)
    ensures f.worker.Recording? ==> Enabled(f, Record) && Enabled(f, RecordFails) && (f.live ==> Enabled(f, RecordUnseen))
    ensures f.queued && f.worker.Idle? ==> Enabled(f, Start)
    ensures f.events != [] ==> Enabled(f, Handle)
  {
  }

  /** A restart leaves what is stored and what was told, and nothing the controller knew. */
  lemma Restarts(f: Flow)
    ensures var g := Crashed(f);
      g.history == f.history && g.live == f.live && g.log.delivered == f.log.delivered &&
      g.cache.None? && g.events == [] && !g.queued && g.worker.Idle? &&
      g.log.unrecorded == f.log.unrecorded + if f.worker.Recording? then 1 else 0
  {
  }

  /** No completion is lost, whichever of the three it is. */
  lemma NothingLost(s: System, k: nat)
    requires Reachable(s) && k < |s|
    ensures s[k].Coherent()
    ensures s[k].Stored().phase in {"Succeeded", "Failed", "Error"} ==>
      s[k].Stored().phase in s[k].log.delivered ||
      s[k].cache.None? || s[k].Cached().phase != s[k].Stored().phase ||
      s[k].queued || s[k].worker == Started || s[k].worker == Notifying(s[k].Stored().phase) ||
      exists i :: 0 <= i < |s[k].events| && (s[k].events[i].Created? ||
        (s[k].events[i].Updated? && s[k].events[i].before.phase != s[k].events[i].after.phase))
  {
    TerminalPhases();
    NoLostCompletion(s, k);
  }
}
