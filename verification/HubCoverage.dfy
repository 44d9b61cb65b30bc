/** When a viewed poll has a subscription: an exact condition on the run, and the race that breaks it. */
module HubCoverage {
  import opened Hub

  predicate EnsurePending(s: State, p: string) {
    exists i | 0 <= i < |s.threads| :: s.threads[i] == Thread(p, EnsureDue)
  }

  /** The poll has a subscription, or a thread is about to make one. */
  predicate Covered(s: State, p: string) {
    p in s.hub.subs || EnsurePending(s, p)
  }

  /** The step runs the next section of a thread that stands at `t`. */
  predicate Runs(s: State, step: Step, t: Thread) {
    step.Do? && step.thread < |s.threads| && s.threads[step.thread] == t
  }

  /** An ensure of the poll asks Redis and is refused. */
  predicate SubscribeFails(s: State, step: Step, p: string) {
    Runs(s, step, Thread(p, EnsureDue)) && p !in s.hub.subs && !step.ok
  }

  /** A stop takes the poll's entry out while no ensure is still to come. */
  predicate StopsLate(s: State, step: Step, p: string) {
    Runs(s, step, Thread(p, StopDue)) && !EnsurePending(s, p)
  }

  /** Since the poll last went from no viewer to one, no ensure was refused and no late stop ran. */
  ghost predicate Intact(run: seq<Step>, p: string) {
    run == [] ||
    var before, step := run[..|run| - 1], run[|run| - 1];
    if !Viewed(After(before), p) && Viewed(After(run), p) then true
    else !SubscribeFails(After(before), step, p) && !StopsLate(After(before), step, p) && Intact(before, p)
  }

  /** Only the thread a step names can start or end an ensure. */
  lemma PendingStep(s: State, step: Step, p: string)
    requires ClientsRight(s) && OneEnsure(s)
    ensures var s' := Next(s, step);
      EnsurePending(s', p) <==>
        !Runs(s, step, Thread(p, EnsureDue))
        && (EnsurePending(s, p) || (Runs(s, step, Thread(p, Arriving)) && !Viewed(s, p)))
  {
    var s' := Next(s, step);
    if EnsurePending(s, p) {
      var j :| 0 <= j < |s.threads| && s.threads[j] == Thread(p, EnsureDue);
      assert !step.Do? || step.thread != j ==> s'.threads[j] == Thread(p, EnsureDue);
    }
    if EnsurePending(s', p) {
      var j :| 0 <= j < |s'.threads| && s'.threads[j] == Thread(p, EnsureDue);
      assert j < |s.threads|;
      assert !step.Do? || step.thread != j ==> s.threads[j] == Thread(p, EnsureDue);
    }
    if Runs(s, step, Thread(p, Arriving)) {
      var i := step.thread;
      assert ClientRight(s, p, i);
      FirstMeansAlone(s.hub, p, i);
      assert !Viewed(s, p) ==> s'.threads[i] == Thread(p, EnsureDue);
    }
  }

  lemma SubsStep(s: State, step: Step, p: string)
    ensures var s' := Next(s, step);
      p in s'.hub.subs <==>
        !Runs(s, step, Thread(p, StopDue)) && (p in s.hub.subs || (Runs(s, step, Thread(p, EnsureDue)) && step.ok))
  {
  }

  lemma ViewedStep(s: State, step: Step, p: string)
    ensures !Viewed(s, p) && Viewed(Next(s, step), p) ==>
      Runs(s, step, Thread(p, Arriving))
  {
  }

  lemma CoverageStep(s: State, step: Step, p: string)
    requires ClientsRight(s) && OneEnsure(s) && Viewed(Next(s, step), p)
    ensures Covered(Next(s, step), p) <==>
      !Viewed(s, p) || (Covered(s, p) && !SubscribeFails(s, step, p) && !StopsLate(s, step, p))
  {
    PendingStep(s, step, p);
    SubsStep(s, step, p);
    ViewedStep(s, step, p);
  }

  /** A viewed poll is covered if and only if the run is intact for it. */
  lemma {:induction false} CoveredIffIntact(run: seq<Step>, p: string)
    ensures Viewed(After(run), p) ==> (Covered(After(run), p) <==> Intact(run, p))
  {
    if run != [] && Viewed(After(run), p) {
      var before := run[..|run| - 1];
      CoveredIffIntact(before, p);
      ViewersAreClients(before);
      CoverageStep(After(before), run[|run| - 1], p);
    }
  }

  /**
   If the poll became viewed in step n and since then no ensure was refused and no stop ran while it had viewers, it is
   covered for as long as it has viewers.
   */
  lemma {:induction false} CoveredUnlessRaced(run: seq<Step>, n: nat, p: string)
    requires n < |run| && !Viewed(After(run[..n]), p)
    requires forall k | n < k <= |run| :: Viewed(After(run[..k]), p)
    requires forall k | n < k < |run| ::
      !SubscribeFails(After(run[..k]), run[k], p)
      && !Runs(After(run[..k]), run[k], Thread(p, StopDue))
    ensures Covered(After(run), p)
  {
    var before, step := run[..|run| - 1], run[|run| - 1];
    ViewersAreClients(before);
    assert run[..|run|] == run;
    if n == |run| - 1 {
      assert run[..n] == before;
    } else {
      forall k | 0 <= k <= |before| ensures before[..k] == run[..k] {
      }
      CoveredUnlessRaced(before, n, p);
      assert run[..|run| - 1] == before;
    }
    CoverageStep(After(before), step, p);
  }

  lemma ViewedBefore(run: seq<Step>, n: nat, p: string)
    requires n < |run| && forall k | n <= k <= |run| :: Viewed(After(run[..k]), p)
    ensures var before := run[..|run| - 1];
      && (forall k | n <= k <= |before| :: Viewed(After(before[..k]), p))
      && Viewed(After(before), p) && Viewed(After(run), p)
  {
    var before := run[..|run| - 1];
    forall k | n <= k <= |before| ensures Viewed(After(before[..k]), p) {
      assert before[..k] == run[..k];
    }
    assert before[..|before|] == before && run[..|run|] == run;
  }

  /** Nobody repairs the damage: an uncovered poll stays uncovered until its last viewer has left. */
  lemma {:induction false} UncoveredStaysUncovered(run: seq<Step>, n: nat, p: string)
    requires n <= |run| && !Covered(After(run[..n]), p)
    requires forall k | n <= k <= |run| :: Viewed(After(run[..k]), p)
    ensures !Covered(After(run), p)
  {
    if n == |run| {
      assert run[..n] == run;
    } else {
      var before := run[..|run| - 1];
      assert before[..n] == run[..n];
      ViewedBefore(run, n, p);
      UncoveredStaysUncovered(before, n, p);
      ViewersAreClients(before);
      CoverageStep(After(before), run[|run| - 1], p);
    }
  }

  lemma Follow(run: seq<Step>, step: Step)
    ensures After(run + [step]) == Next(After(run), step)
  {
    assert (run + [step])[..|run|] == run;
  }

  /**
   Thread 0 views, ensures and unregisters as the last viewer; thread 1 registers as first, finds the old entry and
   keeps it; then thread 0's stop runs, cancels and waits.
   */
  const RaceRun: seq<Step> := [
    Connect("p"), Do(0, true), Do(0, true), Do(0, true),
    Connect("p"), Do(1, true), Do(1, true),
    Do(0, true), Do(0, true), Finish(0), Do(0, true)]

  lemma RaceOpens() returns (run: seq<Step>)
    ensures run == RaceRun[..4]
    ensures After(run) == State(Shared(map[], map["p" := 0], [Subscriber("p", false, false)]), [Thread("p", StopDue)])
  {
    var r0: seq<Step> := [];
    Follow(r0, Connect("p"));
    var r1 := r0 + [Connect("p")];
    Follow(r1, Do(0, true));
    var r2 := r1 + [Do(0, true)];
    assert After(r2) == State(Shared(map["p" := {0}], map[], []), [Thread("p", EnsureDue)]);
    Follow(r2, Do(0, true));
    var r3 := r2 + [Do(0, true)];
    Follow(r3, Do(0, true));
    run := r3 + [Do(0, true)];
  }

  lemma RaceNewViewer() returns (run: seq<Step>)
    ensures run == RaceRun[..7]
    ensures After(run) == State(Shared(map["p" := {1}], map["p" := 0], [Subscriber("p", false, false)]),
                                [Thread("p", StopDue), Thread("p", Watching)])
  {
    var r4 := RaceOpens();
    Follow(r4, Connect("p"));
    var r5 := r4 + [Connect("p")];
    Follow(r5, Do(1, true));
    var r6 := r5 + [Do(1, true)];
    assert After(r6).threads == [Thread("p", StopDue), Thread("p", EnsureDue)];
    assert After(r6).hub == Shared(map["p" := {1}], map["p" := 0], [Subscriber("p", false, false)]);
    Follow(r6, Do(1, true));
    run := r6 + [Do(1, true)];
    assert After(run).threads == [Thread("p", StopDue), Thread("p", Watching)];
  }

  /** Redis never refused anything, nobody has anything left to do, and the poll is viewed and uncovered. */
  lemma StaleStopUncovers()
    ensures var s := After(RaceRun);
      && Quiet(s) && Viewed(s, "p") && !Covered(s, "p")
      && forall k | 0 <= k < |RaceRun| :: RaceRun[k].Do? ==> RaceRun[k].ok
  {
    var r7 := RaceNewViewer();
    Follow(r7, Do(0, true));
    var r8 := r7 + [Do(0, true)];
    assert After(r8).threads == [Thread("p", CancelDue(0)), Thread("p", Watching)];
    Follow(r8, Do(0, true));
    var r9 := r8 + [Do(0, true)];
    assert After(r9).threads == [Thread("p", Waiting(0)), Thread("p", Watching)];
    assert After(r9).hub == Shared(map["p" := {1}], map[], [Subscriber("p", true, false)]);
    Follow(r9, Finish(0));
    var r10 := r9 + [Finish(0)];
    Follow(r10, Do(0, true));
    var r11 := r10 + [Do(0, true)];
    assert After(r11).threads == [Thread("p", Gone), Thread("p", Watching)];
    assert RaceRun == r11;
  }
}
