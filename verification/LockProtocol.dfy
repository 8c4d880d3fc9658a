/** The lock file by which concurrent runs of docker/install-dynamic-plugins.py exclude each
    other, as a state machine over any number of processes. */
module LockProtocol {

  /** Where a process is: it tries to create the file, waits for it to disappear, works between
      create_lock and its exit, or is gone.  The exit hook that removes the file is registered
      before the first attempt, so it runs in all three of the live states. */
  datatype Phase = Trying | Waiting | Holding | Gone

  type Pid = nat

  /** `processes` lists the phases by process number; `file` says whether the lock file exists. */
  datatype World = World(processes: seq<Phase>, file: bool)

  datatype Step =
    | Start            // a new process registers its hook
    | Create(p: Pid)   // open(lock_file_path, 'x')
    | Poll(p: Pid)     // one turn of the waiting loop
    | Exit(p: Pid)     // normal end, exception or SIGTERM: the hook removes the file
    | Kill(p: Pid)     // the process ends without running its hook

  predicate Enabled(w: World, s: Step) {
    match s
    case Start => true
    case Create(p) => p < |w.processes| && w.processes[p] == Trying
    case Poll(p) => p < |w.processes| && w.processes[p] == Waiting
    case Exit(p) => p < |w.processes| && w.processes[p] != Gone
    case Kill(p) => p < |w.processes| && w.processes[p] != Gone
  }

  function Next(w: World, s: Step): World
    requires Enabled(w, s)
  {
    match s
    case Start => w.(processes := w.processes + [Trying])
    case Create(p) =>
      if w.file then w.(processes := w.processes[p := Waiting])
      else World(w.processes[p := Holding], true)
    case Poll(p) => if w.file then w else w.(processes := w.processes[p := Trying])
    case Exit(p) => World(w.processes[p := Gone], false)
    case Kill(p) => w.(processes := w.processes[p := Gone])
  }

  ghost predicate Exclusive(w: World) {
    forall p, q :: 0 <= p < q < |w.processes| ==> !(w.processes[p] == Holding && w.processes[q] == Holding)
  }

  ghost predicate Held(w: World) {
    exists p :: 0 <= p < |w.processes| && w.processes[p] == Holding
  }

  /** At most one process works, and the lock file exists exactly while one does. */
  ghost predicate Safe(w: World) {
    Exclusive(w) && (w.file <==> Held(w))
  }

  /** A process that has not got the lock exits while the lock file of another one exists. */
  predicate PrematureExit(w: World, s: Step) {
    s.Exit? && s.p < |w.processes| && w.processes[s.p] != Holding && w.file
  }

  /** The holder is killed: nobody removes its file. */
  predicate HolderKilled(w: World, s: Step) {
    s.Kill? && s.p < |w.processes| && w.processes[s.p] == Holding
  }

  /** One step keeps the invariant if and only if it is neither a premature exit nor the killing
      of the holder. */
  lemma StepSafeExactly(w: World, s: Step)
    requires Safe(w) && Enabled(w, s)
    ensures Safe(Next(w, s)) <==> !PrematureExit(w, s) && !HolderKilled(w, s)
  {
    var w' := Next(w, s);
    if w.file {
      var h :| 0 <= h < |w.processes| && w.processes[h] == Holding;
      if s == Exit(h) || s == Kill(h) {
        assert forall p :: 0 <= p < |w'.processes| ==> w'.processes[p] != Holding;
      } else {
        assert w'.processes[h] == Holding;
      }
    } else if s.Create? {
      assert w'.processes[s.p] == Holding;
    }
  }

  // ----- Whole runs

  /** The world after a sequence of steps, each of which must be possible when it is taken. */
  ghost predicate IsRun(w: World, steps: seq<Step>, w': World)
    decreases |steps|
  {
    if steps == [] then w' == w
    else Enabled(w, steps[0]) && IsRun(Next(w, steps[0]), steps[1..], w')
  }

  /** No step of the run satisfies the given predicate in the world in which it is taken. */
  ghost predicate Never(bad: (World, Step) -> bool, w: World, steps: seq<Step>)
    decreases |steps|
  {
    steps == [] || (!bad(w, steps[0]) && (Enabled(w, steps[0]) ==> Never(bad, Next(w, steps[0]), steps[1..])))
  }

  const INITIAL := World([], false)

  lemma {:induction false} RunSafe(w: World, steps: seq<Step>, w': World)
    requires Safe(w) && IsRun(w, steps, w')
    requires Never(PrematureExit, w, steps) && Never(HolderKilled, w, steps)
    ensures Safe(w')
    decreases |steps|
  {
    if steps != [] {
      StepSafeExactly(w, steps[0]);
      RunSafe(Next(w, steps[0]), steps[1..], w');
    }
  }

  /** From the start, however many processes come and however their steps interleave: while no
      process exits prematurely and no holder is killed, at most one process works at a time and
      the lock file exists exactly while one does. */
  lemma LockSafe(steps: seq<Step>, w: World)
    requires IsRun(INITIAL, steps, w)
    requires Never(PrematureExit, INITIAL, steps) && Never(HolderKilled, INITIAL, steps)
    ensures Safe(w)
  {
    RunSafe(INITIAL, steps, w);
  }

  /** Killed processes cost the file its meaning but never the exclusion. */
  ghost predicate Guarded(w: World) {
    Exclusive(w) && (Held(w) ==> w.file)
  }

  lemma StepGuarded(w: World, s: Step)
    requires Guarded(w) && Enabled(w, s) && !PrematureExit(w, s)
    ensures Guarded(Next(w, s))
  {
    var w' := Next(w, s);
    if h :| 0 <= h < |w'.processes| && w'.processes[h] == Holding {
      if s != Create(h) {
        assert h < |w.processes| && w.processes[h] == Holding;
      }
    }
  }

  lemma {:induction false} ExclusionSurvivesKills(w: World, steps: seq<Step>, w': World)
    requires Guarded(w) && IsRun(w, steps, w') && Never(PrematureExit, w, steps)
    ensures Guarded(w')
    decreases |steps|
  {
    if steps != [] {
      StepGuarded(w, steps[0]);
      ExclusionSurvivesKills(Next(w, steps[0]), steps[1..], w');
    }
  }

  /** Once a holder is gone without removing its file, no process ever gets the lock again,
      unless one that waits for it exits and takes the file along. */
  lemma {:induction false} StaleLockBlocks(w: World, steps: seq<Step>, w': World)
    requires w.file && !Held(w) && IsRun(w, steps, w') && Never(PrematureExit, w, steps)
    ensures w'.file && !Held(w')
    decreases |steps|
  {
    if steps != [] {
      var next := Next(w, steps[0]);
      forall h | 0 <= h < |next.processes|
        ensures next.processes[h] != Holding
      {
        assert h < |w.processes| ==> w.processes[h] != Holding;
      }
      StaleLockBlocks(Next(w, steps[0]), steps[1..], w');
    }
  }

  /** Killing the holder is what leaves such a file. */
  lemma KilledHolderBlocks(w: World, holder: Pid, steps: seq<Step>, w': World)
    requires Safe(w) && holder < |w.processes| && w.processes[holder] == Holding
    requires Never(PrematureExit, w, [Kill(holder)] + steps)
    ensures Enabled(w, Kill(holder))
    ensures IsRun(w, [Kill(holder)] + steps, w') ==> w'.file && !Held(w')
  {
    assert Held(w);
    var all := [Kill(holder)] + steps;
    assert all[0] == Kill(holder) && all[1..] == steps;
    if IsRun(w, all, w') {
      StaleLockBlocks(Next(w, Kill(holder)), steps, w');
    }
  }

  /** A waiting process gets the lock once the holder exits, if no other process is faster. */
  lemma LockPassesOn(w: World, holder: Pid, waiter: Pid)
    requires Safe(w) && holder < |w.processes| && w.processes[holder] == Holding
    requires waiter < |w.processes| && w.processes[waiter] == Waiting
    ensures exists w' :: IsRun(w, [Exit(holder), Poll(waiter), Create(waiter)], w')
                         && w'.processes == w.processes[holder := Gone][waiter := Holding] && Safe(w')
  {
    assert Held(w);
    var steps := [Exit(holder), Poll(waiter), Create(waiter)];
    var w1 := Next(w, steps[0]);
    var w2 := Next(w1, steps[1]);
    var w3 := Next(w2, steps[2]);
    StepSafeExactly(w, steps[0]);
    StepSafeExactly(w1, steps[1]);
    StepSafeExactly(w2, steps[2]);
    assert w3.processes == w.processes[holder := Gone][waiter := Holding];
    assert steps[2..][1..] == [] && IsRun(w2, steps[2..], w3);
    assert steps[1..][1..] == steps[2..] && IsRun(w1, steps[1..], w3);
    assert IsRun(w, steps, w3);
  }

  /** While the file exists, no attempt gets the lock: the process that tries waits, and waits on. */
  lemma LockedOut(w: World, p: Pid)
    requires w.file && p < |w.processes| && w.processes[p] in {Trying, Waiting}
    ensures var s := if w.processes[p] == Trying then Create(p) else Poll(p);
            Enabled(w, s) && Next(w, s) == w.(processes := w.processes[p := Waiting])
  {
    assert w.processes[p] == Waiting ==> w.processes[p := Waiting] == w.processes;
  }

  // ----- The premature exit is a real hole

  /** Whenever the lock is held, the premature exit of a waiting process lets the next one that comes
      work at the same time as the holder. */
  lemma PrematureExitBreaksExclusion(w: World, holder: Pid, waiter: Pid)
    requires Safe(w) && holder < |w.processes| && w.processes[holder] == Holding
    requires waiter < |w.processes| && w.processes[waiter] == Waiting
    ensures PrematureExit(w, Exit(waiter))
    ensures exists w' :: IsRun(w, [Exit(waiter), Start, Create(|w.processes|)], w') && !Exclusive(w')
  {
    assert Held(w);
    var n := |w.processes|;
    var steps := [Exit(waiter), Start, Create(n)];
    var w1 := Next(w, steps[0]);
    var w2 := Next(w1, steps[1]);
    var w3 := Next(w2, steps[2]);
    assert w3.processes[holder] == Holding && w3.processes[n] == Holding;
    assert steps[2..][1..] == [] && IsRun(w2, steps[2..], w3);
    assert steps[1..][1..] == steps[2..] && IsRun(w1, steps[1..], w3);
    assert IsRun(w, steps, w3);
  }

  /** Three processes are enough: the second waits and is terminated while the first still works. */
  lemma ThreeProcesses()
    ensures exists w ::
              && IsRun(INITIAL, [Start, Start, Start, Create(0), Create(1), Exit(1), Create(2)], w)
              && !Exclusive(w)
  {
    var steps := [Start, Start, Start, Create(0), Create(1), Exit(1), Create(2)];
    var w := World([Holding, Gone, Holding], true);
    assert IsRun(World([Holding, Gone, Trying], false), steps[6..], w) by {
      assert steps[6..][1..] == [];
      assert World([Holding, Gone, Trying], false).processes[2 := Holding] == w.processes;
    }
    assert IsRun(World([Holding, Waiting, Trying], true), steps[5..], w) by {
      assert steps[5..][1..] == steps[6..];
      assert [Holding, Waiting, Trying][1 := Gone] == [Holding, Gone, Trying];
    }
    assert IsRun(World([Holding, Trying, Trying], true), steps[4..], w) by {
      assert steps[4..][1..] == steps[5..];
      assert [Holding, Trying, Trying][1 := Waiting] == [Holding, Waiting, Trying];
    }
    assert IsRun(World([Trying, Trying, Trying], false), steps[3..], w) by {
      assert steps[3..][1..] == steps[4..];
      assert [Trying, Trying, Trying][0 := Holding] == [Holding, Trying, Trying];
    }
    assert IsRun(World([Trying, Trying], false), steps[2..], w) by {
      assert steps[2..][1..] == steps[3..];
      assert [Trying, Trying] + [Trying] == [Trying, Trying, Trying];
    }
    assert IsRun(World([Trying], false), steps[1..], w) by {
      assert steps[1..][1..] == steps[2..];
      assert [Trying] + [Trying] == [Trying, Trying];
    }
    assert Next(INITIAL, Start) == World([Trying], false);
    assert IsRun(INITIAL, steps, w);
    assert w.processes[0] == Holding && w.processes[2] == Holding;
  }
}
