/**
  The debounced save protocol of the Store: one timer, a promise chain of async
  writers, a generation counter, and a synchronous flush that overtakes them.

  Every step below is one stretch of JavaScript that no other stretch can
  interrupt. `version` numbers the successive in-memory states, so "the disk
  equals memory" reads `disk == version`. The generation test and the rename it
  guards are one step.
 */
module SaveProtocol {
  import opened Wrappers

  /** How far one call of the async writer has got. `Closing` is what follows the
      test: removing the temp file, or rotating backups. */
  datatype Phase =
    | Queued
    | Started(gen: nat)
    | Written(gen: nat, content: nat)
    | Closing(gen: nat)
    | Done

  datatype Writer = Writer(prev: Option<nat>, phase: Phase)

  datatype State = State(
    version: nat,
    disk: nat,
    timerArmed: bool,
    generation: nat,
    pendingWrite: Option<nat>,
    writers: seq<Writer>)

  const INITIAL := State(0, 0, false, 0, None, [])

  datatype Step =
    | Save                     // a mutation followed by scheduleSave
    | TimerFires
    | WriterStarts(i: nat)     // captures the generation
    | WriterWrites(i: nat)     // snapshots memory into its temp file
    | WriterChecks(i: nat)     // tests the generation; renames if it still holds
    | WriterFails(i: nat)      // the temp-file write or the rename throws
    | WriterSettles(i: nat)
    | Flush(ok: bool)

  predicate Enabled(s: State, step: Step) {
    match step
    case Save => true
    case TimerFires => s.timerArmed
    case WriterStarts(i) =>
      i < |s.writers| && s.writers[i].phase.Queued? &&
      (s.writers[i].prev.None? ||
       (s.writers[i].prev.value < |s.writers| && s.writers[s.writers[i].prev.value].phase.Done?))
    case WriterWrites(i) => i < |s.writers| && s.writers[i].phase.Started?
    case WriterChecks(i) => i < |s.writers| && s.writers[i].phase.Written?
    case WriterFails(i) => i < |s.writers| && (s.writers[i].phase.Started? || s.writers[i].phase.Written?)
    case WriterSettles(i) => i < |s.writers| && s.writers[i].phase.Closing?
    case Flush(_) => true
  }

  function WithPhase(s: State, i: nat, phase: Phase): State
    requires i < |s.writers|
  {
    s.(writers := s.writers[i := s.writers[i].(phase := phase)])
  }

  function Next(s: State, step: Step): State
    requires Enabled(s, step)
  {
    match step
    case Save => s.(version := s.version + 1, timerArmed := true)
    case TimerFires =>
      s.(timerArmed := false,
         pendingWrite := Some(|s.writers|),
         writers := s.writers + [Writer(s.pendingWrite, Queued)])
    case WriterStarts(i) => WithPhase(s, i, Started(s.generation))
    case WriterWrites(i) => WithPhase(s, i, Written(s.writers[i].phase.gen, s.version))
    case WriterChecks(i) =>
      var w := s.writers[i].phase;
      WithPhase(if w.gen == s.generation then s.(disk := w.content) else s, i, Closing(w.gen))
    case WriterFails(i) => WithPhase(s, i, Closing(s.writers[i].phase.gen))
    case WriterSettles(i) =>
      var s' := WithPhase(s, i, Done);
      if s.pendingWrite == Some(i) then s'.(pendingWrite := None) else s'
    case Flush(ok) =>
      s.(timerArmed := false,
         generation := s.generation + 1,
         pendingWrite := None,
         disk := if ok then s.version else s.disk)
  }

  // ---------------------------------------------------------------- Runs

  ghost predicate Legal(s: State, run: seq<Step>)
    decreases |run|
  {
    run == [] || (Enabled(s, run[0]) && Legal(Next(s, run[0]), run[1..]))
  }

  ghost function Run(s: State, run: seq<Step>): State
    requires Legal(s, run)
    decreases |run|
  {
    if run == [] then s else Run(Next(s, run[0]), run[1..])
  }

  /** No writer is waiting for its turn: each has captured a generation. */
  predicate NoQueued(s: State) {
    forall i :: 0 <= i < |s.writers| ==> !s.writers[i].phase.Queued?
  }

  /** A legal run that never flushes while a writer is queued. */
  ghost predicate Disciplined(s: State, run: seq<Step>)
    decreases |run|
  {
    run == [] ||
    (Enabled(s, run[0]) && (run[0].Flush? ==> NoQueued(s)) && Disciplined(Next(s, run[0]), run[1..]))
  }

  /** The version on disk never goes back along the run. */
  ghost predicate Monotone(s: State, run: seq<Step>)
    requires Legal(s, run)
    decreases |run|
  {
    run == [] || (s.disk <= Next(s, run[0]).disk && Monotone(Next(s, run[0]), run[1..]))
  }

  predicate IsFault(step: Step) {
    step.WriterFails? || step == Flush(false)
  }

  ghost predicate FaultFree(run: seq<Step>) {
    forall k :: 0 <= k < |run| ==> !IsFault(run[k])
  }

  /** Nothing fails and nothing is flushed. */
  ghost predicate Calm(run: seq<Step>) {
    forall k :: 0 <= k < |run| ==> !IsFault(run[k]) && !run[k].Flush?
  }

  lemma {:induction false} DisciplinedIsLegal(s: State, run: seq<Step>)
    requires Disciplined(s, run)
    ensures Legal(s, run)
    decreases |run|
  {
    if run != [] {
      DisciplinedIsLegal(Next(s, run[0]), run[1..]);
    }
  }

  // ----------------------------------------------------------- Invariant

  /** A writer that can still publish, or that belongs to the current chain. */
  predicate Live(w: Writer, generation: nat) {
    w.phase.Queued? || (!w.phase.Done? && w.phase.gen == generation)
  }

  /** Writers of the current chain run strictly one after another. */
  ghost predicate Chained(ws: seq<Writer>, generation: nat) {
    && (forall i, j :: 0 <= i < j < |ws| && Live(ws[i], generation) ==> ws[j].phase.Queued?)
    && (forall j :: 0 <= j < |ws| ==> WellLinked(ws, generation, j))
  }

  predicate WellLinked(ws: seq<Writer>, generation: nat, j: nat)
    requires j < |ws|
  {
    ws[j].phase.Queued? ==>
      if ws[j].prev.None? then j == 0 || !Live(ws[j - 1], generation)
      else j > 0 && ws[j].prev.value == j - 1 &&
           (Live(ws[j - 1], generation) || ws[j - 1].phase.Done?)
  }

  ghost predicate PendingIsLast(s: State) {
    match s.pendingWrite
    case None => forall i :: 0 <= i < |s.writers| ==> !Live(s.writers[i], s.generation)
    case Some(k) => k == |s.writers| - 1 && Live(s.writers[k], s.generation)
  }

  ghost predicate ContentsInOrder(s: State) {
    && s.disk <= s.version
    && (forall i :: 0 <= i < |s.writers| ==> CapturedInPast(s, s.writers[i].phase))
  }

  predicate CapturedInPast(s: State, p: Phase) {
    && (p.Started? || p.Written? || p.Closing? ==> p.gen <= s.generation)
    && (p.Written? && p.gen == s.generation ==> s.disk <= p.content <= s.version)
  }

  ghost predicate Inv(s: State) {
    Chained(s.writers, s.generation) && PendingIsLast(s) && ContentsInOrder(s)
  }

  /** Something is on its way that will publish the current version, or it is
      already on disk. */
  ghost predicate Covered(s: State) {
    || s.timerArmed
    || s.disk == s.version
    || (s.pendingWrite.Some? && s.pendingWrite.value < |s.writers| &&
        var p := s.writers[s.pendingWrite.value].phase;
        p.Queued? || p.Started? || (p.Written? && p.content == s.version))
  }

  /** A started writer of the chain moves on. */
  lemma AdvanceKeepsChain(ws: seq<Writer>, generation: nat, i: nat, phase: Phase)
    requires i < |ws| && !ws[i].phase.Queued? && !phase.Queued?
    requires Chained(ws, generation)
    requires Live(ws[i].(phase := phase), generation) ==> Live(ws[i], generation)
    requires Live(ws[i], generation) ==> phase.Done? || Live(ws[i].(phase := phase), generation)
    requires ws[i].phase.Done? ==> phase.Done?
    ensures Chained(ws[i := ws[i].(phase := phase)], generation)
  {
    var ws' := ws[i := ws[i].(phase := phase)];
    forall j | 0 <= j < |ws'| ensures WellLinked(ws', generation, j) {
      assert WellLinked(ws, generation, j);
    }
  }

  lemma StartKeepsInv(s: State, i: nat)
    requires Inv(s) && Enabled(s, WriterStarts(i))
    ensures Inv(Next(s, WriterStarts(i)))
  {
    var ws, g := s.writers, s.generation;
    var ws' := Next(s, WriterStarts(i)).writers;
    assert WellLinked(ws, g, i);
    assert forall k :: 0 <= k < i ==> !Live(ws[k], g) by {
      assert i > 0 ==> !Live(ws[i - 1], g);
    }
    forall j | 0 <= j < |ws'| ensures WellLinked(ws', g, j) {
      assert WellLinked(ws, g, j);
    }
  }

  lemma WriteKeepsInv(s: State, i: nat)
    requires Inv(s) && Enabled(s, WriterWrites(i))
    ensures Inv(Next(s, WriterWrites(i)))
  {
    assert CapturedInPast(s, s.writers[i].phase);
    AdvanceKeepsChain(s.writers, s.generation, i, Written(s.writers[i].phase.gen, s.version));
  }

  lemma CheckKeepsInv(s: State, i: nat)
    requires Inv(s) && Enabled(s, WriterChecks(i))
    ensures Inv(Next(s, WriterChecks(i))) && s.disk <= Next(s, WriterChecks(i)).disk
  {
    var ws, g := s.writers, s.generation;
    assert CapturedInPast(s, ws[i].phase);
    AdvanceKeepsChain(ws, g, i, Closing(ws[i].phase.gen));
    // Only the head of the chain can be past its start.
    assert Live(ws[i], g) ==> forall k :: 0 <= k < |ws| && k != i && Live(ws[k], g) ==> ws[k].phase.Queued?;
  }

  lemma FailKeepsInv(s: State, i: nat)
    requires Inv(s) && Enabled(s, WriterFails(i))
    ensures Inv(Next(s, WriterFails(i)))
  {
    assert CapturedInPast(s, s.writers[i].phase);
    AdvanceKeepsChain(s.writers, s.generation, i, Closing(s.writers[i].phase.gen));
  }

  lemma SettleKeepsInv(s: State, i: nat)
    requires Inv(s) && Enabled(s, WriterSettles(i))
    ensures Inv(Next(s, WriterSettles(i)))
  {
    var ws, g := s.writers, s.generation;
    AdvanceKeepsChain(ws, g, i, Done);
    if s.pendingWrite == Some(i) {
      assert forall k :: 0 <= k < i ==> !Live(ws[k], g);
    }
  }

  lemma TimerKeepsInv(s: State)
    requires Inv(s)
    ensures Inv(s.(timerArmed := false, pendingWrite := Some(|s.writers|),
                   writers := s.writers + [Writer(s.pendingWrite, Queued)]))
  {
    var ws, g := s.writers, s.generation;
    var ws' := ws + [Writer(s.pendingWrite, Queued)];
    forall j | 0 <= j < |ws'| ensures WellLinked(ws', g, j) {
      if j < |ws| {
        assert WellLinked(ws, g, j);
      }
    }
  }

  lemma FlushKeepsInv(s: State, ok: bool)
    requires Inv(s) && NoQueued(s)
    ensures Inv(Next(s, Flush(ok)))
  {
    assert forall i :: 0 <= i < |s.writers| ==>
      CapturedInPast(s, s.writers[i].phase) && !Live(s.writers[i], s.generation + 1);
  }

  lemma StepKeepsInv(s: State, step: Step)
    requires Inv(s) && Enabled(s, step) && (step.Flush? ==> NoQueued(s))
    ensures Inv(Next(s, step)) && s.disk <= Next(s, step).disk
  {
    match step
    case Save =>
    case TimerFires => TimerKeepsInv(s);
    case WriterStarts(i) => StartKeepsInv(s, i);
    case WriterWrites(i) => WriteKeepsInv(s, i);
    case WriterChecks(i) => CheckKeepsInv(s, i);
    case WriterFails(i) => FailKeepsInv(s, i);
    case WriterSettles(i) => SettleKeepsInv(s, i);
    case Flush(ok) => FlushKeepsInv(s, ok);
  }

  lemma StepKeepsCovered(s: State, step: Step)
    requires Inv(s) && Covered(s) && Enabled(s, step) && !IsFault(step)
    requires step.Flush? ==> NoQueued(s)
    ensures Covered(Next(s, step))
  {
  }

  // -------------------------------------------------------- Main results

  /** The published version never goes back, faults included. */
  lemma {:induction false} DisciplinedRunsAreMonotone(s: State, run: seq<Step>)
    requires Inv(s) && Disciplined(s, run)
    ensures Legal(s, run) && Monotone(s, run) && Inv(Run(s, run))
    decreases |run|
  {
    if run != [] {
      StepKeepsInv(s, run[0]);
      DisciplinedRunsAreMonotone(Next(s, run[0]), run[1..]);
    }
  }

  lemma {:induction false} FaultFreeRunsStayCovered(s: State, run: seq<Step>)
    requires Inv(s) && Covered(s) && Disciplined(s, run) && FaultFree(run)
    ensures Legal(s, run) && Inv(Run(s, run)) && Covered(Run(s, run))
    decreases |run|
  {
    if run != [] {
      assert !IsFault(run[0]);
      StepKeepsInv(s, run[0]);
      StepKeepsCovered(s, run[0]);
      assert FaultFree(run[1..]);
      FaultFreeRunsStayCovered(Next(s, run[0]), run[1..]);
    }
  }

  /** Durability: with no timer armed and no writer pending, the disk holds the
      latest in-memory state. */
  lemma QuiescentDiskEqualsMemory(run: seq<Step>)
    requires Disciplined(INITIAL, run) && FaultFree(run)
    ensures Legal(INITIAL, run)
    ensures var s := Run(INITIAL, run);
            !s.timerArmed && s.pendingWrite.None? ==> s.disk == s.version
  {
    FaultFreeRunsStayCovered(INITIAL, run);
  }

  /** A flush that fails leaves what was not yet saved uncovered: it has disarmed the
      timer and silenced the writers. A writer that fails does so when it was the last. */
  lemma FaultUncoversIff(s: State, i: nat)
    ensures Covered(Next(s, Flush(false))) <==> s.disk == s.version
    ensures Enabled(s, WriterFails(i)) && Covered(s) ==>
      (Covered(Next(s, WriterFails(i))) <==> s.timerArmed || s.disk == s.version || s.pendingWrite != Some(i))
  {
  }

  /** The next save covers everything again, faults before it notwithstanding. */
  lemma NextSaveRestoresDurability(s: State, run: seq<Step>)
    requires Inv(s) && Disciplined(Next(s, Save), run) && FaultFree(run)
    ensures Legal(Next(s, Save), run)
    ensures var t := Run(Next(s, Save), run); !t.timerArmed && t.pendingWrite.None? ==> t.disk == t.version
  {
    StepKeepsInv(s, Save);
    FaultFreeRunsStayCovered(Next(s, Save), run);
  }

  /** Writer `i` captured a generation that a later flush has overtaken. */
  predicate Overtaken(s: State, i: nat) {
    i < |s.writers| && !s.writers[i].phase.Queued? &&
    (s.writers[i].phase.Done? || s.writers[i].phase.gen < s.generation)
  }

  /** No step of writer `i` in the run changes the disk. */
  ghost predicate NeverPublishes(s: State, i: nat, run: seq<Step>)
    requires Legal(s, run)
    decreases |run|
  {
    run == [] ||
    ((run[0] == WriterChecks(i) ==> Next(s, run[0]).disk == s.disk) &&
     NeverPublishes(Next(s, run[0]), i, run[1..]))
  }

  /** Whatever happens, faults and careless flushes included, an overtaken writer
      never publishes. */
  lemma {:induction false} OvertakenNeverPublishes(s: State, i: nat, run: seq<Step>)
    requires Overtaken(s, i) && Legal(s, run)
    ensures NeverPublishes(s, i, run) && Overtaken(Run(s, run), i)
    decreases |run|
  {
    if run != [] {
      OvertakenNeverPublishes(Next(s, run[0]), i, run[1..]);
    }
  }

  /** A flush overtakes every writer that has captured its generation. */
  lemma FlushOvertakes(s: State, i: nat, ok: bool, run: seq<Step>)
    requires i < |s.writers| && !s.writers[i].phase.Queued?
    requires CapturedInPast(s, s.writers[i].phase)
    requires Legal(Next(s, Flush(ok)), run)
    ensures NeverPublishes(Next(s, Flush(ok)), i, run)
  {
    OvertakenNeverPublishes(Next(s, Flush(ok)), i, run);
  }

  // ------------------------------------- When a flush is safe, exactly

  /** Nothing that can follow this state, short of another careless flush, makes
      the disk go back. */
  ghost predicate NeverGoesBack(s: State) {
    forall run :: Disciplined(s, run) ==> Legal(s, run) && Monotone(s, run)
  }

  /** ... or at least nothing that has neither a fault nor a flush. */
  ghost predicate CalmNeverGoesBack(s: State) {
    forall run :: Calm(run) && Legal(s, run) ==> Monotone(s, run)
  }

  /** `flushOrThrow` forgets the chain, so a writer still queued on it runs beside
      the next timer's writer, in the same generation. The flush is safe exactly
      when there is none: against every run with faults if so, and otherwise not
      even against the runs where nothing fails and nothing is flushed. */
  lemma FlushIsSafeIffNothingIsQueued(s: State, ok: bool)
    requires Inv(s)
    ensures NeverGoesBack(Next(s, Flush(ok))) <==> NoQueued(s)
    ensures CalmNeverGoesBack(Next(s, Flush(ok))) <==> NoQueued(s)
  {
    var s' := Next(s, Flush(ok));
    if NoQueued(s) {
      StepKeepsInv(s, Flush(ok));
      forall run | Disciplined(s', run) ensures Legal(s', run) && Monotone(s', run) {
        DisciplinedRunsAreMonotone(s', run);
      }
      forall run | Calm(run) && Legal(s', run) ensures Monotone(s', run) {
        CalmIsDisciplined(s', run);
      }
    } else {
      var q := FirstQueued(s);
      var run := OvertakingRun(s, q, ok);
      assert !Monotone(s', run);
    }
  }

  lemma {:induction false} CalmIsDisciplined(s: State, run: seq<Step>)
    requires Calm(run) && Legal(s, run)
    ensures Disciplined(s, run)
    decreases |run|
  {
    if run != [] {
      assert !run[0].Flush? && Calm(run[1..]);
      CalmIsDisciplined(Next(s, run[0]), run[1..]);
    }
  }

  lemma {:induction false} FirstQueuedBelow(s: State, j: nat) returns (q: nat)
    requires j < |s.writers| && s.writers[j].phase.Queued?
    ensures q < |s.writers| && s.writers[q].phase.Queued?
    ensures q > 0 ==> !s.writers[q - 1].phase.Queued?
  {
    if j > 0 && s.writers[j - 1].phase.Queued? {
      q := FirstQueuedBelow(s, j - 1);
    } else {
      q := j;
    }
  }

  lemma FirstQueued(s: State) returns (q: nat)
    requires !NoQueued(s)
    ensures q < |s.writers| && s.writers[q].phase.Queued?
    ensures q > 0 ==> !s.writers[q - 1].phase.Queued?
  {
    var j :| 0 <= j < |s.writers| && s.writers[j].phase.Queued?;
    q := FirstQueuedBelow(s, j);
  }

  /** The steps an overtaken writer takes to finish. */
  function Drain(p: Phase, i: nat): seq<Step>
    decreases if p.Started? then 2 else if p.Written? then 1 else 0
  {
    match p
    case Started(g) => [WriterWrites(i)] + Drain(Written(g, 0), i)
    case Written(g, _) => [WriterChecks(i)] + Drain(Closing(g), i)
    case Closing(_) => [WriterSettles(i)]
    case _ => []
  }

  /** Writer `q` writes the present version, and a newer writer is created. */
  function Hold(q: nat): seq<Step> {
    [WriterStarts(q), WriterWrites(q), Save, TimerFires]
  }

  /** The newer writer `n` publishes, then `q` does. */
  function Overtake(q: nat, n: nat): seq<Step> {
    [WriterStarts(n), WriterWrites(n), WriterChecks(n), WriterChecks(q)]
  }

  lemma {:induction false} MonotonePrefix(s: State, a: seq<Step>, b: seq<Step>)
    requires Disciplined(s, a) && Legal(s, a) && Disciplined(Run(s, a), b)
    ensures Disciplined(s, a + b) && Legal(s, a + b)
    ensures Legal(Run(s, a), b)
    ensures Monotone(s, a + b) ==> Monotone(Run(s, a), b)
    decreases |a|
  {
    DisciplinedIsLegal(Run(s, a), b);
    if a == [] {
      assert a + b == b;
    } else {
      assert (a + b)[0] == a[0] && (a + b)[1..] == a[1..] + b;
      MonotonePrefix(Next(s, a[0]), a[1..], b);
    }
  }

  lemma DrainIgnoresContent(gen: nat, c: nat, d: nat, i: nat)
    ensures Drain(Written(gen, c), i) == Drain(Written(gen, d), i)
  {
  }

  lemma {:induction false} DrainRuns(s: State, i: nat)
    requires i < |s.writers| && s.pendingWrite.None?
    requires var p := s.writers[i].phase; !p.Queued? && (p.Done? || p.gen < s.generation)
    ensures var run := Drain(s.writers[i].phase, i);
            Disciplined(s, run) && Legal(s, run) &&
            Run(s, run) == WithPhase(s, i, Done)
    decreases |Drain(s.writers[i].phase, i)|
  {
    var p := s.writers[i].phase;
    var run := Drain(p, i);
    if p.Done? {
      assert s.writers[i := s.writers[i]] == s.writers;
    } else if p.Closing? {
      assert Run(Next(s, run[0]), []) == Next(s, run[0]);
    } else {
      var s' := Next(s, run[0]);
      if p.Started? {
        DrainIgnoresContent(p.gen, 0, s.version, i);
      }
      assert run[1..] == Drain(s'.writers[i].phase, i);
      DrainRuns(s', i);
      assert WithPhase(s', i, Done) == WithPhase(s, i, Done);
    }
  }

  lemma {:induction false} DrainIsCalm(p: Phase, i: nat)
    ensures Calm(Drain(p, i))
    decreases if p.Started? then 2 else if p.Written? then 1 else 0
  {
    if p.Started? {
      DrainIsCalm(Written(p.gen, 0), i);
    } else if p.Written? {
      DrainIsCalm(Closing(p.gen), i);
    }
  }

  lemma OvertakingIsCalm(p: Phase, i: nat, q: nat, n: nat)
    ensures Calm(Drain(p, i) + (Hold(q) + Overtake(q, n)))
  {
    DrainIsCalm(p, i);
    assert Calm(Hold(q)) && Calm(Overtake(q, n));
  }

  lemma StepThen(s: State, step: Step, rest: seq<Step>)
    requires Enabled(s, step) && !step.Flush? && Legal(Next(s, step), rest) && Disciplined(Next(s, step), rest)
    ensures Legal(s, [step] + rest) && Disciplined(s, [step] + rest)
    ensures Run(s, [step] + rest) == Run(Next(s, step), rest)
  {
    var run := [step] + rest;
    assert run[0] == step && run[1..] == rest;
  }

  lemma SaveThenTimer(s: State, rest: seq<Step>)
    requires var t := Next(Next(s, Save), TimerFires); Legal(t, rest) && Disciplined(t, rest)
    ensures Legal(s, [Save, TimerFires] + rest) && Disciplined(s, [Save, TimerFires] + rest)
    ensures Run(s, [Save, TimerFires] + rest) == Run(Next(Next(s, Save), TimerFires), rest)
  {
    StepThen(Next(s, Save), TimerFires, rest);
    StepThen(s, Save, [TimerFires] + rest);
    assert [Save] + ([TimerFires] + rest) == [Save, TimerFires] + rest;
  }

  lemma HoldRuns(s: State, q: nat)
    requires s.pendingWrite.None? && Enabled(s, WriterStarts(q))
    ensures Disciplined(s, Hold(q)) && Legal(s, Hold(q))
    ensures Run(s, Hold(q)) == State(
              s.version + 1, s.disk, false, s.generation, Some(|s.writers|),
              s.writers[q := s.writers[q].(phase := Written(s.generation, s.version))] + [Writer(None, Queued)])
  {
    var s1 := WithPhase(s, q, Started(s.generation));
    var s2 := WithPhase(s, q, Written(s.generation, s.version));
    var s3 := Next(Next(s2, Save), TimerFires);
    assert Next(s1, WriterWrites(q)) == s2;
    SaveThenTimer(s2, []);
    StepThen(s1, WriterWrites(q), [Save, TimerFires]);
    StepThen(s, WriterStarts(q), [WriterWrites(q), Save, TimerFires]);
    assert [Save, TimerFires] + [] == [Save, TimerFires];
    assert [WriterWrites(q)] + [Save, TimerFires] == [WriterWrites(q), Save, TimerFires];
    assert [WriterStarts(q)] + [WriterWrites(q), Save, TimerFires] == Hold(q);
    assert Run(s3, []) == s3;
  }

  lemma OvertakeGoesBack(s: State, q: nat)
    requires s.pendingWrite.None? && Enabled(s, WriterStarts(q))
    ensures var run := Hold(q) + Overtake(q, |s.writers|);
            Disciplined(s, run) && Legal(s, run) && !Monotone(s, run)
  {
    HoldRuns(s, q);
    OvertakenPublishes(Run(s, Hold(q)), q, Overtake(q, |s.writers|));
    MonotonePrefix(s, Hold(q), Overtake(q, |s.writers|));
  }

  lemma CheckGoesBack(s: State, q: nat)
    requires Enabled(s, WriterChecks(q)) && s.writers[q].phase.gen == s.generation && s.writers[q].phase.content < s.disk
    ensures Disciplined(s, [WriterChecks(q)]) && Legal(s, [WriterChecks(q)]) && !Monotone(s, [WriterChecks(q)])
  {
  }

  lemma OvertakenPublishes(s: State, q: nat, run: seq<Step>)
    requires |s.writers| > 0 && q < |s.writers| - 1
    requires s.writers[|s.writers| - 1] == Writer(None, Queued)
    requires s.writers[q].phase.Written? && s.writers[q].phase.gen == s.generation
    requires s.writers[q].phase.content < s.version
    requires run == Overtake(q, |s.writers| - 1)
    ensures Disciplined(s, run) && Legal(s, run) && !Monotone(s, run)
  {
    hide Disciplined, Legal, Monotone;
    var n := |s.writers| - 1;
    var s1 := WithPhase(s, n, Started(s.generation));
    var s2 := WithPhase(s, n, Written(s.generation, s.version));
    assert Next(s1, run[1]) == s2;
    var s3 := WithPhase(s.(disk := s.version), n, Closing(s.generation));
    assert Next(s2, run[2]) == s3;
    CheckGoesBack(s3, q);
    assert run[3..] == [run[3]];
    BackUp(s2, run, 2);
    BackUp(s1, run, 1);
    BackUp(s, run, 0);
    assert run[0..] == run;
  }

  /** A run that goes back later goes back. */
  lemma BackUp(s: State, run: seq<Step>, k: nat)
    requires k < |run| && Enabled(s, run[k]) && !run[k].Flush?
    requires var s' := Next(s, run[k]);
             Disciplined(s', run[k + 1..]) && Legal(s', run[k + 1..]) && !Monotone(s', run[k + 1..])
    ensures Disciplined(s, run[k..]) && Legal(s, run[k..]) && !Monotone(s, run[k..])
  {
    assert run[k..][0] == run[k] && run[k..][1..] == run[k + 1..];
  }

  lemma OvertakeAfter(s: State, drain: seq<Step>, q: nat)
    requires Disciplined(s, drain) && Legal(s, drain)
    requires Run(s, drain).pendingWrite.None? && Enabled(Run(s, drain), WriterStarts(q))
    ensures var run := drain + (Hold(q) + Overtake(q, |Run(s, drain).writers|));
            Disciplined(s, run) && Legal(s, run) && !Monotone(s, run)
  {
    hide Disciplined, Legal, Monotone, Run, Enabled;
    OvertakeGoesBack(Run(s, drain), q);
    MonotonePrefix(s, drain, Hold(q) + Overtake(q, |Run(s, drain).writers|));
  }

  /** The writer that the first queued one waits for has captured its generation. */
  lemma PredecessorIsCaptured(s: State, q: nat)
    requires Inv(s) && q < |s.writers| && s.writers[q].phase.Queued?
    requires q > 0 ==> !s.writers[q - 1].phase.Queued?
    ensures s.writers[q].prev.Some? ==>
      q > 0 && s.writers[q].prev.value == q - 1 &&
      var p := s.writers[q - 1].phase; p.Done? || p.gen <= s.generation
  {
    assert WellLinked(s.writers, s.generation, q);
    if s.writers[q].prev.Some? {
      assert CapturedInPast(s, s.writers[q - 1].phase);
    }
  }

  /** The run that spoils a careless flush: the running writer finishes, then the
      queued one is overtaken. */
  lemma OvertakingRun(s: State, q: nat, ok: bool) returns (run: seq<Step>)
    requires Inv(s) && q < |s.writers| && s.writers[q].phase.Queued?
    requires q > 0 ==> !s.writers[q - 1].phase.Queued?
    ensures var s' := Next(s, Flush(ok));
            Disciplined(s', run) && Legal(s', run) && !Monotone(s', run)
    ensures Calm(run)
  {
    hide Inv, Monotone, Calm;
    var s' := Next(s, Flush(ok));
    PredecessorIsCaptured(s, q);
    if s.writers[q].prev.None? {
      OvertakeAfter(s', [], q);
      OvertakingIsCalm(Done, 0, q, |s.writers|);
      run := [] + (Hold(q) + Overtake(q, |s.writers|));
    } else {
      var drain := Drain(s.writers[q - 1].phase, q - 1);
      DrainRuns(s', q - 1);
      OvertakeAfter(s', drain, q);
      OvertakingIsCalm(s.writers[q - 1].phase, q - 1, q, |s.writers|);
      run := drain + (Hold(q) + Overtake(q, |s.writers|));
    }
  }

  /** A writer that has started, and a second one that waits for it. */
  lemma QueueForms()
    ensures var run := [Save, TimerFires, WriterStarts(0), Save, TimerFires];
            Calm(run) && Disciplined(INITIAL, run) && Legal(INITIAL, run) && !NoQueued(Run(INITIAL, run))
  {
    var s1 := Next(Next(INITIAL, Save), TimerFires);
    var s2 := Next(s1, WriterStarts(0));
    var s3 := Next(Next(s2, Save), TimerFires);
    SaveThenTimer(s2, []);
    StepThen(s1, WriterStarts(0), [Save, TimerFires]);
    SaveThenTimer(INITIAL, [WriterStarts(0), Save, TimerFires]);
    assert Run(s3, []) == s3 && s3.writers[1].phase.Queued?;
  }

  /** So the program can get there: from the start, without any fault, one flush makes a
      later fault-free run possible in which the disk goes back. */
  lemma CarelessFlushIsReachable(ok: bool) returns (run: seq<Step>)
    ensures Calm(run) && Legal(INITIAL, run)
    ensures !CalmNeverGoesBack(Next(Run(INITIAL, run), Flush(ok)))
  {
    run := [Save, TimerFires, WriterStarts(0), Save, TimerFires];
    QueueForms();
    DisciplinedRunsAreMonotone(INITIAL, run);
    FlushIsSafeIffNothingIsQueued(Run(INITIAL, run), ok);
  }

  /** A write that fails, or a rename, is enough to leave a save uncovered. */
  lemma FailureCanUncover()
    ensures var run := [Save, TimerFires, WriterStarts(0), WriterFails(0)];
            Legal(INITIAL, run) && !Covered(Run(INITIAL, run))
    ensures var run := [Save, TimerFires, WriterStarts(0), WriterWrites(0), WriterFails(0)];
            Legal(INITIAL, run) && !Covered(Run(INITIAL, run))
  {
    hide Covered;
    var s1 := Next(Next(INITIAL, Save), TimerFires);
    var s2 := Next(s1, WriterStarts(0));
    var s3 := Next(s2, WriterWrites(0));
    LastStepUncovers(s2);
    LastStepUncovers(s3);
    StepThen(s2, WriterFails(0), []);
    StepThen(s3, WriterFails(0), []);
    StepThen(s2, WriterWrites(0), [WriterFails(0)]);
    StepThen(s1, WriterStarts(0), [WriterFails(0)]);
    StepThen(s1, WriterStarts(0), [WriterWrites(0), WriterFails(0)]);
    SaveThenTimer(INITIAL, [WriterStarts(0), WriterFails(0)]);
    SaveThenTimer(INITIAL, [WriterStarts(0), WriterWrites(0), WriterFails(0)]);
    assert Run(Next(s2, WriterFails(0)), []) == Next(s2, WriterFails(0)) && Run(Next(s3, WriterFails(0)), []) == Next(s3, WriterFails(0));
  }

  lemma LastStepUncovers(s: State)
    requires Enabled(s, WriterFails(0)) && !s.timerArmed && s.disk != s.version && s.pendingWrite == Some(0)
    ensures !Covered(Next(s, WriterFails(0)))
  {
  }

  // ------------------------------------------------------- The program

  /** The fields of the Store that take part, and the writers in flight. Each
      method is one uninterrupted stretch of the program. */
  class Store {
    var version: nat
    var disk: nat
    var timerArmed: bool
    var writeGeneration: nat
    var pendingWrite: Option<nat>
    var writers: seq<Writer>

    constructor ()
      ensures View() == INITIAL
    {
      version, disk, timerArmed, writeGeneration, pendingWrite, writers := 0, 0, false, 0, None, [];
    }

    function View(): State
      reads this
    {
      State(version, disk, timerArmed, writeGeneration, pendingWrite, writers)
    }

    method MutateAndScheduleSave()
      modifies this
      ensures View() == Next(old(View()), Save)
    {
      version := version + 1;
      if timerArmed {
        timerArmed := false;
      }
      timerArmed := true;
    }

    method OnWriteTimer()
      requires timerArmed
      modifies this
      ensures View() == Next(old(View()), TimerFires)
    {
      timerArmed := false;
      var prev := pendingWrite;
      writers := writers + [Writer(prev, Queued)];
      pendingWrite := Some(|writers| - 1);
    }

    method SetPhase(i: nat, phase: Phase)
      requires i < |writers|
      modifies this`writers
      ensures View() == WithPhase(old(View()), i, phase)
    {
      writers := writers[i := writers[i].(phase := phase)];
    }

    method StartWriter(i: nat)
      requires Enabled(View(), WriterStarts(i))
      modifies this
      ensures View() == Next(old(View()), WriterStarts(i))
    {
      SetPhase(i, Started(writeGeneration));
    }

    method WriteTempFile(i: nat)
      requires Enabled(View(), WriterWrites(i))
      modifies this
      ensures View() == Next(old(View()), WriterWrites(i))
    {
      SetPhase(i, Written(writers[i].phase.gen, version));
    }

    method CheckAndRename(i: nat)
      requires Enabled(View(), WriterChecks(i))
      modifies this
      ensures View() == Next(old(View()), WriterChecks(i))
    {
      var w := writers[i].phase;
      if writeGeneration == w.gen {
        disk := w.content;
      }
      SetPhase(i, Closing(w.gen));
    }

    method FailWriter(i: nat)
      requires Enabled(View(), WriterFails(i))
      modifies this
      ensures View() == Next(old(View()), WriterFails(i))
    {
      SetPhase(i, Closing(writers[i].phase.gen));
    }

    method SettleWriter(i: nat)
      requires Enabled(View(), WriterSettles(i))
      modifies this
      ensures View() == Next(old(View()), WriterSettles(i))
    {
      SetPhase(i, Done);
      if pendingWrite == Some(i) {
        pendingWrite := None;
      }
    }

    method FlushOrThrow(diskWorks: bool) returns (thrown: bool)
      modifies this
      ensures View() == Next(old(View()), Flush(diskWorks)) && thrown == !diskWorks
    {
      if timerArmed {
        timerArmed := false;
      }
      writeGeneration := writeGeneration + 1;
      pendingWrite := None;
      if diskWorks {
        disk := version;
      }
      thrown := !diskWorks;
    }
  }
}
