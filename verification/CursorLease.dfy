/** The block cursor of one vault: workers on any number of machines claim a shared row by compare-and-set, lose it when
    their lock goes stale, and complete or fail guarded by `lockedBy`. Every database call is one step; clocks are
    arbitrary integers and a worker may stop for ever between any two steps. */
module CursorLease {
  import opened Wrappers

  type WorkerId(==, !new) = nat

  /** A row of `chain_event_cursors`. */
  datatype Row = Row(lastProcessed: nat, lockedAt: Option<int>, lockedBy: Option<WorkerId>, cooldownUntil: Option<int>)

  /** Where a worker stands in its turn at one vault. */
  datatype Phase =
    | Fresh               // has read the pool row and the chain head
    | Upserted            // the cursor row exists
    | Locked              // the compare-and-set took the row
    | Claimed(base: nat)  // has read the row back; `base` is the last block it takes as processed
    | Synced(to: nat)     // its sync has finished
    | Gone                // finished, refused or dead

  datatype Worker = Worker(lastSynced: Option<int>, startBlock: int, latest: nat, maxBlocks: nat, phase: Phase)

  /** `start` is the block the row was created with; `finished` holds the blocks of every finished sync. */
  datatype State = State(
    row: Option<Row>, lastSynced: Option<int>, workers: map<WorkerId, Worker>, start: Option<nat>, finished: set<int>)

  datatype Event =
    | Begin(w: WorkerId, configuredStart: Option<nat>, latest: nat, maxBlocks: nat)
    | Upsert(w: WorkerId)
    | Lock(w: WorkerId, now: int, staleBefore: int)
    | Read(w: WorkerId)
    | Skip(w: WorkerId)
    | Sync(w: WorkerId)
    | Complete(w: WorkerId)
    | Fail(w: WorkerId, cooldown: Option<int>)
    | Crash(w: WorkerId)

  function Max(a: int, b: int): int { if a < b then b else a }

  function Min(a: int, b: int): int { if a < b then a else b }

  function Or(o: Option<int>, d: int): int { if o.Some? then o.value else d }

  // ----- the row -----

  /** The row `claimChainEventCursor` creates when there is none. */
  function Created(startBlock: int): Row { Row(Max(0, startBlock), None, None, None) }

  function UpsertRow(row: Option<Row>, startBlock: int): Row {
    if row.Some? then row.value else Created(startBlock)
  }

  /** The condition of the compare-and-set. */
  predicate Claimable(row: Row, now: int, staleBefore: int) {
    && (row.cooldownUntil.None? || row.cooldownUntil.value <= now)
    && (row.lockedAt.None? || row.lockedAt.value < staleBefore)
  }

  function LockRow(row: Row, w: WorkerId, now: int): Row { row.(lockedAt := Some(now), lockedBy := Some(w)) }

  function CompleteRow(row: Row, w: WorkerId, block: int): Row {
    if row.lockedBy == Some(w) then Row(Max(0, block), None, None, None) else row
  }

  function FailRow(row: Row, w: WorkerId, cooldown: Option<int>): Row {
    if row.lockedBy == Some(w) then Row(row.lastProcessed, None, None, cooldown) else row
  }

  // ----- a worker's turn -----

  function StartBlock(lastSynced: Option<int>, configured: Option<nat>, latest: nat): int {
    if lastSynced.Some? then lastSynced.value
    else if configured.Some? then configured.value
    else Max(0, latest - 2001)
  }

  function Base(row: Row, lastSynced: Option<int>): nat { Max(row.lastProcessed, Or(lastSynced, 0)) }

  /** The last block of the range a worker syncs. */
  function ToBlock(base: nat, latest: nat, maxBlocks: nat): nat { Min(latest, base + maxBlocks) }

  function Blocks(lo: int, hi: int): (r: set<int>)
    ensures forall b :: b in r <==> lo <= b <= hi
    decreases hi - lo
  {
    if hi < lo then {} else {lo} + Blocks(lo + 1, hi)
  }

  function SetPhase(s: State, w: WorkerId, phase: Phase): State
    requires w in s.workers
  {
    s.(workers := s.workers[w := s.workers[w].(phase := phase)])
  }

  predicate Enabled(s: State, e: Event) {
    match e
    case Begin(w, _, _, maxBlocks) => w !in s.workers && maxBlocks >= 1
    case Upsert(w) => w in s.workers && s.workers[w].phase.Fresh?
    case Lock(w, _, _) => w in s.workers && s.workers[w].phase.Upserted? && s.row.Some?
    case Read(w) => w in s.workers && s.workers[w].phase.Locked? && s.row.Some?
    case Skip(w) =>
      w in s.workers && s.workers[w].phase.Claimed? && s.workers[w].latest <= s.workers[w].phase.base && s.row.Some?
    case Sync(w) => w in s.workers && s.workers[w].phase.Claimed? && s.workers[w].phase.base < s.workers[w].latest
    case Complete(w) => w in s.workers && s.workers[w].phase.Synced? && s.row.Some?
    case Fail(w, _) =>
      && w in s.workers && s.row.Some?
      && (s.workers[w].phase.Synced?
          || (s.workers[w].phase.Claimed? && s.workers[w].phase.base < s.workers[w].latest))
    case Crash(w) => w in s.workers
  }

  function Apply(s: State, e: Event): State
    requires Enabled(s, e)
  {
    match e
    case Begin(w, configured, latest, maxBlocks) =>
      var start := StartBlock(s.lastSynced, configured, latest);
      s.(workers := s.workers[w := Worker(s.lastSynced, start, latest, maxBlocks, Fresh)])
    case Upsert(w) =>
      var row := UpsertRow(s.row, s.workers[w].startBlock);
      SetPhase(s, w, Upserted).(row := Some(row), start := if s.row.None? then Some(row.lastProcessed) else s.start)
    case Lock(w, now, staleBefore) =>
      if Claimable(s.row.value, now, staleBefore) then
        SetPhase(s, w, Locked).(row := Some(LockRow(s.row.value, w, now)))
      else
        SetPhase(s, w, Gone)
    case Read(w) =>
      SetPhase(s, w, Claimed(Base(s.row.value, s.workers[w].lastSynced)))
    case Skip(w) =>
      SetPhase(s, w, Gone).(row := Some(CompleteRow(s.row.value, w, s.workers[w].phase.base)))
    case Sync(w) =>
      var base := s.workers[w].phase.base;
      var to := ToBlock(base, s.workers[w].latest, s.workers[w].maxBlocks);
      SetPhase(s, w, Synced(to)).(lastSynced := Some(to), finished := s.finished + Blocks(base + 1, to))
    case Complete(w) =>
      SetPhase(s, w, Gone).(row := Some(CompleteRow(s.row.value, w, s.workers[w].phase.to)))
    case Fail(w, cooldown) =>
      SetPhase(s, w, Gone).(row := Some(FailRow(s.row.value, w, cooldown)))
    case Crash(w) =>
      SetPhase(s, w, Gone)
  }

  /** A step that cannot happen changes nothing. */
  function Step(s: State, e: Event): State { if Enabled(s, e) then Apply(s, e) else s }

  function Run(s: State, es: seq<Event>): State
    decreases |es|
  {
    if es == [] then s else Run(Step(s, es[0]), es[1..])
  }

  /** No row yet, no worker yet; the pool may carry any last synced block. */
  predicate Initial(s: State) { s.row.None? && s.start.None? && s.workers == map[] && s.finished == {} }

  // ----- safety -----

  /** Every block after the starting block and up to `b` was inside a finished sync. */
  ghost predicate Covered(s: State, b: int) {
    s.start.Some? && forall x | s.start.value < x <= b :: x in s.finished
  }

  ghost predicate Lagging(s: State, o: Option<int>) { o.Some? ==> Covered(s, o.value) }

  predicate Holds(s: State, w: WorkerId) { s.row.Some? && s.row.value.lockedBy == Some(w) }

  /** What one worker may believe: its blocks are covered, and while it holds the row nobody has moved it further. */
  ghost predicate WorkerOk(s: State, w: WorkerId)
    requires w in s.workers
  {
    var me := s.workers[w];
    && (s.row.None? ==> (me.phase.Fresh? || me.phase.Gone?) && me.lastSynced == s.lastSynced)
    && (me.lastSynced.Some? && s.row.None? ==> me.startBlock == me.lastSynced.value)
    && (s.row.Some? ==> Lagging(s, me.lastSynced))
    && (me.phase.Fresh? || me.phase.Upserted? ==> !Holds(s, w))
    && (me.phase.Claimed? ==>
          Covered(s, me.phase.base) && (Holds(s, w) ==> s.row.value.lastProcessed <= me.phase.base))
    && (me.phase.Synced? ==>
          Covered(s, me.phase.to) && (Holds(s, w) ==> s.row.value.lastProcessed <= me.phase.to))
  }

  ghost predicate Inv(s: State) {
    && (s.row.None? <==> s.start.None?)
    && (s.row.None? ==> s.finished == {})
    && (s.row.Some? ==> Covered(s, s.row.value.lastProcessed) && Lagging(s, s.lastSynced))
    && (s.row.Some? && s.row.value.lockedBy.Some? ==> s.row.value.lockedBy.value in s.workers)
    && (forall w | w in s.workers :: WorkerOk(s, w))
  }

  lemma CoverageGrows(s: State, e: Event, b: int)
    requires Inv(s) && s.row.Some? && Covered(s, b)
    ensures Covered(Step(s, e), b)
  {
  }

  /** The blocks a step may newly rely on. */
  lemma NewCoverage(s: State, e: Event)
    requires Inv(s) && Enabled(s, e)
    ensures var t := Apply(s, e);
            && (e.Upsert? && s.row.None? ==>
                  && Covered(t, t.row.value.lastProcessed) && Lagging(t, t.lastSynced)
                  && forall w | w in t.workers :: Lagging(t, t.workers[w].lastSynced))
            && (e.Read? ==> Covered(t, t.workers[e.w].phase.base))
            && (e.Sync? ==> Covered(t, t.workers[e.w].phase.to) && Lagging(t, t.lastSynced))
  {
    var t := Apply(s, e);
    if e.w in s.workers { assert WorkerOk(s, e.w); }
    if e.Upsert? && s.row.None? {
      forall w | w in t.workers ensures Lagging(t, t.workers[w].lastSynced) { assert WorkerOk(s, w); }
    }
  }

  lemma WorkerStaysOk(s: State, e: Event, w: WorkerId)
    requires Inv(s) && Enabled(s, e) && w in Apply(s, e).workers
    ensures WorkerOk(Apply(s, e), w)
  {
    var t := Apply(s, e);
    if w in s.workers { assert WorkerOk(s, w); }
    NewCoverage(s, e);
    if s.row.Some? {
      forall b | Covered(s, b) ensures Covered(t, b) { CoverageGrows(s, e, b); }
    }
    hide Covered, StartBlock, ToBlock, Claimable;
  }

  lemma StepKeepsInv(s: State, e: Event)
    requires Inv(s)
    ensures Inv(Step(s, e))
  {
    if Enabled(s, e) {
      var t := Apply(s, e);
      forall w | w in t.workers ensures WorkerOk(t, w) { WorkerStaysOk(s, e, w); }
      NewCoverage(s, e);
      if e.w in s.workers { assert WorkerOk(s, e.w); }
      if s.row.Some? {
        forall b | Covered(s, b) ensures Covered(t, b) { CoverageGrows(s, e, b); }
      }
      hide Covered, WorkerOk;
    }
  }

  /** The cursor only moves forward, from its own holder's step, and the starting block never changes. */
  lemma StepMovesForward(s: State, e: Event)
    requires Inv(s) && s.row.Some?
    ensures var t := Step(s, e);
            && t.row.Some? && t.start == s.start && s.finished <= t.finished
            && s.row.value.lastProcessed <= t.row.value.lastProcessed
            && (t.row.value.lastProcessed != s.row.value.lastProcessed ==> Holds(s, e.w))
  {
    if e.w in s.workers { assert WorkerOk(s, e.w); }
  }

  lemma {:induction false} RunKeepsInv(s: State, es: seq<Event>)
    requires Inv(s)
    ensures Inv(Run(s, es))
    decreases |es|
  {
    if es != [] {
      StepKeepsInv(s, es[0]);
      RunKeepsInv(Step(s, es[0]), es[1..]);
    }
  }

  lemma {:induction false} RunMovesForward(s: State, es: seq<Event>)
    requires Inv(s) && s.row.Some?
    ensures var t := Run(s, es);
            t.row.Some? && t.start == s.start && s.row.value.lastProcessed <= t.row.value.lastProcessed
    decreases |es|
  {
    if es != [] {
      StepKeepsInv(s, es[0]);
      StepMovesForward(s, es[0]);
      RunMovesForward(Step(s, es[0]), es[1..]);
    }
  }

  lemma {:induction false} RunSplits(s: State, es: seq<Event>, fs: seq<Event>)
    ensures Run(s, es + fs) == Run(Run(s, es), fs)
    decreases |es|
  {
    if es == [] {
      assert es + fs == fs;
    } else {
      assert (es + fs)[0] == es[0] && (es + fs)[1..] == es[1..] + fs;
      RunSplits(Step(s, es[0]), es[1..], fs);
    }
  }

  /** Main result: in every interleaving, at every moment, each block after the starting block and up to the cursor was
      inside a finished sync, and whatever happens next the cursor does not go back. */
  lemma CursorIsSafe(s: State, es: seq<Event>, fs: seq<Event>)
    requires Initial(s) && Run(s, es).row.Some?
    ensures var now, later := Run(s, es), Run(s, es + fs);
            && now.start.Some? && (forall b | now.start.value < b <= now.row.value.lastProcessed :: b in now.finished)
            && later.row.Some? && later.start == now.start
            && now.row.value.lastProcessed <= later.row.value.lastProcessed
  {
    RunKeepsInv(s, es);
    RunSplits(s, es, fs);
    RunMovesForward(Run(s, es), fs);
  }
}
