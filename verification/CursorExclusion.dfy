/** What the lease on the block cursor excludes: who may take the row and when, what its holder leaves behind, and which
    blocks a turn covers. */
module CursorExclusion {
  import opened Wrappers
  import opened CursorLease

  // ----- one step -----

  /** A worker that asks for the row gets it exactly when no cooldown runs and it is not locked, or locked since before
      `staleBefore`; then the row names it and the time. Else the row stays and the worker is gone. */
  lemma LockIff(s: State, w: WorkerId, now: int, staleBefore: int)
    requires Enabled(s, Lock(w, now, staleBefore))
    ensures var row, t := s.row.value, Step(s, Lock(w, now, staleBefore));
            var free := && (row.cooldownUntil == None || row.cooldownUntil.value <= now)
                        && (row.lockedAt == None || row.lockedAt.value < staleBefore);
            && t.row == Some(if free then Row(row.lastProcessed, Some(now), Some(w), row.cooldownUntil) else row)
            && (t.workers[w].phase == Locked <==> free) && (t.workers[w].phase == Gone <==> !free)
  {
  }

  /** The first row of a vault starts at the last synced block, else at the configured one, else 2001 blocks back. */
  lemma FirstRow(s: State, w: WorkerId, configured: Option<nat>, latest: nat, maxBlocks: nat)
    requires s.row.None? && w !in s.workers && maxBlocks >= 1
    ensures var row := Step(Step(s, Begin(w, configured, latest, maxBlocks)), Upsert(w)).row;
            && row.Some? && row.value.lockedAt.None? && row.value.lockedBy.None? && row.value.cooldownUntil.None?
            && row.value.lastProcessed
               == if s.lastSynced.Some? then (if s.lastSynced.value < 0 then 0 else s.lastSynced.value)
                  else if configured.Some? then configured.value
                  else if latest < 2001 then 0 else latest - 2001
  {
  }

  /** A worker that has taken the row goes on from the cursor, or from the last synced block it knows if that is
      later. */
  lemma ReadingIs(s: State, w: WorkerId)
    requires Enabled(s, Read(w))
    ensures var t, known := Step(s, Read(w)), s.workers[w].lastSynced;
            && t.row == s.row && t.workers[w].phase.Claimed?
            && var base := t.workers[w].phase.base;
               && base >= s.row.value.lastProcessed && (known.Some? ==> base >= known.value)
               && (base == s.row.value.lastProcessed || (known.Some? && base == known.value))
  {
  }

  /** Its sync covers the next blocks, as many as it may and as there are, and no others. */
  lemma SyncRange(s: State, w: WorkerId)
    requires Enabled(s, Sync(w))
    ensures var t, base, me := Step(s, Sync(w)), s.workers[w].phase.base, s.workers[w];
            && t.row == s.row && t.workers[w].phase.Synced?
            && var to := t.workers[w].phase.to;
               && to <= me.latest && to - base <= me.maxBlocks && (to == me.latest || to - base == me.maxBlocks)
               && t.lastSynced == Some(to)
               && forall b: int :: b in t.finished <==> b in s.finished || base < b <= to
  {
  }

  /** A completion by the holder puts the cursor at the last block of its range and frees the row; a failure leaves the
      cursor, frees the row and records the cooldown; with nothing to do the cursor is put where the worker took it to
      be. From anyone else none of them does anything to the row. */
  lemma EndingIs(s: State, e: Event)
    requires (e.Complete? || e.Fail? || e.Skip?) && Enabled(s, e)
    ensures var row, phase := s.row.value, s.workers[e.w].phase;
            Step(s, e).row
            == if row.lockedBy != Some(e.w) then Some(row)
               else if e.Fail? then Some(Row(row.lastProcessed, None, None, e.cooldown))
               else Some(Row(if e.Complete? then phase.to else phase.base, None, None, None))
  {
  }

  // ----- whole runs -----

  /** The worker neither completes, nor skips, nor fails. */
  predicate NeverEnds(es: seq<Event>, w: WorkerId) {
    forall e | e in es :: e != Complete(w) && e != Skip(w) && !(e.Fail? && e.w == w)
  }

  lemma HeldRowStays(s: State, e: Event, holder: WorkerId, since: int)
    requires s.row.Some? && s.row.value.lockedBy == Some(holder) && s.row.value.lockedAt == Some(since)
    requires e != Complete(holder) && e != Skip(holder) && !(e.Fail? && e.w == holder)
    requires e.Lock? ==> e.staleBefore <= since
    ensures Step(s, e).row == s.row
  {
  }

  /** While the lock is not stale, no other worker gets in: over any run in which the holder does not end its turn and
      nobody takes a lock of its age for stale, the row stays as it is, whoever tries and whatever they try. */
  lemma {:induction false} HolderKeepsRow(s: State, es: seq<Event>, holder: WorkerId, since: int)
    requires s.row.Some? && s.row.value.lockedBy == Some(holder) && s.row.value.lockedAt == Some(since)
    requires NeverEnds(es, holder) && forall e | e in es && e.Lock? :: e.staleBefore <= since
    ensures Run(s, es).row == s.row
    decreases |es|
  {
    hide Step;
    if es != [] {
      HeldRowStays(s, es[0], holder, since);
      HolderKeepsRow(Step(s, es[0]), es[1..], holder, since);
    }
  }

  lemma CoolingRowStays(s: State, e: Event, until: int)
    requires s.row.Some? && s.row.value.lockedBy == None && s.row.value.cooldownUntil == Some(until)
    requires e.Lock? ==> e.now < until
    ensures Step(s, e).row == s.row
  {
  }

  /** Nobody gets in before a recorded cooldown is over. */
  lemma {:induction false} CooldownKeepsRow(s: State, es: seq<Event>, until: int)
    requires s.row.Some? && s.row.value.lockedBy == None && s.row.value.cooldownUntil == Some(until)
    requires forall e | e in es && e.Lock? :: e.now < until
    ensures Run(s, es).row == s.row
    decreases |es|
  {
    hide Step;
    if es != [] {
      CoolingRowStays(s, es[0], until);
      CooldownKeepsRow(Step(s, es[0]), es[1..], until);
    }
  }

  /** So of two workers that both hold the row one after the other, without the first having ended its turn, the second
      took the first one's lock for stale. */
  lemma TakeoverNeedsStaleLock(s: State, es: seq<Event>, holder: WorkerId, since: int, other: WorkerId)
    requires s.row.Some? && s.row.value.lockedBy == Some(holder) && s.row.value.lockedAt == Some(since)
    requires NeverEnds(es, holder) && other != holder && Holds(Run(s, es), other)
    ensures exists e :: e in es && e.Lock? && e.staleBefore > since
  {
    if forall e | e in es && e.Lock? :: e.staleBefore <= since {
      HolderKeepsRow(s, es, holder, since);
    }
  }
}
