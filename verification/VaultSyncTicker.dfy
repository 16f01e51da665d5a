/** The ticker that walks the pools, and the cursor table it shares with other tickers. Its methods update the tables
    in place; a ghost history ties each pool to the step machine of `CursorLease`, so whatever holds over every
    interleaving of that machine holds of these methods. */
module VaultSyncTicker {
  import opened Wrappers
  import opened CursorLease

  type Key = string

  /** A pool row: its cursor key, and whether its vault address is known or can be resolved. */
  datatype Pool = Pool(key: Key, resolves: bool)

  /** How a sync with the completion after it ends. A cooldown is given exactly for rate-limit errors. */
  datatype Outcome = Done | Threw(afterSync: bool, cooldown: Option<int>)

  /** The readings of one turn: chain head, clocks and what the sync meets. */
  datatype Turn = Turn(
    configuredStart: Option<nat>, latest: nat, maxBlocks: nat, now: int, staleBefore: int, outcome: Outcome)

  function Ending(w: WorkerId, t: Turn): seq<Event> {
    match t.outcome
    case Done => [Sync(w), Complete(w)]
    case Threw(afterSync, cooldown) => (if afterSync then [Sync(w)] else []) + [Fail(w, cooldown)]
  }

  /** The steps of one turn after the reading it starts from; a step that does not apply does nothing. */
  function Rest(w: WorkerId, t: Turn): seq<Event> {
    [Upsert(w), Lock(w, t.now, t.staleBefore), Read(w), Skip(w)] + Ending(w, t)
  }

  /** The reading of the pool row and the chain head. */
  function Started(w: WorkerId, t: Turn): Event { Begin(w, t.configuredStart, t.latest, t.maxBlocks) }

  /** The database steps of one turn. */
  function Events(w: WorkerId, t: Turn): seq<Event> { [Started(w, t)] + Rest(w, t) }

  /** A worker has read the pool and stands before its turn; `known` is the last synced block it read. */
  ghost predicate Reader(s: State, w: WorkerId, known: Option<int>, t: Turn) {
    && w in s.workers
    && s.workers[w] == Worker(known, StartBlock(known, t.configuredStart, t.latest), t.latest, t.maxBlocks, Fresh)
  }

  function Get<V>(m: map<Key, V>, key: Key): Option<V> { if key in m then Some(m[key]) else None }

  /** The row and the last synced block a turn leaves behind that began with `known` read, however long ago. */
  function TurnEffect(row: Option<Row>, lastSynced: Option<int>, known: Option<int>, w: WorkerId, t: Turn)
    : (Option<Row>, Option<int>)
  {
    var row := UpsertRow(row, StartBlock(known, t.configuredStart, t.latest));
    if !Claimable(row, t.now, t.staleBefore) then (Some(row), lastSynced)
    else
      var mine := LockRow(row, w, t.now);
      var base := Base(mine, known);
      var to := ToBlock(base, t.latest, t.maxBlocks);
      if t.latest <= base then (Some(CompleteRow(mine, w, base)), lastSynced)
      else match t.outcome
        case Done => (Some(CompleteRow(mine, w, to)), Some(to))
        case Threw(afterSync, cooldown) =>
          (Some(FailRow(mine, w, cooldown)), if afterSync then Some(to) else lastSynced)
  }

  /** Whether a turn takes the cursor, finds blocks to sync, syncs and completes them, or meets a rate limit. */
  predicate Claims(row: Option<Row>, known: Option<int>, t: Turn) {
    Claimable(UpsertRow(row, StartBlock(known, t.configuredStart, t.latest)), t.now, t.staleBefore)
  }

  predicate Behind(row: Option<Row>, known: Option<int>, t: Turn) {
    Claims(row, known, t) && Base(UpsertRow(row, StartBlock(known, t.configuredStart, t.latest)), known) < t.latest
  }

  predicate Syncs(row: Option<Row>, known: Option<int>, t: Turn) { Behind(row, known, t) && t.outcome.Done? }

  predicate Limited(row: Option<Row>, known: Option<int>, t: Turn) {
    Behind(row, known, t) && t.outcome.Threw? && t.outcome.cooldown.Some?
  }

  lemma RunCons(s: State, e: Event, es: seq<Event>)
    ensures Run(s, [e] + es) == Run(Step(s, e), es)
  {
    assert ([e] + es)[1..] == es;
  }

  /** The state in which a turn's sync starts, if it comes to that. */
  function Opened(s: State, w: WorkerId, t: Turn): State {
    var s := Step(s, Upsert(w));
    var s := Step(s, Lock(w, t.now, t.staleBefore));
    var s := Step(s, Read(w));
    Step(s, Skip(w))
  }

  lemma RunOfTurn(s: State, w: WorkerId, t: Turn)
    ensures Run(s, Rest(w, t)) == Run(Opened(s, w, t), Ending(w, t))
  {
    hide Step;
    var b, c, d, e, tail := Upsert(w), Lock(w, t.now, t.staleBefore), Read(w), Skip(w), Ending(w, t);
    assert Rest(w, t) == [b] + ([c] + ([d] + ([e] + tail)));
    var s2 := Step(s, b);
    var s3 := Step(s2, c);
    RunCons(s, b, [c] + ([d] + ([e] + tail)));
    RunCons(s2, c, [d] + ([e] + tail));
    RunCons(s3, d, [e] + tail);
    RunCons(Step(s3, d), e, tail);
  }

  lemma RunOfEnding(s: State, w: WorkerId, t: Turn)
    ensures t.outcome.Done? ==> Run(s, Ending(w, t)) == Step(Step(s, Sync(w)), Complete(w))
    ensures t.outcome.Threw? ==>
              Run(s, Ending(w, t))
              == Step(if t.outcome.afterSync then Step(s, Sync(w)) else s, Fail(w, t.outcome.cooldown))
  {
    hide Step;
    match t.outcome {
      case Done =>
        RunCons(s, Sync(w), [Complete(w)]);
        RunCons(Step(s, Sync(w)), Complete(w), []);
      case Threw(afterSync, cooldown) =>
        var s' := if afterSync then Step(s, Sync(w)) else s;
        if afterSync { RunCons(s, Sync(w), [Fail(w, cooldown)]); }
        RunCons(s', Fail(w, cooldown), []);
    }
  }

  /** After the claim and the read the worker is gone, or stands before its range with the row locked. */
  lemma OpenedIs(s: State, w: WorkerId, known: Option<int>, t: Turn)
    requires Reader(s, w, known, t)
    ensures var row := UpsertRow(s.row, StartBlock(known, t.configuredStart, t.latest));
            var mine := LockRow(row, w, t.now);
            var base := Base(mine, known);
            var o := Opened(s, w, t);
            && o.workers.Keys == s.workers.Keys && o.lastSynced == s.lastSynced
            && if !Claimable(row, t.now, t.staleBefore) then
                 o.row == Some(row) && o.workers[w].phase == Gone
               else if t.latest <= base then
                 o.row == Some(CompleteRow(mine, w, base)) && o.workers[w].phase == Gone
               else
                 && o.row == Some(mine) && o.workers[w].phase == Claimed(base)
                 && o.workers[w].latest == t.latest && o.workers[w].maxBlocks == t.maxBlocks
  {
    hide Claimable, StartBlock, Base, LockRow, UpsertRow, CompleteRow, FailRow;
  }

  lemma EndingIs(s: State, w: WorkerId, t: Turn)
    requires w in s.workers && s.row.Some? && (s.workers[w].phase.Claimed? || s.workers[w].phase.Gone?)
    requires s.workers[w].phase.Claimed? ==> s.workers[w].phase.base < s.workers[w].latest
    ensures var r := Run(s, Ending(w, t));
            && r.workers.Keys == s.workers.Keys
            && if s.workers[w].phase.Gone? then r.row == s.row && r.lastSynced == s.lastSynced
               else
                 var to := ToBlock(s.workers[w].phase.base, s.workers[w].latest, s.workers[w].maxBlocks);
                 match t.outcome
                 case Done => r.row == Some(CompleteRow(s.row.value, w, to)) && r.lastSynced == Some(to)
                 case Threw(afterSync, cooldown) =>
                   && r.row == Some(FailRow(s.row.value, w, cooldown))
                   && r.lastSynced == if afterSync then Some(to) else s.lastSynced
  {
    RunOfEnding(s, w, t);
    hide Run, Ending, CompleteRow, FailRow, ToBlock, Blocks;
  }

  /** A turn taken at once is the machine's steps taken one by one, whatever happened since its worker read the pool. */
  lemma TurnIsItsSteps(s: State, w: WorkerId, known: Option<int>, t: Turn)
    requires Reader(s, w, known, t)
    ensures var r := Run(s, Rest(w, t));
            && (r.row, r.lastSynced) == TurnEffect(s.row, s.lastSynced, known, w, t)
            && r.workers.Keys == s.workers.Keys
  {
    hide Run, Ending, Rest, Opened, Claimable, Base, StartBlock, LockRow, UpsertRow, ToBlock, CompleteRow, FailRow;
    RunOfTurn(s, w, t);
    OpenedIs(s, w, known, t);
    EndingIs(Opened(s, w, t), w, t);
  }

  /** What a turn comes to. It does nothing to a row that cools down or is locked and not stale. Else it goes on from
      the cursor, or from the last synced block it read if that is later; with no block to sync it frees the row there.
      It syncs the next blocks, as many as it may and as there are, and ends with the cursor at the last of them and the
      row free; if the sync or the completion throws, the cursor stays, and a rate limit leaves its cooldown. */
  lemma TurnOutcome(row: Row, lastSynced: Option<int>, known: Option<int>, w: WorkerId, t: Turn)
    ensures var (row', lastSynced') := TurnEffect(Some(row), lastSynced, known, w, t);
            var base := if known.Some? && known.value > row.lastProcessed then known.value else row.lastProcessed;
            var to := if t.latest - base <= t.maxBlocks then t.latest else base + t.maxBlocks;
            if !((row.cooldownUntil == None || row.cooldownUntil.value <= t.now)
                 && (row.lockedAt == None || row.lockedAt.value < t.staleBefore)) then
              row' == Some(row) && lastSynced' == lastSynced
            else if t.latest <= base then row' == Some(Row(base, None, None, None)) && lastSynced' == lastSynced
            else match t.outcome
              case Done => row' == Some(Row(to, None, None, None)) && lastSynced' == Some(to)
              case Threw(synced, cooldown) =>
                && row' == Some(Row(row.lastProcessed, None, None, cooldown))
                && lastSynced' == if synced then Some(to) else lastSynced
  {
  }

  /** And how it is counted: as a claim if it takes the row, as synced if it also finds blocks and nothing throws, as
      rate limited if it finds blocks and throws with a cooldown. */
  lemma TurnCounts(row: Row, known: Option<int>, t: Turn)
    ensures var free := && (row.cooldownUntil == None || row.cooldownUntil.value <= t.now)
                        && (row.lockedAt == None || row.lockedAt.value < t.staleBefore);
            var behind := free && row.lastProcessed < t.latest && (known.Some? ==> known.value < t.latest);
            && (Claims(Some(row), known, t) <==> free)
            && (Syncs(Some(row), known, t) <==> behind && t.outcome.Done?)
            && (Limited(Some(row), known, t) <==> behind && t.outcome.Threw? && t.outcome.cooldown.Some?)
  {
  }

  /** A history is safe and ends in the row and the last synced block the tables hold. */
  ghost predicate Agrees(s: State, row: Option<Row>, lastSynced: Option<int>, nextWorker: WorkerId) {
    s.row == row && s.lastSynced == lastSynced && Inv(s) && forall w | w in s.workers :: w < nextWorker
  }

  lemma TurnAgrees(s: State, row: Option<Row>, lastSynced: Option<int>, nextWorker: WorkerId, w: WorkerId,
                   known: Option<int>, t: Turn)
    requires Agrees(s, row, lastSynced, nextWorker) && Reader(s, w, known, t)
    ensures var (row', lastSynced') := TurnEffect(row, lastSynced, known, w, t);
            && Agrees(Run(s, Rest(w, t)), row', lastSynced', nextWorker)
            && (row.Some? ==> row'.Some? && row.value.lastProcessed <= row'.value.lastProcessed)
  {
    hide Run, Rest, TurnEffect, Inv, Reader;
    TurnIsItsSteps(s, w, known, t);
    RunKeepsInv(s, Rest(w, t));
    if row.Some? { RunMovesForward(s, Rest(w, t)); }
  }

  /** Reading a pool changes neither its row nor its last synced block. */
  lemma StartAgrees(s: State, row: Option<Row>, lastSynced: Option<int>, w: WorkerId, t: Turn)
    requires Agrees(s, row, lastSynced, w) || (row == None && s == Unmet(lastSynced))
    requires t.maxBlocks >= 1
    ensures Agrees(Step(s, Started(w, t)), row, lastSynced, w + 1)
    ensures Reader(Step(s, Started(w, t)), w, lastSynced, t)
  {
    assert Inv(s);
    StepKeepsInv(s, Started(w, t));
    hide Inv, StartBlock;
  }

  lemma LockingKeepsBase(row: Row, w: WorkerId, now: int, known: Option<int>)
    ensures Base(LockRow(row, w, now), known) == Base(row, known)
  {
  }

  function Unmet(lastSynced: Option<int>): State { State(None, lastSynced, map[], None, {}) }

  /** The history of one pool: a pool no turn has met has none. */
  ghost function WorldOf(worlds: map<Key, State>, lastSynced: map<Key, int>, key: Key): State {
    if key in worlds then worlds[key] else Unmet(Get(lastSynced, key))
  }

  /** From `before` to `after`, the first `n` pools were read, in order, by workers numbered from `first` on. */
  ghost predicate ReadBy(before: Key -> State, after: Key -> State, pools: seq<Pool>, turns: seq<Turn>,
                         first: WorkerId, n: nat)
    requires n <= |pools| == |turns|
  {
    && (forall i | 0 <= i < n :: after(pools[i].key) == Step(before(pools[i].key), Started(first + i, turns[i])))
    && (forall key | (forall i | 0 <= i < n :: pools[i].key != key) :: after(key) == before(key))
  }

  /** From `before` to `after`, all pools were read and those of the first `visited` that have a vault then had their
      turn, each by its reader. */
  ghost predicate Walked(before: Key -> State, after: Key -> State, pools: seq<Pool>, turns: seq<Turn>,
                         first: WorkerId, visited: nat)
    requires visited <= |pools| == |turns|
  {
    && (forall i | 0 <= i < |pools| ::
          after(pools[i].key)
          == if i < visited && pools[i].resolves then Run(before(pools[i].key), Events(first + i, turns[i]))
             else Step(before(pools[i].key), Started(first + i, turns[i])))
    && (forall key | (forall i | 0 <= i < |pools| :: pools[i].key != key) :: after(key) == before(key))
  }

  /** Every row has a history, and every history ends in what the tables hold. */
  ghost predicate Told(worlds: map<Key, State>, cursors: map<Key, Row>, lastSynced: map<Key, int>,
                       nextWorker: WorkerId)
  {
    && (forall key | key in cursors :: key in worlds)
    && (forall key | key in worlds :: Agrees(worlds[key], Get(cursors, key), Get(lastSynced, key), nextWorker))
  }

  lemma ToldOn(worlds: map<Key, State>, cursors: map<Key, Row>, lastSynced: map<Key, int>, nextWorker: WorkerId,
               key: Key, s: State, cursors': map<Key, Row>, lastSynced': map<Key, int>)
    requires Told(worlds, cursors, lastSynced, nextWorker)
    requires Agrees(s, Get(cursors', key), Get(lastSynced', key), nextWorker)
    requires forall k | k != key :: Get(cursors', k) == Get(cursors, k) && Get(lastSynced', k) == Get(lastSynced, k)
    ensures Told(worlds[key := s], cursors', lastSynced', nextWorker)
  {
    hide Agrees;
    forall k | k in cursors' ensures k == key || k in worlds { assert k != key ==> Get(cursors, k).Some?; }
  }

  lemma ToldLater(worlds: map<Key, State>, cursors: map<Key, Row>, lastSynced: map<Key, int>, nextWorker: WorkerId)
    requires Told(worlds, cursors, lastSynced, nextWorker)
    ensures Told(worlds, cursors, lastSynced, nextWorker + 1)
  {
  }

  ghost predicate Distinct(pools: seq<Pool>) { forall i, j | 0 <= i < j < |pools| :: pools[i].key != pools[j].key }

  /** How many of the first `n` pools are claimed. */
  ghost function ClaimCount(before: Key -> State, pools: seq<Pool>, turns: seq<Turn>, n: nat): nat
    requires n <= |pools| == |turns|
  {
    if n == 0 then 0
    else
      var s := before(pools[n - 1].key);
      ClaimCount(before, pools, turns, n - 1)
      + if pools[n - 1].resolves && Claims(s.row, s.lastSynced, turns[n - 1]) then 1 else 0
  }

  ghost predicate SyncedAt(before: Key -> State, pools: seq<Pool>, turns: seq<Turn>, i: nat)
    requires i < |pools| == |turns|
  {
    var s := before(pools[i].key); pools[i].resolves && Syncs(s.row, s.lastSynced, turns[i])
  }

  ghost predicate LimitedAt(before: Key -> State, pools: seq<Pool>, turns: seq<Turn>, i: nat)
    requires i < |pools| == |turns|
  {
    var s := before(pools[i].key); pools[i].resolves && Limited(s.row, s.lastSynced, turns[i])
  }

  /** What the first `visited` visits came to: every visit began with pools left to claim and no rate limit met. */
  ghost predicate Tallied(before: Key -> State, pools: seq<Pool>, turns: seq<Turn>, visited: nat,
                          claimed: nat, synced: bool, limit: nat)
    requires visited <= |pools| == |turns|
  {
    && claimed == ClaimCount(before, pools, turns, visited)
    && (synced <==> exists i :: 0 <= i < visited && SyncedAt(before, pools, turns, i))
    && (visited > 0 ==> ClaimCount(before, pools, turns, visited - 1) < limit)
    && (forall i | 0 <= i < visited - 1 :: !LimitedAt(before, pools, turns, i))
  }

  lemma TallyOn(before: Key -> State, pools: seq<Pool>, turns: seq<Turn>, visited: nat,
                claimed: nat, synced: bool, limit: nat)
    requires visited < |pools| == |turns| && Tallied(before, pools, turns, visited, claimed, synced, limit)
    requires claimed < limit && (visited > 0 ==> !LimitedAt(before, pools, turns, visited - 1))
    ensures var s := before(pools[visited].key);
            Tallied(before, pools, turns, visited + 1,
                    claimed + (if pools[visited].resolves && Claims(s.row, s.lastSynced, turns[visited]) then 1 else 0),
                    synced || SyncedAt(before, pools, turns, visited), limit)
  {
    hide Claims, Syncs, Limited;
  }

  /** The pool whose turn comes next stands as its reader left it, with the row it had before the tick. */
  lemma NextIsRead(before: Key -> State, now: Key -> State, known: map<Key, int>, pools: seq<Pool>, turns: seq<Turn>,
                   first: WorkerId, visited: nat)
    requires visited < |pools| == |turns| && turns[visited].maxBlocks >= 1
    requires Walked(before, now, pools, turns, first, visited) && Readable(before, known, first)
    ensures var key := pools[visited].key;
            && Reader(now(key), first + visited, Get(known, key), turns[visited])
            && now(key).row == before(key).row && before(key).lastSynced == Get(known, key)
  {
    hide Run, Events, StartBlock;
    assert first + visited !in before(pools[visited].key).workers;
  }

  /** The last synced blocks are those of the histories, whose workers are numbered below `first`. */
  ghost predicate Readable(before: Key -> State, known: map<Key, int>, first: WorkerId) {
    forall key :: before(key).lastSynced == Get(known, key) && forall w | w in before(key).workers :: w < first
  }

  lemma WalkOn(before: Key -> State, now: Key -> State, after: Key -> State, pools: seq<Pool>, turns: seq<Turn>,
               first: WorkerId, visited: nat)
    requires visited < |pools| == |turns| && Distinct(pools)
    requires Walked(before, now, pools, turns, first, visited)
    requires var key, w := pools[visited].key, first + visited;
             && after(key) == (if pools[visited].resolves then Run(now(key), Rest(w, turns[visited])) else now(key))
             && forall k | k != key :: after(k) == now(k)
    ensures Walked(before, after, pools, turns, first, visited + 1)
  {
    hide Run, Rest, Step, Started;
    var w, t := first + visited, turns[visited];
    RunCons(before(pools[visited].key), Started(w, t), Rest(w, t));
  }

  lemma ReadMore(before: Key -> State, now: Key -> State, after: Key -> State, pools: seq<Pool>, turns: seq<Turn>,
                 first: WorkerId, n: nat)
    requires n < |pools| == |turns| && Distinct(pools) && ReadBy(before, now, pools, turns, first, n)
    requires after(pools[n].key) == Step(now(pools[n].key), Started(first + n, turns[n]))
    requires forall k | k != pools[n].key :: after(k) == now(k)
    ensures ReadBy(before, after, pools, turns, first, n + 1)
  {
    hide Step, Started;
    assert forall i | 0 <= i < n :: pools[i].key != pools[n].key;
  }

  class VaultSync {
    var cursors: map<Key, Row>
    var lastSynced: map<Key, int>
    var nextWorker: WorkerId
    var isTicking: bool
    ghost var worlds: map<Key, State>

    ghost function World(key: Key): State
      reads `worlds, `lastSynced
    {
      WorldOf(worlds, lastSynced, key)
    }

    ghost function Worlds(): Key -> State
      reads `worlds, `lastSynced
    {
      var w, l := worlds, lastSynced;
      key => WorldOf(w, l, key)
    }

    ghost predicate Valid()
      reads `cursors, `lastSynced, `nextWorker, `worlds
    {
      Told(worlds, cursors, lastSynced, nextWorker)
    }

    constructor (pools: map<Key, int>)
      ensures Valid() && cursors == map[] && lastSynced == pools && !isTicking
    {
      cursors, lastSynced, nextWorker, isTicking, worlds := map[], pools, 0, false, map[];
    }

    /** `claimChainEventCursor`. */
    method Claim(key: Key, startBlock: int, w: WorkerId, now: int, staleBefore: int) returns (r: Option<Row>)
      modifies `cursors
      ensures var row := UpsertRow(old(Get(cursors, key)), startBlock);
              if Claimable(row, now, staleBefore) then
                r == Some(LockRow(row, w, now)) && cursors == old(cursors)[key := r.value]
              else
                r == None && cursors == old(cursors)[key := row]
      ensures key in cursors
      ensures var row := if key in old(cursors) then old(cursors[key])
                         else Row(if startBlock < 0 then 0 else startBlock, None, None, None);
              var free := && (row.cooldownUntil == None || row.cooldownUntil.value <= now)
                          && (row.lockedAt == None || row.lockedAt.value < staleBefore);
              && cursors[key] == (if free then Row(row.lastProcessed, Some(now), Some(w), row.cooldownUntil) else row)
              && r == if free then Some(cursors[key]) else None
    {
      if key !in cursors {
        cursors := cursors[key := Created(startBlock)];
      }
      var row := cursors[key];
      if (row.cooldownUntil == None || row.cooldownUntil.value <= now)
         && (row.lockedAt == None || row.lockedAt.value < staleBefore) {
        cursors := cursors[key := row.(lockedAt := Some(now), lockedBy := Some(w))];
        return Some(cursors[key]);
      }
      assert cursors == old(cursors)[key := row];
      return None;
    }

    /** `completeChainEventCursor`. */
    method Complete(key: Key, w: WorkerId, block: int)
      requires key in cursors
      modifies `cursors
      ensures cursors == old(cursors)[key := CompleteRow(old(cursors[key]), w, block)]
    {
      if cursors[key].lockedBy == Some(w) {
        cursors := cursors[key := cursors[key].(lastProcessed := Max(0, block))];
        cursors := cursors[key := cursors[key].(lockedAt := None, lockedBy := None, cooldownUntil := None)];
      }
    }

    /** `failChainEventCursor`. */
    method Fail(key: Key, w: WorkerId, cooldown: Option<int>)
      requires key in cursors
      modifies `cursors
      ensures cursors == old(cursors)[key := FailRow(old(cursors[key]), w, cooldown)]
    {
      if cursors[key].lockedBy == Some(w) {
        cursors := cursors[key := cursors[key].(lockedAt := None, lockedBy := None, cooldownUntil := cooldown)];
      }
    }

    /** The loop body of `tick` for one pool, with the last synced block read at the start of the tick. */
    method TakeTurn(key: Key, known: Option<int>, w: WorkerId, t: Turn)
      returns (claimed: bool, synced: bool, rateLimited: bool)
      modifies `cursors, `lastSynced
      ensures (Get(cursors, key), Get(lastSynced, key))
           == TurnEffect(old(Get(cursors, key)), old(Get(lastSynced, key)), known, w, t)
      ensures forall k | k != key ::
                Get(cursors, k) == Get(old(cursors), k) && Get(lastSynced, k) == Get(old(lastSynced), k)
      ensures claimed <==> Claims(old(Get(cursors, key)), known, t)
      ensures synced <==> Syncs(old(Get(cursors, key)), known, t)
      ensures rateLimited <==> Limited(old(Get(cursors, key)), known, t)
    {
      hide Claimable, Base, StartBlock, LockRow, UpsertRow, ToBlock, CompleteRow, FailRow;
      LockingKeepsBase(UpsertRow(Get(cursors, key), StartBlock(known, t.configuredStart, t.latest)), w, t.now, known);
      claimed, synced, rateLimited := false, false, false;
      var cursor := Claim(key, StartBlock(known, t.configuredStart, t.latest), w, t.now, t.staleBefore);
      if cursor == None { return; }
      claimed := true;
      var base := Base(cursor.value, known);
      if t.latest <= base {
        Complete(key, w, base);
        return;
      }
      var to := ToBlock(base, t.latest, t.maxBlocks);
      match t.outcome {
        case Done =>
          lastSynced := lastSynced[key := to];
          Complete(key, w, to);
          synced := true;
        case Threw(afterSync, cooldown) =>
          if afterSync { lastSynced := lastSynced[key := to]; }
          Fail(key, w, cooldown);
          rateLimited := cooldown.Some?;
      }
    }

    lemma WorldHasRow(key: Key)
      requires Valid()
      ensures World(key).row == Get(cursors, key) && World(key).lastSynced == Get(lastSynced, key)
    {
    }

    /** One pool's turn, by a worker that has read the pool before, however stale its reading: it takes the machine's
        steps and no others. */
    method SyncPool(key: Key, known: Option<int>, w: WorkerId, t: Turn)
      returns (claimed: bool, synced: bool, rateLimited: bool)
      requires Valid() && Reader(World(key), w, known, t)
      modifies `cursors, `lastSynced, `worlds
      ensures Valid()
      ensures World(key) == Run(old(World(key)), Rest(w, t))
      ensures forall k | k != key :: WorldOf(worlds, lastSynced, k) == WorldOf(old(worlds), old(lastSynced), k)
      ensures forall k | k in old(cursors) ::
                k in cursors && old(cursors[k].lastProcessed) <= cursors[k].lastProcessed
      ensures claimed <==> Claims(old(World(key)).row, known, t)
      ensures synced <==> Syncs(old(World(key)).row, known, t)
      ensures rateLimited <==> Limited(old(World(key)).row, known, t)
    {
      WorldHasRow(key);
      assert key in worlds;
      hide Run, Rest, Agrees, Reader, TurnEffect, Claims, Syncs, Limited, Told, Events, Ending, Started;
      ghost var s0 := World(key);
      TurnAgrees(s0, Get(cursors, key), Get(lastSynced, key), nextWorker, w, known, t);
      claimed, synced, rateLimited := TakeTurn(key, known, w, t);
      ToldOn(worlds, old(cursors), old(lastSynced), nextWorker, key, Run(s0, Rest(w, t)), cursors, lastSynced);
      worlds := worlds[key := Run(s0, Rest(w, t))];
    }

    method ReadPool(key: Key, t: Turn)
      requires Valid() && t.maxBlocks >= 1
      modifies `nextWorker, `worlds
      ensures Valid() && nextWorker == old(nextWorker) + 1
      ensures World(key) == Step(old(World(key)), Started(old(nextWorker), t))
      ensures forall k | k != key :: WorldOf(worlds, lastSynced, k) == WorldOf(old(worlds), lastSynced, k)
    {
      ghost var w, s := nextWorker, Step(World(key), Started(nextWorker, t));
      StartAgrees(World(key), Get(cursors, key), Get(lastSynced, key), w, t);
      ToldLater(worlds, cursors, lastSynced, w);
      hide Agrees, Step, Started, Reader, Told;
      ToldOn(worlds, cursors, lastSynced, w + 1, key, s, cursors, lastSynced);
      worlds := worlds[key := s];
      nextWorker := nextWorker + 1;
    }

    /** The list of pools and the chain head are read: from here on each pool has a worker that knows its last synced
        block as it is now. */
    method ReadPools(pools: seq<Pool>, turns: seq<Turn>) returns (known: map<Key, int>)
      requires Valid() && |turns| == |pools| && Distinct(pools)
      requires forall i | 0 <= i < |turns| :: turns[i].maxBlocks >= 1
      modifies `nextWorker, `worlds
      ensures Valid() && known == lastSynced && nextWorker == old(nextWorker) + |pools|
      ensures ReadBy(old(Worlds()), Worlds(), pools, turns, old(nextWorker), |pools|)
    {
      NothingRead(Worlds(), pools, turns, nextWorker);
      hide Valid, Step, Started, ReadBy, WorldOf, Distinct;
      known := lastSynced;
      for i := 0 to |pools|
        invariant Valid() && nextWorker == old(nextWorker) + i
        invariant ReadBy(old(Worlds()), Worlds(), pools, turns, old(nextWorker), i)
      {
        ghost var now := Worlds();
        ReadPool(pools[i].key, turns[i]);
        ReadMore(old(Worlds()), now, Worlds(), pools, turns, old(nextWorker), i);
      }
    }

    lemma WorldsAreReadable()
      requires Valid()
      ensures Readable(Worlds(), lastSynced, nextWorker)
    {
    }

    /** `tick`: the pools are read, then visited in order, until enough are claimed or a provider is rate limited.
        `visited` tells how many were. */
    method Tick(pools: seq<Pool>, turns: seq<Turn>, poolsPerTick: nat)
      returns (claimedPools: nat, didAnySync: bool, ghost visited: nat)
      requires Valid() && |turns| == |pools| && Distinct(pools)
      requires forall i | 0 <= i < |turns| :: turns[i].maxBlocks >= 1
      modifies this
      ensures Valid() && isTicking == old(isTicking) && visited <= |pools|
      ensures old(isTicking) ==> unchanged(this) && visited == 0
      ensures !old(isTicking) ==> Walked(old(Worlds()), Worlds(), pools, turns, old(nextWorker), visited)
      ensures Tallied(old(Worlds()), pools, turns, visited, claimedPools, didAnySync, poolsPerTick)
      ensures !old(isTicking) && visited < |pools| ==>
                || claimedPools == poolsPerTick
                || (visited > 0 && LimitedAt(old(Worlds()), pools, turns, visited - 1))
      ensures claimedPools <= poolsPerTick
      ensures forall k | k in old(cursors) ::
                k in cursors && old(cursors[k].lastProcessed) <= cursors[k].lastProcessed
    {
      hide Run, Rest, Inv, Walked, ReadBy, Readable, Reader, Valid, Tallied, LimitedAt, SyncedAt, Claims, Syncs,
           Limited, WorldOf, Get, Distinct, Told, ClaimCount, Events, Ending, Started;
      claimedPools, didAnySync, visited := 0, false, 0;
      ghost var before, first := Worlds(), nextWorker;
      TallyStarts(before, pools, turns, poolsPerTick);
      if isTicking { return; }
      WorldsAreReadable();
      isTicking := true;
      var worker := nextWorker;
      var known := ReadPools(pools, turns);
      WalkStarts(before, Worlds(), pools, turns, first);
      var i := 0;
      while i < |pools|
        invariant i == visited <= |pools| && worker == first + i && Valid() && isTicking && claimedPools <= poolsPerTick
        invariant Walked(before, Worlds(), pools, turns, first, visited)
        invariant Tallied(before, pools, turns, visited, claimedPools, didAnySync, poolsPerTick)
        invariant visited > 0 ==> !LimitedAt(before, pools, turns, visited - 1)
        invariant forall k | k in old(cursors) ::
                    k in cursors && old(cursors[k].lastProcessed) <= cursors[k].lastProcessed
      {
        if claimedPools >= poolsPerTick { break; }
        var pool, turn := pools[i], turns[i];
        ghost var now := Worlds();
        NextIsRead(before, now, known, pools, turns, first, i);
        i, worker := i + 1, worker + 1;
        if !pool.resolves {
          VisitIs(before, now, now, known, pools, turns, first, visited, claimedPools, didAnySync, poolsPerTick,
                  false, false, false);
          visited := visited + 1;
          continue;
        }
        var claimed, synced, rateLimited := SyncPool(pool.key, Get(known, pool.key), worker - 1, turn);
        VisitIs(before, now, Worlds(), known, pools, turns, first, visited, claimedPools, didAnySync, poolsPerTick,
                claimed, synced, rateLimited);
        visited := visited + 1;
        if claimed { claimedPools := claimedPools + 1; }
        if synced { didAnySync := true; }
        if rateLimited { break; }
      }
      isTicking := false;
    }
  }

  lemma TallyStarts(before: Key -> State, pools: seq<Pool>, turns: seq<Turn>, limit: nat)
    requires |pools| == |turns|
    ensures Tallied(before, pools, turns, 0, 0, false, limit)
  {
  }

  lemma NothingRead(before: Key -> State, pools: seq<Pool>, turns: seq<Turn>, first: WorkerId)
    requires |pools| == |turns|
    ensures ReadBy(before, before, pools, turns, first, 0)
  {
  }

  lemma WalkStarts(before: Key -> State, after: Key -> State, pools: seq<Pool>, turns: seq<Turn>, first: WorkerId)
    requires |pools| == |turns| && ReadBy(before, after, pools, turns, first, |pools|)
    ensures Walked(before, after, pools, turns, first, 0)
  {
  }

  /** What one visit adds to the walk and the tally. */
  lemma VisitIs(before: Key -> State, now: Key -> State, after: Key -> State, known: map<Key, int>, pools: seq<Pool>,
                turns: seq<Turn>, first: WorkerId, visited: nat, count: nat, any: bool, limit: nat,
                claimed: bool, synced: bool, rateLimited: bool)
    requires visited < |pools| == |turns| && Distinct(pools) && turns[visited].maxBlocks >= 1
    requires Walked(before, now, pools, turns, first, visited) && Readable(before, known, first)
    requires Tallied(before, pools, turns, visited, count, any, limit) && count < limit
    requires visited > 0 ==> !LimitedAt(before, pools, turns, visited - 1)
    requires var pool, w, t := pools[visited], first + visited, turns[visited];
             var row, reading := now(pool.key).row, Get(known, pool.key);
             && after(pool.key) == (if pool.resolves then Run(now(pool.key), Rest(w, t)) else now(pool.key))
             && (forall k | k != pool.key :: after(k) == now(k))
             && (claimed <==> pool.resolves && Claims(row, reading, t))
             && (synced <==> pool.resolves && Syncs(row, reading, t))
             && (rateLimited <==> pool.resolves && Limited(row, reading, t))
    ensures Walked(before, after, pools, turns, first, visited + 1)
    ensures Tallied(before, pools, turns, visited + 1, count + (if claimed then 1 else 0), any || synced, limit)
    ensures LimitedAt(before, pools, turns, visited) <==> rateLimited
  {
    hide Run, Rest, Walked, Readable, Reader, Tallied, Claims, Syncs, Limited, Distinct;
    NextIsRead(before, now, known, pools, turns, first, visited);
    WalkOn(before, now, after, pools, turns, first, visited);
    TallyOn(before, pools, turns, visited, count, any, limit);
  }
}
