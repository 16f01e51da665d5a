/** Log queries in block chunks. The chain maps each block to its logs; `net` is the answer the provider gives to each
    request in turn. */
module LogChunks {

  datatype Answer = Delivered | RateLimited | Failed

  datatype Result<+T> = Ok(value: T) | RpcError

  /** The logs of the blocks `lo..hi` in order: what one delivered query returns. */
  function Logs<T>(chain: int -> seq<T>, lo: int, hi: int): seq<T>
    decreases hi - lo
  {
    if lo > hi then [] else chain(lo) + Logs(chain, lo + 1, hi)
  }

  lemma {:induction false} LogsSplit<T>(chain: int -> seq<T>, lo: int, mid: int, hi: int)
    requires lo <= mid + 1 && mid <= hi
    ensures Logs(chain, lo, hi) == Logs(chain, lo, mid) + Logs(chain, mid + 1, hi)
    decreases mid - lo
  {
    if lo <= mid {
      LogsSplit(chain, lo + 1, mid, hi);
      assert chain(lo) + (Logs(chain, lo + 1, mid) + Logs(chain, mid + 1, hi))
          == chain(lo) + Logs(chain, lo + 1, mid) + Logs(chain, mid + 1, hi);
    }
  }

  /** Requests `from` to `to`, the last not included, meet rate limits. */
  predicate AllLimited(net: nat -> Answer, from: nat, to: nat) {
    forall k: nat | from <= k < to :: net(k) == RateLimited
  }

  /** A query first sent as request `from` is delivered by request `at`, after rate limits only. */
  predicate DeliversAt(net: nat -> Answer, from: nat, at: nat) {
    from <= at && net(at) == Delivered && AllLimited(net, from, at)
  }

  /** A query that may be repeated `retries` times is delivered. */
  predicate Delivers(net: nat -> Answer, from: nat, retries: nat) {
    exists at: nat :: from <= at <= from + retries && DeliversAt(net, from, at)
  }

  lemma OneDelivery(net: nat -> Answer, from: nat, a: nat, b: nat)
    requires DeliversAt(net, from, a) && DeliversAt(net, from, b)
    ensures a == b
  {
  }

  /** The first request of the `i`-th of a row of queries, when each is delivered by the request `ends` names. */
  function StartOf(from: nat, ends: seq<nat>, i: nat): nat
    requires i <= |ends|
  {
    if i == 0 then from else ends[i - 1] + 1
  }

  /** Every query of a row is delivered within its retries, the `i`-th by request `ends[i]`. */
  predicate Schedule(net: nat -> Answer, from: nat, retries: nat, ends: seq<nat>) {
    forall i | 0 <= i < |ends| ::
      DeliversAt(net, StartOf(from, ends, i), ends[i]) && ends[i] <= StartOf(from, ends, i) + retries
  }

  lemma ScheduleGrows(net: nat -> Answer, from: nat, retries: nat, ends: seq<nat>, at: nat)
    requires Schedule(net, from, retries, ends) && DeliversAt(net, StartOf(from, ends, |ends|), at)
    requires at <= StartOf(from, ends, |ends|) + retries
    ensures Schedule(net, from, retries, ends + [at])
  {
    hide DeliversAt;
    var more := ends + [at];
    assert forall i | 0 <= i <= |ends| :: StartOf(from, more, i) == StartOf(from, ends, i);
  }

  /** Two schedules agree as far as both go. */
  lemma {:induction false} SchedulesAgree(net: nat -> Answer, from: nat, retries: nat, a: seq<nat>, b: seq<nat>, i: nat)
    requires Schedule(net, from, retries, a) && Schedule(net, from, retries, b) && i < |a| && i < |b|
    ensures a[i] == b[i]
  {
    hide DeliversAt;
    if i > 0 { SchedulesAgree(net, from, retries, a, b, i - 1); }
    OneDelivery(net, StartOf(from, a, i), a[i], b[i]);
  }

  lemma ScheduledIsDelivered(net: nat -> Answer, from: nat, retries: nat, ends: seq<nat>, i: nat)
    requires Schedule(net, from, retries, ends) && i < |ends|
    ensures Delivers(net, StartOf(from, ends, i), retries)
  {
  }

  /** A schedule stops at a query that is not delivered. */
  lemma ScheduleStops(net: nat -> Answer, from: nat, retries: nat, done: seq<nat>, ends: seq<nat>)
    requires Schedule(net, from, retries, done) && !Delivers(net, StartOf(from, done, |done|), retries)
    requires Schedule(net, from, retries, ends)
    ensures |ends| <= |done|
  {
    hide Schedule, Delivers;
    var n := |done|;
    if n > 0 && |ends| >= n { SchedulesAgree(net, from, retries, done, ends, n - 1); }
    if |ends| > n { ScheduledIsDelivered(net, from, retries, ends, n); }
  }

  /** How many chunks of `size` blocks make up `lo..hi`. */
  function ChunkCount(lo: int, hi: int, size: nat): nat
    requires size >= 1
    decreases hi - lo
  {
    if lo > hi then 0 else 1 + ChunkCount(lo + size, hi, size)
  }

  /** The ranges follow one another from `lo` to `hi`, none of them empty or longer than `size`. */
  predicate Partition(ranges: seq<(int, int)>, lo: int, hi: int, size: nat)
    decreases |ranges|
  {
    if ranges == [] then lo == hi + 1
    else
      var (first, last) := ranges[0];
      first == lo && lo <= last <= hi && last - lo + 1 <= size && Partition(ranges[1..], last + 1, hi, size)
  }

  lemma {:induction false} PartitionGrows(ranges: seq<(int, int)>, lo: int, mid: int, hi: int, size: nat)
    requires Partition(ranges, lo, mid, size) && mid < hi <= mid + size
    ensures Partition(ranges + [(mid + 1, hi)], lo, hi, size)
    decreases |ranges|
  {
    var more := ranges + [(mid + 1, hi)];
    if ranges == [] {
      assert more[1..] == [];
    } else {
      assert more[1..] == ranges[1..] + [(mid + 1, hi)];
      PartitionGrows(ranges[1..], ranges[0].1 + 1, mid, hi, size);
    }
  }

  predicate Holds(range: (int, int), b: int) { range.0 <= b <= range.1 }

  /** Every block of a partitioned range is in exactly one of its parts. */
  lemma {:induction false} EachBlockOnce(ranges: seq<(int, int)>, lo: int, hi: int, size: nat, b: int) returns (i: nat)
    requires Partition(ranges, lo, hi, size) && lo <= b <= hi
    ensures i < |ranges| && forall j | 0 <= j < |ranges| :: Holds(ranges[j], b) <==> j == i
    decreases |ranges|
  {
    var rest, next := ranges[1..], ranges[0].1 + 1;
    if b < next {
      i := 0;
      forall j | 0 < j < |ranges| ensures !Holds(ranges[j], b) {
        PartitionStartsAt(rest, next, hi, size, j - 1);
        assert rest[j - 1] == ranges[j];
      }
    } else {
      var k := EachBlockOnce(rest, next, hi, size, b);
      i := k + 1;
      forall j | 0 <= j < |ranges| ensures Holds(ranges[j], b) <==> j == i {
        if j > 0 { assert ranges[j] == rest[j - 1]; }
      }
    }
  }

  lemma {:induction false} PartitionStartsAt(ranges: seq<(int, int)>, lo: int, hi: int, size: nat, j: nat)
    requires Partition(ranges, lo, hi, size) && j < |ranges|
    ensures ranges[j].0 >= lo
    decreases |ranges|
  {
    if j > 0 { PartitionStartsAt(ranges[1..], ranges[0].1 + 1, hi, size, j - 1); }
  }

  /** A range of `n` blocks takes the quotient rounded up. */
  lemma {:induction false} ChunkCountIs(lo: int, hi: int, size: nat)
    requires size >= 1 && lo <= hi + 1
    ensures (ChunkCount(lo, hi, size) - 1) * size < hi - lo + 1 <= ChunkCount(lo, hi, size) * size
    decreases hi - lo
  {
    if lo + size <= hi + 1 {
      if lo <= hi { ChunkCountIs(lo + size, hi, size); }
    }
  }

  /** `queryFilterWithRateLimitRetry`. `t` counts the requests made. The query is delivered exactly when the provider
      delivers after at most `maxRetries` rate limits and nothing else. */
  method QueryWithRetry<T>(chain: int -> seq<T>, lo: int, hi: int, maxRetries: nat, net: nat -> Answer, from: nat)
    returns (r: Result<seq<T>>, t: nat)
    ensures from < t <= from + maxRetries + 1
    ensures r.Ok? <==> Delivers(net, from, maxRetries)
    ensures r.Ok? ==> r.value == Logs(chain, lo, hi) && DeliversAt(net, from, t - 1)
    ensures r.RpcError? ==>
              && AllLimited(net, from, t - 1)
              && (net(t - 1) == Failed || (net(t - 1) == RateLimited && t == from + maxRetries + 1))
  {
    var attempt := 1;
    t := from;
    while true
      invariant 1 <= attempt <= maxRetries + 1 && t == from + attempt - 1 && AllLimited(net, from, t)
      decreases maxRetries + 1 - attempt
    {
      var answer := net(t);
      t := t + 1;
      if answer == Delivered {
        assert DeliversAt(net, from, t - 1);
        return Ok(Logs(chain, lo, hi)), t;
      }
      if answer != RateLimited || attempt > maxRetries { return RpcError, t; }
      attempt := attempt + 1;
    }
  }

  lemma NothingYet<T>(chain: int -> seq<T>, lo: int, hi: int, net: nat -> Answer, retries: nat, size: nat)
    ensures Logs(chain, lo, lo - 1) == [] && Schedule(net, 0, retries, []) && Partition([], lo, lo - 1, size)
    ensures lo > hi ==> Logs(chain, lo, hi) == []
  {
  }

  /** `queryFilterInBlockChunks`: the logs of the whole range, once each and in order, exactly when every chunk can be
      delivered. `ranges` lists the chunks that were. */
  method QueryInChunks<T>(chain: int -> seq<T>, lo: int, hi: int, chunkSize: int, maxRetries: nat, net: nat -> Answer)
    returns (r: Result<seq<T>>, ranges: seq<(int, int)>)
    ensures r.Ok? <==> exists ends: seq<nat> ::
              && |ends| == ChunkCount(lo, hi, if chunkSize < 1 then 1 else chunkSize)
              && Schedule(net, 0, maxRetries, ends)
    ensures r.Ok? ==> r.value == Logs(chain, lo, hi)
    ensures r.Ok? && lo <= hi ==> Partition(ranges, lo, hi, if chunkSize < 1 then 1 else chunkSize)
  {
    hide DeliversAt, Delivers, AllLimited, Schedule, Logs, Partition;
    ranges := [];
    NothingYet(chain, lo, hi, net, maxRetries, if chunkSize < 1 then 1 else chunkSize);
    if lo > hi { return Ok([]), []; }
    var size := if chunkSize < 1 then 1 else chunkSize;
    var out: seq<T> := [];
    var start, t := lo, 0;
    ghost var done: seq<nat> := [];
    while start <= hi
      invariant lo <= start <= hi + 1
      invariant out == Logs(chain, lo, start - 1) && Partition(ranges, lo, start - 1, size)
      invariant Schedule(net, 0, maxRetries, done) && t == StartOf(0, done, |done|)
      invariant |done| + ChunkCount(start, hi, size) == ChunkCount(lo, hi, size)
    {
      var end := if start + size - 1 < hi then start + size - 1 else hi;
      assert ChunkCount(start, hi, size) == 1 + ChunkCount(end + 1, hi, size);
      var chunk, next := QueryWithRetry(chain, start, end, maxRetries, net, t);
      if chunk.RpcError? {
        forall ends: seq<nat> | Schedule(net, 0, maxRetries, ends) ensures |ends| < ChunkCount(lo, hi, size) {
          ScheduleStops(net, 0, maxRetries, done, ends);
        }
        return RpcError, ranges;
      }
      LogsSplit(chain, lo, start - 1, end);
      PartitionGrows(ranges, lo, start - 1, end, size);
      ScheduleGrows(net, 0, maxRetries, done, next - 1);
      done := done + [next - 1];
      out, ranges, start, t := out + chunk.value, ranges + [(start, end)], end + 1, next;
    }
    return Ok(out), ranges;
  }
}
