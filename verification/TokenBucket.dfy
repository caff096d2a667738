/**
 The rate limiter of internal/gateway/rate_limiter.go: the token-bucket script and the arithmetic on its
 answer.  The script's clock counts milliseconds.  Capacity is at least one token and the refill interval
 at least one millisecond.
 */
module TokenBucket {
  import opened Options
  import opened Numbers

  /** The two fields HMGET reads; a missing key has neither. */
  datatype Bucket = Bucket(tokens: Option<int>, updatedAt: Option<int>)

  datatype Answer = Answer(allowed: bool, limit: int, tokens: int, nextRefill: int, now: int)

  const MISSING := Bucket(None, None)

  function Script(b: Bucket, capacity: int, interval: int, now: int): (Bucket, Answer)
    requires 1 <= interval
  {
    var tokens0 := if b.tokens.None? then capacity else b.tokens.value;
    var stamp0 := if b.tokens.None? || b.updatedAt.None? then now else Min(b.updatedAt.value, now);
    var refill := (now - stamp0) / interval;
    var tokens1 := if refill >= 1 then Min(capacity, tokens0 + refill) else tokens0;
    var stamp1 := if refill >= 1 then if tokens1 == capacity then now else stamp0 + refill * interval else stamp0;
    var allowed := tokens1 >= 1;
    var tokens2 := if allowed then tokens1 - 1 else tokens1;
    var next := if tokens2 < capacity then Max(stamp1 + interval, now) else now;
    (Bucket(Some(tokens2), Some(stamp1)), Answer(allowed, capacity, tokens2, next, now))
  }

  /** The store as it runs: Redis drops an expired key, then the script reads, computes and writes. */
  class RateLimitStore {
    var buckets: map<string, Bucket>
    var expiresAt: map<string, int>

    function Live(key: string, now: int): Bucket
      reads this
    {
      if key in buckets && (key in expiresAt ==> now <= expiresAt[key]) then buckets[key] else MISSING
    }

    constructor ()
      ensures buckets == map[] && expiresAt == map[]
    {
      buckets, expiresAt := map[], map[];
    }

    method Allow(key: string, capacity: int, interval: int, now: int) returns (answer: Answer)
      requires 1 <= interval
      modifies this
      ensures key in buckets && (buckets[key], answer) == Script(old(Live(key, now)), capacity, interval, now)
      ensures buckets == old(buckets)[key := buckets[key]]
      ensures expiresAt == old(expiresAt)[key := now + capacity * interval]
    {
      var bucket := Live(key, now);
      var tokens, updatedAt := capacity, now;
      if bucket.tokens.Some? {
        tokens := bucket.tokens.value;
        if bucket.updatedAt.Some? {
          updatedAt := bucket.updatedAt.value;
        }
      }
      if now < updatedAt {
        updatedAt := now;
      }
      var elapsed := now - updatedAt;
      DivisionAtLeastOne(elapsed, interval);
      if elapsed >= interval {
        var refill := elapsed / interval;
        tokens := Min(capacity, tokens + refill);
        updatedAt := updatedAt + refill * interval;
        if tokens == capacity {
          updatedAt := now;
        }
      }
      var allowed := false;
      if tokens >= 1 {
        tokens := tokens - 1;
        allowed := true;
      }
      var nextRefill := now;
      if tokens < capacity {
        nextRefill := updatedAt + interval;
        if nextRefill < now {
          nextRefill := now;
        }
      }
      buckets := buckets[key := Bucket(Some(tokens), Some(updatedAt))];
      expiresAt := expiresAt[key := now + capacity * interval];
      answer := Answer(allowed, capacity, tokens, nextRefill, now);
    }

    /** The key's bucket is as a call at `last` left it, with its time-to-live, or was never written. */
    ghost predicate KeptSince(key: string, last: int, capacity: int, interval: int)
      reads this
    {
      key in buckets ==>
        && Stored(buckets[key], last, capacity, interval)
        && key in expiresAt && expiresAt[key] == last + capacity * interval
    }

    /** What is written under the key, expired or not. */
    ghost function Written(key: string): Bucket
      reads this
    {
      if key in buckets then buckets[key] else MISSING
    }

    /** A call by a clock that has not gone back: whether Redis dropped the key does not matter. */
    method AllowNext(key: string, capacity: int, interval: int, now: int, ghost last: int) returns (answer: Answer)
      requires 1 <= capacity && 1 <= interval && KeptSince(key, last, capacity, interval) && last <= now
      modifies this
      ensures KeptSince(key, now, capacity, interval)
      ensures (Written(key), answer) == Script(old(Written(key)), capacity, interval, now)
    {
      LiveOrDropped(Written(key), last, capacity, interval, now);
      ScriptIsCreditStep(Written(key), last, capacity, interval, now);
      answer := Allow(key, capacity, interval, now);
    }

    /** One client's requests, one after the other, by a clock that does not go back.  Redis drops the key
        whenever it has expired, and nobody can tell: the decisions are those of the run without expiry. */
    method ServeRequests(key: string, capacity: int, interval: int, times: seq<int>, ghost last: int)
      returns (allowed: seq<bool>)
      requires 1 <= capacity && 1 <= interval && KeptSince(key, last, capacity, interval) && Monotone(last, times)
      modifies this
      ensures allowed == Run(old(Written(key)), capacity, interval, times).0
      ensures KeptSince(key, LastTime(last, times), capacity, interval)
    {
      allowed := [];
      ghost var start := Written(key);
      for i := 0 to |times|
        invariant KeptSince(key, LastTime(last, times[..i]), capacity, interval)
        invariant (allowed, Written(key)) == Run(start, capacity, interval, times[..i])
      {
        MonotoneAt(last, times, i);
        RunOneMore(start, capacity, interval, times, i);
        var answer := AllowNext(key, capacity, interval, times[i], LastTime(last, times[..i]));
        allowed := allowed + [answer.allowed];
        assert LastTime(last, times[..i + 1]) == times[i];
      }
      assert times[..|times|] == times;
    }
  }

  lemma {:induction false} MonotoneAt(last: int, times: seq<int>, i: nat)
    requires Monotone(last, times) && i < |times|
    ensures LastTime(last, times[..i]) <= times[i]
    decreases i
  {
    if i > 0 {
      MonotoneAt(times[0], times[1..], i - 1);
      assert i > 1 ==> times[..i][i - 1] == times[1..][..i - 1][i - 2];
    }
  }

  /** Once its time-to-live is over, the bucket and a missing one give the same. */
  lemma LiveOrDropped(b: Bucket, last: int, capacity: int, interval: int, now: int)
    requires 1 <= capacity && 1 <= interval && Ready(b, last, capacity, interval)
    ensures last + capacity * interval < now ==>
              Script(b, capacity, interval, now) == Script(MISSING, capacity, interval, now)
  {
    if b != MISSING && last + capacity * interval < now { ExpiryIsUnobservable(b, last, capacity, interval, now); }
  }

  lemma RunOneMore(b: Bucket, capacity: int, interval: int, times: seq<int>, i: nat)
    requires 1 <= interval && i < |times|
    ensures var (before, mid) := Run(b, capacity, interval, times[..i]);
            var (next, answer) := Script(mid, capacity, interval, times[i]);
            && Run(b, capacity, interval, times[..i + 1]).0 == before + [answer.allowed]
            && Run(b, capacity, interval, times[..i + 1]).1 == next
  {
    RunSplits(b, capacity, interval, times[..i + 1], i);
    assert times[..i + 1][..i] == times[..i] && times[..i + 1][i..] == [times[i]];
    RunUnfolds(Run(b, capacity, interval, times[..i]).1, capacity, interval, [times[i]]);
    assert [times[i]][1..] == [];
  }

  lemma DivisionAtLeastOne(x: int, d: int)
    requires 0 <= x && 1 <= d
    ensures x / d >= 1 <==> x >= d
    ensures x / d * d <= x < x / d * d + d
  {
  }

  // ----- the millisecond-credit bucket ----------------------------------------------------------------

  /** Credit grows by the elapsed time up to capacity * interval; a request costs one interval. */
  function CreditStep(credit: int, elapsed: int, capacity: int, interval: int): (bool, int) {
    var c := Min(capacity * interval, credit + elapsed);
    if c >= interval then (true, c - interval) else (false, c)
  }

  /** What every call leaves behind when its clock reads `at`. */
  predicate Stored(b: Bucket, at: int, capacity: int, interval: int) {
    && b.tokens.Some? && b.updatedAt.Some?
    && 0 <= b.tokens.value < capacity && 0 <= at - b.updatedAt.value < interval
  }

  function Credit(b: Bucket, at: int, capacity: int, interval: int): int {
    if b.tokens.Some? && b.updatedAt.Some? then b.tokens.value * interval + (at - b.updatedAt.value)
    else capacity * interval
  }

  predicate Ready(b: Bucket, at: int, capacity: int, interval: int) {
    b == MISSING || Stored(b, at, capacity, interval)
  }

  lemma MulAtLeast(x: int, y: int, d: int)
    requires x <= y && 0 <= d
    ensures x * d <= y * d
  {
  }

  lemma MulBelow(x: int, y: int, d: int)
    requires x * d < y * d && 0 <= d
    ensures x < y
  {
    if y <= x { MulAtLeast(y, x, d); }
  }

  lemma CountFits(n: int, w: int, interval: int)
    requires 1 <= interval && 0 <= w && n * interval <= w
    ensures n <= w / interval
  {
    DivisionAtLeastOne(w, interval);
    assert (w / interval + 1) * interval == w / interval * interval + interval;
    MulBelow(n, w / interval + 1, interval);
  }

  /** The script's tokens and stamp before it takes one: exactly the clipped credit. */
  lemma RefillIsCredit(tokens: int, stamp: int, now: int, capacity: int, interval: int)
    requires 1 <= interval && 0 <= tokens < capacity && stamp <= now
    ensures var refill := (now - stamp) / interval;
            var tokens1 := if refill >= 1 then Min(capacity, tokens + refill) else tokens;
            var stamp1 := if refill >= 1 then if tokens1 == capacity then now else stamp + refill * interval else stamp;
            && 0 <= tokens1 <= capacity && 0 <= now - stamp1 < interval
            && tokens1 * interval + (now - stamp1) == Min(capacity * interval, tokens * interval + (now - stamp))
            && (tokens1 >= 1 <==> Min(capacity * interval, tokens * interval + (now - stamp)) >= interval)
  {
    var elapsed := now - stamp;
    var refill := elapsed / interval;
    DivisionAtLeastOne(elapsed, interval);
    if refill < 1 {
      MulAtLeast(tokens + 1, capacity, interval);
      assert (tokens + 1) * interval == tokens * interval + interval;
      if tokens >= 1 { MulAtLeast(1, tokens, interval); }
    } else if tokens + refill < capacity {
      MulAtLeast(tokens + refill + 1, capacity, interval);
      assert (tokens + refill + 1) * interval == tokens * interval + refill * interval + interval;
      MulAtLeast(1, tokens + refill, interval);
      assert (tokens + refill) * interval == tokens * interval + refill * interval;
    } else {
      MulAtLeast(capacity, tokens + refill, interval);
      assert (tokens + refill) * interval == tokens * interval + refill * interval;
      MulAtLeast(1, capacity, interval);
    }
  }

  /** One call, clock not behind the last: the same decision as the credit bucket and its credit. */
  lemma ScriptIsCreditStep(b: Bucket, last: int, capacity: int, interval: int, now: int)
    requires 1 <= capacity && 1 <= interval && Ready(b, last, capacity, interval) && last <= now
    ensures var (next, answer) := Script(b, capacity, interval, now);
            && Stored(next, now, capacity, interval)
            && (answer.allowed, Credit(next, now, capacity, interval))
               == CreditStep(Credit(b, last, capacity, interval), if b == MISSING then 0 else now - last,
                             capacity, interval)
  {
    MulAtLeast(1, capacity, interval);
    if b != MISSING {
      RefillIsCredit(b.tokens.value, b.updatedAt.value, now, capacity, interval);
    } else {
      DivisionAtLeastOne(0, interval);
      assert (capacity - 1) * interval == capacity * interval - interval;
    }
    var (next, answer) := Script(b, capacity, interval, now);
    var tokens1 := next.tokens.value + if answer.allowed then 1 else 0;
    assert (tokens1 - 1) * interval == tokens1 * interval - interval;
  }

  // ----- runs ------------------------------------------------------------------------------------------

  predicate Monotone(last: int, times: seq<int>)
    decreases |times|
  {
    times != [] ==> last <= times[0] && Monotone(times[0], times[1..])
  }

  /** The decisions of a run of calls at the given times, and the bucket it ends with. */
  function Run(b: Bucket, capacity: int, interval: int, times: seq<int>): (r: (seq<bool>, Bucket))
    requires 1 <= interval
    ensures |r.0| == |times|
    decreases |times|
  {
    if times == [] then ([], b)
    else
      var (next, answer) := Script(b, capacity, interval, times[0]);
      var (rest, end) := Run(next, capacity, interval, times[1..]);
      ([answer.allowed] + rest, end)
  }

  function CreditRun(credit: int, last: int, capacity: int, interval: int, times: seq<int>): seq<bool>
    decreases |times|
  {
    if times == [] then []
    else
      var (allowed, next) := CreditStep(credit, times[0] - last, capacity, interval);
      [allowed] + CreditRun(next, times[0], capacity, interval, times[1..])
  }

  /** Over every sequence of calls the script decides exactly as the credit bucket. */
  lemma {:induction false} RunIsCreditRun(b: Bucket, last: int, capacity: int, interval: int, times: seq<int>)
    requires 1 <= capacity && 1 <= interval && Stored(b, last, capacity, interval) && Monotone(last, times)
    ensures Run(b, capacity, interval, times).0
         == CreditRun(Credit(b, last, capacity, interval), last, capacity, interval, times)
    decreases |times|
  {
    if times != [] {
      ScriptIsCreditStep(b, last, capacity, interval, times[0]);
      RunIsCreditRun(Script(b, capacity, interval, times[0]).0, times[0], capacity, interval, times[1..]);
    }
  }

  /** A client's first call finds no key: it is the credit bucket started full. */
  lemma FreshRunIsFullCreditRun(capacity: int, interval: int, times: seq<int>)
    requires 1 <= capacity && 1 <= interval && times != [] && Monotone(times[0], times)
    ensures Run(MISSING, capacity, interval, times).0
         == CreditRun(capacity * interval, times[0], capacity, interval, times)
  {
    ScriptIsCreditStep(MISSING, times[0], capacity, interval, times[0]);
    RunIsCreditRun(Script(MISSING, capacity, interval, times[0]).0, times[0], capacity, interval, times[1..]);
  }

  // ----- key expiry --------------------------------------------------------------------------------------

  /** After capacity * interval idle milliseconds the key's being there or not makes no difference. */
  lemma ExpiryIsUnobservable(b: Bucket, last: int, capacity: int, interval: int, now: int)
    requires 1 <= capacity && 1 <= interval && Stored(b, last, capacity, interval)
    requires last + capacity * interval <= now
    ensures Script(b, capacity, interval, now) == Script(MISSING, capacity, interval, now)
  {
    var tokens, stamp := b.tokens.value, b.updatedAt.value;
    MulAtLeast(1, capacity, interval);
    RefillIsCredit(tokens, stamp, now, capacity, interval);
    CountFits(capacity, now - stamp, interval);
  }

  /** A run in which Redis drops the key before some calls, each time only after its time-to-live. */
  function DroppingRun(b: Bucket, capacity: int, interval: int, times: seq<int>, drops: seq<bool>): (seq<bool>, Bucket)
    requires 1 <= interval && |drops| == |times|
    decreases |times|
  {
    if times == [] then ([], b)
    else
      var (next, answer) := Script(if drops[0] then MISSING else b, capacity, interval, times[0]);
      var (rest, end) := DroppingRun(next, capacity, interval, times[1..], drops[1..]);
      ([answer.allowed] + rest, end)
  }

  predicate DropsAreDue(last: int, capacity: int, interval: int, times: seq<int>, drops: seq<bool>)
    requires |drops| == |times|
    decreases |times|
  {
    times != [] ==>
      && (drops[0] ==> last + capacity * interval <= times[0])
      && DropsAreDue(times[0], capacity, interval, times[1..], drops[1..])
  }

  lemma {:induction false} DroppingRunIsRun(
      b: Bucket, last: int, capacity: int, interval: int, times: seq<int>, drops: seq<bool>)
    requires 1 <= capacity && 1 <= interval && Ready(b, last, capacity, interval) && Monotone(last, times)
    requires |drops| == |times| && DropsAreDue(last, capacity, interval, times, drops)
    ensures DroppingRun(b, capacity, interval, times, drops) == Run(b, capacity, interval, times)
    decreases |times|
  {
    if times != [] {
      ScriptIsCreditStep(b, last, capacity, interval, times[0]);
      if drops[0] && b != MISSING { ExpiryIsUnobservable(b, last, capacity, interval, times[0]); }
      DroppingRunIsRun(Script(b, capacity, interval, times[0]).0, times[0], capacity, interval, times[1..], drops[1..]);
    }
  }

  // ----- how many requests get through ---------------------------------------------------------------------

  function Count(allowed: seq<bool>): nat {
    if allowed == [] then 0 else (if allowed[0] then 1 else 0) + Count(allowed[1..])
  }

  /** The sum of the clock's forward moves. */
  function Forward(last: int, times: seq<int>): nat
    decreases |times|
  {
    if times == [] then 0 else Max(0, times[0] - last) + Forward(times[0], times[1..])
  }

  /** Whatever the clock does, a call's cost and remaining credit come out of the credit before it and
      the clock's forward move. */
  lemma CallSpendsCredit(b: Bucket, last: int, capacity: int, interval: int, now: int)
    requires 1 <= capacity && 1 <= interval && Ready(b, last, capacity, interval)
    ensures var (next, answer) := Script(b, capacity, interval, now);
            var spent := Credit(next, now, capacity, interval) + if answer.allowed then interval else 0;
            && Stored(next, now, capacity, interval)
            && spent <= capacity * interval
            && (b != MISSING ==> spent <= Credit(b, last, capacity, interval) + Max(0, now - last))
  {
    if b == MISSING || last <= now {
      ScriptIsCreditStep(b, if b == MISSING then now else last, capacity, interval, now);
    } else {
      var tokens, stamp := b.tokens.value, Min(b.updatedAt.value, now);
      DivisionAtLeastOne(now - stamp, interval);
      MulAtLeast(tokens + 1, capacity, interval);
      assert (tokens + 1) * interval == tokens * interval + interval;
      assert (tokens - 1) * interval == tokens * interval - interval;
    }
  }

  /** A run's first call, and the rest. */
  lemma CountRun(b: Bucket, capacity: int, interval: int, times: seq<int>)
    requires 1 <= interval && times != []
    ensures var (next, answer) := Script(b, capacity, interval, times[0]);
            Count(Run(b, capacity, interval, times).0)
            == (if answer.allowed then 1 else 0) + Count(Run(next, capacity, interval, times[1..]).0)
  {
    var (next, answer) := Script(b, capacity, interval, times[0]);
    assert Run(b, capacity, interval, times).0[1..] == Run(next, capacity, interval, times[1..]).0;
  }

  lemma Cost(allowed: bool, n: nat, interval: int)
    ensures ((if allowed then 1 else 0) + n) * interval == (if allowed then interval else 0) + n * interval
  {
  }

  lemma {:induction false} RunSpendsCredit(b: Bucket, last: int, capacity: int, interval: int, times: seq<int>)
    requires 1 <= capacity && 1 <= interval && Stored(b, last, capacity, interval)
    ensures Count(Run(b, capacity, interval, times).0) * interval
            <= Credit(b, last, capacity, interval) + Forward(last, times)
    decreases |times|
  {
    if times == [] {
      MulAtLeast(0, b.tokens.value, interval);
    } else {
      CallSpendsCredit(b, last, capacity, interval, times[0]);
      var (next, answer) := Script(b, capacity, interval, times[0]);
      RunSpendsCredit(next, times[0], capacity, interval, times[1..]);
      CountRun(b, capacity, interval, times);
      Cost(answer.allowed, Count(Run(next, capacity, interval, times[1..]).0), interval);
    }
  }

  lemma WindowCredit(b: Bucket, last: int, capacity: int, interval: int, times: seq<int>)
    requires 1 <= capacity && 1 <= interval && Ready(b, last, capacity, interval) && times != []
    ensures Count(Run(b, capacity, interval, times).0) * interval
            <= capacity * interval + Forward(times[0], times[1..])
  {
    CallSpendsCredit(b, last, capacity, interval, times[0]);
    var (next, answer) := Script(b, capacity, interval, times[0]);
    RunSpendsCredit(next, times[0], capacity, interval, times[1..]);
    CountRun(b, capacity, interval, times);
    Cost(answer.allowed, Count(Run(next, capacity, interval, times[1..]).0), interval);
  }

  lemma CountExceeds(n: int, capacity: int, w: int, interval: int)
    requires 1 <= interval && 0 <= w && n * interval <= capacity * interval + w
    ensures n <= capacity + w / interval
  {
    assert (n - capacity) * interval == n * interval - capacity * interval;
    CountFits(n - capacity, w, interval);
  }

  /** Where the clock stood last. */
  function LastTime(last: int, times: seq<int>): int {
    if times == [] then last else times[|times| - 1]
  }

  /** Whatever the clock does, a run leaves a bucket that a call left behind. */
  lemma {:induction false} RunStaysReady(b: Bucket, last: int, capacity: int, interval: int, times: seq<int>)
    requires 1 <= capacity && 1 <= interval && Ready(b, last, capacity, interval)
    ensures Ready(Run(b, capacity, interval, times).1, LastTime(last, times), capacity, interval)
    decreases |times|
  {
    if times != [] {
      CallSpendsCredit(b, last, capacity, interval, times[0]);
      RunStaysReady(Script(b, capacity, interval, times[0]).0, times[0], capacity, interval, times[1..]);
    }
  }

  /** A run is its first call and the rest. */
  lemma RunUnfolds(b: Bucket, capacity: int, interval: int, times: seq<int>)
    requires 1 <= interval && times != []
    ensures var (next, answer) := Script(b, capacity, interval, times[0]);
            Run(b, capacity, interval, times)
            == ([answer.allowed] + Run(next, capacity, interval, times[1..]).0,
                Run(next, capacity, interval, times[1..]).1)
  {
  }

  /** A run may be cut anywhere. */
  lemma {:induction false} RunSplits(b: Bucket, capacity: int, interval: int, times: seq<int>, i: nat)
    requires 1 <= interval && i <= |times|
    ensures var (before, mid) := Run(b, capacity, interval, times[..i]);
            var (after, end) := Run(mid, capacity, interval, times[i..]);
            Run(b, capacity, interval, times).0 == before + after && Run(b, capacity, interval, times).1 == end
    decreases i
  {
    if i == 0 {
      assert times[..0] == [] && times[0..] == times;
    } else {
      var next, rest := Script(b, capacity, interval, times[0]).0, times[1..];
      RunSplits(next, capacity, interval, rest, i - 1);
      RunUnfolds(b, capacity, interval, times);
      RunUnfolds(b, capacity, interval, times[..i]);
      assert times[..i][1..] == rest[..i - 1] && times[i..] == rest[i - 1..] && times[..i][0] == times[0];
    }
  }

  /** Over any window of any run, however the clock jumps, at most the capacity and one request per
      interval of forward movement get through. */
  lemma WindowBound(b: Bucket, last: int, capacity: int, interval: int, times: seq<int>, i: nat, j: nat)
    requires 1 <= capacity && 1 <= interval && Ready(b, last, capacity, interval) && i < j <= |times|
    ensures Count(Run(b, capacity, interval, times).0[i..j])
            <= capacity + Forward(times[i], times[i + 1..j]) / interval
  {
    var window := times[i..j];
    RunSplits(b, capacity, interval, times, j);
    RunSplits(b, capacity, interval, times[..j], i);
    RunStaysReady(b, last, capacity, interval, times[..i]);
    assert times[..j][i..] == window && times[..j][..i] == times[..i];
    var mid := Run(b, capacity, interval, times[..i]).1;
    assert Run(b, capacity, interval, times).0[i..j] == Run(mid, capacity, interval, window).0;
    assert window[0] == times[i] && window[1..] == times[i + 1..j];
    WindowCredit(mid, LastTime(last, times[..i]), capacity, interval, window);
    CountExceeds(Count(Run(mid, capacity, interval, window).0), capacity, Forward(times[i], times[i + 1..j]), interval);
  }

  /** With a monotone clock the forward movement of a window is its length. */
  lemma {:induction false} MonotoneForward(last: int, times: seq<int>)
    requires Monotone(last, times)
    ensures Forward(last, times) == if times == [] then 0 else times[|times| - 1] - last
    decreases |times|
  {
    if times != [] {
      MonotoneForward(times[0], times[1..]);
    }
  }

  function Burst(n: nat, at: int): seq<int> {
    if n == 0 then [] else [at] + Burst(n - 1, at)
  }

  function Ticks(n: nat, at: int, interval: int): seq<int> {
    if n == 0 then [] else [at + interval] + Ticks(n - 1, at + interval, interval)
  }

  lemma {:induction false} TicksGetThrough(b: Bucket, n: nat, at: int, capacity: int, interval: int)
    requires 1 <= capacity && 1 <= interval && b == Bucket(Some(0), Some(at))
    ensures Count(Run(b, capacity, interval, Ticks(n, at, interval)).0) == n
    decreases n
  {
    if n > 0 {
      DivisionIsOne(interval);
      var times := Ticks(n, at, interval);
      var (next, answer) := Script(b, capacity, interval, at + interval);
      assert next == b.(updatedAt := Some(at + interval)) && answer.allowed;
      TicksGetThrough(next, n - 1, at + interval, capacity, interval);
      assert times[1..] == Ticks(n - 1, at + interval, interval);
      assert Run(b, capacity, interval, times).0[1..] == Run(next, capacity, interval, times[1..]).0;
    }
  }

  lemma DivisionIsOne(d: int)
    requires 1 <= d
    ensures d / d == 1
  {
  }

  /** The bound is tight: a burst that empties a full bucket and then one request per interval all get
      through. */
  lemma {:induction false} BurstGetsThrough(b: Bucket, left: nat, n: nat, at: int, capacity: int, interval: int)
    requires 1 <= capacity && 1 <= interval
    requires if b == MISSING then left == capacity else b == Bucket(Some(left), Some(at))
    ensures Count(Run(b, capacity, interval, Burst(left, at) + Ticks(n, at, interval)).0) == left + n
    decreases left
  {
    var times := Burst(left, at) + Ticks(n, at, interval);
    if left == 0 {
      assert times == Ticks(n, at, interval);
      TicksGetThrough(b, n, at, capacity, interval);
    } else {
      DivisionAtLeastOne(0, interval);
      var (next, answer) := Script(b, capacity, interval, at);
      assert next == Bucket(Some(left - 1), Some(at)) && answer.allowed;
      assert times[0] == at && times[1..] == Burst(left - 1, at) + Ticks(n, at, interval);
      BurstGetsThrough(next, left - 1, n, at, capacity, interval);
      assert Run(b, capacity, interval, times).0[1..] == Run(next, capacity, interval, times[1..]).0;
    }
  }

  /** From a bucket with `left` tokens, `n` calls at once get through as long as there are tokens. */
  lemma {:induction false} BurstCounts(b: Bucket, left: nat, n: nat, at: int, capacity: int, interval: int)
    requires 1 <= capacity && 1 <= interval && b.tokens == Some(left) && b.updatedAt.Some?
    requires 0 <= at - b.updatedAt.value < interval
    ensures Count(Run(b, capacity, interval, Burst(n, at)).0) == Min(n, left)
    decreases n
  {
    if n > 0 {
      var times := Burst(n, at);
      DivisionAtLeastOne(at - b.updatedAt.value, interval);
      var (next, answer) := Script(b, capacity, interval, at);
      assert times[0] == at && times[1..] == Burst(n - 1, at);
      BurstCounts(next, if left > 0 then left - 1 else 0, n - 1, at, capacity, interval);
      CountRun(b, capacity, interval, times);
    }
  }

  /** What the answer announces: the capacity as the limit, and as remaining exactly the number of further
      requests that get through at once. */
  lemma AnswerAnnounces(b: Bucket, last: int, capacity: int, interval: int, now: int, n: nat)
    requires 1 <= capacity && 1 <= interval && Ready(b, last, capacity, interval)
    ensures var (next, answer) := Script(b, capacity, interval, now);
            && answer.limit == capacity && answer.now == now && 0 <= answer.tokens
            && Count(Run(next, capacity, interval, Burst(n, now)).0) == Min(n, answer.tokens)
  {
    CallSpendsCredit(b, last, capacity, interval, now);
    var (next, answer) := Script(b, capacity, interval, now);
    BurstCounts(next, answer.tokens, n, now, capacity, interval);
  }

  // ----- when to try again -------------------------------------------------------------------------------------

  const NANOS_PER_SECOND: int := 1_000_000_000

  /** parseRateLimitResult: the duration until the next refill, never negative. */
  function RetryAfter(answer: Answer): int {
    Max((answer.nextRefill - answer.now) * NANOS_PER_MILLI, 0)
  }

  /** The Retry-After header: delay-seconds (section 10.2.3 of RFC 9110), rounded up. */
  function RetryAfterSeconds(duration: int): int {
    if duration <= 0 then 0 else (duration + NANOS_PER_SECOND - 1) / NANOS_PER_SECOND
  }

  /** The announced reset is the moment of the next token: later than now, by at most one interval, and
      a call there finds one token more than this one left. */
  lemma ResetIsNextToken(b: Bucket, last: int, capacity: int, interval: int, now: int)
    requires 1 <= capacity && 1 <= interval && Ready(b, last, capacity, interval)
    ensures var (next, answer) := Script(b, capacity, interval, now);
            && 0 < answer.nextRefill - now <= interval
            && Script(next, capacity, interval, answer.nextRefill).1.allowed
            && Script(next, capacity, interval, answer.nextRefill).1.tokens == answer.tokens
  {
    CallSpendsCredit(b, last, capacity, interval, now);
    DivisionIsOne(interval);
  }

  /** After a denial the bucket is empty, and the next refill is at most one interval ahead. */
  lemma DenialLeavesEmpty(b: Bucket, last: int, capacity: int, interval: int, now: int)
    requires 1 <= capacity && 1 <= interval && Ready(b, last, capacity, interval)
    requires !Script(b, capacity, interval, now).1.allowed
    ensures var (next, answer) := Script(b, capacity, interval, now);
            && next == Bucket(Some(0), Some(answer.nextRefill - interval))
            && 0 < answer.nextRefill - now <= interval
  {
    CallSpendsCredit(b, last, capacity, interval, now);
  }

  /** Until the next refill every request is denied and changes nothing; from then on the first is allowed. */
  lemma RetryIsExact(refill: int, capacity: int, interval: int, now: int)
    requires 1 <= capacity && 1 <= interval && refill - interval <= now
    ensures var b := Bucket(Some(0), Some(refill - interval));
            var (next, answer) := Script(b, capacity, interval, now);
            && (answer.allowed <==> refill <= now)
            && (now < refill ==> next == b && answer.nextRefill == refill)
  {
    DivisionAtLeastOne(now - (refill - interval), interval);
  }

  /** A denied client that keeps asking before the refill is denied every time and still let through at
      the refill: asking early costs nothing. */
  lemma {:induction false} AskingEarlyCostsNothing(refill: int, capacity: int, interval: int, times: seq<int>)
    requires 1 <= capacity && 1 <= interval
    requires forall i :: 0 <= i < |times| ==> refill - interval <= times[i] < refill
    ensures var b := Bucket(Some(0), Some(refill - interval));
            Run(b, capacity, interval, times).1 == b && Count(Run(b, capacity, interval, times).0) == 0
    decreases |times|
  {
    if times != [] {
      var b := Bucket(Some(0), Some(refill - interval));
      RetryIsExact(refill, capacity, interval, times[0]);
      AskingEarlyCostsNothing(refill, capacity, interval, times[1..]);
      assert Run(b, capacity, interval, times).0[1..] == Run(b, capacity, interval, times[1..]).0;
    }
  }

  /** Waiting the announced seconds always suffices, and a second less never does. */
  lemma RetryAfterSuffices(b: Bucket, last: int, capacity: int, interval: int, now: int, later: int)
    requires 1 <= capacity && 1 <= interval && Ready(b, last, capacity, interval)
    requires !Script(b, capacity, interval, now).1.allowed
    ensures var (next, answer) := Script(b, capacity, interval, now);
            var seconds := RetryAfterSeconds(RetryAfter(answer));
            && 1 <= seconds
            && (now + seconds * 1000 <= later ==> Script(next, capacity, interval, later).1.allowed)
            && (now <= later <= now + (seconds - 1) * 1000 ==> !Script(next, capacity, interval, later).1.allowed)
  {
    DenialLeavesEmpty(b, last, capacity, interval, now);
    var (next, answer) := Script(b, capacity, interval, now);
    if now <= later {
      RetryIsExact(answer.nextRefill, capacity, interval, later);
    }
  }
}
