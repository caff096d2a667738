/** Round-robin selection of internal/gateway/service.go. */
module RoundRobin {
  import opened Options

  class Backend {
    const url: string
    var healthy: bool

    constructor (url: string)
      ensures this.url == url && !healthy
    {
      this.url, healthy := url, false;
    }

    method SetHealth(healthy: bool)
      modifies this
      ensures this.healthy == healthy
    {
      this.healthy := healthy;
    }
  }

  ghost function Healthy(backends: seq<Backend>): seq<Backend>
    reads backends
  {
    if backends == [] then []
    else
      var rest := Healthy(backends[..|backends| - 1]);
      if backends[|backends| - 1].healthy then rest + [backends[|backends| - 1]] else rest
  }

  /** The list holds exactly the healthy ones. */
  lemma {:induction false} HealthyAreHealthy(backends: seq<Backend>)
    ensures forall b :: b in Healthy(backends) <==> b in backends && b.healthy
  {
    if backends != [] {
      var last, rest := backends[|backends| - 1], backends[..|backends| - 1];
      HealthyAreHealthy(rest);
      assert backends == rest + [last];
    }
  }

  const TWO_TO_THE_63: int := 0x8000_0000_0000_0000

  class Cluster {
    const backends: seq<Backend>
    var next: nat

    constructor (backends: seq<Backend>)
      ensures this.backends == backends && next == 0
    {
      this.backends, next := backends, 0;
    }

    /** The counter moves only when some backend is healthy.  From 2^63 on the conversion to int would
        turn negative. */
    method NextBackend() returns (picked: Option<Backend>)
      requires next < TWO_TO_THE_63
      modifies this`next
      ensures picked.None? <==> forall b :: b in backends ==> !b.healthy
      ensures picked.Some? ==> picked.value in backends && picked.value.healthy
      ensures var hs := Healthy(backends);
              if hs == [] then picked == None && next == old(next)
              else picked == Some(hs[old(next) % |hs|]) && next == old(next) + 1
    {
      HealthyAreHealthy(backends);
      var healthyBackends: seq<Backend> := [];
      for i := 0 to |backends|
        invariant healthyBackends == Healthy(backends[..i])
      {
        assert backends[..i + 1][..i] == backends[..i];
        if backends[i].healthy {
          healthyBackends := healthyBackends + [backends[i]];
        }
      }
      assert backends[..|backends|] == backends;
      if |healthyBackends| == 0 {
        assert forall b :: b in backends ==> !b.healthy;
        return None;
      }
      next := next + 1;
      var index := (next - 1) % |healthyBackends|;
      assert healthyBackends[index] in healthyBackends;
      return Some(healthyBackends[index]);
    }

    /** `k` requests, one after the other, while no backend's health changes: only healthy backends serve
        them, each k / n of them for n healthy ones, rounded down or up, and exactly when n divides k. */
    method ServeRequests(k: nat) returns (picked: seq<Backend>)
      requires next + k <= TWO_TO_THE_63 && Distinct(backends)
      modifies this`next
      ensures forall b :: b in picked ==> b in backends && b.healthy
      ensures var n := |HealthySet(backends)|;
              if n == 0 then picked == [] && next == old(next)
              else |picked| == k && next == old(next) + k && FairShares(picked, backends, n)
    {
      picked := [];
      ghost var hs := Healthy(backends);
      HealthyAreHealthy(backends);
      HealthyCount(backends);
      for i := 0 to k
        invariant hs == [] ==> picked == [] && next == old(next)
        invariant hs != [] ==> |picked| == i && next == old(next) + i && InTurn(picked, hs, old(next))
      {
        var backend := NextBackend();
        if backend.Some? {
          picked := picked + [backend.value];
        }
      }
      if hs != [] { SharesAreFair(picked, backends, old(next)); }
    }
  }

  ghost function HealthySet(backends: seq<Backend>): set<Backend>
    reads backends
  {
    set b | b in backends && b.healthy
  }

  /** Each healthy backend serves its share of the picks. */
  ghost predicate FairShares(picked: seq<Backend>, backends: seq<Backend>, n: nat)
    requires 0 < n
    reads backends
  {
    var k := |picked|;
    forall b :: b in backends && b.healthy ==>
      k / n <= multiset(picked)[b] <= k / n + if k % n == 0 then 0 else 1
  }

  lemma {:induction false} DistinctCount<T>(s: seq<T>)
    requires Distinct(s)
    ensures |set x | x in s| == |s|
  {
    if s != [] {
      var last, rest := s[|s| - 1], s[..|s| - 1];
      DistinctCount(rest);
      assert s == rest + [last];
      assert (set x | x in s) == (set x | x in rest) + {last};
    }
  }

  lemma HealthyCount(backends: seq<Backend>)
    requires Distinct(backends)
    ensures |HealthySet(backends)| == |Healthy(backends)|
  {
    HealthyAreHealthy(backends);
    HealthyIsDistinct(backends);
    DistinctCount(Healthy(backends));
    assert HealthySet(backends) == set b | b in Healthy(backends);
  }

  lemma SharesAreFair(picked: seq<Backend>, backends: seq<Backend>, c: nat)
    requires Distinct(backends) && Healthy(backends) != [] && InTurn(picked, Healthy(backends), c)
    ensures |HealthySet(backends)| > 0 && FairShares(picked, backends, |HealthySet(backends)|)
    ensures forall b :: b in picked ==> b in backends && b.healthy
  {
    var hs := Healthy(backends);
    HealthyCount(backends);
    HealthyIsDistinct(backends);
    HealthyAreHealthy(backends);
    forall b | b in backends && b.healthy
      ensures var k, n := |picked|, |hs|; k / n <= multiset(picked)[b] <= k / n + if k % n == 0 then 0 else 1
    {
      var j :| 0 <= j < |hs| && hs[j] == b;
      PicksAreFair(picked, hs, c, j);
    }
    forall b | b in picked
      ensures b in hs
    {
      var i :| 0 <= i < |picked| && picked[i] == b;
      assert b == hs[(c + i) % |hs|];
    }
  }

  ghost predicate Distinct<T>(s: seq<T>) {
    forall i, j :: 0 <= i < j < |s| ==> s[i] != s[j]
  }

  lemma {:induction false} HealthyIsDistinct(backends: seq<Backend>)
    requires Distinct(backends)
    ensures Distinct(Healthy(backends)) && forall b :: b in Healthy(backends) ==> b in backends
  {
    if backends != [] {
      var rest := backends[..|backends| - 1];
      HealthyIsDistinct(rest);
      forall b | b in rest
        ensures b in backends && b != backends[|backends| - 1]
      {
        var i :| 0 <= i < |rest| && rest[i] == b;
        assert backends[i] == b;
      }
      var before, after := Healthy(rest), Healthy(backends);
      forall i, j | 0 <= i < j < |after|
        ensures after[i] != after[j]
      {
        assert after[i] == before[i] && before[i] in before;
      }
    }
  }

  /** The picks go round the list, from where the counter stood. */
  ghost predicate InTurn<T>(picked: seq<T>, hs: seq<T>, c: nat)
    requires |hs| > 0
  {
    forall i :: 0 <= i < |picked| ==> picked[i] == hs[(c + i) % |hs|]
  }

  /** How often `k` consecutive calls from counter `c` pick place `j` of `n` healthy backends. */
  function Picks(c: nat, k: nat, n: nat, j: nat): nat
    requires n > 0
  {
    if k == 0 then 0 else Picks(c, k - 1, n, j) + if (c + k - 1) % n == j then 1 else 0
  }

  /** How many counters below `x` pick place `j`. */
  function Below(x: nat, n: nat, j: nat): nat
    requires n > 0
  {
    x / n + if x % n > j then 1 else 0
  }

  lemma DivideUnique(x: nat, n: nat, q: nat, r: nat)
    requires 0 < n && r < n && x == q * n + r
    ensures x / n == q && x % n == r
  {
    var d := x / n - q;
    assert x == (x / n) * n + x % n;
    assert (x / n - q) * n == r - x % n;
    MultipleIsFar(d, n);
  }

  lemma MultipleIsFar(d: int, n: nat)
    ensures d >= 1 ==> d * n >= n
    ensures d <= -1 ==> d * n <= -(n as int)
  {
  }

  lemma DivideNext(x: nat, n: nat)
    requires 0 < n
    ensures x % n + 1 < n ==> (x + 1) / n == x / n && (x + 1) % n == x % n + 1
    ensures x % n + 1 == n ==> (x + 1) / n == x / n + 1 && (x + 1) % n == 0
  {
    if x % n + 1 < n {
      DivideUnique(x + 1, n, x / n, x % n + 1);
    } else {
      assert (x / n + 1) * n == (x / n) * n + n;
      DivideUnique(x + 1, n, x / n + 1, 0);
    }
  }

  lemma {:induction false} PicksAreBelow(c: nat, k: nat, n: nat, j: nat)
    requires j < n
    ensures Picks(c, k, n, j) == Below(c + k, n, j) - Below(c, n, j)
  {
    if k > 0 {
      PicksAreBelow(c, k - 1, n, j);
      DivideNext(c + k - 1, n);
    }
  }

  lemma {:induction false} CountIsPicks<T>(picked: seq<T>, hs: seq<T>, c: nat, j: nat)
    requires j < |hs| && InTurn(picked, hs, c)
    requires forall i :: 0 <= i < |hs| && i != j ==> hs[i] != hs[j]
    ensures multiset(picked)[hs[j]] == Picks(c, |picked|, |hs|, j)
    decreases |picked|
  {
    if picked != [] {
      var k := |picked| - 1;
      CountIsPicks(picked[..k], hs, c, j);
      assert picked == picked[..k] + [picked[k]];
      assert picked[k] == hs[(c + k) % |hs|];
    }
  }

  /** Picks that go round a list take each of its places k / n times, rounded down or up. */
  lemma PicksAreFair<T>(picked: seq<T>, hs: seq<T>, c: nat, j: nat)
    requires j < |hs| && InTurn(picked, hs, c)
    requires forall i :: 0 <= i < |hs| && i != j ==> hs[i] != hs[j]
    ensures var k, n := |picked|, |hs|;
            k / n <= multiset(picked)[hs[j]] <= k / n + if k % n == 0 then 0 else 1
  {
    CountIsPicks(picked, hs, c, j);
    PicksAreBelow(c, |picked|, |hs|, j);
    DivideSum(c, |picked|, |hs|);
  }

  lemma DivideSum(c: nat, k: nat, n: nat)
    requires 0 < n
    ensures if c % n + k % n < n
            then (c + k) / n == c / n + k / n && (c + k) % n == c % n + k % n
            else (c + k) / n == c / n + k / n + 1 && (c + k) % n == c % n + k % n - n
  {
    var q, b, x, r := k / n, k % n, c / n, c % n;
    Distribute(x, q, n);
    Distribute(x + q, 1, n);
    DivideAgain(c, n);
    DivideAgain(k, n);
    if r + b < n {
      DivideUnique(c + k, n, x + q, r + b);
    } else {
      DivideUnique(c + k, n, x + q + 1, r + b - n);
    }
  }

  lemma Distribute(x: nat, y: nat, n: nat)
    ensures (x + y) * n == x * n + y * n
  {
  }

  lemma DivideAgain(x: nat, n: nat)
    requires 0 < n
    ensures x == x / n * n + x % n
  {
  }
}
