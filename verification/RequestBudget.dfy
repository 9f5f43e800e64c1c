/**
 Per-worker admission: a byte bucket refilled by whole seconds, eviction of idle
 entries, and the body buffer's power-of-two growth. Widths are explicit: sums and
 products saturate at 64 bits.
 */
module RequestBudget {
  import opened Bytes
  import opened Wrappers

  const U64_MAX := 0xFFFF_FFFF_FFFF_FFFF

  function Min(a: nat, b: nat): (m: nat)
  {
    if a < b then a else b
  }

  function Max(a: nat, b: nat): (m: nat)
  {
    if a < b then b else a
  }

  function SaturatingSub(a: nat, b: nat): (r: nat)
  {
    if a > b then a - b else 0
  }

  // ---------- The bucket ----------

  datatype Bucket = Bucket(capacity: nat, refill: nat, remaining: nat, last: nat)

  ghost predicate ValidBucket(b: Bucket)
  {
    b.remaining <= b.capacity <= U64_MAX
  }

  /** Tokens at `now`, by exact arithmetic; a clock that went back refills nothing. */
  function Refilled(b: Bucket, now: nat): (n: nat)
  {
    Min(b.capacity, b.remaining + SaturatingSub(now, b.last) * b.refill)
  }

  function Admits(b: Bucket, now: nat, cost: nat): (ok: bool)
  {
    cost <= Refilled(b, now)
  }

  function After(b: Bucket, now: nat, cost: nat): (r: Bucket)
  {
    var tokens := Refilled(b, now);
    b.(remaining := if cost <= tokens then tokens - cost else tokens, last := Max(b.last, now))
  }

  class Budget {
    const capacity: nat
    const refillPerSecond: nat
    var remaining: nat
    var last: nat

    ghost function View(): (b: Bucket)
      reads this
    {
      Bucket(capacity, refillPerSecond, remaining, last)
    }

    constructor (capacity: nat, refillPerSecond: nat, now: nat)
      requires capacity <= U64_MAX
      ensures View() == Bucket(capacity, refillPerSecond, capacity, now) && ValidBucket(View())
    {
      this.capacity := capacity;
      this.refillPerSecond := refillPerSecond;
      remaining := capacity;
      last := now;
    }

    /** Saturating 64-bit arithmetic decides exactly as exact arithmetic does. */
    method Admit(now: nat, cost: nat) returns (ok: bool)
      requires ValidBucket(View())
      modifies this
      ensures ValidBucket(View()) && View() == After(old(View()), now, cost)
      ensures ok <==> Admits(old(View()), now, cost)
    {
      var elapsed := SaturatingSub(now, last);
      var minted := Min(elapsed * refillPerSecond, U64_MAX);
      remaining := Min(Min(remaining + minted, U64_MAX), capacity);
      last := Max(last, now);
      if cost > remaining {
        return false;
      }
      remaining := remaining - cost;
      return true;
    }
  }

  // ---------- Runs of charges ----------

  datatype Charge = Charge(now: nat, cost: nat)

  /** The bucket before charge `k` of a run. */
  function At(b: Bucket, charges: seq<Charge>, k: nat): (r: Bucket)
    requires k <= |charges|
  {
    if k == 0 then b else After(At(b, charges, k - 1), charges[k - 1].now, charges[k - 1].cost)
  }

  /** What charge `k` spends: its cost if admitted. */
  function Spends(b: Bucket, charges: seq<Charge>, k: nat): (n: nat)
    requires k < |charges|
  {
    if Admits(At(b, charges, k), charges[k].now, charges[k].cost) then charges[k].cost else 0
  }

  function Spent(b: Bucket, charges: seq<Charge>, i: nat, j: nat): (n: nat)
    requires i <= j <= |charges|
    decreases j - i
  {
    if i == j then 0 else Spent(b, charges, i, j - 1) + Spends(b, charges, j - 1)
  }

  lemma {:induction false} RunStaysValid(b: Bucket, charges: seq<Charge>, k: nat)
    requires ValidBucket(b) && k <= |charges|
    ensures ValidBucket(At(b, charges, k))
    ensures At(b, charges, k).capacity == b.capacity && At(b, charges, k).refill == b.refill
    ensures At(b, charges, k).last >= b.last
  {
    if k > 0 {
      RunStaysValid(b, charges, k - 1);
    }
  }

  /** One charge: tokens after it and what it spent never exceed tokens before it and the refill. */
  lemma ChargeConserves(b: Bucket, now: nat, cost: nat)
    requires ValidBucket(b)
    ensures var r := After(b, now, cost);
            var spent := if Admits(b, now, cost) then cost else 0;
            && r.remaining + spent <= b.remaining + (r.last - b.last) * b.refill
            && r.remaining + spent <= b.capacity
  {
  }

  /**
   Over every window of consecutive charges, clock jumps included, the admitted cost
   is at most one capacity and the refill of the time the window spans.
   */
  lemma {:induction false} WindowBound(b: Bucket, charges: seq<Charge>, i: nat, j: nat)
    requires ValidBucket(b) && i < j <= |charges|
    ensures At(b, charges, i + 1).last <= At(b, charges, j).last
    ensures At(b, charges, j).remaining + Spent(b, charges, i, j)
            <= b.capacity + (At(b, charges, j).last - At(b, charges, i + 1).last) * b.refill
    decreases j - i
  {
    hide After, Admits;
    var before := At(b, charges, j - 1);
    RunStaysValid(b, charges, j - 1);
    ChargeConserves(before, charges[j - 1].now, charges[j - 1].cost);
    if j == i + 1 {
      assert Spent(b, charges, i, j - 1) == 0;
    } else {
      WindowBound(b, charges, i, j - 1);
      var first, mid, end := At(b, charges, i + 1).last, before.last, At(b, charges, j).last;
      assert end >= mid by {
        ClockForward(before, charges[j - 1]);
      }
      assert (mid - first) * b.refill + (end - mid) * b.refill == (end - first) * b.refill;
    }
  }

  lemma ClockForward(b: Bucket, c: Charge)
    ensures After(b, c.now, c.cost).last >= b.last
  {
  }

  /** Dropping a full bucket and starting a fresh one later is the same as having kept it. */
  lemma EvictionUnobservable(b: Bucket, now: nat, later: nat, cost: nat)
    requires ValidBucket(b) && now <= later && b.last <= now
    requires After(b, now, 0).remaining == b.capacity
    ensures var kept, anew := After(b, now, 0), Bucket(b.capacity, b.refill, b.capacity, later);
            && After(kept, later, cost) == After(anew, later, cost)
            && (Admits(kept, later, cost) <==> Admits(anew, later, cost))
  {
    var kept := After(b, now, 0);
    assert SaturatingSub(later, kept.last) * b.refill >= 0;
  }

  // ---------- Replaying an observed log ----------

  datatype Observed = Observed(now: nat, cost: nat, admitted: bool)

  function ChargesOf(log: seq<Observed>): (cs: seq<Charge>)
    ensures |cs| == |log| && forall i :: 0 <= i < |log| ==> cs[i] == Charge(log[i].now, log[i].cost)
  {
    if log == [] then [] else ChargesOf(log[..|log| - 1]) + [Charge(log[|log| - 1].now, log[|log| - 1].cost)]
  }

  /** The bucket the log starts from: full at the first charge, one token a second. */
  function FirstBucket(log: seq<Observed>, capacity: nat): (b: Bucket)
  {
    Bucket(capacity, 1, capacity, if log == [] then 0 else log[0].now)
  }

  /** The bucket before entry `k` of the log. */
  function BeforeEntry(log: seq<Observed>, capacity: nat, k: nat): (b: Bucket)
    requires k <= |log|
  {
    At(FirstBucket(log, capacity), ChargesOf(log), k)
  }

  /** Entry `k`: the clock has not gone back, nothing was refused before it, the decision is the bucket's. */
  ghost predicate FaithfulAt(log: seq<Observed>, capacity: nat, k: nat)
    requires k < |log|
  {
    && (k > 0 ==> log[k - 1].now <= log[k].now && log[k - 1].admitted)
    && (log[k].admitted <==> Admits(BeforeEntry(log, capacity, k), log[k].now, log[k].cost))
  }

  ghost predicate Faithful(log: seq<Observed>, capacity: nat)
  {
    forall k :: 0 <= k < |log| ==> FaithfulAt(log, capacity, k)
  }

  lemma EntryStep(log: seq<Observed>, capacity: nat, i: nat, tokens: nat, previous: nat)
    requires i < |log| && BeforeEntry(log, capacity, i) == Bucket(capacity, 1, tokens, previous)
    requires previous <= log[i].now
    ensures var now := Min(tokens + (log[i].now - previous), capacity);
            && (Admits(BeforeEntry(log, capacity, i), log[i].now, log[i].cost) <==> log[i].cost <= now)
            && BeforeEntry(log, capacity, i + 1)
               == Bucket(capacity, 1, if log[i].cost <= now then now - log[i].cost else now, log[i].now)
  {
    hide ChargesOf;
    assert SaturatingSub(log[i].now, previous) * 1 == log[i].now - previous;
  }

  /** The replay accepts exactly the faithful logs, and then ends on the bucket's balance. */
  method Replay(log: seq<Observed>, capacity: nat) returns (balance: Option<nat>)
    requires capacity <= U64_MAX
    ensures balance.Some? <==> Faithful(log, capacity)
    ensures balance.Some? ==> balance.value == BeforeEntry(log, capacity, |log|).remaining
  {
    var tokens: nat, denied, i := capacity, false, 0;
    var previous: nat := if log == [] then 0 else log[0].now;
    assert BeforeEntry(log, capacity, 0) == Bucket(capacity, 1, tokens, previous);
    hide BeforeEntry, Admits;
    while i < |log|
      invariant 0 <= i <= |log|
      invariant BeforeEntry(log, capacity, i) == Bucket(capacity, 1, tokens, previous)
      invariant i > 0 ==> previous == log[i - 1].now
      invariant i == 0 && log != [] ==> previous == log[0].now
      invariant denied <==> i > 0 && !log[i - 1].admitted
      invariant forall k :: 0 <= k < i ==> FaithfulAt(log, capacity, k)
    {
      var e := log[i];
      if denied || e.now < previous {
        assert !FaithfulAt(log, capacity, i);
        return None;
      }
      EntryStep(log, capacity, i, tokens, previous);
      tokens := Min(tokens + (e.now - previous), capacity);
      if e.admitted != (e.cost <= tokens) {
        assert !FaithfulAt(log, capacity, i);
        return None;
      }
      assert FaithfulAt(log, capacity, i);
      if e.admitted {
        tokens := tokens - e.cost;
      } else {
        denied := true;
      }
      previous := e.now;
      i := i + 1;
    }
    return Some(tokens);
  }

  // ---------- The body buffer ----------

  const BODY_CAP := 2 * 1024 * 1024

  function Pow2(k: nat): (n: nat)
    ensures n >= 1
  {
    if k == 0 then 1 else 2 * Pow2(k - 1)
  }

  ghost predicate IsPow2(n: nat)
  {
    exists k: nat :: Pow2(k) == n
  }

  lemma Doubling(n: nat)
    requires IsPow2(n)
    ensures IsPow2(2 * n)
  {
    var k: nat :| Pow2(k) == n;
    assert Pow2(k + 1) == 2 * n;
  }

  lemma {:induction false} Pow2Gap(j: nat, k: nat)
    requires Pow2(j) < Pow2(k)
    ensures 2 * Pow2(j) <= Pow2(k)
  {
    if j > 0 && k > 0 {
      Pow2Gap(j - 1, k - 1);
    }
  }

  lemma CapIsPow2()
    ensures IsPow2(BODY_CAP)
  {
    assert Pow2(4) == 16 && Pow2(8) == 256 && Pow2(12) == 4096 && Pow2(16) == 65536 && Pow2(20) == 1048576;
    assert Pow2(21) == BODY_CAP;
  }

  /** The least power of two that holds `end`, found by doubling. */
  method NextPowerOfTwo(end: nat) returns (capacity: nat)
    ensures IsPow2(capacity) && end <= capacity
    ensures forall n :: IsPow2(n) && end <= n ==> capacity <= n
  {
    capacity := 1;
    assert Pow2(0) == 1;
    while capacity < end
      invariant IsPow2(capacity)
      invariant forall n :: IsPow2(n) && end <= n ==> capacity <= n
    {
      Doubling(capacity);
      forall n | IsPow2(n) && end <= n ensures 2 * capacity <= n {
        var j: nat :| Pow2(j) == capacity;
        var k: nat :| Pow2(k) == n;
        Pow2Gap(j, k);
      }
      capacity := capacity * 2;
    }
  }

  /** Powers of two within the cap, each at least twice the one before. */
  ghost predicate Doublings(allocations: seq<nat>)
  {
    && (forall i :: 0 <= i < |allocations| ==> IsPow2(allocations[i]) && allocations[i] <= BODY_CAP)
    && (forall i :: 0 < i < |allocations| ==> 2 * allocations[i - 1] <= allocations[i])
  }

  function Sum(s: seq<nat>): (n: nat)
  {
    if s == [] then 0 else Sum(s[..|s| - 1]) + s[|s| - 1]
  }

  /** All memory ever allocated is less than twice the last allocation, hence than twice the cap. */
  lemma {:induction false} AllocationBound(s: seq<nat>)
    requires s != [] && Doublings(s)
    ensures Sum(s) < 2 * s[|s| - 1] <= 2 * BODY_CAP
  {
    var last := s[|s| - 1];
    assert last >= 1 by {
      var k: nat :| Pow2(k) == last;
    }
    if |s| > 1 {
      AllocationBound(s[..|s| - 1]);
    } else {
      assert s[..0] == [];
    }
  }

  class RequestBuffer {
    var used: seq<u8>
    var capacity: nat
    ghost var allocations: seq<nat>

    ghost predicate Valid()
      reads this
    {
      && |used| <= capacity && Doublings(allocations)
      && capacity == if allocations == [] then 0 else allocations[|allocations| - 1]
    }

    constructor ()
      ensures Valid() && used == [] && allocations == []
    {
      used, capacity, allocations := [], 0, [];
    }

    /** Refuses exactly what would pass the cap, and otherwise appends the whole chunk. */
    method Append(chunk: seq<u8>) returns (ok: bool)
      requires Valid()
      modifies this
      ensures Valid() && (ok <==> |old(used)| + |chunk| <= BODY_CAP)
      ensures used == if ok then old(used) + chunk else old(used)
      ensures allocations == old(allocations) || allocations == old(allocations) + [capacity]
      ensures |old(used)| + |chunk| <= old(capacity) ==> allocations == old(allocations)
    {
      var required := |used| + |chunk|;
      if required > BODY_CAP {
        return false;
      }
      if required > capacity {
        var size := NextPowerOfTwo(required);
        CapIsPow2();
        assert allocations != [] ==> 2 * capacity <= size by {
          if allocations != [] {
            var j: nat :| Pow2(j) == capacity;
            var k: nat :| Pow2(k) == size;
            Pow2Gap(j, k);
          }
        }
        capacity := Min(size, BODY_CAP);
        allocations := allocations + [capacity];
      }
      used := used + chunk;
      return true;
    }
  }

  // ---------- As generous as the bound allows ----------

  /** The balance before charge `k` is what the refill since the start, or since charge `i` found the bucket full, left. */
  ghost predicate TightAt(b: Bucket, charges: seq<Charge>, k: nat, i: int)
    requires k <= |charges|
  {
    && -1 <= i < k
    && var now := At(b, charges, k);
    if i < 0 then
      now.remaining + Spent(b, charges, 0, k) == b.remaining + (now.last - b.last) * b.refill
    else
      now.remaining + Spent(b, charges, i, k)
      == b.capacity + (now.last - At(b, charges, i + 1).last) * b.refill
  }

  /** Some window is always exhausted exactly: nothing the window bound allows is ever withheld. */
  lemma {:induction false} WindowIsTight(b: Bucket, charges: seq<Charge>, k: nat)
    requires ValidBucket(b) && k <= |charges|
    ensures exists i :: TightAt(b, charges, k, i)
  {
    if k == 0 {
      assert TightAt(b, charges, 0, -1);
    } else {
      WindowIsTight(b, charges, k - 1);
      var i :| TightAt(b, charges, k - 1, i);
      RunStaysValid(b, charges, k - 1);
      TightStep(b, charges, k, i);
    }
  }

  lemma ChargeExact(b: Bucket, now: nat, cost: nat)
    requires ValidBucket(b)
    ensures var r := After(b, now, cost);
            var spent := if Admits(b, now, cost) then cost else 0;
            && r.last >= b.last
            && (r.remaining + spent == b.capacity
                || r.remaining + spent == b.remaining + (r.last - b.last) * b.refill)
  {
  }

  lemma TightStep(b: Bucket, charges: seq<Charge>, k: nat, i: int)
    requires ValidBucket(b) && 0 < k <= |charges| && TightAt(b, charges, k - 1, i)
    requires ValidBucket(At(b, charges, k - 1)) && At(b, charges, k - 1).capacity == b.capacity
    requires At(b, charges, k - 1).refill == b.refill
    ensures exists j :: TightAt(b, charges, k, j)
  {
    hide After, Admits;
    var before, after, c := At(b, charges, k - 1), At(b, charges, k), charges[k - 1];
    ChargeExact(before, c.now, c.cost);
    var spent := Spends(b, charges, k - 1);
    if after.remaining + spent == b.capacity {
      assert Spent(b, charges, k - 1, k) == Spent(b, charges, k - 1, k - 1) + spent;
      assert Spent(b, charges, k - 1, k - 1) == 0;
      assert (after.last - after.last) * b.refill == 0;
      assert TightAt(b, charges, k, k - 1);
    } else {
      var start := if i < 0 then b.last else At(b, charges, i + 1).last;
      assert (before.last - start) * b.refill + (after.last - before.last) * b.refill == (after.last - start) * b.refill;
      assert TightAt(b, charges, k, i);
    }
  }
}
