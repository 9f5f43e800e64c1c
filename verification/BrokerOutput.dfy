/**
 The output ceiling of the model broker. Each provider chunk reserves bytes from a
 shared counter before it is forwarded: a compare-and-swap loop when several
 streams run at once, a plain loop over the chunks of one stream.
 */
module BrokerOutput {
  import opened Bytes

  function Min(a: nat, b: nat): (m: nat)
  {
    if a < b then a else b
  }

  /** What one reservation is worth when the counter stands at `current`. */
  function Allowed(current: nat, requested: nat, ceiling: nat): (n: nat)
    ensures n <= requested
    ensures current + n <= ceiling || n == 0
  {
    Min(if ceiling > current then ceiling - current else 0, requested)
  }

  // ---------- Several streams, one counter ----------

  /** Where one stream is in the reservation loop: outside, before the load, or after it. */
  datatype Phase = Idle | Starting(requested: nat) | Loaded(requested: nat, seen: nat)

  datatype Grant = Grant(requested: nat, allowed: nat)

  /** The counter, every stream's phase, and the finished reservations in the order they took effect. */
  datatype Broker = Broker(counter: nat, streams: seq<Phase>, log: seq<Grant>)

  ghost predicate Begin(s: Broker, t: Broker, i: nat, requested: nat)
  {
    && i < |s.streams| && s.streams[i].Idle?
    && t == s.(streams := s.streams[i := Starting(requested)])
  }

  ghost predicate Load(s: Broker, t: Broker, i: nat)
  {
    && i < |s.streams| && s.streams[i].Starting?
    && t == s.(streams := s.streams[i := Loaded(s.streams[i].requested, s.counter)])
  }

  /** Nothing was left when the counter was loaded. */
  ghost predicate GiveUp(s: Broker, t: Broker, i: nat, ceiling: nat)
  {
    && i < |s.streams| && s.streams[i].Loaded?
    && var p := s.streams[i];
    && Allowed(p.seen, p.requested, ceiling) == 0
    && t == s.(streams := s.streams[i := Idle], log := s.log + [Grant(p.requested, 0)])
  }

  ghost predicate Swap(s: Broker, t: Broker, i: nat, ceiling: nat)
  {
    && i < |s.streams| && s.streams[i].Loaded?
    && var p := s.streams[i];
    && var n := Allowed(p.seen, p.requested, ceiling);
    && n > 0 && s.counter == p.seen
    && t == Broker(s.counter + n, s.streams[i := Idle], s.log + [Grant(p.requested, n)])
  }

  /** A failed exchange, by interference or spuriously, goes back to the load. */
  ghost predicate Retry(s: Broker, t: Broker, i: nat, ceiling: nat)
  {
    && i < |s.streams| && s.streams[i].Loaded?
    && var p := s.streams[i];
    && Allowed(p.seen, p.requested, ceiling) > 0
    && t == s.(streams := s.streams[i := Starting(p.requested)])
  }

  ghost predicate Step(s: Broker, t: Broker, ceiling: nat)
  {
    || (exists i, requested :: Begin(s, t, i, requested))
    || (exists i :: Load(s, t, i))
    || (exists i :: GiveUp(s, t, i, ceiling))
    || (exists i :: Swap(s, t, i, ceiling))
    || (exists i :: Retry(s, t, i, ceiling))
  }

  ghost predicate Initial(s: Broker, initial: nat)
  {
    s.counter == initial && s.log == [] && forall i :: 0 <= i < |s.streams| ==> s.streams[i] == Idle
  }

  ghost predicate Execution(trace: seq<Broker>, initial: nat, ceiling: nat)
  {
    && trace != [] && Initial(trace[0], initial)
    && forall k :: 0 <= k < |trace| - 1 ==> Step(trace[k], trace[k + 1], ceiling)
  }

  // ---------- One reservation at a time ----------

  function Granted(log: seq<Grant>): (n: nat)
  {
    if log == [] then 0 else Granted(log[..|log| - 1]) + log[|log| - 1].allowed
  }

  /** The log is what serving its requests one after another would have granted. */
  ghost predicate Sequential(log: seq<Grant>, initial: nat, ceiling: nat)
  {
    forall k :: 0 <= k < |log| ==>
      log[k].allowed == Allowed(initial + Granted(log[..k]), log[k].requested, ceiling)
  }

  ghost predicate Invariant(s: Broker, initial: nat, ceiling: nat)
  {
    && Sequential(s.log, initial, ceiling)
    && s.counter == initial + Granted(s.log)
    && (s.counter <= ceiling || s.counter == initial)
    && (forall i :: 0 <= i < |s.streams| && s.streams[i].Loaded? ==> s.streams[i].seen <= s.counter)
  }

  lemma LogOneMore(log: seq<Grant>, g: Grant, initial: nat, ceiling: nat)
    requires Sequential(log, initial, ceiling)
    requires g.allowed == Allowed(initial + Granted(log), g.requested, ceiling)
    ensures Sequential(log + [g], initial, ceiling)
    ensures Granted(log + [g]) == Granted(log) + g.allowed
  {
    var next := log + [g];
    assert next[..|log|] == log;
    hide Allowed, Granted;
    forall k | 0 <= k < |next|
      ensures next[k].allowed == Allowed(initial + Granted(next[..k]), next[k].requested, ceiling)
    {
      assert next[..k] == if k < |log| then log[..k] else log;
    }
  }

  lemma StepKeepsInvariant(s: Broker, t: Broker, initial: nat, ceiling: nat)
    requires Invariant(s, initial, ceiling) && Step(s, t, ceiling)
    ensures Invariant(t, initial, ceiling)
  {
    hide Sequential, Granted;
    if i: nat :| GiveUp(s, t, i, ceiling) {
      LogOneMore(s.log, Grant(s.streams[i].requested, 0), initial, ceiling);
    } else if i: nat :| Swap(s, t, i, ceiling) {
      var p := s.streams[i];
      LogOneMore(s.log, Grant(p.requested, Allowed(p.seen, p.requested, ceiling)), initial, ceiling);
    }
  }

  /**
   However the streams interleave, at every point of every execution the finished
   reservations are exactly those of some one-at-a-time order, the counter has moved by
   exactly the bytes granted, and it never passes the ceiling.
   */
  lemma {:induction false} ExecutionIsSequential(trace: seq<Broker>, initial: nat, ceiling: nat)
    requires Execution(trace, initial, ceiling)
    ensures Invariant(trace[|trace| - 1], initial, ceiling)
    decreases |trace|
  {
    hide Step, Invariant;
    if |trace| == 1 {
      InitialInvariant(trace[0], initial, ceiling);
    } else {
      var front := trace[..|trace| - 1];
      ExecutionIsSequential(front, initial, ceiling);
      StepKeepsInvariant(trace[|trace| - 2], trace[|trace| - 1], initial, ceiling);
    }
  }

  lemma InitialInvariant(s: Broker, initial: nat, ceiling: nat)
    requires Initial(s, initial)
    ensures Invariant(s, initial, ceiling)
  {
  }

  function Requested(log: seq<Grant>): (n: nat)
  {
    if log == [] then 0 else Requested(log[..|log| - 1]) + log[|log| - 1].requested
  }

  /** One at a time, requests are granted in total what one request for all of it would be. */
  lemma {:induction false} GrantedInTotal(log: seq<Grant>, initial: nat, ceiling: nat)
    requires Sequential(log, initial, ceiling)
    ensures Granted(log) == Allowed(initial, Requested(log), ceiling)
    decreases |log|
  {
    if log != [] {
      var front := log[..|log| - 1];
      assert forall k :: 0 <= k < |front| ==> front[..k] == log[..k];
      GrantedInTotal(front, initial, ceiling);
    }
  }

  /** So the counter shows only how much was asked for, never who asked first or who retried. */
  lemma InterleavingIrrelevant(trace: seq<Broker>, initial: nat, ceiling: nat)
    requires Execution(trace, initial, ceiling)
    ensures var s := trace[|trace| - 1];
            s.counter == initial + Allowed(initial, Requested(s.log), ceiling)
  {
    ExecutionIsSequential(trace, initial, ceiling);
    GrantedInTotal(trace[|trace| - 1].log, initial, ceiling);
  }

  // ---------- One stream, cut into chunks ----------

  function Flatten(chunks: seq<seq<u8>>): (r: seq<u8>)
  {
    if chunks == [] then [] else chunks[0] + Flatten(chunks[1..])
  }

  /** The chunks before the first empty one: an empty chunk ends the stream. */
  function Reached(chunks: seq<seq<u8>>): (k: nat)
    ensures k <= |chunks|
  {
    if chunks == [] || chunks[0] == [] then 0 else 1 + Reached(chunks[1..])
  }

  /** The prefix that fits under the ceiling. */
  function Fitting(bytes: seq<u8>, initial: nat, ceiling: nat): (r: seq<u8>)
  {
    bytes[..Allowed(initial, |bytes|, ceiling)]
  }

  lemma ReachedStep(chunks: seq<seq<u8>>)
    requires chunks != [] && chunks[0] != []
    ensures Flatten(chunks[..Reached(chunks)]) == chunks[0] + Flatten(chunks[1..][..Reached(chunks[1..])])
  {
    var k := Reached(chunks[1..]);
    assert chunks[..k + 1][1..] == chunks[1..][..k];
  }

  /**
   Forwarded bytes are the prefix that fits, of everything before the first empty
   chunk; the counter grows by exactly that; overflow is reported exactly when those
   bytes exceed what was left or an empty chunk ended the stream.
   */
  method ForwardChunks(chunks: seq<seq<u8>>, initial: nat, ceiling: nat)
    returns (forwarded: seq<u8>, total: nat, overflow: bool)
    ensures var bytes := Flatten(chunks[..Reached(chunks)]);
            && forwarded == Fitting(bytes, initial, ceiling)
            && total == initial + |forwarded|
            && (overflow <==> |forwarded| < |bytes| || Reached(chunks) < |chunks|)
  {
    hide Flatten, Reached;
    total, forwarded, overflow := initial, [], false;
    var i := 0;
    ghost var bytes := Flatten(chunks[..Reached(chunks)]);
    assert chunks[0..] == chunks;
    ghost var rest := bytes;
    while i < |chunks|
      invariant 0 <= i <= |chunks| && !overflow
      invariant forwarded + rest == bytes && rest == Flatten(chunks[i..][..Reached(chunks[i..])])
      invariant total == initial + |forwarded| && (total <= ceiling || forwarded == [])
      invariant Reached(chunks) < |chunks| <==> Reached(chunks[i..]) < |chunks[i..]|
    {
      ghost var tail := chunks[i..];
      assert tail[1..] == chunks[i + 1..];
      var chunk := chunks[i];
      var remaining := if ceiling > total then ceiling - total else 0;
      var admitted := Min(remaining, |chunk|);
      if chunk == [] {
        EmptyEnds(tail);
      } else {
        ReachedStep(tail);
        ReachedOne(tail);
      }
      forwarded := forwarded + chunk[..admitted];
      total := total + admitted;
      if admitted == 0 || admitted < |chunk| {
        overflow := true;
        break;
      }
      rest := Flatten(chunks[i + 1..][..Reached(chunks[i + 1..])]);
      i := i + 1;
    }
    if !overflow {
      NothingReached();
      assert chunks[i..] == [];
    }
  }

  /** With no empty chunk the cut does not matter: only the bytes and what is left do. */
  lemma {:induction false} CutIrrelevant(chunks: seq<seq<u8>>, initial: nat, ceiling: nat)
    requires [] !in chunks
    ensures Reached(chunks) == |chunks| && Flatten(chunks[..Reached(chunks)]) == Flatten(chunks)
    ensures var n := |Flatten(chunks)|;
            |Fitting(Flatten(chunks), initial, ceiling)| < n <==> n > 0 && initial + n > ceiling
  {
    if chunks != [] {
      CutIrrelevant(chunks[1..], initial, ceiling);
      assert chunks[..|chunks|] == chunks;
    }
  }

  lemma EmptyEnds(chunks: seq<seq<u8>>)
    requires chunks != [] && chunks[0] == []
    ensures Reached(chunks) == 0 && Flatten(chunks[..0]) == []
  {
  }

  lemma ReachedOne(chunks: seq<seq<u8>>)
    requires chunks != [] && chunks[0] != []
    ensures Reached(chunks) == 1 + Reached(chunks[1..])
  {
  }

  lemma NothingReached()
    ensures Reached([]) == 0 && Flatten([]) == []
  {
  }
}
