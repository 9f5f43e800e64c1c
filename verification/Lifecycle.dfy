/**
 Job and finding lifecycles: the transition functions, the edge tables they must
 agree with, and what every whole run keeps. A rejected transition leaves the
 state unchanged.
 */
module Lifecycle {
  import opened Wrappers

  datatype JobState = Queued | Leased | Succeeded | Failed | Cancelled

  datatype JobTransition =
    Enqueue | Lease | Heartbeat | CompleteSucceeded | CompleteFailed | Cancel | Retry | ReapToQueued | ReapToFailed

  datatype FindingState = Pending | Validating | AwaitingApproval | Confirmed | Dismissed | Reported

  datatype FindingTransition =
    | ScanAccepted | ScanAutoConfirm | ScanAwaitApproval | ScanRequireVerification
    | VerdictConfirm | VerdictAwaitApproval | VerdictDismiss | DeadlineExpire
    | Approve | Reject | RetryVerification | MarkReported

  // ---------- Transitions ----------

  function ApplyJob(s: JobState, a: JobTransition): (r: Option<JobState>)
  {
    match (s, a)
    case (Queued, Lease) => Some(Leased)
    case (Leased, Heartbeat) => Some(Leased)
    case (Leased, CompleteSucceeded) => Some(Succeeded)
    case (Leased, CompleteFailed) => Some(Failed)
    case (Queued, Cancel) => Some(Cancelled)
    case (Leased, Cancel) => Some(Cancelled)
    case (Failed, Retry) => Some(Queued)
    case (Leased, ReapToQueued) => Some(Queued)
    case (Leased, ReapToFailed) => Some(Failed)
    case _ => None
  }

  function ApplyFinding(s: FindingState, a: FindingTransition): (r: Option<FindingState>)
  {
    match (s, a)
    case (Pending, ScanAutoConfirm) => Some(Confirmed)
    case (Pending, ScanAwaitApproval) => Some(AwaitingApproval)
    case (Pending, ScanRequireVerification) => Some(Validating)
    case (Validating, VerdictConfirm) => Some(Confirmed)
    case (Validating, VerdictAwaitApproval) => Some(AwaitingApproval)
    case (Validating, VerdictDismiss) => Some(Dismissed)
    case (Validating, DeadlineExpire) => Some(Dismissed)
    case (AwaitingApproval, Approve) => Some(Confirmed)
    case (AwaitingApproval, Reject) => Some(Dismissed)
    case (Pending, RetryVerification) => Some(Validating)
    case (Validating, RetryVerification) => Some(Validating)
    case (Dismissed, RetryVerification) => Some(Validating)
    case (Confirmed, MarkReported) => Some(Reported)
    case _ => None
  }

  const JOB_EDGES: seq<(JobState, JobTransition, JobState)> := [
    (Queued, Lease, Leased), (Queued, Cancel, Cancelled), (Leased, Heartbeat, Leased),
    (Leased, CompleteSucceeded, Succeeded), (Leased, CompleteFailed, Failed), (Leased, Cancel, Cancelled),
    (Leased, ReapToQueued, Queued), (Leased, ReapToFailed, Failed), (Failed, Retry, Queued)]

  const FINDING_EDGES: seq<(FindingState, FindingTransition, FindingState)> := [
    (Pending, ScanAutoConfirm, Confirmed), (Pending, ScanAwaitApproval, AwaitingApproval),
    (Pending, ScanRequireVerification, Validating), (Pending, RetryVerification, Validating),
    (Validating, VerdictConfirm, Confirmed), (Validating, VerdictAwaitApproval, AwaitingApproval),
    (Validating, VerdictDismiss, Dismissed), (Validating, DeadlineExpire, Dismissed),
    (Validating, RetryVerification, Validating), (AwaitingApproval, Approve, Confirmed),
    (AwaitingApproval, Reject, Dismissed), (Dismissed, RetryVerification, Validating),
    (Confirmed, MarkReported, Reported)]

  /** The first edge out of `s` under `a`, as a table lookup finds it. */
  function FindEdge<S(==), A(==)>(edges: seq<(S, A, S)>, s: S, a: A): (r: Option<S>)
    ensures r.Some? ==> (s, a, r.value) in edges
    ensures r.None? ==> forall e :: e in edges ==> !(e.0 == s && e.1 == a)
  {
    if edges == [] then None
    else if edges[0].0 == s && edges[0].1 == a then Some(edges[0].2)
    else FindEdge(edges[1..], s, a)
  }

  /** The transition functions are exactly the edge tables. */
  lemma TablesAgree(j: JobState, a: JobTransition, f: FindingState, b: FindingTransition)
    ensures ApplyJob(j, a) == FindEdge(JOB_EDGES, j, a)
    ensures ApplyFinding(f, b) == FindEdge(FINDING_EDGES, f, b)
  {
    hide FindEdge;
    var r := FindEdge(JOB_EDGES, j, a);
    var s := FindEdge(FINDING_EDGES, f, b);
    JobEdges(j, a);
    FindingEdges(f, b);
  }

  lemma JobEdges(s: JobState, a: JobTransition)
    ensures forall t :: (s, a, t) in JOB_EDGES <==> ApplyJob(s, a) == Some(t)
  {
  }

  lemma FindingEdges(s: FindingState, a: FindingTransition)
    ensures forall t :: (s, a, t) in FINDING_EDGES <==> ApplyFinding(s, a) == Some(t)
  {
  }

  // ---------- Runs ----------

  function NextJob(s: JobState, a: JobTransition): (t: JobState)
  {
    if ApplyJob(s, a).Some? then ApplyJob(s, a).value else s
  }

  function NextFinding(s: FindingState, a: FindingTransition): (t: FindingState)
  {
    if ApplyFinding(s, a).Some? then ApplyFinding(s, a).value else s
  }

  function JobAfter(s: JobState, run: seq<JobTransition>): (t: JobState)
    decreases |run|
  {
    if run == [] then s else JobAfter(NextJob(s, run[0]), run[1..])
  }

  function FindingAfter(s: FindingState, run: seq<FindingTransition>): (t: FindingState)
    decreases |run|
  {
    if run == [] then s else FindingAfter(NextFinding(s, run[0]), run[1..])
  }

  /** Steps both machines through a sequence of paired actions. */
  method Drive(steps: seq<(JobTransition, FindingTransition)>) returns (job: JobState, finding: FindingState)
    ensures job == JobAfter(Queued, seq(|steps|, i requires 0 <= i < |steps| => steps[i].0))
    ensures finding == FindingAfter(Pending, seq(|steps|, i requires 0 <= i < |steps| => steps[i].1))
  {
    job, finding := Queued, Pending;
    var i := 0;
    ghost var js := seq(|steps|, i requires 0 <= i < |steps| => steps[i].0);
    ghost var fs := seq(|steps|, i requires 0 <= i < |steps| => steps[i].1);
    assert js[0..] == js && fs[0..] == fs;
    while i < |steps|
      invariant 0 <= i <= |steps|
      invariant JobAfter(job, js[i..]) == JobAfter(Queued, js)
      invariant FindingAfter(finding, fs[i..]) == FindingAfter(Pending, fs)
    {
      assert js[i..][1..] == js[i + 1..] && fs[i..][1..] == fs[i + 1..];
      var next := ApplyJob(job, steps[i].0);
      if next.Some? {
        job := next.value;
      }
      var moved := ApplyFinding(finding, steps[i].1);
      if moved.Some? {
        finding := moved.value;
      }
      i := i + 1;
    }
    assert js[i..] == [] && fs[i..] == [];
  }

  /** The accepted actions of a run, rejected ones erased. */
  function AcceptedJob(s: JobState, run: seq<JobTransition>): (r: seq<JobTransition>)
    decreases |run|
  {
    if run == [] then []
    else (if ApplyJob(s, run[0]).Some? then [run[0]] else []) + AcceptedJob(NextJob(s, run[0]), run[1..])
  }

  function AcceptedFinding(s: FindingState, run: seq<FindingTransition>): (r: seq<FindingTransition>)
    decreases |run|
  {
    if run == [] then []
    else (if ApplyFinding(s, run[0]).Some? then [run[0]] else []) + AcceptedFinding(NextFinding(s, run[0]), run[1..])
  }

  // ---------- Jobs: one lease at a time ----------

  /** Heartbeats alone. */
  predicate Beats(run: seq<JobTransition>)
  {
    forall i :: 0 <= i < |run| ==> run[i] == Heartbeat
  }

  /** How a lease ends so that another may follow: reaped to the queue, or failed and retried. */
  predicate Released(run: seq<JobTransition>)
  {
    run == [ReapToQueued] || run == [CompleteFailed, Retry] || run == [ReapToFailed, Retry]
  }

  /** Heartbeats, then a release. */
  ghost predicate BetweenLeases(run: seq<JobTransition>)
  {
    exists k :: 0 <= k <= |run| && Beats(run[..k]) && Released(run[k..])
  }

  /** A run every action of which is accepted. */
  predicate AllAccepted(s: JobState, run: seq<JobTransition>)
    decreases |run|
  {
    run == [] || (ApplyJob(s, run[0]).Some? && AllAccepted(NextJob(s, run[0]), run[1..]))
  }

  lemma {:induction false} AcceptedAreAccepted(s: JobState, run: seq<JobTransition>)
    ensures AllAccepted(s, AcceptedJob(s, run))
    ensures JobAfter(s, AcceptedJob(s, run)) == JobAfter(s, run)
    decreases |run|
  {
    if run != [] {
      AcceptedAreAccepted(NextJob(s, run[0]), run[1..]);
      var rest := AcceptedJob(NextJob(s, run[0]), run[1..]);
      assert ApplyJob(s, run[0]).Some? ==> ([run[0]] + rest)[1..] == rest;
      assert [] + rest == rest;
    }
  }

  lemma OneMoreBeat(run: seq<JobTransition>)
    requires BetweenLeases(run)
    ensures BetweenLeases([Heartbeat] + run)
  {
    var k :| 0 <= k <= |run| && Beats(run[..k]) && Released(run[k..]);
    var more := [Heartbeat] + run;
    assert more[..k + 1] == [Heartbeat] + run[..k] && more[k + 1..] == run[k..];
  }

  lemma NoBeats(run: seq<JobTransition>)
    requires Released(run)
    ensures BetweenLeases(run)
  {
    assert run[..0] == [] && run[0..] == run;
  }

  /** From a leased job, an accepted run that reaches the next lease has released the first. */
  lemma {:induction false} LeaseReleased(run: seq<JobTransition>, rest: seq<JobTransition>)
    requires AllAccepted(Leased, run + [Lease] + rest)
    requires Lease !in run
    ensures BetweenLeases(run)
    decreases |run|
  {
    hide BetweenLeases, Released;
    var whole := run + [Lease] + rest;
    assert whole[0] == if run == [] then Lease else run[0];
    assert run != [];
    var tail := run[1..];
    assert run == [run[0]] + tail;
    if run[0] == Heartbeat {
      assert whole[1..] == tail + [Lease] + rest;
      LeaseReleased(tail, rest);
      OneMoreBeat(tail);
    } else {
      AfterRelease(run, rest);
      NoBeats(run);
    }
  }

  lemma {:induction false} AfterRelease(run: seq<JobTransition>, rest: seq<JobTransition>)
    requires run != [] && run[0] != Heartbeat && Lease !in run
    requires AllAccepted(Leased, run + [Lease] + rest)
    ensures Released(run)
  {
    var whole := run + [Lease] + rest;
    assert whole[0] == run[0] && whole[1..] == run[1..] + [Lease] + rest;
    var next := NextJob(Leased, run[0]);
    var tail := run[1..];
    var more := tail + [Lease] + rest;
    assert more[0] == if tail == [] then Lease else tail[0];
    if next == Queued {
      assert tail != [] ==> tail[0] in run;
      assert tail == [] by { QueuedThenLease(tail, rest); }
      assert run == [run[0]];
    } else {
      assert next == Failed by { NotSealed(next, more); }
      assert tail != [] && tail[0] == Retry;
      assert more[1..] == tail[1..] + [Lease] + rest;
      assert tail[1..] == [] by {
        assert forall a :: a in tail[1..] ==> a in run;
        QueuedThenLease(tail[1..], rest);
      }
      assert run == [run[0], run[1]];
    }
  }

  /** From the queue, no action but cancelling precedes a lease, and cancelling ends the job. */
  lemma QueuedThenLease(run: seq<JobTransition>, rest: seq<JobTransition>)
    requires AllAccepted(Queued, run + [Lease] + rest) && Lease !in run
    ensures run == []
  {
    if run != [] {
      var whole := run + [Lease] + rest;
      assert whole[0] == run[0];
      NotSealed(NextJob(Queued, run[0]), whole[1..]);
    }
  }

  /** Succeeded and cancelled jobs accept nothing. */
  lemma NotSealed(s: JobState, run: seq<JobTransition>)
    requires AllAccepted(s, run) && run != []
    ensures s != Succeeded && s != Cancelled
  {
  }

  /**
   In every run of a job, between two successive accepted leases there are only
   heartbeats and then exactly one release: a reap to the queue, or a failure and an
   operator's retry.
   */
  lemma LeasesAreSeparated(run: seq<JobTransition>, i: nat, j: nat)
    requires var done := AcceptedJob(Queued, run);
             i < j < |done| && done[i] == done[j] == Lease && Lease !in done[i + 1..j]
    ensures BetweenLeases(AcceptedJob(Queued, run)[i + 1..j])
  {
    hide AcceptedJob, AllAccepted, BetweenLeases;
    var done := AcceptedJob(Queued, run);
    AcceptedAreAccepted(Queued, run);
    AcceptedSuffix(Queued, done, i + 1);
    var tail := done[i + 1..];
    assert tail == done[i + 1..j] + [Lease] + done[j + 1..];
    LeaseReleased(done[i + 1..j], done[j + 1..]);
  }

  lemma {:induction false} AcceptedSuffix(s: JobState, run: seq<JobTransition>, k: nat)
    requires AllAccepted(s, run) && 0 < k <= |run| && run[k - 1] == Lease
    ensures AllAccepted(Leased, run[k..])
    decreases k
  {
    if k > 1 {
      AcceptedSuffix(NextJob(s, run[0]), run[1..], k - 1);
      assert run[1..][k - 1..] == run[k..];
    }
  }

  // ---------- Findings: nothing is reported without a verdict ----------

  /** The accepted ways from the last validation to a report. */
  predicate Verdict(run: seq<FindingTransition>)
  {
    run == [VerdictConfirm, MarkReported] || run == [VerdictAwaitApproval, Approve, MarkReported]
  }

  predicate AllAcceptedFinding(s: FindingState, run: seq<FindingTransition>)
    decreases |run|
  {
    run == [] || (ApplyFinding(s, run[0]).Some? && AllAcceptedFinding(NextFinding(s, run[0]), run[1..]))
  }

  lemma {:induction false} AcceptedFindingsAccepted(s: FindingState, run: seq<FindingTransition>)
    ensures AllAcceptedFinding(s, AcceptedFinding(s, run))
    ensures FindingAfter(s, AcceptedFinding(s, run)) == FindingAfter(s, run)
    decreases |run|
  {
    if run != [] {
      AcceptedFindingsAccepted(NextFinding(s, run[0]), run[1..]);
      var rest := AcceptedFinding(NextFinding(s, run[0]), run[1..]);
      assert ApplyFinding(s, run[0]).Some? ==> ([run[0]] + rest)[1..] == rest;
      assert [] + rest == rest;
    }
  }

  /** Action `k` on leaves a validating finding and carries it to its report by a verdict. */
  ghost predicate VerdictFrom(s: FindingState, run: seq<FindingTransition>, k: int)
  {
    0 <= k <= |run| && FindingAfter(s, run[..k]) == Validating && Verdict(run[k..])
  }

  /** The accepted ways to a report that never validate. */
  predicate Direct(s: FindingState, run: seq<FindingTransition>)
  {
    match s
    case Pending => run == [ScanAutoConfirm, MarkReported] || run == [ScanAwaitApproval, Approve, MarkReported]
    case AwaitingApproval => run == [Approve, MarkReported]
    case Confirmed => run == [MarkReported]
    case Reported => run == []
    case _ => false
  }

  lemma {:induction false} ReportedBy(s: FindingState, run: seq<FindingTransition>)
    requires AllAcceptedFinding(s, run) && FindingAfter(s, run) == Reported
    ensures Direct(s, run) || exists k :: VerdictFrom(s, run, k)
    decreases |run|
  {
    if run != [] {
      var next, rest := NextFinding(s, run[0]), run[1..];
      ReportedBy(next, rest);
      assert run == [run[0]] + rest;
      if Direct(next, rest) {
        if s == Validating {
          assert run[..0] == [] && run[0..] == run;
          assert Verdict(run);
          assert VerdictFrom(s, run, 0);
        }
      } else {
        var k :| VerdictFrom(next, rest, k);
        assert run[..k + 1][1..] == rest[..k] && run[k + 1..] == rest[k..];
        assert VerdictFrom(s, run, k + 1);
      }
    }
  }

  /** Whether a run ever visits validation, its first state included. */
  ghost predicate Visits(s: FindingState, run: seq<FindingTransition>)
  {
    exists k :: 0 <= k <= |run| && FindingAfter(s, run[..k]) == Validating
  }

  lemma ThreeSteps(s: FindingState, t: seq<FindingTransition>)
    requires |t| <= 3
    ensures FindingAfter(s, t) ==
            if |t| == 0 then s
            else if |t| == 1 then NextFinding(s, t[0])
            else if |t| == 2 then NextFinding(NextFinding(s, t[0]), t[1])
            else NextFinding(NextFinding(NextFinding(s, t[0]), t[1]), t[2])
  {
    hide NextFinding;
    if |t| >= 2 {
      var u := NextFinding(s, t[0]);
      assert FindingAfter(u, t[1..]) == FindingAfter(NextFinding(u, t[1]), t[1..][1..]);
      if |t| == 3 {
        var v := NextFinding(u, t[1]);
        assert FindingAfter(v, t[1..][1..]) == FindingAfter(NextFinding(v, t[2]), t[1..][1..][1..]);
      }
    }
  }

  lemma DirectNeverValidates(run: seq<FindingTransition>)
    requires Direct(Pending, run)
    ensures !Visits(Pending, run)
  {
    forall k | 0 <= k <= |run| ensures FindingAfter(Pending, run[..k]) != Validating {
      ThreeSteps(Pending, run[..k]);
    }
  }

  /**
   A run that ends reported, and whose accepted actions ever visited validation, left
   validation for the last time by a confirming verdict, or by one awaiting approval and
   then the approval; a run that never validated took one of the two direct routes.
   */
  lemma ReportNeedsVerdict(run: seq<FindingTransition>)
    requires FindingAfter(Pending, run) == Reported
    ensures var done := AcceptedFinding(Pending, run);
            && (Visits(Pending, done) <==> exists k :: VerdictFrom(Pending, done, k))
            && (!Visits(Pending, done) <==> Direct(Pending, done))
  {
    var done := AcceptedFinding(Pending, run);
    AcceptedFindingsAccepted(Pending, run);
    ReportedBy(Pending, done);
    if Direct(Pending, done) {
      DirectNeverValidates(done);
    }
  }

  /** After a verdict no later state of the run is validating: the visit found is the last one. */
  lemma VerdictIsLast(s: FindingState, run: seq<FindingTransition>, k: nat, m: nat)
    requires VerdictFrom(s, run, k) && k < m <= |run|
    ensures FindingAfter(s, run[..m]) != Validating
  {
    var tail := run[k..];
    AfterSplit(s, run[..k], tail[..m - k]);
    assert run[..m] == run[..k] + tail[..m - k];
    ThreeSteps(Validating, tail[..m - k]);
  }

  lemma {:induction false} AfterSplit(s: FindingState, a: seq<FindingTransition>, b: seq<FindingTransition>)
    ensures FindingAfter(s, a + b) == FindingAfter(FindingAfter(s, a), b)
    decreases |a|
  {
    if a == [] {
      assert a + b == b;
    } else {
      AfterSplit(NextFinding(s, a[0]), a[1..], b);
      assert (a + b)[1..] == a[1..] + b;
    }
  }

  // ---------- Verdict rollup ----------

  datatype VerdictRollup = VerdictRollup(
    hasConfirmed: bool, hasDismissed: bool, terminalInconclusive: bool, requireApproval: bool)

  /** The transition the verdicts call for, applied; nothing unless the finding is validating. */
  function RollUp(current: FindingState, r: VerdictRollup): (next: Option<FindingState>)
  {
    if current != Validating then None
    else if r.terminalInconclusive || r.hasDismissed then ApplyFinding(current, VerdictDismiss)
    else if r.hasConfirmed then
      ApplyFinding(current, if r.requireApproval then VerdictAwaitApproval else VerdictConfirm)
    else None
  }

  const EXPECTED: seq<Option<FindingState>> := [
    None, Some(Confirmed), Some(Dismissed), Some(Dismissed), Some(Dismissed), Some(Dismissed), Some(Dismissed),
    Some(Dismissed), None, Some(AwaitingApproval), Some(Dismissed), Some(Dismissed), Some(Dismissed),
    Some(Dismissed), Some(Dismissed), Some(Dismissed)]

  function Bits(r: VerdictRollup): (n: nat)
    ensures n < 16
  {
    (if r.hasConfirmed then 1 else 0) + (if r.hasDismissed then 2 else 0)
    + (if r.terminalInconclusive then 4 else 0) + (if r.requireApproval then 8 else 0)
  }

  /** The rollup follows the precedence table and only ever takes an edge out of validation. */
  lemma RollUpFollowsTable(current: FindingState, r: VerdictRollup)
    ensures RollUp(current, r) == if current == Validating then EXPECTED[Bits(r)] else None
    ensures RollUp(current, r).Some? ==>
              exists a :: (Validating, a, RollUp(current, r).value) in FINDING_EDGES
  {
    if RollUp(current, r).Some? {
      var taken := if r.terminalInconclusive || r.hasDismissed then VerdictDismiss
                   else if r.requireApproval then VerdictAwaitApproval else VerdictConfirm;
      FindingEdges(Validating, taken);
      assert (Validating, taken, RollUp(current, r).value) in FINDING_EDGES;
    }
  }
}
