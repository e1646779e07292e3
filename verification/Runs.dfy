/** What holds over every run of the protocol: the life cycle of the stored status, where a status comes
    from, and what the retry loop of a call has done. */
module Runs {
  import opened Api
  import opened Operations
  import opened Protocol
  import opened Invariant
  import opened Fencing
  import opened Truth

  // ---- The life cycle ----

  /** Every change of the stored status that can happen. */
  predicate Edge(a: NodeStatus, b: NodeStatus) {
    match a
    case Unknown => b == Init
    case Init => b == Launching || b == LaunchFail || b == Unknown
    case Inactive => b == Launching || b == DeprecateFail || b == Unknown
    case Active => b == Deprecating || b == Unknown
    case Launching => b == Active || b == LaunchFail || b == Inactive
    case LaunchFail => b == Deprecating || b == Unknown
    case Deprecating => b == Inactive || b == DeprecateFail || b == Active
    case DeprecateFail => b == Launching || b == LaunchFail || b == Unknown
  }

  /** Closed life cycle: in every run each version keeps the status of the one before or follows an edge. */
  lemma ClosedLifeCycle(st: State, i: nat)
    requires Reachable(st) && 0 < i < |st.hist|
    ensures st.hist[i].status == st.hist[i - 1].status || Edge(st.hist[i - 1].status, st.hist[i].status)
  {
    ReachableInv(st);
    assert LegalAt(st.hist, i);
    if st.hist[i - 1].tag.StatusWrite? && st.hist[i - 1].tag.kind.PrepareWrite? {
      assert LegalAt(st.hist, i - 1);
    }
  }

  /** The status goes back to unknown only by the finalize of a call that never completed an operation,
      and that has written nothing else. */
  lemma UnknownOnlyWithoutOperation(st: State, i: nat)
    requires Reachable(st) && 0 < i < |st.hist|
    requires st.hist[i].status == Unknown && st.hist[i - 1].status != Unknown
    ensures IsFinalize(st.hist[i])
    ensures forall k :: 0 <= k < |st.ops| ==> st.ops[k].call != st.hist[i].tag.call
    ensures NoneBy(st.hist, st.hist[i].tag.call, 0, i)
  {
    ReachableAll(st);
    assert LegalAt(st.hist, i) && EntryTruth(st, i);
    LastOpIsOne(st.ops, st.hist[i].tag.call);
    FinalizeFollowsOwnClaim(st, i);
  }

  /** After a failed preflight the stored status is looked at before the spec. The update records the failure
      of what the spec asks for exactly when that is a launch and the stored status was not inactive; otherwise
      an inactive object that should become active has a failed deprecation recorded, and a deprecation that
      cannot be attempted leaves the status as it was. */
  lemma PreflightLooksAtStatusFirst(st: State, i: nat)
    requires Reachable(st) && 0 < i < |st.hist|
    requires st.hist[i].tag.StatusWrite? && st.hist[i].tag.kind.PreflightWrite?
    ensures var asked := st.hist[i].spec.nodeStatus;
            && (st.hist[i].status == Outcome(KindOf(asked), false)
                <==> asked == Active && st.hist[i - 1].status != Inactive)
            && (asked == Active && st.hist[i - 1].status == Inactive ==> st.hist[i].status == DeprecateFail)
            && (asked == Inactive ==> st.hist[i].status == st.hist[i - 1].status)
  {
    ReachableInv(st);
    assert LegalAt(st.hist, i);
  }

  /** A claim is only ever made, and an operation only ever run, for a spec that none of the three checks of
      preflight refuses; and the operation is the one that this spec asks for. */
  lemma OnlyValidSpecsAreOperated(st: State, k: nat)
    requires Reachable(st) && k < |st.ops|
    ensures var o := st.ops[k];
            && o.claim < |st.hist| && st.hist[o.claim].spec == o.spec
            && st.hist[o.claim].tag == StatusWrite(o.call, PrepareWrite)
            && o.spec.labelsValid && o.spec.ipValid && o.spec.versionValid
            && o.kind == (if o.spec.nodeStatus == Active then Launch else Deprecate)
  {
    ReachableAll(st);
    assert UnderClaim(st.hist, st.ops[k]);
    ClaimIsValid(st, st.ops[k].claim);
  }

  lemma OnlyValidSpecsAreClaimed(st: State, i: nat)
    requires Reachable(st) && i < |st.hist|
    requires st.hist[i].tag.StatusWrite? && st.hist[i].tag.kind.PrepareWrite?
    ensures st.hist[i].spec.labelsValid && st.hist[i].spec.ipValid && st.hist[i].spec.versionValid
  {
    ReachableInv(st);
    ClaimIsValid(st, i);
  }

  /** And the failure of a preflight is only ever written for a spec that one of them refuses. */
  lemma OnlyInvalidSpecsAreRefused(st: State, i: nat)
    requires Reachable(st) && 0 < i < |st.hist|
    requires st.hist[i].tag.StatusWrite? && st.hist[i].tag.kind.PreflightWrite?
    ensures !(st.hist[i].spec.labelsValid && st.hist[i].spec.ipValid && st.hist[i].spec.versionValid)
  {
    ReachableInv(st);
    assert LegalAt(st.hist, i);
  }

  // ---- Truthful status ----

  /** What a successful operation has achieved, in terms of its steps. */
  ghost predicate Achieved(o: Operation) {
    match o.kind
    case Launch => Launched(o.spec, o.env.launch)
    case Deprecate =>
      DeprecateTrace(o.spec, o.env.deprecate)
      == (if o.spec.isEvicted then [Drain(true)] else []) + [DisJoin(true, o.env.deprecate.ssh), Delete(true)]
  }

  lemma SuccessAchieves(o: Operation)
    requires Honest(o) && o.success
    ensures Achieved(o)
  {
    match o.kind
    case Launch => LaunchSuccessMeans(o.spec, o.env.launch);
    case Deprecate => DeprecateSuccessMeans(o.spec, o.env.deprecate);
  }

  function KindBehind(s: NodeStatus): Kind {
    if s == Active then Launch else Deprecate
  }

  /** The last operation completed by anyone achieved what the stored status says. */
  ghost predicate StatusIsTrue(st: State) {
    && st.ops != []
    && var o := st.ops[|st.ops| - 1];
       o.success && Achieved(o) && o.kind == KindBehind(Current(st.hist).status)
  }

  /** Truthful status: in every run without a fallback, a stored active means that the last operation
      completed by anyone is a launch that returned true, and a stored inactive the same of a deprecation. */
  lemma TruthfulStatus(st: State)
    requires Reachable(st) && NoFallback(st.hist)
    requires Current(st.hist).status == Active || Current(st.hist).status == Inactive
    ensures StatusIsTrue(st)
  {
    ReachableAll(st);
    SuccessAchieves(st.ops[|st.ops| - 1]);
  }

  /** The version that last changed the status to what it is at version `i`. */
  function Setter(h: History, i: nat): (j: nat)
    requires i < |h|
    ensures j <= i && h[j].status == h[i].status
    ensures forall k :: j <= k <= i ==> h[k].status == h[i].status
    ensures j > 0 ==> h[j - 1].status != h[j].status
  {
    if i == 0 || h[i - 1].status != h[i].status then i else Setter(h, i - 1)
  }

  /** With fallbacks allowed: whoever set a stored active or inactive did so by a finalize or by a fallback.
      It was a finalize exactly when the writer has completed an operation, and then its last one was a
      success of the right kind; otherwise the writer has never run any operation. */
  lemma ActiveOrInactiveComesFrom(st: State, j: nat)
    requires Reachable(st) && j == Setter(st.hist, Version(st.hist))
    requires Current(st.hist).status == Active || Current(st.hist).status == Inactive
    ensures j > 0 && st.hist[j].tag.StatusWrite?
    ensures IsFinalize(st.hist[j]) || IsFallback(st.hist[j])
    ensures IsFinalize(st.hist[j]) <==> LastOp(st.ops, st.hist[j].tag.call).Some?
    ensures IsFinalize(st.hist[j]) ==>
              var o := LastOp(st.ops, st.hist[j].tag.call).value;
              o.success && Achieved(o) && o.claim == j - 1 && o.kind == KindBehind(Current(st.hist).status)
  {
    ReachableAll(st);
    assert LegalAt(st.hist, j) && EntryTruth(st, j);
    if IsFinalize(st.hist[j]) {
      var id := st.hist[j].tag.call;
      LastOpIsOne(st.ops, id);
      SuccessAchieves(LastOp(st.ops, id).value);
    }
  }

  // ---- The retry loop ----

  /** The captured status is that of attempt `j`, the last one that got past prepare; there is none when `j` is -1. */
  ghost predicate LastRan(log: seq<Attempt>, j: int) {
    && -1 <= j < |log|
    && (j >= 0 ==> log[j].Ran?)
    && (forall i :: j < i < |log| ==> log[i].PrepareFailed?)
  }

  lemma {:induction false} CapturedIsLastRan(kind: Kind, log: seq<Attempt>, j: int)
    requires LastRan(log, j)
    ensures Captured(kind, log) == if j == -1 then Unknown else Outcome(kind, log[j].success)
    decreases |log|
  {
    if log != [] && j < |log| - 1 {
      CapturedIsLastRan(kind, log[..|log| - 1], j);
    }
  }

  /** Result of the retry loop, whatever interleaves: with m attempts allowed (none set: no limit) the
      closure ran up to its first attempt without an error or m times, whichever came first; the captured
      status is the outcome of the last attempt that got past prepare; and it is a success exactly when
      the final attempt returned true. */
  lemma RetryResult(st: State, id: nat, j: int)
    requires Reachable(st) && At(st, id, Writing(FinalizeWrite)) && LastRan(st.calls[id].log, j)
    ensures var c := st.calls[id];
            var n := |c.log|;
            var m := c.obj.spec.maxRetry;
            && n >= 1
            && (forall i :: 0 <= i < n - 1 ==> c.log[i].Failed())
            && (m >= 1 ==> n <= m && (c.log[n - 1].Failed() ==> n == m))
            && (m == 0 ==> !c.log[n - 1].Failed())
            && (m < 0 ==> n <= 18446744073709551616 + m
                          && (c.log[n - 1].Failed() ==> n == 18446744073709551616 + m))
            && c.obj.status == c.captured && c.obj.deadline == None
            && c.captured == (if j == -1 then Unknown else Outcome(c.Kind(), c.log[j].success))
            && (c.captured == Outcome(c.Kind(), true) <==> c.log[n - 1].Ran? && c.log[n - 1].success)
  {
    var c := st.calls[id];
    AtFinalize(st, id, c);
    CapturedIsLastRan(c.Kind(), c.log, j);
    LoopIsOver(c, c.obj.spec.maxRetry);
    SuccessIsLast(c, j);
  }

  lemma AtFinalize(st: State, id: nat, c: Call)
    requires Reachable(st) && At(st, id, Writing(FinalizeWrite)) && c == st.calls[id]
    ensures c.log != [] && Retrying(c, |c.log| - 1)
    ensures !(c.log[|c.log| - 1].Failed() && MoreAttempts(c.obj.spec.maxRetry, |c.log|))
    ensures c.captured == Captured(c.Kind(), c.log) && c.obj.status == c.captured && c.obj.deadline == None
    ensures forall a :: a in c.log && a.Ran? ==> OperationResult(c.obj.spec, a.env) == Returned(a.success, a.err)
  {
    ReachableInv(st);
    assert CallInv(st, id, c);
  }

  lemma LoopIsOver(c: Call, m: Int32)
    requires m == c.obj.spec.maxRetry && c.log != [] && Retrying(c, |c.log| - 1)
    requires !(c.log[|c.log| - 1].Failed() && MoreAttempts(m, |c.log|))
    ensures var n := |c.log|;
            && (forall i :: 0 <= i < n - 1 ==> c.log[i].Failed())
            && (m >= 1 ==> n <= m && (c.log[n - 1].Failed() ==> n == m))
            && (m == 0 ==> !c.log[n - 1].Failed())
            && (m < 0 ==> n <= 18446744073709551616 + m
                          && (c.log[n - 1].Failed() ==> n == 18446744073709551616 + m))
  {
    var n := |c.log|;
    if n >= 2 {
      assert c.log[n - 2].Failed() && MoreAttempts(m, n - 2 + 1);
    }
  }

  /** Only the final attempt can have succeeded: after a success there is no error to retry on. */
  lemma SuccessIsLast(c: Call, j: int)
    requires LastRan(c.log, j) && c.log != [] && Retrying(c, |c.log| - 1)
    requires forall a :: a in c.log && a.Ran? ==> OperationResult(c.obj.spec, a.env) == Returned(a.success, a.err)
    ensures j >= 0 && c.log[j].success <==> c.log[|c.log| - 1].Ran? && c.log[|c.log| - 1].success
  {
    var n := |c.log|;
    if j >= 0 && c.log[j].success {
      assert c.log[j] in c.log;
      assert OperationResult(c.obj.spec, c.log[j].env) == Returned(true, c.log[j].err);
    }
    if c.log[n - 1].Ran? {
      assert j == n - 1;
    }
  }

  /** The comment on maxRetry says that zero and negative values disable retrying. The only value that
      stops the loop after one failed attempt is 1; zero never stops it, and a negative one allows
      more than nine quintillion attempts. */
  lemma OnlyOneDisablesRetrying(maxRetry: Int32)
    ensures !MoreAttempts(maxRetry, 1) <==> maxRetry == 1
    ensures maxRetry == 0 ==> forall n: nat :: MoreAttempts(maxRetry, n)
    ensures maxRetry < 0 ==> Attempts(maxRetry) > 0x7FFF_FFFF_FFFF_FFFF
  {
  }

  // ---- Deprecations of one call ----

  /** What the attempts that got past prepare did to the Node. */
  function DeprecateEnvs(log: seq<Attempt>): seq<DeprecateEnv> {
    if log == [] then []
    else
      var last := log[|log| - 1];
      DeprecateEnvs(log[..|log| - 1]) + if last.Ran? then [last.env.deprecate] else []
  }

  ghost predicate HonestLog(spec: Spec, log: seq<Attempt>) {
    forall i :: 0 <= i < |log| && log[i].Ran? ==>
      DeprecateResult(spec, log[i].env.deprecate) == Returned(log[i].success, log[i].err)
  }

  ghost predicate AllFailed(log: seq<Attempt>) {
    forall i :: 0 <= i < |log| ==> log[i].Failed()
  }

  lemma {:induction false} FailedLogRetries(spec: Spec, log: seq<Attempt>)
    requires HonestLog(spec, log) && AllFailed(log)
    ensures forall i :: 0 <= i < |DeprecateEnvs(log)| ==> DeprecateResult(spec, DeprecateEnvs(log)[i]).err
    decreases |log|
  {
    if log != [] {
      FailedLogRetries(spec, log[..|log| - 1]);
    }
  }

  lemma OrderWhileRetrying(spec: Spec, log: seq<Attempt>)
    requires HonestLog(spec, log) && AllFailed(log)
    ensures var t := TraceOfAttempts(spec, DeprecateEnvs(log));
            OrderedTrace(spec, t) && Drain(false) !in t && Delete(true) !in t
  {
    FailedLogRetries(spec, log);
    FailedAttemptsLeaveNoEnd(spec, DeprecateEnvs(log));
    DeprecationOrder(spec, DeprecateEnvs(log));
  }

  lemma LastAttemptDecides(spec: Spec, envs: seq<DeprecateEnv>, last: DeprecateEnv)
    requires forall i :: 0 <= i < |envs| ==> DeprecateResult(spec, envs[i]).err
    ensures var t := TraceOfAttempts(spec, envs + [last]);
            && OrderedTrace(spec, t)
            && (Drain(false) in t ==> DeprecateResult(spec, last) == Returned(false, false))
            && (Delete(true) in t ==> DeprecateResult(spec, last) == Returned(true, false))
  {
    assert (envs + [last])[..|envs|] == envs;
    FailedAttemptsLeaveNoEnd(spec, envs);
    DeprecationOrder(spec, envs + [last]);
    DeprecateEvents(spec, last);
  }

  lemma OrderAtTheEnd(spec: Spec, log: seq<Attempt>)
    requires log != [] && HonestLog(spec, log) && AllFailed(log[..|log| - 1])
    ensures var t := TraceOfAttempts(spec, DeprecateEnvs(log));
            && OrderedTrace(spec, t)
            && (Drain(false) in t ==> Captured(Deprecate, log) == DeprecateFail)
            && (Delete(true) in t ==> Captured(Deprecate, log) == Inactive)
  {
    var before := log[..|log| - 1];
    var last := log[|log| - 1];
    var envs := DeprecateEnvs(log);
    OrderWhileRetrying(spec, before);
    if last.PrepareFailed? {
      assert envs == DeprecateEnvs(before);
    } else {
      FailedLogRetries(spec, before);
      LastAttemptDecides(spec, DeprecateEnvs(before), last.env.deprecate);
    }
  }

  lemma LogIsHonest(c: Call)
    requires c.Kind() == Deprecate
    requires forall a :: a in c.log && a.Ran? ==> OperationResult(c.obj.spec, a.env) == Returned(a.success, a.err)
    ensures HonestLog(c.obj.spec, c.log)
  {
    forall i | 0 <= i < |c.log| && c.log[i].Ran?
      ensures DeprecateResult(c.obj.spec, c.log[i].env.deprecate) == Returned(c.log[i].success, c.log[i].err)
    {
      assert c.log[i] in c.log;
      assert OperationResult(c.obj.spec, c.log[i].env) == Returned(c.log[i].success, c.log[i].err);
    }
  }

  /** Deprecation order over all retries of a call, in every run: the combined trace of its attempts is
      ordered; a failed drain in it means that the loop is over with deprecateFail, and a successful
      delete that it is over with inactive. */
  lemma DeprecationOrderInRuns(st: State, id: nat)
    requires Reachable(st) && id in st.calls && !st.calls[id].pc.Finished? && st.calls[id].Kind() == Deprecate
    ensures var c := st.calls[id];
            var t := TraceOfAttempts(c.obj.spec, DeprecateEnvs(c.log));
            && OrderedTrace(c.obj.spec, t)
            && (Drain(false) in t ==> c.pc == Writing(FinalizeWrite) && c.captured == DeprecateFail)
            && (Delete(true) in t ==> c.pc == Writing(FinalizeWrite) && c.captured == Inactive)
  {
    ReachableInv(st);
    var c := st.calls[id];
    assert CallInv(st, id, c);
    LogIsHonest(c);
    if c.log != [] {
      if c.pc == Writing(FinalizeWrite) {
        OrderAtTheEnd(c.obj.spec, c.log);
      } else {
        OrderWhileRetrying(c.obj.spec, c.log);
      }
    }
  }
}
