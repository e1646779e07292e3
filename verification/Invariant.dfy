/** The inductive invariant of the protocol, kept by every step of every schedule. */
module Invariant {
  import opened Api
  import opened Operations
  import opened Protocol

  // ---- What may follow what in the history ----

  /** A copy with this spec and status gets as far as preflight. */
  predicate Eligible(spec: Spec, s: NodeStatus) {
    && s != Unknown
    && s != spec.nodeStatus
    && !InProgress(s)
    && !(spec.nodeStatus == Active && s == LaunchFail)
    && !(spec.nodeStatus == Inactive && s == DeprecateFail)
  }

  /** ... and on into the retry loop. */
  predicate Startable(spec: Spec, s: NodeStatus) {
    Eligible(spec, s) && Preflight(spec) && !(spec.nodeStatus == Inactive && s == Init)
  }

  /** Version `e` is call `id`'s own claim. */
  predicate ClaimedBy(e: Entry, id: nat) {
    e.tag == StatusWrite(id, PrepareWrite)
  }

  /** A status update by call `id` on top of `prev` that the protocol can make at time `now`. */
  predicate Legal(prev: Entry, id: nat, kind: WriteKind, s: NodeStatus, d: Option<int>, now: int) {
    match kind
    case InitWrite => prev.status == Unknown && s == Init && d == prev.deadline
    case FallbackWrite =>
      && InProgress(prev.status) && s == BeforeStatus(prev.status)
      && d == prev.deadline && d.Some? && d.value < now
    case PreflightWrite =>
      && Eligible(prev.spec, prev.status) && !Preflight(prev.spec)
      && s == PreflightStatus(prev.spec, prev.status) && d == prev.deadline
    case PrepareWrite =>
      && s == ClaimStatus(KindOf(prev.spec.nodeStatus))
      && d.Some? && prev.at + DEADLINE <= d.value <= now + DEADLINE
      && (ClaimedBy(prev, id) || Startable(prev.spec, prev.status))
    case FinalizeWrite =>
      && d == None
      && if ClaimedBy(prev, id)
         then s == Outcome(KindOf(prev.spec.nodeStatus), true) || s == Outcome(KindOf(prev.spec.nodeStatus), false)
         else s == Unknown && Startable(prev.spec, prev.status)
  }

  predicate LegalRequest(h: History, r: Request, now: int) {
    && r.base < |h|
    && Legal(h[r.base], r.call, r.kind, r.status, r.deadline, now)
  }

  predicate LegalStep(prev: Entry, e: Entry) {
    && prev.at <= e.at
    && match e.tag
       case Created => false
       case SpecEdit => e.status == prev.status && e.deadline == prev.deadline
       case StatusWrite(id, kind) => e.spec == prev.spec && Legal(prev, id, kind, e.status, e.deadline, e.at)
  }

  predicate LegalAt(h: History, i: nat)
    requires 0 < i < |h|
  {
    LegalStep(h[i - 1], h[i])
  }

  /** The history is well formed, and an in-progress status always carries the deadline of its claim. */
  ghost predicate HistoryInv(st: State) {
    && st.hist[0].tag.Created? && st.hist[0].status == Unknown && st.hist[0].deadline == None
    && (forall i :: 0 <= i < |st.hist| ==> st.hist[i].at <= st.clock)
    && (forall i {:trigger LegalAt(st.hist, i)} :: 0 < i < |st.hist| ==> LegalAt(st.hist, i))
    && (forall i :: 0 <= i < |st.hist| ==> InProgress(st.hist[i].status) ==> st.hist[i].deadline.Some?)
  }

  // ---- Calls ----

  /** The status captured by the attempts so far: the outcome of the last one that got past prepare. */
  function Captured(kind: Kind, log: seq<Attempt>): NodeStatus {
    if log == [] then Unknown
    else
      var last := log[|log| - 1];
      if last.Ran? then Outcome(kind, last.success) else Captured(kind, log[..|log| - 1])
  }

  predicate SomeRan(log: seq<Attempt>) {
    exists a :: a in log && a.Ran?
  }

  /** Every logged attempt but the last failed, and none followed the last one allowed. */
  ghost predicate Retrying(c: Call, n: nat)
    requires n <= |c.log|
  {
    forall i :: 0 <= i < n ==> c.log[i].Failed() && MoreAttempts(c.obj.spec.maxRetry, i + 1)
  }

  /** What a call inside the retry loop knows. */
  ghost predicate LoopInv(h: History, id: nat, c: Call)
    requires c.obj.version < |h|
  {
    var e := h[c.obj.version];
    && c.captured == Captured(c.Kind(), c.log)
    && (ClaimedBy(e, id) || Startable(e.spec, e.status))
    && (forall a :: a in c.log && a.Ran? ==> OperationResult(c.obj.spec, a.env) == Returned(a.success, a.err))
  }

  ghost predicate CallInv(st: State, id: nat, c: Call) {
    && c.obj.version < |st.hist|
    && var e := st.hist[c.obj.version];
       && c.obj.spec == e.spec
       && match c.pc
          case Deciding => c.obj == Snapshot(st.hist, c.obj.version) && c.captured == Unknown && c.log == []
          case Preparing => LoopInv(st.hist, id, c) && Retrying(c, |c.log|) && (ClaimedBy(e, id) <==> SomeRan(c.log))
          case Operating => LoopInv(st.hist, id, c) && Retrying(c, |c.log|) && ClaimedBy(e, id)
          case Writing(kind) =>
            && LegalRequest(st.hist, RequestOf(id, c), st.clock)
            && (kind.PrepareWrite? ==>
                  && LoopInv(st.hist, id, c) && Retrying(c, |c.log|)
                  && (ClaimedBy(e, id) <==> SomeRan(c.log)))
            && (kind.FinalizeWrite? ==>
                  && LoopInv(st.hist, id, c) && c.log != [] && Retrying(c, |c.log| - 1)
                  && !(c.log[|c.log| - 1].Failed() && MoreAttempts(c.obj.spec.maxRetry, |c.log|))
                  && c.obj.status == c.captured
                  && (ClaimedBy(e, id) <==> SomeRan(c.log)))
            && (!kind.PrepareWrite? && !kind.FinalizeWrite? ==> c.log == [])
          case Finished(_) => true
  }

  ghost predicate CallsInv(st: State) {
    forall id :: id in st.calls ==> CallInv(st, id, st.calls[id])
  }

  // ---- Identity and freshness ----

  ghost predicate IdsInv(st: State) {
    && (forall id :: id in st.calls ==> id < st.next)
    && (forall r :: r in st.inflight ==> r.call < st.next)
    && (forall i :: 0 <= i < |st.hist| && st.hist[i].tag.StatusWrite? ==> st.hist[i].tag.call < st.next)
    && (forall k :: 0 <= k < |st.ops| ==> st.ops[k].call < st.next && st.ops[k].claim < |st.hist|)
  }

  ghost predicate InflightInv(st: State) {
    forall r :: r in st.inflight ==> LegalRequest(st.hist, r, st.clock)
  }

  // ---- Which writes are a call's own ----

  /** A call that gives up before its retry loop updates the status at most once, and by another kind of write. */
  predicate InLoop(kind: WriteKind) {
    kind.PrepareWrite? || kind.FinalizeWrite?
  }

  /** None of the versions from `lo` up to but not including `hi` was written by call `id`. */
  ghost predicate NoneBy(h: History, id: nat, lo: int, hi: int) {
    forall i :: 0 <= i < |h| && lo <= i < hi && h[i].tag.StatusWrite? ==> h[i].tag.call != id
  }

  /** Updates of call `id` that may still take effect are based on versions up to `v`. */
  ghost predicate PendingUpTo(inflight: set<Request>, id: nat, v: int) {
    forall r :: r in inflight && r.call == id ==> r.base <= v
  }

  /** A call's pending updates are never newer than its copy; before its first successful prepare none of
      its writes is at or below its copy; and inside an operation nothing of its own comes after its claim. */
  ghost predicate OwnerInv(st: State, id: nat, c: Call) {
    && c.obj.version < |st.hist|
    && PendingUpTo(st.inflight, id, c.obj.version)
    && match c.pc
       case Deciding => NoneBy(st.hist, id, 0, |st.hist|) && PendingUpTo(st.inflight, id, -1)
       case Operating =>
         NoneBy(st.hist, id, c.obj.version + 1, |st.hist|) && PendingUpTo(st.inflight, id, c.obj.version - 1)
       case Finished(_) => true
       case _ => ClaimedBy(st.hist[c.obj.version], id) || NoneBy(st.hist, id, 0, c.obj.version + 1)
  }

  predicate Over(st: State, id: nat) {
    id in st.calls ==> st.calls[id].pc.Finished?
  }

  /** A finalize on its way is the call's last update, and its first unless it follows the call's own claim. */
  ghost predicate PendingFinalize(st: State, r: Request) {
    && r.base < |st.hist|
    && Over(st, r.call)
    && PendingUpTo(st.inflight, r.call, r.base)
    && (ClaimedBy(st.hist[r.base], r.call) || NoneBy(st.hist, r.call, 0, r.base + 1))
  }

  /** The same of a finalize that took effect as version `j`. */
  ghost predicate DoneFinalize(st: State, j: nat)
    requires 0 < j < |st.hist| && st.hist[j].tag.StatusWrite?
  {
    var id := st.hist[j].tag.call;
    && Over(st, id)
    && PendingUpTo(st.inflight, id, j - 1)
    && NoneBy(st.hist, id, j + 1, |st.hist|)
    && (ClaimedBy(st.hist[j - 1], id) || NoneBy(st.hist, id, 0, j))
  }

  predicate IsFinalize(e: Entry) {
    e.tag.StatusWrite? && e.tag.kind.FinalizeWrite?
  }

  ghost predicate OwnersInv(st: State) {
    && (forall id :: id in st.calls ==> OwnerInv(st, id, st.calls[id]))
    && (forall r :: r in st.inflight && r.kind.FinalizeWrite? ==> PendingFinalize(st, r))
    && (forall j {:trigger DoneFinalize(st, j)} :: 0 < j < |st.hist| && IsFinalize(st.hist[j]) ==> DoneFinalize(st, j))
  }

  ghost predicate Inv(st: State) {
    HistoryInv(st) && CallsInv(st) && IdsInv(st) && InflightInv(st) && OwnersInv(st)
  }

  // ---- The invariant is kept ----

  lemma {:induction false} CapturedIsOutcome(kind: Kind, log: seq<Attempt>)
    ensures SomeRan(log) ==> Captured(kind, log) == Outcome(kind, true) || Captured(kind, log) == Outcome(kind, false)
    ensures !SomeRan(log) ==> Captured(kind, log) == Unknown
    decreases |log|
  {
    if log != [] {
      var n := |log| - 1;
      assert log[n] in log;
      CapturedIsOutcome(kind, log[..n]);
      if !log[n].Ran? && SomeRan(log) {
        var a :| a in log && a.Ran?;
        assert a in log[..n];
      }
      if SomeRan(log[..n]) {
        var a :| a in log[..n] && a.Ran?;
        assert a in log;
      }
    }
  }

  /** Growing the history and passing time keep what a call knows. */
  lemma CallFrame(st: State, st': State, id: nat, c: Call)
    requires CallInv(st, id, c)
    requires st.hist <= st'.hist && st.clock <= st'.clock
    ensures CallInv(st', id, c)
  {
    assert st'.hist[c.obj.version] == st.hist[c.obj.version];
  }

  lemma EntryKeepsHistory(st: State, e: Entry)
    requires HistoryInv(st) && LegalStep(Current(st.hist), e)
    requires e.at <= st.clock && (InProgress(e.status) ==> e.deadline.Some?)
    ensures HistoryInv(st.(hist := st.hist + [e]))
  {
    var h := st.hist + [e];
    forall i {:trigger LegalAt(h, i)} | 0 < i < |h| ensures LegalAt(h, i) {
      if i < |st.hist| {
        assert LegalAt(st.hist, i);
      }
    }
  }

  lemma CommitKeepsHistory(st: State, r: Request)
    requires HistoryInv(st) && LegalRequest(st.hist, r, st.clock)
    ensures HistoryInv(st.(hist := Commit(st.hist, r, st.clock)))
  {
    if r.base == Version(st.hist) {
      EntryKeepsHistory(st, Current(Commit(st.hist, r, st.clock)));
    }
  }

  /** The loop's knowledge does not depend on the status and deadline in the local copy. */
  lemma LoopIgnoresCopy(h: History, id: nat, c: Call, c': Call)
    requires c.obj.version < |h| && LoopInv(h, id, c)
    requires c'.obj.version == c.obj.version && c'.obj.spec == c.obj.spec
    requires c'.captured == c.captured && c'.log == c.log
    ensures LoopInv(h, id, c')
  {
  }

  lemma NextAttemptKeeps(st: State, id: nat, c: Call)
    requires c.obj.version < |st.hist| && c.obj.spec == st.hist[c.obj.version].spec
    requires LoopInv(st.hist, id, c) && c.log != [] && Retrying(c, |c.log| - 1)
    requires ClaimedBy(st.hist[c.obj.version], id) <==> SomeRan(c.log)
    ensures CallInv(st, id, NextAttempt(c))
  {
    CapturedIsOutcome(c.Kind(), c.log);
    LoopIgnoresCopy(st.hist, id, c, NextAttempt(c));
  }

  /** `after` differs from `before` by time, spec edits and the doings of call `id` at most. */
  ghost predicate OnlyBy(before: State, after: State, id: nat) {
    && before.hist <= after.hist && before.clock <= after.clock && before.next <= after.next
    && (forall i :: |before.hist| <= i < |after.hist| && after.hist[i].tag.StatusWrite? ==>
          after.hist[i].tag.call == id)
    && (forall r :: r in after.inflight ==> r in before.inflight || r.call == id)
    && (forall k :: k in after.calls && k != id ==> k in before.calls && after.calls[k] == before.calls[k])
  }

  lemma NoneByFrame(before: State, after: State, id: nat, k: nat, lo: int, hi: int)
    requires OnlyBy(before, after, id) && k != id
    requires NoneBy(before.hist, k, lo, hi)
    requires hi <= |before.hist|
    ensures NoneBy(after.hist, k, lo, hi)
    ensures hi == |before.hist| ==> NoneBy(after.hist, k, lo, |after.hist|)
  {
    assert forall i :: 0 <= i < |before.hist| ==> after.hist[i] == before.hist[i];
  }

  lemma OtherCallKept(before: State, after: State, id: nat, k: nat)
    requires Inv(before) && OnlyBy(before, after, id)
    requires k != id && k in after.calls
    ensures CallInv(after, k, after.calls[k]) && OwnerInv(after, k, after.calls[k])
  {
    var c := after.calls[k];
    assert CallInv(before, k, c) && OwnerInv(before, k, c);
    CallFrame(before, after, k, c);
    var v := c.obj.version;
    assert after.hist[v] == before.hist[v];
    match c.pc
    case Deciding => NoneByFrame(before, after, id, k, 0, |before.hist|);
    case Operating => NoneByFrame(before, after, id, k, v + 1, |before.hist|);
    case Finished(_) =>
    case _ =>
      if !ClaimedBy(after.hist[v], k) {
        NoneByFrame(before, after, id, k, 0, v + 1);
      }
  }

  lemma OtherFinalizeKept(before: State, after: State, id: nat, r: Request)
    requires Inv(before) && OnlyBy(before, after, id)
    requires r in before.inflight && r.kind.FinalizeWrite? && r.call != id
    ensures PendingFinalize(after, r)
  {
    assert PendingFinalize(before, r);
    assert after.hist[r.base] == before.hist[r.base];
    if !ClaimedBy(after.hist[r.base], r.call) {
      NoneByFrame(before, after, id, r.call, 0, r.base + 1);
    }
  }

  lemma OtherDoneKept(before: State, after: State, id: nat, j: nat)
    requires Inv(before) && OnlyBy(before, after, id)
    requires 0 < j < |before.hist| && IsFinalize(before.hist[j]) && before.hist[j].tag.call != id
    ensures IsFinalize(after.hist[j]) && DoneFinalize(after, j)
  {
    var k := before.hist[j].tag.call;
    assert DoneFinalize(before, j);
    assert after.hist[j] == before.hist[j] && after.hist[j - 1] == before.hist[j - 1];
    NoneByFrame(before, after, id, k, j + 1, |before.hist|);
    if !ClaimedBy(after.hist[j - 1], k) {
      NoneByFrame(before, after, id, k, 0, j);
    }
  }

  /** What is left to show after a step by call `id`: the global parts, and what concerns `id` itself. */
  lemma FrameAll(before: State, after: State, id: nat)
    requires Inv(before) && OnlyBy(before, after, id)
    requires HistoryInv(after) && IdsInv(after) && InflightInv(after)
    requires id in after.calls ==> CallInv(after, id, after.calls[id]) && OwnerInv(after, id, after.calls[id])
    requires forall r :: r in after.inflight && r.kind.FinalizeWrite? && r.call == id ==> PendingFinalize(after, r)
    requires forall j {:trigger DoneFinalize(after, j)} ::
               0 < j < |after.hist| && IsFinalize(after.hist[j]) && after.hist[j].tag.call == id ==>
                 DoneFinalize(after, j)
    ensures Inv(after)
  {
    forall k | k in after.calls ensures CallInv(after, k, after.calls[k]) && OwnerInv(after, k, after.calls[k]) {
      if k != id {
        OtherCallKept(before, after, id, k);
      }
    }
    forall r | r in after.inflight && r.kind.FinalizeWrite? ensures PendingFinalize(after, r) {
      if r.call != id {
        OtherFinalizeKept(before, after, id, r);
      }
    }
    forall j | 0 < j < |after.hist| && IsFinalize(after.hist[j]) ensures DoneFinalize(after, j) {
      if after.hist[j].tag.call != id {
        assert after.hist[j] == before.hist[j];
        OtherDoneKept(before, after, id, j);
      }
    }
  }

  /** The global parts after at most one more commit. */
  lemma GlobalsKept(before: State, after: State, r: Request)
    requires HistoryInv(before) && IdsInv(before) && InflightInv(before)
    requires LegalRequest(before.hist, r, before.clock) && r.call < before.next
    requires after.hist == before.hist || after.hist == Commit(before.hist, r, before.clock)
    requires after.clock == before.clock && after.next == before.next && after.ops == before.ops
    requires after.inflight <= before.inflight + {r} && after.calls.Keys <= before.calls.Keys
    ensures HistoryInv(after) && IdsInv(after) && InflightInv(after)
  {
    CommitKeepsHistory(before, r);
    forall q | q in after.inflight ensures LegalRequest(after.hist, q, after.clock) && q.call < after.next {
      assert q == r || q in before.inflight;
    }
    assert forall id :: id in after.calls ==> id in before.calls.Keys;
  }

  // ---- Steps that write nothing ----

  lemma QuietStep(before: State, after: State, id: nat)
    requires Inv(before) && OnlyBy(before, after, id)
    requires after.hist == before.hist && after.inflight == before.inflight && after.next == before.next
    requires HistoryInv(after) && IdsInv(after)
    requires id in after.calls ==> CallInv(after, id, after.calls[id]) && OwnerInv(after, id, after.calls[id])
    requires Over(before, id) ==> Over(after, id)
    ensures Inv(after)
  {
    forall r | r in after.inflight ensures LegalRequest(after.hist, r, after.clock) {
      assert LegalRequest(before.hist, r, before.clock);
    }
    forall r | r in after.inflight && r.kind.FinalizeWrite? && r.call == id ensures PendingFinalize(after, r) {
      assert PendingFinalize(before, r);
    }
    forall j | 0 < j < |after.hist| && IsFinalize(after.hist[j]) && after.hist[j].tag.call == id
      ensures DoneFinalize(after, j)
    {
      assert DoneFinalize(before, j);
    }
    FrameAll(before, after, id);
  }

  /** Nothing in a state belongs to a call that has not started yet. */
  lemma NextIsFresh(st: State)
    requires Inv(st)
    ensures st.next !in st.calls
    ensures NoneBy(st.hist, st.next, 0, |st.hist|) && PendingUpTo(st.inflight, st.next, -1)
  {
  }

  lemma EditKeepsInv(st: State, spec: Spec)
    requires Inv(st)
    ensures Inv(Step(st, EditSpec(spec)))
  {
    NextIsFresh(st);
    var after := Step(st, EditSpec(spec));
    EntryKeepsHistory(st, Current(after.hist));
    FrameAll(st, after, st.next);
  }

  lemma StartKeepsInv(st: State, version: nat)
    requires Inv(st)
    ensures Inv(Step(st, Start(version)))
  {
    NextIsFresh(st);
    FrameAll(st, Step(st, Start(version)), st.next);
  }

  lemma ReadKeepsInv(st: State, id: nat)
    requires Inv(st)
    ensures Inv(Step(st, Read(id)))
  {
    if At(st, id, Deciding) {
      ReplaceKeepsInv(st, id, Decide(st.calls[id], st.clock));
    }
  }

  lemma StampKeepsInv(st: State, id: nat)
    requires Inv(st)
    ensures Inv(Step(st, Stamp(id)))
  {
    if At(st, id, Preparing) {
      LoopIgnoresCopy(st.hist, id, st.calls[id], Claim(st.calls[id], st.clock));
      ReplaceKeepsInv(st, id, Claim(st.calls[id], st.clock));
    }
  }

  lemma CrashKeepsInv(st: State, id: nat)
    requires Inv(st)
    ensures Inv(Step(st, Crash(id)))
  {
    QuietStep(st, Step(st, Crash(id)), id);
  }

  // ---- Steps that end an attempt ----

  lemma PanicKeepsInv(st: State, id: nat, env: Env)
    requires Inv(st) && At(st, id, Operating)
    requires OperationResult(st.calls[id].obj.spec, env).Panicked?
    ensures Inv(StepOperate(st, id, env))
  {
    assert StepOperate(st, id, env) == Step(st, Crash(id));
    CrashKeepsInv(st, id);
  }

  lemma ReturnKeepsInv(st: State, id: nat, env: Env, success: bool, err: bool)
    requires Inv(st) && At(st, id, Operating)
    requires OperationResult(st.calls[id].obj.spec, env) == Returned(success, err)
    ensures Inv(StepOperate(st, id, env))
  {
    var c := st.calls[id];
    var c' := AfterOperation(c, env, success, err);
    assert CallInv(st, id, c) && OwnerInv(st, id, c);
    OperationLogged(st, id, c, env);
    LogKeepsInv(st, id, c', Operation(id, c.obj.version, c.Kind(), c.obj.spec, env, success));
  }

  lemma LogKeepsInv(st: State, id: nat, c': Call, op: Operation)
    requires Inv(st) && id in st.calls && !Over(st, id)
    requires CallInv(st, id, c') && OwnerInv(st, id, c')
    requires op.call == id && op.claim < |st.hist|
    ensures Inv(st.(calls := st.calls[id := c'], ops := st.ops + [op]))
  {
    ReplaceKeepsInv(st, id, c');
    OpsAreIndependent(st.(calls := st.calls[id := c']), op);
  }

  lemma ReplaceKeepsInv(st: State, id: nat, c': Call)
    requires Inv(st) && id in st.calls && !Over(st, id)
    requires CallInv(st, id, c') && OwnerInv(st, id, c')
    ensures Inv(st.(calls := st.calls[id := c']))
  {
    NotYetFinalized(st, id);
    FrameAll(st, st.(calls := st.calls[id := c']), id);
  }

  lemma OpsAreIndependent(st: State, op: Operation)
    requires Inv(st) && op.call < st.next && op.claim < |st.hist|
    ensures Inv(st.(ops := st.ops + [op]))
  {
    var after := st.(ops := st.ops + [op]);
    forall id | id in after.calls ensures CallInv(after, id, after.calls[id]) && OwnerInv(after, id, after.calls[id]) {
      assert CallInv(st, id, st.calls[id]) && OwnerInv(st, id, st.calls[id]);
    }
    forall r | r in after.inflight && r.kind.FinalizeWrite? ensures PendingFinalize(after, r) {
      assert PendingFinalize(st, r);
    }
    forall j | 0 < j < |after.hist| && IsFinalize(after.hist[j]) ensures DoneFinalize(after, j) {
      assert DoneFinalize(st, j);
    }
  }

  lemma RetryingOn(c: Call, c': Call, a: Attempt)
    requires Retrying(c, |c.log|) && c'.log == c.log + [a] && c'.obj.spec == c.obj.spec
    ensures Retrying(c', |c'.log| - 1)
  {
    assert forall i :: 0 <= i < |c.log| ==> c'.log[i] == c.log[i];
  }

  lemma OperationLogged(st: State, id: nat, c: Call, env: Env)
    requires CallInv(st, id, c) && OwnerInv(st, id, c) && c.pc.Operating?
    requires OperationResult(c.obj.spec, env).Returned?
    ensures var r := OperationResult(c.obj.spec, env);
            && CallInv(st, id, AfterOperation(c, env, r.success, r.err))
            && OwnerInv(st, id, AfterOperation(c, env, r.success, r.err))
  {
    var r := OperationResult(c.obj.spec, env);
    var ran := Ran(env, r.success, r.err);
    var c' := c.(captured := Outcome(c.Kind(), r.success), log := c.log + [ran]);
    assert ran in c'.log;
    assert c'.log[..|c'.log| - 1] == c.log;
    RetryingOn(c, c', ran);
    NextAttemptKeeps(st, id, c');
  }

  lemma RefusalLogged(st: State, id: nat, c: Call)
    requires CallInv(st, id, c) && c.pc == Writing(PrepareWrite)
    ensures CallInv(st, id, Refused(c))
  {
    var c' := c.(log := c.log + [PrepareFailed]);
    assert c'.log[..|c'.log| - 1] == c.log;
    assert SomeRan(c'.log) <==> SomeRan(c.log) by {
      if SomeRan(c.log) {
        var a :| a in c.log && a.Ran?;
        assert a in c'.log;
      }
    }
    RetryingOn(c, c', PrepareFailed);
    NextAttemptKeeps(st, id, c');
  }

  // ---- Steps that answer or deliver an update ----

  /** A call that has not returned has no finalize behind it. */
  lemma NotYetFinalized(st: State, id: nat)
    requires Inv(st) && !Over(st, id)
    ensures forall q :: q in st.inflight && q.call == id ==> !q.kind.FinalizeWrite?
    ensures forall j :: 0 < j < |st.hist| && IsFinalize(st.hist[j]) ==> st.hist[j].tag.call != id
  {
    forall j | 0 < j < |st.hist| && IsFinalize(st.hist[j]) ensures st.hist[j].tag.call != id {
      assert DoneFinalize(st, j);
    }
    forall q | q in st.inflight && q.call == id ensures !q.kind.FinalizeWrite? {
      assert q.kind.FinalizeWrite? ==> PendingFinalize(st, q);
    }
  }

  lemma RefusedOwner(st: State, id: nat)
    requires At(st, id, Writing(PrepareWrite)) && OwnerInv(st, id, st.calls[id])
    ensures OwnerInv(st, id, Refused(st.calls[id]))
  {
  }

  /** An update whose answer was an error may take effect later. */
  lemma PendKeepsInv(st: State, id: nat)
    requires Inv(st) && At(st, id, Writing(PrepareWrite))
    ensures Inv(st.(inflight := st.inflight + {RequestOf(id, st.calls[id])}))
  {
    var r := RequestOf(id, st.calls[id]);
    var after := st.(inflight := st.inflight + {r});
    assert CallInv(st, id, st.calls[id]) && OwnerInv(st, id, st.calls[id]);
    GlobalsKept(st, after, r);
    NotYetFinalized(st, id);
    FrameAll(st, after, id);
  }

  lemma RefusedPrepareKeepsInv(st: State, id: nat, ok: bool)
    requires Inv(st)
    requires At(st, id, Writing(PrepareWrite))
    requires !ok || st.calls[id].obj.version != Version(st.hist)
    ensures Inv(StepReply(st, id, ok))
  {
    var mid := if ok then st else st.(inflight := st.inflight + {RequestOf(id, st.calls[id])});
    if !ok {
      PendKeepsInv(st, id);
    }
    assert CallInv(mid, id, mid.calls[id]) && OwnerInv(mid, id, mid.calls[id]);
    RefusalLogged(mid, id, mid.calls[id]);
    RefusedOwner(mid, id);
    ReplaceKeepsInv(mid, id, Refused(mid.calls[id]));
  }

  lemma RefusedKeepsInv(st: State, id: nat, ok: bool)
    requires Inv(st)
    requires id in st.calls && st.calls[id].pc.Writing? && !st.calls[id].pc.kind.PrepareWrite?
    requires !ok || st.calls[id].obj.version != Version(st.hist)
    ensures Inv(StepReply(st, id, ok))
  {
    var c := st.calls[id];
    var after := StepReply(st, id, ok);
    assert CallInv(st, id, c);
    ReplyOnlyBy(st, id, ok);
    GlobalsKept(st, after, RequestOf(id, c));
    RefusedIsOver(st, id, ok);
    RefusedPending(st, id, ok);
    NotYetFinalized(st, id);
    FrameAll(st, after, id);
  }

  lemma RefusedIsOver(st: State, id: nat, ok: bool)
    requires id in st.calls && st.calls[id].pc.Writing? && !st.calls[id].pc.kind.PrepareWrite?
    requires !ok || st.calls[id].obj.version != Version(st.hist)
    requires CallInv(st, id, st.calls[id]) && OwnerInv(st, id, st.calls[id])
    ensures var after := StepReply(st, id, ok);
            && after.hist == st.hist && id in after.calls && after.calls[id].pc == Finished(true)
            && CallInv(after, id, after.calls[id]) && OwnerInv(after, id, after.calls[id])
  {
  }

  lemma RefusedPending(st: State, id: nat, ok: bool)
    requires Inv(st)
    requires id in st.calls && st.calls[id].pc.Writing? && !st.calls[id].pc.kind.PrepareWrite?
    requires !ok || st.calls[id].obj.version != Version(st.hist)
    ensures var after := StepReply(st, id, ok);
            forall r :: r in after.inflight && r.kind.FinalizeWrite? && r.call == id ==> PendingFinalize(after, r)
  {
    var after := StepReply(st, id, ok);
    assert OwnerInv(st, id, st.calls[id]);
    NotYetFinalized(st, id);
    forall r | r in after.inflight && r.kind.FinalizeWrite? && r.call == id ensures PendingFinalize(after, r) {
      assert r == RequestOf(id, st.calls[id]);
    }
  }

  lemma ReplyOnlyBy(st: State, id: nat, ok: bool)
    requires id in st.calls && st.calls[id].pc.Writing?
    ensures OnlyBy(st, StepReply(st, id, ok), id)
  {
  }

  lemma AcceptedOwner(st: State, id: nat)
    requires Inv(st)
    requires id in st.calls && st.calls[id].pc.Writing? && st.calls[id].obj.version == Version(st.hist)
    ensures var after := StepReply(st, id, true);
            && CallInv(after, id, after.calls[id]) && OwnerInv(after, id, after.calls[id])
  {
    var c := st.calls[id];
    assert CallInv(st, id, c) && OwnerInv(st, id, c);
    if c.pc.kind.PrepareWrite? {
      LoopIgnoresVersion(st, StepReply(st, id, true), id, c, Accepted(c, |st.hist|));
    }
  }

  lemma OwnFinalize(st: State, id: nat)
    requires At(st, id, Writing(FinalizeWrite)) && st.calls[id].obj.version == Version(st.hist)
    requires OwnerInv(st, id, st.calls[id])
    ensures var after := StepReply(st, id, true);
            IsFinalize(Current(after.hist)) && DoneFinalize(after, Version(after.hist))
  {
    var after := StepReply(st, id, true);
    assert forall i :: 0 <= i < |st.hist| ==> after.hist[i] == st.hist[i];
  }

  lemma AcceptedDone(st: State, id: nat)
    requires Inv(st)
    requires id in st.calls && st.calls[id].pc.Writing? && st.calls[id].obj.version == Version(st.hist)
    ensures var after := StepReply(st, id, true);
            forall j {:trigger DoneFinalize(after, j)} ::
              0 < j < |after.hist| && IsFinalize(after.hist[j]) && after.hist[j].tag.call == id ==>
                DoneFinalize(after, j)
  {
    var after := StepReply(st, id, true);
    NotYetFinalized(st, id);
    forall j | 0 < j < |after.hist| && IsFinalize(after.hist[j]) && after.hist[j].tag.call == id
      ensures DoneFinalize(after, j)
    {
      assert j == Version(after.hist);
      assert CallInv(st, id, st.calls[id]);
      OwnFinalize(st, id);
    }
  }

  lemma AcceptedKeepsInv(st: State, id: nat)
    requires Inv(st)
    requires id in st.calls && st.calls[id].pc.Writing? && st.calls[id].obj.version == Version(st.hist)
    ensures Inv(StepReply(st, id, true))
  {
    var r := RequestOf(id, st.calls[id]);
    var after := StepReply(st, id, true);
    assert CallInv(st, id, st.calls[id]);
    ReplyOnlyBy(st, id, true);
    GlobalsKept(st, after, r);
    AcceptedOwner(st, id);
    NotYetFinalized(st, id);
    AcceptedDone(st, id);
    FrameAll(st, after, id);
  }

  lemma LoopIgnoresVersion(st: State, after: State, id: nat, c: Call, c': Call)
    requires CallInv(st, id, c) && c.pc == Writing(PrepareWrite) && c.obj.version == Version(st.hist)
    requires after.hist == Commit(st.hist, RequestOf(id, c), st.clock)
    requires c' == Accepted(c, |st.hist|)
    ensures CallInv(after, id, c')
  {
  }

  lemma DeliverKeepsInv(st: State, r: Request)
    requires Inv(st) && r in st.inflight && r.base == Version(st.hist)
    ensures Inv(st.(hist := Commit(st.hist, r, st.clock)))
  {
    var after := st.(hist := Commit(st.hist, r, st.clock));
    GlobalsKept(st, after, r);
    if r.call in after.calls {
      DeliveredOwner(st, r, st.calls[r.call]);
    }
    DeliveredPending(st, r);
    DeliveredDone(st, r);
    FrameAll(st, after, r.call);
  }

  lemma DeliveredPending(st: State, r: Request)
    requires Inv(st) && r in st.inflight && r.base == Version(st.hist)
    ensures var after := st.(hist := Commit(st.hist, r, st.clock));
            forall q :: q in after.inflight && q.kind.FinalizeWrite? && q.call == r.call ==> PendingFinalize(after, q)
  {
    var after := st.(hist := Commit(st.hist, r, st.clock));
    forall q | q in after.inflight && q.kind.FinalizeWrite? && q.call == r.call ensures PendingFinalize(after, q) {
      assert PendingFinalize(st, q);
    }
  }

  lemma DeliveredDone(st: State, r: Request)
    requires Inv(st) && r in st.inflight && r.base == Version(st.hist)
    ensures var after := st.(hist := Commit(st.hist, r, st.clock));
            forall j {:trigger DoneFinalize(after, j)} ::
              0 < j < |after.hist| && IsFinalize(after.hist[j]) && after.hist[j].tag.call == r.call ==>
                DoneFinalize(after, j)
  {
    NotFinalizedBefore(st, r);
    if r.kind.FinalizeWrite? {
      assert PendingFinalize(st, r);
    }
  }

  lemma DeliveredOwner(st: State, r: Request, c: Call)
    requires r.base == Version(st.hist) && r in st.inflight
    requires CallInv(st, r.call, c) && OwnerInv(st, r.call, c)
    ensures var after := st.(hist := Commit(st.hist, r, st.clock));
            CallInv(after, r.call, c) && OwnerInv(after, r.call, c)
  {
    CallFrame(st, st.(hist := Commit(st.hist, r, st.clock)), r.call, c);
  }

  /** An update that can still take effect is not older than a finalize of the same call. */
  lemma NotFinalizedBefore(st: State, r: Request)
    requires Inv(st) && r in st.inflight && r.base == Version(st.hist)
    ensures forall j :: 0 < j < |st.hist| && IsFinalize(st.hist[j]) ==> st.hist[j].tag.call != r.call
  {
    forall j | 0 < j < |st.hist| && IsFinalize(st.hist[j]) ensures st.hist[j].tag.call != r.call {
      assert DoneFinalize(st, j);
    }
  }

  lemma StepKeepsInv(st: State, a: Action)
    requires Inv(st)
    ensures Inv(Step(st, a))
  {
    match a
    case Tick(seconds) =>
      NextIsFresh(st);
      QuietStep(st, Step(st, Tick(seconds)), st.next);
    case EditSpec(spec) => EditKeepsInv(st, spec);
    case Start(version) => StartKeepsInv(st, version);
    case Read(id) => ReadKeepsInv(st, id);
    case Stamp(id) => StampKeepsInv(st, id);
    case Reply(id, ok) =>
      if id in st.calls && st.calls[id].pc.Writing? {
        if ok && st.calls[id].obj.version == Version(st.hist) {
          AcceptedKeepsInv(st, id);
        } else if st.calls[id].pc.kind.PrepareWrite? {
          RefusedPrepareKeepsInv(st, id, ok);
        } else {
          RefusedKeepsInv(st, id, ok);
        }
      }
    case Operate(id, env) =>
      if At(st, id, Operating) {
        match OperationResult(st.calls[id].obj.spec, env)
        case Panicked => PanicKeepsInv(st, id, env);
        case Returned(success, err) => ReturnKeepsInv(st, id, env, success, err);
      }
    case Deliver(r) =>
      if r in st.inflight && r.base == Version(st.hist) {
        DeliverKeepsInv(st, r);
      }
    case Crash(id) => CrashKeepsInv(st, id);
  }

  /** Every state of every run satisfies the invariant. */
  lemma {:induction false} RunKeepsInv(spec: Spec, now: int, schedule: seq<Action>)
    ensures Inv(Exec(Initial(spec, now), schedule))
    decreases |schedule|
  {
    if schedule != [] {
      var n := |schedule| - 1;
      RunKeepsInv(spec, now, schedule[..n]);
      StepKeepsInv(Exec(Initial(spec, now), schedule[..n]), schedule[n]);
    }
  }

  lemma ReachableInv(st: State)
    requires Reachable(st)
    ensures Inv(st)
  {
    var spec, now, schedule :| st == Exec(Initial(spec, now), schedule);
    RunKeepsInv(spec, now, schedule);
  }

  /** Every claim in the history was made for a valid spec. */
  lemma {:induction false} ClaimIsValid(st: State, i: nat)
    requires Inv(st) && i < |st.hist|
    requires st.hist[i].tag.StatusWrite? && st.hist[i].tag.kind.PrepareWrite?
    ensures st.hist[i].status == ClaimStatus(KindOf(st.hist[i].spec.nodeStatus)) && Preflight(st.hist[i].spec)
  {
    assert LegalAt(st.hist, i);
    if ClaimedBy(st.hist[i - 1], st.hist[i].tag.call) {
      ClaimIsValid(st, i - 1);
    }
  }
}
