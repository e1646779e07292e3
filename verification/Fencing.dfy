/** Deadline-fenced exclusion: what the 30-minute claims do and do not guarantee. */
module Fencing {
  import opened Api
  import opened Operations
  import opened Protocol
  import opened Invariant

  /** Since version `v` only specs have changed. */
  ghost predicate Held(h: History, v: nat)
    requires v < |h|
  {
    forall i :: v < i < |h| ==> h[i].tag.SpecEdit? && h[i].status == h[v].status && h[i].deadline == h[v].deadline
  }

  predicate IsFallback(e: Entry) {
    e.tag.StatusWrite? && e.tag.kind.FallbackWrite?
  }

  ghost predicate NoFallback(h: History) {
    forall i :: 0 <= i < |h| ==> !IsFallback(h[i])
  }

  /** A call inside its operation still holds the object, or its deadline has passed and it was fallen back on. */
  ghost predicate Fenced(st: State, c: Call) {
    && c.obj.version < |st.hist|
    && var e := st.hist[c.obj.version];
       && c.obj.status == e.status && c.obj.deadline == e.deadline
       && c.obj.deadline.Some?
       && (Held(st.hist, c.obj.version) || (st.clock > c.obj.deadline.value && !NoFallback(st.hist)))
  }

  ghost predicate FenceInv(st: State) {
    forall id :: id in st.calls && st.calls[id].pc.Operating? ==> Fenced(st, st.calls[id])
  }

  /** The heart of the matter: no update of anyone else gets past a held claim except a fallback after the deadline. */
  lemma OnlyFallbackBreaksAClaim(st: State, id: nat, r: Request)
    requires Inv(st) && At(st, id, Operating)
    requires Held(st.hist, st.calls[id].obj.version)
    requires r.base == Version(st.hist) && LegalRequest(st.hist, r, st.clock)
    requires r.call == id ==> r.base < st.calls[id].obj.version
    ensures r.kind.FallbackWrite?
    ensures st.hist[st.calls[id].obj.version].deadline.Some?
    ensures st.clock > st.hist[st.calls[id].obj.version].deadline.value
  {
    var c := st.calls[id];
    var v := c.obj.version;
    assert CallInv(st, id, c);
    assert InProgress(st.hist[v].status) by {
      assert LegalAt(st.hist, v);
    }
    assert Current(st.hist).status == st.hist[v].status && Current(st.hist).deadline == st.hist[v].deadline;
    assert !ClaimedBy(Current(st.hist), r.call);
  }

  /** The history is as it was, or has one more spec edit or update; an update of call `id` is older than its claim. */
  ghost predicate OneStepOn(st: State, h: History, id: nat)
    requires id in st.calls
  {
    || h == st.hist
    || (exists e :: h == st.hist + [e] && LegalStep(Current(st.hist), e) && e.tag.SpecEdit?)
    || (exists r :: h == Commit(st.hist, r, st.clock) && LegalRequest(st.hist, r, st.clock)
                    && (r.call == id ==> r.base < st.calls[id].obj.version))
  }

  lemma FencedFrame(st: State, after: State, id: nat)
    requires Inv(st) && FenceInv(st)
    requires At(st, id, Operating) && At(after, id, Operating) && after.calls[id] == st.calls[id]
    requires st.clock <= after.clock
    requires OneStepOn(st, after.hist, id)
    ensures Fenced(after, after.calls[id])
  {
    var c := st.calls[id];
    var v := c.obj.version;
    assert CallInv(st, id, c) && Fenced(st, c);
    assert after.hist[v] == st.hist[v];
    if after.hist != st.hist {
      var e := Current(after.hist);
      assert after.hist == st.hist + [e];
      if !NoFallback(st.hist) {
        FallbackStays(st.hist, after.hist);
      }
      if e.tag.StatusWrite? && Held(st.hist, v) {
        var r :| after.hist == Commit(st.hist, r, st.clock) && LegalRequest(st.hist, r, st.clock)
                 && (r.call == id ==> r.base < v);
        OnlyFallbackBreaksAClaim(st, id, r);
        assert IsFallback(after.hist[|after.hist| - 1]);
      } else if Held(st.hist, v) {
        HeldThroughEdit(st.hist, e, v);
      }
    }
  }

  lemma FallbackStays(h: History, h': History)
    requires h <= h' && !NoFallback(h)
    ensures !NoFallback(h')
  {
    var i :| 0 <= i < |h| && IsFallback(h[i]);
    assert IsFallback(h'[i]);
  }

  lemma HeldThroughEdit(h: History, e: Entry, v: nat)
    requires v < |h| && Held(h, v)
    requires e.tag.SpecEdit? && e.status == Current(h).status && e.deadline == Current(h).deadline
    ensures Held(h + [e], v)
  {
  }

  lemma StepKeepsFence(st: State, a: Action)
    requires Inv(st) && FenceInv(st)
    ensures FenceInv(Step(st, a))
  {
    var after := Step(st, a);
    forall id | id in after.calls && after.calls[id].pc.Operating? ensures Fenced(after, after.calls[id]) {
      if At(st, id, Operating) {
        StepIsOneOf(st, a, id);
        StaysInside(st, a, id);
        FencedFrame(st, after, id);
      } else {
        OnlyPrepareEnters(st, a, id);
      }
    }
  }

  /** A call gets inside its operation by an accepted prepare, which makes it the holder of the current version. */
  lemma OnlyPrepareEnters(st: State, a: Action, id: nat)
    requires Inv(st) && !At(st, id, Operating) && At(Step(st, a), id, Operating)
    ensures a == Reply(id, true) && At(st, id, Writing(PrepareWrite)) && st.calls[id].obj.version == Version(st.hist)
    ensures Fenced(Step(st, a), Step(st, a).calls[id])
  {
    match a
    case Reply(k, ok) =>
      if k in st.calls && st.calls[k].pc.Writing? {
        assert CallInv(st, k, st.calls[k]);
        ReplyEnters(st, k, ok, id);
      }
    case Operate(k, env) =>
      if At(st, k, Operating) {
        OperateShape(st, k, env);
      }
    case _ =>
  }

  lemma ReplyEnters(st: State, k: nat, ok: bool, id: nat)
    requires k in st.calls && st.calls[k].pc.Writing? && CallInv(st, k, st.calls[k])
    requires !At(st, id, Operating) && At(StepReply(st, k, ok), id, Operating)
    ensures k == id && ok && At(st, id, Writing(PrepareWrite)) && st.calls[id].obj.version == Version(st.hist)
    ensures Fenced(StepReply(st, k, ok), StepReply(st, k, ok).calls[id])
  {
    RefusedNeverOperates(st.calls[k]);
  }

  lemma StaysInside(st: State, a: Action, id: nat)
    requires At(st, id, Operating) && At(Step(st, a), id, Operating)
    ensures Step(st, a).calls[id] == st.calls[id] && st.clock <= Step(st, a).clock
  {
    match a
    case Operate(k, env) =>
    case _ =>
  }

  /** What a step does to the history while call `id` is inside its operation. */
  lemma StepIsOneOf(st: State, a: Action, id: nat)
    requires Inv(st) && At(st, id, Operating)
    ensures OneStepOn(st, Step(st, a).hist, id)
  {
    match a
    case EditSpec(spec) => EditIsOneStep(st, spec, id);
    case Reply(k, ok) =>
      if k in st.calls && st.calls[k].pc.Writing? {
        assert CallInv(st, k, st.calls[k]);
      }
    case Deliver(r) =>
      if r in st.inflight {
        assert LegalRequest(st.hist, r, st.clock) && OwnerInv(st, id, st.calls[id]);
      }
    case _ =>
  }

  lemma EditIsOneStep(st: State, spec: Spec, id: nat)
    requires Inv(st) && id in st.calls
    ensures OneStepOn(st, Step(st, EditSpec(spec)).hist, id)
  {
    var e := Current(Step(st, EditSpec(spec)).hist);
    assert Step(st, EditSpec(spec)).hist == st.hist + [e] && LegalStep(Current(st.hist), e) && e.tag.SpecEdit?;
  }

  lemma {:induction false} RunKeepsFence(spec: Spec, now: int, schedule: seq<Action>)
    ensures FenceInv(Exec(Initial(spec, now), schedule))
    decreases |schedule|
  {
    if schedule != [] {
      var n := |schedule| - 1;
      RunKeepsInv(spec, now, schedule[..n]);
      RunKeepsFence(spec, now, schedule[..n]);
      StepKeepsFence(Exec(Initial(spec, now), schedule[..n]), schedule[n]);
    }
  }

  lemma ReachableFence(st: State)
    requires Reachable(st)
    ensures Inv(st) && FenceInv(st)
  {
    var spec, now, schedule :| st == Exec(Initial(spec, now), schedule);
    RunKeepsInv(spec, now, schedule);
    RunKeepsFence(spec, now, schedule);
  }

  /** Mutual exclusion, in every run: when a call succeeds in prepare while another one is still inside
      the operation begun by its own last successful prepare, that other one's deadline has passed. */
  lemma PrepareRespectsDeadlines(st: State, t: nat, u: nat)
    requires Reachable(st) && t != u
    requires At(st, t, Operating)
    requires At(st, u, Writing(PrepareWrite)) && At(Step(st, Reply(u, true)), u, Operating)
    ensures st.calls[t].obj.deadline.Some? && st.clock > st.calls[t].obj.deadline.value
  {
    ReachableFence(st);
    assert Fenced(st, st.calls[t]);
    assert CallInv(st, u, st.calls[u]);
    RefusedNeverOperates(st.calls[u]);
    if Held(st.hist, st.calls[t].obj.version) {
      OnlyFallbackBreaksAClaim(st, t, RequestOf(u, st.calls[u]));
    }
  }

  lemma RefusedNeverOperates(c: Call)
    requires c.pc.Writing?
    ensures !Refused(c).pc.Operating?
  {
  }

  /** The same as a property of states: of two calls inside their operations, one is past its deadline. */
  lemma AtMostOneWithinDeadline(st: State, t: nat, u: nat)
    requires Reachable(st) && t != u
    requires At(st, t, Operating) && At(st, u, Operating)
    ensures st.calls[t].obj.deadline.Some? && st.calls[u].obj.deadline.Some?
    ensures st.clock > st.calls[t].obj.deadline.value || st.clock > st.calls[u].obj.deadline.value
  {
    ReachableFence(st);
    assert Fenced(st, st.calls[t]) && Fenced(st, st.calls[u]);
    assert CallInv(st, t, st.calls[t]) && CallInv(st, u, st.calls[u]);
  }

  // ---- Fallbacks ----

  /** The claim that an in-progress version descends from: the latest prepare, with nothing but spec edits since. */
  lemma {:induction false} ClaimBehind(st: State, i: nat) returns (k: nat)
    requires Inv(st) && i < |st.hist| && InProgress(st.hist[i].status)
    ensures k <= i && st.hist[k].tag.StatusWrite? && st.hist[k].tag.kind.PrepareWrite?
    ensures forall j :: k < j <= i ==> st.hist[j].tag.SpecEdit?
    ensures st.hist[k].status == st.hist[i].status && st.hist[k].deadline == st.hist[i].deadline
    ensures st.hist[i].deadline.Some?
  {
    assert LegalAt(st.hist, i);
    if st.hist[i].tag.SpecEdit? {
      k := ClaimBehind(st, i - 1);
    } else {
      k := i;
    }
  }

  /** No premature fallback: in every run each fallback cancels one claim, happens strictly after the deadline
      that the latest prepare of that claim set, and so more than 30 minutes after the version that prepare
      was based on; it restores the status its kind came from, and leaves the old deadline behind. */
  lemma NoPrematureFallback(st: State, i: nat) returns (k: nat)
    requires Reachable(st) && i < |st.hist| && IsFallback(st.hist[i])
    ensures k < i && st.hist[k].tag.StatusWrite? && st.hist[k].tag.kind.PrepareWrite?
    ensures forall j :: k < j < i ==> st.hist[j].tag.SpecEdit?
    ensures st.hist[k].deadline.Some? && st.hist[i].at > st.hist[k].deadline.value
    ensures k > 0 && st.hist[k - 1].at + 1800 <= st.hist[k].deadline.value <= st.hist[k].at + 1800
    ensures st.hist[k].status == Launching ==> st.hist[i].status == Inactive
    ensures st.hist[k].status == Deprecating ==> st.hist[i].status == Active
    ensures st.hist[k].status == (if st.hist[k].spec.nodeStatus == Active then Launching else Deprecating)
    ensures st.hist[i].deadline == st.hist[k].deadline
  {
    ReachableInv(st);
    assert LegalAt(st.hist, i);
    k := ClaimBehind(st, i - 1);
    assert LegalAt(st.hist, k);
  }

  // ---- Late results ----

  /** A result is never published late: in every run a finalize that took effect directly follows its own
      call's last successful prepare, or is the only write of a call that never prepared successfully (and
      then it writes the unknown status); and its call never writes again. */
  lemma FinalizeFollowsOwnClaim(st: State, j: nat)
    requires Reachable(st) && j < |st.hist| && IsFinalize(st.hist[j])
    ensures j > 0
    ensures var id := st.hist[j].tag.call;
            && (|| (ClaimedBy(st.hist[j - 1], id) && st.hist[j].status != Unknown)
                || (NoneBy(st.hist, id, 0, j) && st.hist[j].status == Unknown))
            && NoneBy(st.hist, id, j + 1, |st.hist|)
  {
    ReachableInv(st);
    assert LegalAt(st.hist, j) && DoneFinalize(st, j);
  }

  /** A call is stale when its copy is no longer the current version. */
  predicate Stale(st: State, id: nat) {
    id in st.calls && st.calls[id].obj.version < Version(st.hist)
  }

  function CompletedBy(ops: seq<Operation>, id: nat): nat {
    if ops == [] then 0
    else CompletedBy(ops[..|ops| - 1], id) + if ops[|ops| - 1].call == id then 1 else 0
  }

  /** From `before` on, call `id` has written nothing, and started no operation. */
  ghost predicate Silent(before: State, after: State, id: nat) {
    && before.hist <= after.hist
    && NoneBy(after.hist, id, |before.hist|, |after.hist|)
    && id < after.next
    && (id in after.calls ==> after.calls[id].obj.version < Version(before.hist))
    && PendingUpTo(after.inflight, id, Version(before.hist) - 1)
    && CompletedBy(after.ops, id) + (if At(after, id, Operating) then 1 else 0)
       <= CompletedBy(before.ops, id) + (if At(before, id, Operating) then 1 else 0)
  }

  lemma SilentReply(before: State, st: State, id: nat, k: nat, ok: bool)
    requires Silent(before, st, id)
    ensures Silent(before, Step(st, Reply(k, ok)), id)
  {
    if k in st.calls && st.calls[k].pc.Writing? {
      if k == id {
        RefusedNeverOperates(st.calls[id]);
      } else {
        SilentOther(before, st, id, k, ok);
      }
    }
  }

  lemma SilentOther(before: State, st: State, id: nat, k: nat, ok: bool)
    requires Silent(before, st, id) && k in st.calls && st.calls[k].pc.Writing? && k != id
    ensures Silent(before, StepReply(st, k, ok), id)
  {
    var after := StepReply(st, k, ok);
    assert after.ops == st.ops && (At(after, id, Operating) <==> At(st, id, Operating));
  }

  /** What the end of an operation changes. */
  lemma OperateShape(st: State, k: nat, env: Env)
    requires At(st, k, Operating)
    ensures var after := StepOperate(st, k, env);
            && after.hist == st.hist && after.inflight == st.inflight && after.next == st.next
            && (forall id :: id != k ==>
                  (id in after.calls <==> id in st.calls) && (id in st.calls ==> after.calls[id] == st.calls[id]))
            && (k in after.calls ==>
                  !after.calls[k].pc.Operating? && after.calls[k].obj.version == st.calls[k].obj.version)
            && (after.ops == st.ops || exists o: Operation :: o.call == k && after.ops == st.ops + [o])
  {
    match OperationResult(st.calls[k].obj.spec, env)
    case Panicked =>
    case Returned(success, err) =>
      var o := Operation(k, st.calls[k].obj.version, st.calls[k].Kind(), st.calls[k].obj.spec, env, success);
      assert o.call == k && StepOperate(st, k, env).ops == st.ops + [o];
  }

  lemma CompletedSnoc(ops: seq<Operation>, o: Operation, id: nat)
    ensures CompletedBy(ops + [o], id) == CompletedBy(ops, id) + if o.call == id then 1 else 0
  {
    assert (ops + [o])[..|ops|] == ops;
  }

  lemma SilentOperate(before: State, st: State, id: nat, k: nat, env: Env)
    requires Silent(before, st, id) && At(st, k, Operating)
    ensures Silent(before, StepOperate(st, k, env), id)
  {
    OperateShape(st, k, env);
    var after := StepOperate(st, k, env);
    if after.ops != st.ops {
      var o: Operation :| o.call == k && after.ops == st.ops + [o];
      CompletedSnoc(st.ops, o, id);
    }
    SilentAfter(before, st, after, id, k);
  }

  /** An end of an operation moves it from the running ones to the completed ones, or to neither. */
  lemma SilentAfter(before: State, st: State, after: State, id: nat, k: nat)
    requires Silent(before, st, id) && At(st, k, Operating)
    requires after.hist == st.hist && after.inflight == st.inflight && after.next == st.next
    requires id != k ==> (id in after.calls <==> id in st.calls)
    requires id != k && id in st.calls ==> after.calls[id] == st.calls[id]
    requires k in after.calls ==>
               !after.calls[k].pc.Operating? && after.calls[k].obj.version == st.calls[k].obj.version
    requires CompletedBy(after.ops, id) <= CompletedBy(st.ops, id) + if id == k then 1 else 0
    ensures Silent(before, after, id)
  {
  }

  lemma SilentStep(before: State, st: State, id: nat, a: Action)
    requires Silent(before, st, id)
    ensures Silent(before, Step(st, a), id)
  {
    match a
    case Reply(k, ok) => SilentReply(before, st, id, k, ok);
    case Operate(k, env) =>
      if At(st, k, Operating) {
        SilentOperate(before, st, id, k, env);
      }
    case EditSpec(_) =>
    case Deliver(_) =>
    case _ => SilentLocal(before, st, id, a);
  }

  lemma SilentLocal(before: State, st: State, id: nat, a: Action)
    requires Silent(before, st, id) && (a.Tick? || a.Start? || a.Read? || a.Stamp? || a.Crash?)
    ensures Silent(before, Step(st, a), id)
  {
    var after := Step(st, a);
    assert after.hist == st.hist && after.inflight == st.inflight && after.ops == st.ops && st.next <= after.next;
    assert At(after, id, Operating) ==> At(st, id, Operating);
  }

  /** Once a call's copy is stale, in every continuation every later write of it fails and it starts no
      further operation; at most the one it is inside of still completes. */
  lemma {:induction false} StaleCallIsSilent(st: State, more: seq<Action>, id: nat)
    requires Reachable(st) && Stale(st, id)
    ensures Silent(st, Exec(st, more), id)
    decreases |more|
  {
    ReachableInv(st);
    if more == [] {
      assert OwnerInv(st, id, st.calls[id]);
    } else {
      var n := |more| - 1;
      StaleCallIsSilent(st, more[..n], id);
      ExecKeepsInv(st, more[..n]);
      SilentStep(st, Exec(st, more[..n]), id, more[n]);
    }
  }

  lemma {:induction false} ExecKeepsInv(st: State, more: seq<Action>)
    requires Inv(st)
    ensures Inv(Exec(st, more))
    decreases |more|
  {
    if more != [] {
      var n := |more| - 1;
      ExecKeepsInv(st, more[..n]);
      StepKeepsInv(Exec(st, more[..n]), more[n]);
    }
  }
}
