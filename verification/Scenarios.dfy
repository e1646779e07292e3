/** Runs that exist: every edge of the life cycle happens, a failed preflight records the wrong status, a
    fallback publishes an untrue one, and the bounds on convergence are met. */
module Scenarios {
  import opened Api
  import opened Operations
  import opened Protocol
  import opened Invariant
  import opened Truth
  import opened Runs
  import opened Rounds
  import opened Convergence
  import NodePatch
  import Pipeline
  import Watch

  // ---- Extending a run ----

  lemma InitialIsReachable(spec: Spec)
    ensures Reachable(Initial(spec, 0))
  {
    assert Exec(Initial(spec, 0), []) == Initial(spec, 0);
  }

  /** A new call reads the current version and branches on it. */
  lemma Begin(st: State) returns (after: State)
    requires Reachable(st)
    ensures Reachable(after)
    ensures after == st.(calls := after.calls, next := st.next + 1) && st.next in after.calls
    ensures after.calls[st.next] == Decide(Call(Deciding, Snapshot(st.hist, Version(st.hist)), Unknown, []), st.clock)
  {
    var mid := Step(st, Start(Version(st.hist)));
    ReachableStep(st, Start(Version(st.hist)));
    ReachableStep(mid, Read(st.next));
    after := Step(mid, Read(st.next));
  }

  /** The answer to a current update. */
  lemma Answer(st: State, id: nat) returns (after: State)
    requires Reachable(st) && id in st.calls && st.calls[id].pc.Writing?
    requires st.calls[id].obj.version == Version(st.hist)
    ensures Reachable(after)
    ensures var c := st.calls[id];
            && |after.hist| == |st.hist| + 1 && st.hist <= after.hist
            && Current(after.hist)
               == Entry(Current(st.hist).spec, c.obj.status, c.obj.deadline, StatusWrite(id, c.pc.kind), st.clock)
            && id in after.calls && after.calls[id] == Accepted(c, |st.hist|)
            && after.clock == st.clock && after.ops == st.ops
  {
    ReachableStep(st, Reply(id, true));
    after := Step(st, Reply(id, true));
  }

  lemma Edit(st: State, spec: Spec) returns (after: State)
    requires Reachable(st)
    ensures Reachable(after)
    ensures |after.hist| == |st.hist| + 1 && st.hist <= after.hist
    ensures var e := Current(after.hist);
            e.spec == spec && e.status == Current(st.hist).status && e.deadline == Current(st.hist).deadline
    ensures after.ops == st.ops
  {
    ReachableStep(st, EditSpec(spec));
    after := Step(st, EditSpec(spec));
  }

  /** A spec that asks for `desired`, with a single attempt. */
  function Asking(desired: Desired, valid: bool): Spec {
    ANY_SPEC.(nodeStatus := desired, maxRetry := 1, ipValid := valid)
  }

  /** A call that gets its claim and is inside its operation. */
  lemma ClaimIt(st: State) returns (after: State, id: nat)
    requires Reachable(st) && Startable(Current(st.hist).spec, Current(st.hist).status)
    ensures Reachable(after) && At(after, id, Operating)
    ensures |after.hist| == |st.hist| + 1 && st.hist <= after.hist && after.ops == st.ops
    ensures var e := Current(after.hist);
            && e.spec == Current(st.hist).spec
            && e.status == ClaimStatus(KindOf(e.spec.nodeStatus)) && e.deadline.Some?
    ensures var c := after.calls[id];
            c.obj == Snapshot(after.hist, Version(after.hist)) && c.log == []
  {
    id := st.next;
    var mid := Begin(st);
    ReachableStep(mid, Stamp(id));
    mid := Step(mid, Stamp(id));
    after := Answer(mid, id);
  }

  /** An operation with the given result; a failed launch is one whose wait timed out. */
  function Ending(success: bool): Env {
    Env(
      LaunchEnv(true, [], seq(Pipeline.TOTAL, i => true),
                Watch.Feed(
                  if success then Watch.Found(Watch.Seen("", [Watch.Condition(Watch.READY, "True")]))
                  else Watch.NotFound,
                  true, []),
                [NodePatch.Node(map[], Some(map[]), [], 0)],
                seq(NodePatch.TRIES, i => NodePatch.Try(Some(0), [], NodePatch.Answered))),
      DeprecateEnv(NodeFound, true, true, true, success))
  }

  lemma EndingEnds(c: Call, success: bool)
    requires c.obj.spec == Asking(c.obj.spec.nodeStatus, true)
    ensures OperationResult(c.obj.spec, Ending(success)).Returned?
    ensures OperationResult(c.obj.spec, Ending(success)).success == success
  {
    var env := Ending(success).launch;
    AllStepsPass(c.obj.spec, env);
    if success {
      assert env.feed.read.node.conditions[0].kind == Watch.READY;
      assert env.tries[0] == NodePatch.Try(Some(0), [], NodePatch.Answered);
      assert env.nodes + [] == env.nodes;
    }
  }

  lemma OperateIt(st: State, id: nat, success: bool) returns (after: State)
    requires Reachable(st) && At(st, id, Operating)
    requires st.calls[id].obj == Snapshot(st.hist, Version(st.hist)) && st.calls[id].log == []
    requires Current(st.hist).spec == Asking(Current(st.hist).spec.nodeStatus, true)
    ensures Reachable(after) && At(after, id, Writing(FinalizeWrite))
    ensures after.hist == st.hist && after.clock == st.clock
    ensures var kind := st.calls[id].Kind();
            && after.calls[id].obj
               == Snapshot(st.hist, Version(st.hist)).(status := Outcome(kind, success), deadline := None)
            && after.ops
               == st.ops + [Operation(id, Version(st.hist), kind, Current(st.hist).spec, Ending(success), success)]
  {
    EndingEnds(st.calls[id], success);
    ReachableStep(st, Operate(id, Ending(success)));
    after := Step(st, Operate(id, Ending(success)));
  }

  /** Time passes until the stored claim has expired, and another call falls back. */
  lemma FallBack(st: State) returns (after: State)
    requires Reachable(st) && InProgress(Current(st.hist).status) && Current(st.hist).deadline.Some?
    ensures Reachable(after) && |after.hist| == |st.hist| + 1 && st.hist <= after.hist && after.ops == st.ops
    ensures Current(after.hist).status == BeforeStatus(Current(st.hist).status)
    ensures Current(after.hist).spec == Current(st.hist).spec
  {
    var d := Current(st.hist).deadline.value;
    var wait := Tick(if st.clock > d then 0 else d - st.clock + 1);
    ReachableStep(st, wait);
    var mid := Begin(Step(st, wait));
    after := Answer(mid, st.next);
  }

  /** The only prepare is answered with an error that was not applied, and the finalize goes through. */
  lemma GiveUp(st: State) returns (after: State)
    requires Reachable(st) && Startable(Current(st.hist).spec, Current(st.hist).status)
    requires Current(st.hist).spec.maxRetry == 1
    ensures Reachable(after) && |after.hist| == |st.hist| + 1 && st.hist <= after.hist
    ensures Current(after.hist).status == Unknown
  {
    var id := st.next;
    var mid := Begin(st);
    ReachableStep(mid, Stamp(id));
    mid := Step(mid, Stamp(id));
    ReachableStep(mid, Reply(id, false));
    mid := Step(mid, Reply(id, false));
    after := Answer(mid, id);
  }

  /** A call that writes its one passive status. */
  lemma PassiveWrite(st: State) returns (after: State)
    requires Reachable(st)
    requires var e := Current(st.hist);
             e.status == Unknown || (Eligible(e.spec, e.status) && !Preflight(e.spec))
    ensures Reachable(after) && |after.hist| == |st.hist| + 1 && st.hist <= after.hist && after.ops == st.ops
    ensures var e := Current(st.hist);
            Current(after.hist).status == PassiveStatus(e.spec, e.status) && Current(after.hist).spec == e.spec
    ensures Current(after.hist).tag
         == StatusWrite(st.next, if Current(st.hist).status == Unknown then InitWrite else PreflightWrite)
  {
    var mid := Begin(st);
    after := Answer(mid, st.next);
  }

  /** The operation of a fresh claim ends and is published. */
  lemma Publish(st: State, id: nat, success: bool) returns (after: State)
    requires Reachable(st) && At(st, id, Operating)
    requires st.calls[id].obj == Snapshot(st.hist, Version(st.hist)) && st.calls[id].log == []
    requires Current(st.hist).spec == Asking(Current(st.hist).spec.nodeStatus, true)
    ensures Reachable(after) && |after.hist| == |st.hist| + 1 && st.hist <= after.hist
    ensures Current(after.hist).status == Outcome(KindOf(Current(st.hist).spec.nodeStatus), success)
  {
    var mid := OperateIt(st, id, success);
    after := Answer(mid, id);
  }

  // ---- Every status and every edge ----

  lemma Initialized(spec: Spec) returns (st: State)
    ensures Reachable(st) && Current(st.hist).status == Init && Current(st.hist).spec == spec
    ensures st.ops == []
  {
    InitialIsReachable(spec);
    st := PassiveWrite(Initial(spec, 0));
  }

  /** Every resting status is reached by some run. */
  lemma Reaches(s: NodeStatus) returns (st: State)
    requires !InProgress(s)
    ensures Reachable(st) && Current(st.hist).status == s
    decreases s == DeprecateFail
  {
    match s
    case Unknown =>
      InitialIsReachable(ANY_SPEC);
      st := Initial(ANY_SPEC, 0);
    case Init => st := Initialized(ANY_SPEC);
    case LaunchFail =>
      var init := Initialized(Asking(Active, false));
      st := PassiveWrite(init);
    case Active =>
      var init := Initialized(Asking(Active, true));
      var busy, id := ClaimIt(init);
      st := Publish(busy, id, true);
    case Inactive =>
      var init := Initialized(Asking(Active, true));
      var busy, id := ClaimIt(init);
      st := FallBack(busy);
    case DeprecateFail =>
      var was := Reaches(Inactive);
      var edited := Edit(was, Asking(Active, false));
      st := PassiveWrite(edited);
  }

  lemma LastTwo(st: State, after: State)
    requires |after.hist| == |st.hist| + 1 && st.hist <= after.hist
    ensures after.hist[|after.hist| - 2] == Current(st.hist)
  {
  }

  /** The life cycle is tight: every edge happens in some run, between two consecutive versions. */
  lemma EveryEdgeHappens(a: NodeStatus, b: NodeStatus) returns (after: State)
    requires Edge(a, b)
    ensures Reachable(after) && |after.hist| >= 2
    ensures after.hist[|after.hist| - 2].status == a && Current(after.hist).status == b
  {
    var st;
    if InProgress(a) {
      st, after := LeaveClaim(a, b);
    } else {
      st, after := LeaveRest(a, b);
    }
    LastTwo(st, after);
  }

  lemma LeaveRest(a: NodeStatus, b: NodeStatus) returns (st: State, after: State)
    requires !InProgress(a) && Edge(a, b)
    ensures Reachable(after) && |after.hist| == |st.hist| + 1 && st.hist <= after.hist
    ensures Current(st.hist).status == a && Current(after.hist).status == b
  {
    var was := Reaches(a);
    if a == Unknown {
      st := was;
      after := PassiveWrite(st);
    } else if b == LaunchFail || b == DeprecateFail {
      st := Edit(was, Asking(Active, false));
      after := PassiveWrite(st);
    } else {
      st := Edit(was, Asking(if a == Active || a == LaunchFail then Inactive else Active, true));
      if b == Unknown {
        after := GiveUp(st);
      } else {
        var id;
        after, id := ClaimIt(st);
      }
    }
  }

  lemma LeaveClaim(a: NodeStatus, b: NodeStatus) returns (busy: State, after: State)
    requires InProgress(a) && Edge(a, b)
    ensures Reachable(after) && |after.hist| == |busy.hist| + 1 && busy.hist <= after.hist
    ensures Current(busy.hist).status == a && Current(after.hist).status == b
  {
    var was := Reaches(if a == Launching then Init else LaunchFail);
    var edited := Edit(was, Asking(if a == Launching then Active else Inactive, true));
    var id;
    busy, id := ClaimIt(edited);
    if b == BeforeStatus(a) {
      after := FallBack(busy);
    } else {
      after := Publish(busy, id, b == Active || b == Inactive);
    }
  }

  /** In some run, version `i` has status `b` right after status `a`. */
  ghost predicate Happens(st: State, i: nat, a: NodeStatus, b: NodeStatus) {
    Reachable(st) && 0 < i < |st.hist| && st.hist[i - 1].status == a && st.hist[i].status == b
  }

  /** The stored status can change from `a` to `b` exactly when the life cycle has that edge. */
  lemma LifeCycleIsExact(a: NodeStatus, b: NodeStatus)
    requires a != b
    ensures Edge(a, b) <==> exists st, i :: Happens(st, i, a, b)
  {
    if Edge(a, b) {
      var st := EveryEdgeHappens(a, b);
      assert Happens(st, |st.hist| - 1, a, b);
    }
    if exists st, i :: Happens(st, i, a, b) {
      HappensOnlyOnEdges(a, b);
    }
  }

  lemma HappensOnlyOnEdges(a: NodeStatus, b: NodeStatus)
    requires a != b && exists st, i :: Happens(st, i, a, b)
    ensures Edge(a, b)
  {
    var st, i :| Happens(st, i, a, b);
    ClosedLifeCycle(st, i);
  }

  // ---- A failed preflight can record the wrong status ----

  /** The update that a failed preflight has just made, from status `before` to status `after`, for what was asked. */
  ghost predicate PreflightWrote(st: State, asked: Desired, before: NodeStatus, after: NodeStatus) {
    && Reachable(st) && |st.hist| >= 2
    && Current(st.hist).tag.StatusWrite? && Current(st.hist).tag.kind.PreflightWrite?
    && Current(st.hist).spec.nodeStatus == asked
    && st.hist[|st.hist| - 2].status == before && Current(st.hist).status == after
  }

  /** A launch that cannot be attempted is recorded as a failed deprecation. */
  lemma LaunchRecordedAsDeprecation() returns (st: State)
    ensures PreflightWrote(st, Active, Inactive, DeprecateFail)
  {
    var was := Reaches(Inactive);
    var edited := Edit(was, Asking(Active, false));
    st := PassiveWrite(edited);
    LastTwo(edited, st);
  }

  /** A deprecation that cannot be attempted is not recorded at all. */
  lemma DeprecationNotRecorded() returns (st: State)
    ensures PreflightWrote(st, Inactive, Active, Active)
  {
    var was := Reaches(Active);
    var edited := Edit(was, Asking(Inactive, false));
    st := PassiveWrite(edited);
    LastTwo(edited, st);
  }

  // ---- A fallback can publish an untrue status ----

  /** Without the condition that no fallback happened, a stored active may be untrue: in this run the last
      completed operation is a deprecation that deleted the Node, and no launch was ever run. */
  lemma FallbackCanLie() returns (st: State)
    ensures Reachable(st) && Current(st.hist).status == Active
    ensures st.ops != [] && st.ops[|st.ops| - 1].kind == Deprecate && st.ops[|st.ops| - 1].success
    ensures forall k :: 0 <= k < |st.ops| ==> st.ops[k].kind == Deprecate
  {
    var edited := DeprecationDue();
    var busy, id := ClaimIt(edited);
    var done := OperateIt(busy, id, true);
    st := FallBack(done);
  }

  /** A launch was never attempted, and now the object should become inactive. */
  lemma DeprecationDue() returns (st: State)
    ensures Reachable(st) && st.ops == []
    ensures Current(st.hist).spec == Asking(Inactive, true) && Current(st.hist).status == LaunchFail
  {
    var init := Initialized(Asking(Active, false));
    var failed := PassiveWrite(init);
    st := Edit(failed, Asking(Inactive, true));
  }

  // ---- The bounds on convergence are exact ----

  lemma RunThree(st: State, a: Action, b: Action, c: Action)
    ensures Exec(st, [a, b, c]) == Step(Step(Step(st, a), b), c)
  {
    assert [a, b, c][..2] == [a, b] && [a, b][..1] == [a] && [a][..0] == [];
    assert Exec(st, [a]) == Step(Exec(st, []), a);
    assert Exec(st, [a, b]) == Step(Exec(st, [a]), b);
  }

  lemma RunSix(st: State, a: Action, b: Action, c: Action, d: Action, e: Action, f: Action)
    ensures Exec(st, [a, b, c, d, e, f]) == Step(Step(Step(Step(Step(Step(st, a), b), c), d), e), f)
  {
    assert [a, b, c, d, e, f] == [a, b, c] + [d, e, f];
    ExecAppend(st, [a, b, c], [d, e, f]);
    RunThree(st, a, b, c);
    RunThree(Exec(st, [a, b, c]), d, e, f);
  }

  lemma RunSeven(st: State, a: Action, b: Action, c: Action, d: Action, e: Action, f: Action, g: Action)
    ensures Exec(st, [a, b, c, d, e, f] + [g]) == Step(Step(Step(Step(Step(Step(Step(st, a), b), c), d), e), f), g)
  {
    RunSix(st, a, b, c, d, e, f);
    ExecAppend(st, [a, b, c, d, e, f], [g]);
    OnlyStart(Exec(st, [a, b, c, d, e, f]), [g]);
  }

  /** A state in which a launch is due but undone: one round without faults would settle it. */
  predicate Undone(st: State) {
    && Current(st.hist).spec == Asking(Active, true)
    && (Current(st.hist).status == Init || Current(st.hist).status == Inactive)
  }

  /** The call makes one passive write. */
  function PassiveRound(st: State): seq<Action> {
    [Start(Version(st.hist)), Read(st.next), Reply(st.next, true)]
  }

  function NewCall(st: State): Call {
    Call(Deciding, Snapshot(st.hist, Version(st.hist)), Unknown, [])
  }

  lemma PassiveStepsRun(st: State) returns (after: State)
    requires Decide(NewCall(st), st.clock).pc.Writing?
    ensures after == Step(Step(Step(st, Start(Version(st.hist))), Read(st.next)), Reply(st.next, true))
    ensures st.next in after.calls && after.calls[st.next].pc == Finished(false)
    ensures after.hist == Commit(st.hist, RequestOf(st.next, Decide(NewCall(st), st.clock)), st.clock)
  {
    var id := st.next;
    var read := st.(calls := st.calls[id := NewCall(st)][id := Decide(NewCall(st), st.clock)], next := id + 1);
    after := Step(read, Reply(id, true));
  }

  lemma PassiveRoundRuns(st: State) returns (after: State)
    requires Decide(NewCall(st), st.clock).pc.Writing?
    ensures after == Exec(st, PassiveRound(st))
    ensures st.next in after.calls && after.calls[st.next].pc == Finished(false)
    ensures after.hist == Commit(st.hist, RequestOf(st.next, Decide(NewCall(st), st.clock)), st.clock)
  {
    after := PassiveStepsRun(st);
    RunThree(st, Start(Version(st.hist)), Read(st.next), Reply(st.next, true));
  }

  lemma PassiveRoundWorks(st: State) returns (after: State)
    requires Decide(NewCall(st), st.clock).pc.Writing?
    ensures after == Exec(st, PassiveRound(st))
    ensures IsRound(st, PassiveRound(st)) && Clean(st, PassiveRound(st)) && Due(st)
    ensures Current(after.hist).spec == Current(st.hist).spec
    ensures Current(after.hist).status == Decide(NewCall(st), st.clock).obj.status
  {
    after := PassiveRoundRuns(st);
  }

  /** A new call, about to hear of the first claim that it has sent. */
  function Claiming(st: State): Call {
    var obj := Copy(Version(st.hist), Current(st.hist).spec, Launching, Some(st.clock + DEADLINE));
    Call(Writing(PrepareWrite), obj, Unknown, [])
  }

  function WithCall(st: State, c: Call): State {
    st.(calls := st.calls[st.next := c], next := st.next + 1)
  }

  lemma ClaimIsSent(st: State)
    requires Undone(st)
    ensures Step(Step(Step(st, Start(Version(st.hist))), Read(st.next)), Stamp(st.next)) == WithCall(st, Claiming(st))
  {
    var decided := Decide(NewCall(st), st.clock);
    assert decided.pc.Preparing? && Claim(decided, st.clock) == Claiming(st);
    assert st.calls[st.next := NewCall(st)][st.next := decided][st.next := Claiming(st)]
        == st.calls[st.next := Claiming(st)];
  }

  /** The answers to both updates of the call are lost. */
  function LosingRound(st: State): seq<Action> {
    var id := st.next;
    [Start(Version(st.hist)), Read(id), Stamp(id), Reply(id, false), Reply(id, false), Tick(0)]
  }

  /** The claim whose answer is lost there. */
  function LostClaim(st: State): Request {
    Request(Version(st.hist), Launching, Some(st.clock + DEADLINE), st.next, PrepareWrite)
  }

  predicate IsLostClaim(st: State, r: Request) {
    r == Request(Version(st.hist), Launching, Some(st.clock + DEADLINE), r.call, PrepareWrite) && r.call < st.next
  }

  lemma LosingRoundWorks(st: State) returns (after: State)
    requires Undone(st)
    ensures after == Exec(st, LosingRound(st))
    ensures IsRound(st, LosingRound(st)) && !Clean(st, LosingRound(st)) && Due(st)
    ensures after.hist == st.hist && after.clock == st.clock && after.next == st.next + 1
    ensures LostClaim(st) in after.inflight
  {
    var id := st.next;
    var sent := WithCall(st, Claiming(st));
    assert LosingRound(st)[3] == Reply(st.next, false);
    ClaimIsSent(st);
    RunSix(st, Start(Version(st.hist)), Read(id), Stamp(id), Reply(id, false), Reply(id, false), Tick(0));
    after := BothLost(sent, id);
  }

  lemma BothLost(st: State, id: nat) returns (after: State)
    requires At(st, id, Writing(PrepareWrite)) && st.calls[id].log == [] && st.calls[id].obj.spec.maxRetry == 1
    ensures after == Step(Step(Step(st, Reply(id, false)), Reply(id, false)), Tick(0))
    ensures after.hist == st.hist && after.clock == st.clock && after.next == st.next
    ensures RequestOf(id, st.calls[id]) in after.inflight && At(after, id, Finished(true))
  {
    after := Step(Step(Step(st, Reply(id, false)), Reply(id, false)), Tick(0));
  }

  /** A claim lands that was lost earlier, both updates of the call are conflicts, and the claim expires. */
  function OvertakenRound(st: State, r: Request): seq<Action> {
    var id := st.next;
    [Start(Version(st.hist)), Read(id), Stamp(id), Deliver(r), Reply(id, true), Reply(id, true)] + [Tick(DEADLINE + 1)]
  }

  lemma OvertakenRoundShape(st: State, r: Request)
    ensures var round := OvertakenRound(st, r);
            && round != [] && round[0] == Start(Version(st.hist)) && NoLostAnswer(round)
            && forall i :: 1 <= i < |round| ==> Solo(round[i], st.next)
  {
  }

  lemma OvertakenRoundWorks(st: State, r: Request) returns (after: State)
    requires Undone(st) && r in st.inflight && IsLostClaim(st, r)
    ensures after == Exec(st, OvertakenRound(st, r))
    ensures IsRound(st, OvertakenRound(st, r)) && Clean(st, OvertakenRound(st, r)) && Due(st)
    ensures Current(after.hist).spec == Asking(Active, true) && Current(after.hist).status == Launching && Due(after)
  {
    var id := st.next;
    OvertakenRoundShape(st, r);
    ClaimIsSent(st);
    RunSeven(st, Start(Version(st.hist)), Read(id), Stamp(id), Deliver(r), Reply(id, true), Reply(id, true),
             Tick(DEADLINE + 1));
    after := LandsAndExpires(WithCall(st, Claiming(st)), id, r);
  }

  lemma LandsAndExpires(st: State, id: nat, r: Request) returns (after: State)
    requires At(st, id, Writing(PrepareWrite)) && st.calls[id].log == [] && st.calls[id].obj.spec.maxRetry == 1
    requires r in st.inflight && r.base == Version(st.hist) == st.calls[id].obj.version
    requires r.status == Launching && r.deadline == Some(st.clock + DEADLINE)
    ensures after == Step(Step(Step(Step(st, Deliver(r)), Reply(id, true)), Reply(id, true)), Tick(DEADLINE + 1))
    ensures Current(after.hist).spec == Current(st.hist).spec && Current(after.hist).status == Launching && Due(after)
    ensures At(after, id, Finished(true))
  {
    var landed := Step(st, Deliver(r));
    var refused := landed.(calls := landed.calls[id := Refused(st.calls[id])]);
    assert Step(landed, Reply(id, true)) == refused;
    after := Step(Step(refused, Reply(id, true)), Tick(DEADLINE + 1));
  }

  // ---- Counting rounds ----

  /** There are so many due, faulty and stale ones among the rounds. */
  ghost predicate Tally(st: State, rounds: seq<seq<Action>>, due: nat, faulty: nat, stale: nat) {
    && AreRounds(st, rounds)
    && DueRounds(st, rounds) == due && FaultyRounds(st, rounds) == faulty && StaleRounds(st, rounds) == stale
  }

  lemma {:induction false} RoundsAppend(st: State, a: seq<seq<Action>>, b: seq<seq<Action>>)
    requires AreRounds(st, a) && AreRounds(AfterRounds(st, a), b)
    ensures AfterRounds(st, a + b) == AfterRounds(AfterRounds(st, a), b)
    ensures var mid := AfterRounds(st, a);
            Tally(st, a + b, DueRounds(st, a) + DueRounds(mid, b), FaultyRounds(st, a) + FaultyRounds(mid, b),
                  StaleRounds(st, a) + StaleRounds(mid, b))
    decreases |a|
  {
    if a == [] {
      assert a + b == b;
    } else {
      assert (a + b)[1..] == a[1..] + b;
      RoundsAppend(Exec(st, a[0]), a[1..], b);
    }
  }

  lemma OneRound(st: State, round: seq<Action>)
    requires IsRound(st, round)
    ensures AfterRounds(st, [round]) == Exec(st, round)
    ensures var current := ReadsCurrent(st, round);
            Tally(st, [round], if Due(st) then 1 else 0, if !current || Clean(st, round) then 0 else 1,
                  if Due(st) && !current then 1 else 0)
  {
    var after := Exec(st, round);
    assert [round][1..] == [];
    assert AfterRounds(after, []) == after && Tally(after, [], 0, 0, 0);
  }

  /** A live claim of an earlier call costs two due rounds: the one it overtakes, and the fallback. */
  lemma LandingCostsTwo(st: State, r: Request) returns (rounds: seq<seq<Action>>)
    requires Undone(st) && r in st.inflight && IsLostClaim(st, r)
    ensures Tally(st, rounds, 2, 0, 0) && Undone(AfterRounds(st, rounds))
  {
    var mid := OvertakenRoundWorks(st, r);
    var end := PassiveRoundWorks(mid);
    OneRound(st, OvertakenRound(st, r));
    OneRound(mid, PassiveRound(mid));
    RoundsAppend(st, [OvertakenRound(st, r)], [PassiveRound(mid)]);
    rounds := [OvertakenRound(st, r)] + [PassiveRound(mid)];
  }

  /** `f` faults in a row, each costing three due rounds. */
  lemma {:induction false} BusyRounds(st: State, f: nat) returns (rounds: seq<seq<Action>>)
    requires Undone(st)
    ensures Tally(st, rounds, 3 * f, f, 0) && Undone(AfterRounds(st, rounds))
    decreases f
  {
    rounds := [];
    if f > 0 {
      var lost := LosingRoundWorks(st);
      var landing := LandingCostsTwo(lost, LostClaim(st));
      var rest := BusyRounds(AfterRounds(lost, landing), f - 1);
      OneRound(st, LosingRound(st));
      RoundsAppend(lost, landing, rest);
      RoundsAppend(st, [LosingRound(st)], landing + rest);
      rounds := [LosingRound(st)] + (landing + rest);
    }
  }

  // ---- Reading a stale copy ----

  /** The call reads the very first version; its update is a conflict. */
  function StaleRound(st: State): seq<Action> {
    [Start(0), Read(st.next), Reply(st.next, true)]
  }

  lemma StaleRoundWorks(st: State) returns (after: State)
    requires st.hist[0].status == Unknown && |st.hist| > 1
    ensures after == Exec(st, StaleRound(st)) && after == st.(calls := after.calls, next := st.next + 1)
    ensures IsRound(st, StaleRound(st)) && !ReadsCurrent(st, StaleRound(st))
  {
    var id := st.next;
    RunThree(st, Start(0), Read(id), Reply(id, true));
    var c := Call(Deciding, Snapshot(st.hist, 0), Unknown, []);
    assert Decide(c, st.clock).pc == Writing(InitWrite);
    after := Exec(st, StaleRound(st));
  }

  /** Any number of such rounds changes nothing. */
  lemma {:induction false} StaleRuns(st: State, s: nat) returns (rounds: seq<seq<Action>>, after: State)
    requires st.hist[0].status == Unknown && |st.hist| > 1 && Due(st)
    ensures Tally(st, rounds, s, 0, s)
    ensures after == AfterRounds(st, rounds)
    ensures after == st.(calls := after.calls, next := after.next) && st.next <= after.next
    decreases s
  {
    rounds, after := [], st;
    if s > 0 {
      var next := StaleRoundWorks(st);
      var rest;
      rest, after := StaleRuns(next, s - 1);
      OneRound(st, StaleRound(st));
      RoundsAppend(st, [StaleRound(st)], rest);
      rounds := [StaleRound(st)] + rest;
    }
  }

  /** In a run, the first version is still without a status. */
  lemma FirstIsUnknown(st: State)
    requires Reachable(st) && Current(st.hist).status != Unknown
    ensures st.hist[0].status == Unknown && |st.hist| > 1
  {
    ReachableInv(st);
  }

  // ---- A valid spec ----

  /** Stale rounds, and then faults, from a state in which a launch is undone. */
  lemma StaleAndBusy(st: State, f: nat, s: nat) returns (rounds: seq<seq<Action>>)
    requires Reachable(st) && Undone(st)
    ensures Tally(st, rounds, 3 * f + s, f, s) && Undone(AfterRounds(st, rounds))
  {
    FirstIsUnknown(st);
    var stale, mid := StaleRuns(st, s);
    var rest := BusyRounds(mid, f);
    RoundsAppend(st, stale, rest);
    rounds := stale + rest;
  }

  lemma {:induction false} RoundsAreRuns(st: State, rounds: seq<seq<Action>>)
    requires Reachable(st) && AreRounds(st, rounds)
    ensures Reachable(AfterRounds(st, rounds))
    decreases |rounds|
  {
    if rounds != [] {
      ReachableExec(st, rounds[0]);
      RoundsAreRuns(Exec(st, rounds[0]), rounds[1..]);
    }
  }

  /** For every number of faults and of stale reads, and with or without a live update to begin with, there is a
      run of rounds for a valid spec, one short of the bound, that is still unsettled. */
  lemma BoundIsTight(f: nat, s: nat, live: bool) returns (st: State, rounds: seq<seq<Action>>)
    ensures Reachable(st) && Preflight(Current(st.hist).spec)
    ensures Live(st) == live && Weight(st) == if live then 3 else 2
    ensures FaultyRounds(st, rounds) == f && StaleRounds(st, rounds) == s
    ensures AreRounds(st, rounds)
         && DueRounds(st, rounds) + 1 == Weight(st) + FaultCost(Current(st.hist).spec, f) + s
    ensures !Settled(Current(AfterRounds(st, rounds).hist))
  {
    var first;
    if live {
      st := OneLostUpdate();
      var r :| r in st.inflight && IsLostClaim(st, r);
      first := LandingCostsTwo(st, r);
    } else {
      st := NewObject();
      var init := PassiveRoundWorks(st);
      OneRound(st, PassiveRound(st));
      first := [PassiveRound(st)];
    }
    RoundsAreRuns(st, first);
    var rest := StaleAndBusy(AfterRounds(st, first), f, s);
    RoundsAppend(st, first, rest);
    rounds := first + rest;
  }

  lemma NewObject() returns (st: State)
    ensures st == Initial(Asking(Active, true), 0) && Reachable(st) && !Live(st) && Weight(st) == 2
  {
    InitialIsReachable(Asking(Active, true));
    st := Initial(Asking(Active, true), 0);
  }

  /** The claim of an earlier call is still on its way. */
  lemma OneLostUpdate() returns (st: State)
    ensures Reachable(st) && Undone(st) && Live(st) && Weight(st) == 3
    ensures exists r :: r in st.inflight && IsLostClaim(st, r)
  {
    var init := Initialized(Asking(Active, true));
    st := LoseClaim(init);
  }

  lemma LoseClaim(init: State) returns (st: State)
    requires Reachable(init) && Undone(init)
    ensures Reachable(st) && Undone(st) && Live(st) && Weight(st) == 3
    ensures exists r :: r in st.inflight && IsLostClaim(st, r)
  {
    ReachableExec(init, LosingRound(init));
    st := LosingRoundWorks(init);
    assert IsLostClaim(st, LostClaim(init));
    assert Rank(Current(st.hist).spec, Current(st.hist).status) == 1;
  }

  // ---- The same for an invalid spec ----

  /** The process dies before the call does anything. */
  function DeadRound(st: State): seq<Action> {
    [Start(Version(st.hist)), Crash(st.next), Tick(0)]
  }

  lemma DeadRoundWorks(st: State) returns (after: State)
    ensures after == Exec(st, DeadRound(st)) && after == st.(calls := after.calls, next := st.next + 1)
    ensures IsRound(st, DeadRound(st)) && !Clean(st, DeadRound(st))
  {
    RunThree(st, Start(Version(st.hist)), Crash(st.next), Tick(0));
    after := Exec(st, DeadRound(st));
  }

  lemma {:induction false} DeadRounds(st: State, f: nat) returns (rounds: seq<seq<Action>>, after: State)
    requires Due(st)
    ensures Tally(st, rounds, f, f, 0)
    ensures after == AfterRounds(st, rounds) && after.hist == st.hist && after.clock == st.clock
    decreases f
  {
    rounds, after := [], st;
    if f > 0 {
      var next := DeadRoundWorks(st);
      var rest;
      rest, after := DeadRounds(next, f - 1);
      OneRound(st, DeadRound(st));
      RoundsAppend(st, [DeadRound(st)], rest);
      rounds := [DeadRound(st)] + rest;
    }
  }

  /** An expired claim whose spec has become invalid since. */
  lemma ExpiredAndInvalid() returns (st: State)
    ensures Reachable(st) && Due(st)
    ensures Current(st.hist).spec == Asking(Active, false) && Current(st.hist).status == Launching
  {
    var init := Initialized(Asking(Active, true));
    var busy, id := ClaimIt(init);
    var edited := Edit(busy, Asking(Active, false));
    var d := Current(edited.hist).deadline.value;
    var wait := Tick(if edited.clock > d then 0 else d - edited.clock + 1);
    ReachableStep(edited, wait);
    st := Step(edited, wait);
  }

  /** The fallback, and then a failed preflight, leave it unsettled. */
  lemma TwoPassiveRounds(st: State) returns (rounds: seq<seq<Action>>)
    requires Due(st) && Current(st.hist).spec == Asking(Active, false) && Current(st.hist).status == Launching
    ensures Tally(st, rounds, 2, 0, 0) && !Settled(Current(AfterRounds(st, rounds).hist))
  {
    var fell := PassiveRoundWorks(st);
    var end := PassiveRoundWorks(fell);
    OneRound(st, PassiveRound(st));
    OneRound(fell, PassiveRound(fell));
    RoundsAppend(st, [PassiveRound(st)], [PassiveRound(fell)]);
    rounds := [PassiveRound(st)] + [PassiveRound(fell)];
  }

  /** For every number of faults and of stale reads there is such a run of rounds for an invalid spec too. */
  lemma BoundIsTightForInvalid(f: nat, s: nat) returns (st: State, rounds: seq<seq<Action>>)
    ensures Reachable(st) && !Preflight(Current(st.hist).spec) && Weight(st) == 3
    ensures FaultyRounds(st, rounds) == f && StaleRounds(st, rounds) == s
    ensures AreRounds(st, rounds)
         && DueRounds(st, rounds) + 1 == Weight(st) + FaultCost(Current(st.hist).spec, f) + s
    ensures !Settled(Current(AfterRounds(st, rounds).hist))
  {
    st := ExpiredAndInvalid();
    FirstIsUnknown(st);
    var stale, mid := StaleRuns(st, s);
    var dead, later := DeadRounds(mid, f);
    var rest := TwoPassiveRounds(later);
    RoundsAppend(mid, dead, rest);
    RoundsAppend(st, stale, dead + rest);
    rounds := stale + (dead + rest);
  }
}
