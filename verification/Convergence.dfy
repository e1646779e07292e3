/** Progress of Reconcile calls, one after the other, that may read stale copies, with faults: crashes, updates
    that are lost, and updates of earlier calls that land while a later one is under way. */
module Convergence {
  import opened Api
  import opened Operations
  import opened Protocol
  import opened Invariant
  import opened Rounds

  // ---- Settled states ----

  /** The most rounds without faults that can still change the stored status. */
  function Rank(spec: Spec, s: NodeStatus): nat {
    var valid := Preflight(spec);
    if spec.nodeStatus == Active then
      match s
      case Active => 0
      case LaunchFail => 0
      case Init => 1
      case DeprecateFail => 1
      case Deprecating => 1
      case Unknown => 2
      case Inactive => if valid then 1 else 2
      case Launching => if valid then 2 else 3
    else
      match s
      case Inactive => 0
      case DeprecateFail => 0
      case Init => 0
      case Active => if valid then 1 else 0
      case LaunchFail => if valid then 1 else 0
      case Unknown => 1
      case Launching => 1
      case Deprecating => if valid then 2 else 1
  }

  predicate Settled(e: Entry) {
    Rank(e.spec, e.status) == 0
  }

  /** How far a landing update can set the status back, and the round that it overtakes with it. */
  function Setback(spec: Spec, s: NodeStatus): nat {
    if !Preflight(spec) then 0
    else if Startable(spec, s) then 2
    else if InProgress(s) then 1
    else 0
  }

  /** How far one round can go that is not overtaken: down by one without faults; up by one with them, and up only
      if a node operation can start. A setback is then only to be feared if the status has not gone up that far. */
  lemma RankOfEffect(before: Entry, after: Entry)
    requires Effect(before, after)
    ensures Settled(before) ==> after.status == before.status && after.deadline == before.deadline
    ensures Rank(after.spec, after.status)
         <= Rank(before.spec, before.status) + if Preflight(before.spec) then 1 else 0
    ensures Rank(after.spec, after.status) + Setback(after.spec, after.status)
         <= Rank(before.spec, before.status) + if Preflight(before.spec) then 2 else 0
    ensures InProgress(before.status) ==> Rank(after.spec, after.status) <= Rank(before.spec, before.status)
    ensures CleanEffect(before, after) && !Settled(before) ==>
            Rank(after.spec, after.status) < Rank(before.spec, before.status)
  {
  }

  lemma RankOfLanding(before: Entry, after: Entry)
    requires Landing(before, after)
    ensures after.spec == before.spec
    ensures Settled(before) ==> after.status == before.status && after.deadline == before.deadline
    ensures !Settled(before) ==>
              Rank(after.spec, after.status) + 1
              <= Rank(before.spec, before.status) + Setback(before.spec, before.status)
  {
  }

  /** Settled is exactly what its name says: no round changes the stored status or deadline, while in an
      unsettled state every due round without faults that reads the current version, if nobody else's update
      lands in it, changes the status. A round that reads a stale copy and is alone writes nothing at all. */
  lemma SettledMeansStable(st: State, round: seq<Action>)
    requires Reachable(st) && IsRound(st, round)
    ensures var e, e' := Current(st.hist), Current(Exec(st, round).hist);
            && (Settled(e) ==> e'.status == e.status && e'.deadline == e.deadline && Settled(e'))
            && (!Settled(e) && Due(st) && Clean(st, round) && Alone(st, round) && ReadsCurrent(st, round) ==>
                  e'.status != e.status)
    ensures Alone(st, round) && !ReadsCurrent(st, round) ==> Exec(st, round).hist == st.hist
  {
    ReachableInv(st);
    var e, e' := Current(st.hist), Current(Exec(st, round).hist);
    RoundEffect(st, round);
    if Overtaken(st, Exec(st, round)) {
      RankOfLanding(e, e');
    } else if ReadsCurrent(st, round) {
      RankOfEffect(e, e');
    }
    if Alone(st, round) {
      AloneIsNotOvertaken(st, round);
    }
  }

  // ---- What one round costs or gains ----

  /** What a live update can still cost. */
  ghost function Debt(st: State): nat {
    if Live(st) then Setback(Current(st.hist).spec, Current(st.hist).status) else 0
  }

  ghost function Weight(st: State): nat {
    Rank(Current(st.hist).spec, Current(st.hist).status) + Debt(st)
  }

  /** What `f` faulty rounds can cost. */
  function FaultCost(spec: Spec, f: nat): nat {
    if Preflight(spec) then 3 * f else f
  }

  /** A round without faults that wrote something leaves no live update, and one that wrote nothing makes none. */
  lemma CleanLeavesNoneAlive(st0: State, st: State)
    requires Inv(st0) && RoundWrites(st0, st) && CleanSoFar(st0, st)
    ensures Live(st) ==> st.hist == st0.hist && Live(st0)
  {
    if Live(st) {
      var r :| r in st.inflight && r.base == Version(st.hist);
      assert r.call != st0.next && r in st0.inflight;
    }
  }

  lemma CleanWeight(st: State, round: seq<Action>)
    requires Inv(st) && IsRound(st, round) && ReadsCurrent(st, round) && Clean(st, round)
    requires !Overtaken(st, Exec(st, round))
    requires !Settled(Current(st.hist))
    ensures Weight(Exec(st, round)) + (if Due(st) then 1 else 0) <= Weight(st)
  {
    var after := Exec(st, round);
    RoundPrefix(st, round);
    RoundEffect(st, round);
    RankOfEffect(Current(st.hist), Current(after.hist));
    CleanLeavesNoneAlive(st, after);
  }

  /** A round that reads a stale copy makes no update live. */
  lemma StaleWeight(st: State, round: seq<Action>)
    requires Inv(st) && IsRound(st, round) && !ReadsCurrent(st, round)
    requires !Overtaken(st, Exec(st, round))
    ensures Exec(st, round).hist == st.hist && Weight(Exec(st, round)) <= Weight(st)
  {
    StalePrefix(st, round);
    var after := Exec(st, round);
    if Live(after) {
      var r :| r in after.inflight && r.base == Version(after.hist);
      assert r in st.inflight;
    }
  }

  /** What a round can cost: one that reads a stale copy itself if it is due, and another one what its fault costs. */
  ghost function RoundCost(st: State, round: seq<Action>): nat {
    if !ReadsCurrent(st, round) then (if Due(st) then 1 else 0)
    else if Clean(st, round) then 0
    else FaultCost(Current(st.hist).spec, 1)
  }

  /** Every round that is due makes the weight smaller, up to its own cost; and a settled status stays. */
  lemma WeightOfRound(st: State, round: seq<Action>)
    requires Inv(st) && IsRound(st, round)
    ensures var e, e' := Current(st.hist), Current(Exec(st, round).hist);
            && e'.spec == e.spec
            && (Settled(e) ==> Settled(e'))
            && (!Settled(e) ==>
                  Weight(Exec(st, round)) + (if Due(st) then 1 else 0) <= Weight(st) + RoundCost(st, round))
  {
    var e, e' := Current(st.hist), Current(Exec(st, round).hist);
    RoundEffect(st, round);
    if Overtaken(st, Exec(st, round)) {
      RankOfLanding(e, e');
      OvertakenIsLanding(st, Exec(st, round));
    } else if !ReadsCurrent(st, round) {
      StaleWeight(st, round);
    } else {
      RankOfEffect(e, e');
      if Clean(st, round) && !Settled(e) {
        CleanWeight(st, round);
      }
    }
  }

  // ---- Convergence ----

  ghost predicate AreRounds(st: State, rounds: seq<seq<Action>>)
    decreases |rounds|
  {
    rounds == [] || (IsRound(st, rounds[0]) && AreRounds(Exec(st, rounds[0]), rounds[1..]))
  }

  ghost function AfterRounds(st: State, rounds: seq<seq<Action>>): State
    decreases |rounds|
  {
    if rounds == [] then st else AfterRounds(Exec(st, rounds[0]), rounds[1..])
  }

  /** The rounds that did not start by waiting for an unexpired claim. */
  ghost function DueRounds(st: State, rounds: seq<seq<Action>>): nat
    decreases |rounds|
  {
    if rounds == [] then 0
    else (if Due(st) then 1 else 0) + DueRounds(Exec(st, rounds[0]), rounds[1..])
  }

  /** The rounds with a fault that read the current version. */
  ghost function FaultyRounds(st: State, rounds: seq<seq<Action>>): nat
    decreases |rounds|
  {
    if rounds == [] then 0
    else
      (if !ReadsCurrent(st, rounds[0]) || Clean(st, rounds[0]) then 0 else 1)
      + FaultyRounds(Exec(st, rounds[0]), rounds[1..])
  }

  /** The due rounds that read a stale copy. */
  ghost function StaleRounds(st: State, rounds: seq<seq<Action>>): nat
    decreases |rounds|
  {
    if rounds == [] then 0
    else
      (if Due(st) && !ReadsCurrent(st, rounds[0]) then 1 else 0)
      + StaleRounds(Exec(st, rounds[0]), rounds[1..])
  }

  lemma {:induction false} RanksAddUp(st: State, rounds: seq<seq<Action>>)
    requires Inv(st) && AreRounds(st, rounds)
    ensures var e, e' := Current(st.hist), Current(AfterRounds(st, rounds).hist);
            && e'.spec == e.spec
            && (Settled(e) ==> Settled(e'))
            && (|| Settled(e')
                || Weight(AfterRounds(st, rounds)) + DueRounds(st, rounds)
                   <= Weight(st) + FaultCost(e.spec, FaultyRounds(st, rounds)) + StaleRounds(st, rounds))
    decreases |rounds|
  {
    if rounds != [] {
      RoundEffect(st, rounds[0]);
      WeightOfRound(st, rounds[0]);
      RanksAddUp(Exec(st, rounds[0]), rounds[1..]);
    }
  }

  /** Convergence with faults: from any state a run can reach, once the due rounds outnumber the weight of the
      state plus the cost of the faulty rounds, the status is settled. That is at most 3 rounds without faults,
      even if an update of an earlier call is still on its way, and at most 2 if none is and the spec is valid;
      each faulty round costs at most three more for a valid spec, and one more for an invalid one, and each due
      round that reads a stale copy costs one more. */
  lemma Converges(st: State, rounds: seq<seq<Action>>)
    requires Reachable(st) && AreRounds(st, rounds)
    requires DueRounds(st, rounds)
          >= Weight(st) + FaultCost(Current(st.hist).spec, FaultyRounds(st, rounds)) + StaleRounds(st, rounds)
    ensures Settled(Current(AfterRounds(st, rounds).hist))
    ensures Weight(st) <= 3 && (!Live(st) && Preflight(Current(st.hist).spec) ==> Weight(st) <= 2)
  {
    ReachableInv(st);
    RanksAddUp(st, rounds);
  }

  // ---- Resuming after a crash ----

  /** After a fallback the spec decides alone whether the same kind of operation is started again. */
  lemma FallbackResumes(c: Call, s: NodeStatus, now: int)
    requires InProgress(s) && c.pc.Deciding? && c.obj.status == BeforeStatus(s)
    ensures Decide(c, now).pc.Preparing? && ClaimStatus(c.Kind()) == s
       <==> ClaimStatus(KindOf(c.obj.spec.nodeStatus)) == s && Preflight(c.obj.spec)
  {
  }

  /** A claim abandoned at any point: once it has expired, the next call that reads it, without faults and alone,
      falls back, and the call after that starts the same kind of operation again exactly when the spec still asks for
      it and is valid. */
  lemma CrashResumption(st: State, round: seq<Action>, next: Call, later: int)
    requires Reachable(st) && IsRound(st, round) && ReadsCurrent(st, round) && Clean(st, round) && Alone(st, round)
    requires InProgress(Current(st.hist).status) && Due(st)
    requires next == Call(Deciding, Snapshot(Exec(st, round).hist, Version(Exec(st, round).hist)), Unknown, [])
    ensures next.obj.status == BeforeStatus(Current(st.hist).status) && next.obj.spec == Current(st.hist).spec
    ensures Decide(next, later).pc.Preparing? && ClaimStatus(next.Kind()) == Current(st.hist).status
       <==> && ClaimStatus(KindOf(Current(st.hist).spec.nodeStatus)) == Current(st.hist).status
            && Preflight(Current(st.hist).spec)
  {
    ReachableInv(st);
    RoundEffect(st, round);
    AloneIsNotOvertaken(st, round);
    FallbackResumes(next, Current(st.hist).status, later);
  }
}
