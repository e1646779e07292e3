/** What one Reconcile call can do to the stored object while no other call is under way, whatever it has read and
    whatever goes wrong: crashes, updates that are lost, and updates of earlier calls that land during it. */
module Rounds {
  import opened Api
  import opened Operations
  import opened Protocol
  import opened Invariant
  import opened Fencing

  // ---- Rounds ----

  /** Only time, call `id`, and updates still on their way, of whatever call, act. */
  predicate Solo(a: Action, id: nat) {
    match a
    case Tick(_) => true
    case EditSpec(_) => false
    case Start(_) => false
    case Read(k) => k == id
    case Stamp(k) => k == id
    case Reply(k, _) => k == id
    case Operate(k, _) => k == id
    case Deliver(_) => true
    case Crash(k) => k == id
  }

  /** A call that reads any version, current or stale, and runs until it returns or dies. Any update that was
      answered with an error, in this round or before it, may or may not take effect before the round is over. */
  ghost predicate IsRound(st: State, round: seq<Action>) {
    && round != [] && round[0].Start? && round[0].version < |st.hist|
    && (forall i :: 1 <= i < |round| ==> Solo(round[i], st.next))
    && Over(Exec(st, round), st.next)
  }

  predicate ReadsCurrent(st: State, round: seq<Action>) {
    round != [] && round[0] == Start(Version(st.hist))
  }

  predicate NoLostAnswer(round: seq<Action>) {
    forall i :: 0 <= i < |round| ==> !(round[i].Reply? && !round[i].ok)
  }

  /** No update was answered with an error, and the call neither crashed nor panicked. */
  ghost predicate Clean(st: State, round: seq<Action>) {
    NoLostAnswer(round) && st.next in Exec(st, round).calls
  }

  /** The call does not just wait for somebody's unexpired claim. */
  predicate Due(st: State) {
    var e := Current(st.hist);
    InProgress(e.status) ==> e.deadline.Some? && st.clock > e.deadline.value
  }

  /** Some update that was answered with an error can still take effect. */
  ghost predicate Live(st: State) {
    exists r :: r in st.inflight && r.base == Version(st.hist)
  }

  /** Every version of the round is its own call's. */
  ghost predicate Alone(st: State, round: seq<Action>) {
    var h := Exec(st, round).hist;
    forall i :: |st.hist| <= i < |h| && h[i].tag.StatusWrite? ==> h[i].tag.call == st.next
  }

  // ---- What one round does ----

  /** The one status that a call writes when it does not get into the retry loop. */
  function PassiveStatus(spec: Spec, s: NodeStatus): NodeStatus {
    if s == Unknown then Init
    else if s == spec.nodeStatus then s
    else if InProgress(s) then BeforeStatus(s)
    else if Eligible(spec, s) && !Preflight(spec) then PreflightStatus(spec, s)
    else s
  }

  /** Every write of the round is by its call, and of the sort its start calls for. */
  ghost predicate RoundWrites(st0: State, st: State) {
    var e := Current(st0.hist);
    var id := st0.next;
    && st0.hist <= st.hist && st0.clock <= st.clock && id < st.next
    && (forall i :: |st0.hist| <= i < |st.hist| ==>
          && st.hist[i].tag.StatusWrite? && st.hist[i].tag.call == id
          && (InLoop(st.hist[i].tag.kind) <==> Startable(e.spec, e.status)))
    && (!Startable(e.spec, e.status) ==> |st.hist| <= |st0.hist| + 1)
    && (forall r :: r in st.inflight && r.call == id ==>
          && (InLoop(r.kind) <==> Startable(e.spec, e.status))
          && (!InLoop(r.kind) ==> r.base == Version(st0.hist) && Over(st, id)))
    && (forall r :: r in st.inflight && r.call != id ==> r in st0.inflight && r.base <= Version(st0.hist))
    && (id in st.calls ==> CallInRound(st0, st, st.calls[id]))
  }

  /** An update of an earlier call has landed before the first write of the round: no other one can follow. */
  ghost predicate Overtaken(st0: State, st: State) {
    var id := st0.next;
    && st0.hist <= st.hist && |st.hist| == |st0.hist| + 1 && id < st.next
    && Live(st0) && Current(st.hist).tag.StatusWrite? && Current(st.hist).tag.call != id
    && (forall r :: r in st.inflight ==> r.base < Version(st.hist))
    && (id in st.calls ==> st.calls[id].obj.version < Version(st.hist) && !st.calls[id].pc.Operating?)
  }

  ghost predicate CallInRound(st0: State, st: State, c: Call) {
    var e := Current(st0.hist);
    && Version(st0.hist) <= c.obj.version
    && match c.pc
       case Deciding => c.obj == Snapshot(st0.hist, Version(st0.hist)) && st.hist == st0.hist
       case Preparing => Startable(e.spec, e.status)
       case Operating => Startable(e.spec, e.status) && |st.hist| > |st0.hist|
       case Writing(kind) =>
         && (InLoop(kind) <==> Startable(e.spec, e.status))
         && (!InLoop(kind) ==> c.obj.version == Version(st0.hist) && st.hist == st0.hist)
       case Finished(_) => true
  }

  /** As long as no answer was lost, the call's copy is current and every attempt got past prepare. */
  ghost predicate CleanSoFar(st0: State, st: State) {
    var e := Current(st0.hist);
    var id := st0.next;
    && (forall r :: r in st.inflight ==> r.call != id)
    && (id in st.calls ==>
          var c := st.calls[id];
          && (forall a :: a in c.log ==> a.Ran?)
          && (!c.pc.Finished? ==> c.obj.version == Version(st.hist))
          && (c.pc.Finished? && Startable(e.spec, e.status) ==>
                |st.hist| > |st0.hist| && IsFinalize(Current(st.hist)) && Current(st.hist).status != Unknown)
          && (c.pc.Finished? && Due(st0) && !Startable(e.spec, e.status)
              && PassiveStatus(e.spec, e.status) != e.status ==>
                |st.hist| > |st0.hist|))
  }

  lemma RoundStarts(st: State)
    requires Inv(st)
    ensures var after := Step(st, Start(Version(st.hist)));
            RoundWrites(st, after) && CleanSoFar(st, after)
  {
    NextIsFresh(st);
  }

  lemma RoundStep(st0: State, st: State, a: Action)
    requires Inv(st) && RoundWrites(st0, st) && Solo(a, st0.next)
    ensures RoundWrites(st0, Step(st, a)) || Overtaken(st0, Step(st, a))
  {
    match a
    case Reply(_, ok) =>
      if st0.next in st.calls && st.calls[st0.next].pc.Writing? {
        RoundReply(st0, st, ok);
      }
    case Operate(_, env) =>
      if st0.next in st.calls {
        RoundOperate(st0, st, env);
      }
    case Deliver(r) =>
      if r.call == st0.next {
        RoundDeliver(st0, st, r);
      } else if r in st.inflight && r.base == Version(st.hist) {
        RoundOvertaken(st0, st, r);
      }
    case _ => RoundLocal(st0, st, a);
  }

  lemma RoundLocal(st0: State, st: State, a: Action)
    requires Inv(st) && RoundWrites(st0, st) && Solo(a, st0.next)
    requires a.Tick? || a.Read? || a.Stamp? || a.Crash?
    ensures RoundWrites(st0, Step(st, a))
  {
    var id := st0.next;
    if id in st.calls {
      assert CallInv(st, id, st.calls[id]);
      if a.Read? && st.calls[id].pc.Deciding? {
        RoundDecide(st0, st, st.calls[id]);
      }
    }
  }

  /** The first branch leads into the retry loop exactly from a startable status. */
  lemma RoundDecide(st0: State, st: State, c: Call)
    requires CallInv(st, st0.next, c) && CallInRound(st0, st, c) && c.pc.Deciding?
    ensures CallInRound(st0, st, Decide(c, st.clock))
  {
  }

  lemma RoundDeliver(st0: State, st: State, r: Request)
    requires Inv(st) && RoundWrites(st0, st) && r.call == st0.next
    ensures RoundWrites(st0, Step(st, Deliver(r)))
  {
  }

  lemma RoundOvertaken(st0: State, st: State, r: Request)
    requires Inv(st) && RoundWrites(st0, st)
    requires r in st.inflight && r.base == Version(st.hist) && r.call != st0.next
    ensures Overtaken(st0, Step(st, Deliver(r)))
  {
    assert r in st0.inflight && r.base == Version(st0.hist);
    if st0.next in st.calls {
      assert CallInv(st, st0.next, st.calls[st0.next]);
    }
    forall q | q in st.inflight ensures q.base < |st.hist| {
      assert LegalRequest(st.hist, q, st.clock);
    }
  }

  lemma OvertakenStays(st0: State, st: State, a: Action)
    requires Overtaken(st0, st) && Solo(a, st0.next)
    ensures Overtaken(st0, Step(st, a))
  {
    match a
    case Reply(k, ok) =>
      if k in st.calls && st.calls[k].pc.Writing? {
        RefusedNeverOperates(st.calls[k]);
      }
    case _ =>
  }

  lemma NotBoth(st0: State, st: State)
    requires RoundWrites(st0, st)
    ensures !Overtaken(st0, st)
  {
    if |st.hist| == |st0.hist| + 1 {
      assert st.hist[|st0.hist|].tag.StatusWrite?;
    }
  }

  lemma RoundReply(st0: State, st: State, ok: bool)
    requires Inv(st) && RoundWrites(st0, st) && st0.next in st.calls && st.calls[st0.next].pc.Writing?
    ensures RoundWrites(st0, StepReply(st, st0.next, ok))
  {
    if ok && st.calls[st0.next].obj.version == Version(st.hist) {
      RoundAccepted(st0, st);
    } else {
      RoundRefused(st0, st, ok);
    }
  }

  lemma RoundAccepted(st0: State, st: State)
    requires RoundWrites(st0, st) && st0.next in st.calls && st.calls[st0.next].pc.Writing?
    requires st.calls[st0.next].obj.version == Version(st.hist)
    ensures RoundWrites(st0, StepReply(st, st0.next, true))
  {
  }

  lemma RoundRefused(st0: State, st: State, ok: bool)
    requires RoundWrites(st0, st) && st0.next in st.calls && st.calls[st0.next].pc.Writing?
    requires !ok || st.calls[st0.next].obj.version != Version(st.hist)
    ensures RoundWrites(st0, StepReply(st, st0.next, ok))
  {
    var c := st.calls[st0.next];
    assert InLoop(c.pc.kind) || Refused(c).pc.Finished?;
  }

  lemma RoundOperate(st0: State, st: State, env: Env)
    requires RoundWrites(st0, st) && st0.next in st.calls
    ensures RoundWrites(st0, Step(st, Operate(st0.next, env)))
  {
    var c := st.calls[st0.next];
    if c.pc.Operating? && OperationResult(c.obj.spec, env).Returned? {
      var r := OperationResult(c.obj.spec, env);
    }
  }

  lemma CleanStep(st0: State, st: State, a: Action)
    requires Inv(st) && RoundWrites(st0, st) && CleanSoFar(st0, st) && Solo(a, st0.next)
    requires !(a.Reply? && !a.ok) && RoundWrites(st0, Step(st, a))
    ensures CleanSoFar(st0, Step(st, a))
  {
    var id := st0.next;
    if id in st.calls {
      match a
      case Reply(_, ok) => CleanReply(st0, st);
      case Operate(_, env) => CleanOperate(st0, st, env);
      case Deliver(r) => CleanDeliver(st0, st, r);
      case Read(_) =>
        if st.calls[id].pc.Deciding? {
          CleanDecide(st0, st, st.calls[id]);
        }
      case _ =>
    }
  }

  /** The first branch gives up only where there is nothing to write. */
  lemma CleanDecide(st0: State, st: State, c: Call)
    requires CallInRound(st0, st, c) && c.pc.Deciding? && st0.clock <= st.clock
    ensures var c' := Decide(c, st.clock);
            var e := Current(st0.hist);
            && c'.log == c.log && c'.obj.version == c.obj.version
            && (c'.pc.Finished? ==> !Startable(e.spec, e.status))
            && (c'.pc.Finished? && Due(st0) ==> PassiveStatus(e.spec, e.status) == e.status)
  {
  }

  lemma CleanDeliver(st0: State, st: State, r: Request)
    requires RoundWrites(st0, st) && CleanSoFar(st0, st) && RoundWrites(st0, Step(st, Deliver(r)))
    ensures CleanSoFar(st0, Step(st, Deliver(r)))
  {
    var after := Step(st, Deliver(r));
    assert after.hist != st.hist ==> Current(after.hist).tag == StatusWrite(r.call, r.kind);
  }

  lemma CleanReply(st0: State, st: State)
    requires Inv(st) && RoundWrites(st0, st) && CleanSoFar(st0, st) && st0.next in st.calls
    ensures CleanSoFar(st0, Step(st, Reply(st0.next, true)))
  {
    var c := st.calls[st0.next];
    if c.pc.Writing? {
      assert CallInv(st, st0.next, c);
      CleanFinalize(st, st0.next, c);
      CleanAccepted(st0, st, c);
    }
  }

  /** A loop in which every attempt got past prepare does not end with the unknown status. */
  lemma CleanFinalize(st: State, id: nat, c: Call)
    requires CallInv(st, id, c) && c.pc.Writing? && forall a :: a in c.log ==> a.Ran?
    ensures c.pc.kind.FinalizeWrite? ==> c.obj.status != Unknown
  {
    CapturedIsOutcome(c.Kind(), c.log);
    if c.log != [] {
      assert c.log[0] in c.log;
    }
  }

  lemma CleanAccepted(st0: State, st: State, c: Call)
    requires st0.hist <= st.hist && CleanSoFar(st0, st) && st0.next in st.calls && st.calls[st0.next] == c
    requires CallInRound(st0, st, c) && c.pc.Writing? && (c.pc.kind.FinalizeWrite? ==> c.obj.status != Unknown)
    ensures CleanSoFar(st0, Step(st, Reply(st0.next, true)))
  {
  }

  lemma CleanOperate(st0: State, st: State, env: Env)
    requires CleanSoFar(st0, st) && st0.next in st.calls
    ensures CleanSoFar(st0, Step(st, Operate(st0.next, env)))
  {
    if At(st, st0.next, Operating) {
      var c := st.calls[st0.next];
      match OperationResult(c.obj.spec, env)
      case Panicked =>
      case Returned(success, err) =>
    }
  }

  lemma OnlyStart(st: State, round: seq<Action>)
    requires |round| == 1
    ensures Exec(st, round) == Step(st, round[0])
  {
    assert round[..0] == [];
    assert Exec(st, round[..0]) == st;
  }

  lemma SoloPrefix(round: seq<Action>, id: nat)
    requires |round| > 1 && forall i :: 1 <= i < |round| ==> Solo(round[i], id)
    ensures var short := round[..|round| - 1];
            && (forall i :: 1 <= i < |short| ==> Solo(short[i], id))
            && Solo(round[|round| - 1], id)
            && (NoLostAnswer(round) ==> NoLostAnswer(short) && !(round[|round| - 1].Reply? && !round[|round| - 1].ok))
  {
    var short := round[..|round| - 1];
    assert forall i :: 0 <= i < |short| ==> short[i] == round[i];
  }

  /** What is known at any time of a round that reads the current version. */
  ghost predicate RoundInv(st0: State, st: State, lossless: bool) {
    && Inv(st)
    && (RoundWrites(st0, st) || Overtaken(st0, st))
    && (lossless && RoundWrites(st0, st) ==> CleanSoFar(st0, st))
  }

  lemma {:induction false} RoundPrefix(st: State, round: seq<Action>)
    requires Inv(st) && ReadsCurrent(st, round)
    requires forall i :: 1 <= i < |round| ==> Solo(round[i], st.next)
    ensures RoundInv(st, Exec(st, round), NoLostAnswer(round))
    decreases |round|
  {
    var n := |round| - 1;
    if n == 0 {
      OnlyStart(st, round);
      StepKeepsInv(st, round[0]);
      RoundStarts(st);
    } else {
      SoloPrefix(round, st.next);
      RoundPrefix(st, round[..n]);
      RoundExtends(st, Exec(st, round[..n]), round[n]);
    }
  }

  lemma RoundExtends(st0: State, st: State, a: Action)
    requires Inv(st) && (RoundWrites(st0, st) || Overtaken(st0, st)) && Solo(a, st0.next)
    ensures Inv(Step(st, a)) && (RoundWrites(st0, Step(st, a)) || Overtaken(st0, Step(st, a)))
    ensures RoundWrites(st0, Step(st, a)) ==> RoundWrites(st0, st)
    ensures RoundWrites(st0, Step(st, a)) && CleanSoFar(st0, st) && !(a.Reply? && !a.ok) ==>
            CleanSoFar(st0, Step(st, a))
  {
    var after := Step(st, a);
    StepKeepsInv(st, a);
    if Overtaken(st0, st) {
      OvertakenStays(st0, st, a);
    } else {
      RoundStep(st0, st, a);
    }
    if RoundWrites(st0, after) {
      NotBoth(st0, after);
      if CleanSoFar(st0, st) && !(a.Reply? && !a.ok) {
        CleanStep(st0, st, a);
      }
    }
  }

  // ---- Rounds that read a stale copy ----

  /** A call with a stale copy writes nothing. */
  ghost predicate Aside(st0: State, st: State) {
    var id := st0.next;
    && st.hist == st0.hist && id < st.next
    && (forall r :: r in st.inflight && r.call == id ==> r.base < Version(st.hist))
    && (forall r :: r in st.inflight && r.call != id ==> r in st0.inflight)
    && (id in st.calls ==> st.calls[id].obj.version < Version(st.hist) && !st.calls[id].pc.Operating?)
  }

  lemma AsideReply(st0: State, st: State, ok: bool)
    requires Aside(st0, st) && st0.next in st.calls && st.calls[st0.next].pc.Writing?
    ensures Aside(st0, StepReply(st, st0.next, ok))
  {
    RefusedNeverOperates(st.calls[st0.next]);
  }

  lemma AsideStep(st0: State, st: State, a: Action)
    requires Inv(st) && Aside(st0, st) && Solo(a, st0.next)
    ensures Aside(st0, Step(st, a)) || Overtaken(st0, Step(st, a))
  {
    match a
    case Reply(k, ok) =>
      if k in st.calls && st.calls[k].pc.Writing? {
        AsideReply(st0, st, ok);
      }
    case Deliver(r) =>
      if r in st.inflight && r.base == Version(st.hist) {
        AsideOvertaken(st0, st, r);
      }
    case _ => AsideLocal(st0, st, a);
  }

  lemma AsideLocal(st0: State, st: State, a: Action)
    requires Aside(st0, st) && Solo(a, st0.next) && !a.Reply? && !a.Deliver?
    ensures Aside(st0, Step(st, a))
  {
    assert Step(st, a).hist == st.hist && Step(st, a).inflight == st.inflight && Step(st, a).next == st.next;
  }

  lemma AsideOvertaken(st0: State, st: State, r: Request)
    requires Inv(st) && Aside(st0, st) && r in st.inflight && r.base == Version(st.hist)
    ensures Overtaken(st0, Step(st, Deliver(r)))
  {
    assert r.call != st0.next && r in st0.inflight && r.base == Version(st0.hist);
    forall q | q in st.inflight ensures q.base < |st.hist| {
      assert LegalRequest(st.hist, q, st.clock);
    }
  }

  /** What is known at any time of a round that reads a stale copy. */
  ghost predicate StaleInv(st0: State, st: State) {
    Inv(st) && (Aside(st0, st) || Overtaken(st0, st))
  }

  lemma StaleGoesOn(st0: State, st: State, a: Action)
    requires StaleInv(st0, st) && Solo(a, st0.next)
    ensures StaleInv(st0, Step(st, a))
  {
    StepKeepsInv(st, a);
    if Overtaken(st0, st) {
      OvertakenStays(st0, st, a);
    } else {
      AsideStep(st0, st, a);
    }
  }

  lemma {:induction false} StalePrefix(st: State, round: seq<Action>)
    requires Inv(st)
    requires round != [] && round[0].Start? && round[0].version < Version(st.hist)
    requires forall i :: 1 <= i < |round| ==> Solo(round[i], st.next)
    ensures StaleInv(st, Exec(st, round))
    decreases |round|
  {
    var n := |round| - 1;
    if n == 0 {
      OnlyStart(st, round);
      StepKeepsInv(st, round[0]);
      NextIsFresh(st);
    } else {
      SoloPrefix(round, st.next);
      StalePrefix(st, round[..n]);
      StaleGoesOn(st, Exec(st, round[..n]), round[n]);
    }
  }

  // ---- The effect of a whole round ----

  /** What a round can leave behind: nothing; the one passive write; or, from a startable status, a claim of its
      own, the outcome of its operation, or the unknown status of a loop in which every prepare seemed to fail. */
  predicate Effect(before: Entry, after: Entry) {
    && after.spec == before.spec
    && (|| (after.status == before.status && after.deadline == before.deadline)
        || (if Startable(before.spec, before.status)
            then AfterLoop(before.spec, after)
            else after.status == PassiveStatus(before.spec, before.status) && after.deadline == before.deadline))
  }

  predicate AfterLoop(spec: Spec, after: Entry) {
    var kind := KindOf(spec.nodeStatus);
    || (after.status == ClaimStatus(kind) && after.deadline.Some?)
    || (after.deadline == None && (after.status == Unknown || IsOutcome(kind, after.status)))
  }

  predicate IsOutcome(kind: Kind, s: NodeStatus) {
    s == Outcome(kind, true) || s == Outcome(kind, false)
  }

  /** What a round without faults leaves behind, if there was no claim to wait for. */
  predicate CleanEffect(before: Entry, after: Entry) {
    && after.spec == before.spec
    && if Startable(before.spec, before.status)
       then after.deadline == None && IsOutcome(KindOf(before.spec.nodeStatus), after.status)
       else after.status == PassiveStatus(before.spec, before.status) && after.deadline == before.deadline
  }

  lemma {:induction false} LoopEntries(st0: State, st: State, i: nat)
    requires Inv(st) && RoundWrites(st0, st)
    requires Startable(Current(st0.hist).spec, Current(st0.hist).status)
    requires Version(st0.hist) < i < |st.hist|
    ensures st.hist[i].spec == Current(st0.hist).spec && AfterLoop(st.hist[i].spec, st.hist[i])
    ensures IsFinalize(st.hist[i]) ==> i == Version(st.hist) && st.hist[i].deadline == None
    ensures !IsFinalize(st.hist[i]) ==> ClaimedBy(st.hist[i], st0.next)
    decreases i
  {
    assert LegalAt(st.hist, i);
    if i > |st0.hist| {
      LoopEntries(st0, st, i - 1);
    } else {
      assert st.hist[i - 1] == Current(st0.hist);
    }
    if IsFinalize(st.hist[i]) {
      assert Current(st.hist).tag.StatusWrite? && Current(st.hist).tag.call == st0.next;
      assert DoneFinalize(st, i);
    }
  }

  lemma PassiveEntry(st0: State, st: State)
    requires Inv(st) && RoundWrites(st0, st)
    requires !Startable(Current(st0.hist).spec, Current(st0.hist).status)
    requires |st.hist| > |st0.hist|
    ensures var e := st.hist[|st0.hist|];
            && Effect(Current(st0.hist), e)
            && e.status == PassiveStatus(Current(st0.hist).spec, Current(st0.hist).status)
  {
    var i := |st0.hist|;
    assert LegalAt(st.hist, i) && st.hist[i - 1] == Current(st0.hist);
  }

  lemma WritesHaveEffect(st: State, after: State)
    requires Inv(after) && RoundWrites(st, after)
    ensures Effect(Current(st.hist), Current(after.hist))
    ensures |after.hist| > |st.hist| && !Startable(Current(st.hist).spec, Current(st.hist).status) ==>
              CleanEffect(Current(st.hist), Current(after.hist))
    ensures |after.hist| > |st.hist| && Startable(Current(st.hist).spec, Current(st.hist).status)
            && IsFinalize(Current(after.hist)) && Current(after.hist).status != Unknown ==>
              CleanEffect(Current(st.hist), Current(after.hist))
  {
    if |after.hist| == |st.hist| {
      assert after.hist == st.hist;
    } else if Startable(Current(st.hist).spec, Current(st.hist).status) {
      LoopEntries(st, after, Version(after.hist));
    } else {
      PassiveEntry(st, after);
    }
  }

  // ---- Updates that land from outside ----

  /** What a landing update of an earlier call leaves behind. A claim that it builds on was made for a valid spec. */
  ghost predicate Landing(before: Entry, after: Entry) {
    && after.tag.StatusWrite? && LegalStep(before, after)
    && (ClaimedBy(before, after.tag.call) ==>
          before.status == ClaimStatus(KindOf(before.spec.nodeStatus)) && Preflight(before.spec))
  }

  lemma OvertakenIsLanding(st0: State, st: State)
    requires Inv(st) && Overtaken(st0, st)
    ensures Landing(Current(st0.hist), Current(st.hist)) && !Live(st)
  {
    var i := Version(st.hist);
    assert LegalAt(st.hist, i) && st.hist[i - 1] == Current(st0.hist);
    if ClaimedBy(st.hist[i - 1], st.hist[i].tag.call) {
      ClaimIsValid(st, i - 1);
    }
  }

  lemma AloneIsNotOvertaken(st: State, round: seq<Action>)
    requires Alone(st, round)
    ensures !Overtaken(st, Exec(st, round))
  {
  }

  /** Any round is overtaken by one landing update of an earlier call, or leaves everything as it was if its call
      has read a stale copy, or else has an effect of the first kind; and of the second, if it is without faults
      and due. */
  lemma RoundEffect(st: State, round: seq<Action>)
    requires Inv(st) && IsRound(st, round)
    ensures Inv(Exec(st, round))
    ensures var e, e' := Current(st.hist), Current(Exec(st, round).hist);
            if Overtaken(st, Exec(st, round)) then Landing(e, e')
            else if !ReadsCurrent(st, round) then Exec(st, round).hist == st.hist
            else Effect(e, e') && (Clean(st, round) && Due(st) ==> CleanEffect(e, e'))
  {
    var after := Exec(st, round);
    if ReadsCurrent(st, round) {
      RoundPrefix(st, round);
    } else {
      StalePrefix(st, round);
    }
    if Overtaken(st, after) {
      OvertakenIsLanding(st, after);
    } else if ReadsCurrent(st, round) {
      WritesHaveEffect(st, after);
      if Clean(st, round) && Due(st) {
        CleanEnding(st, after);
      }
    }
  }

  lemma CleanEnding(st: State, after: State)
    requires Inv(after) && RoundWrites(st, after) && CleanSoFar(st, after) && Due(st)
    requires st.next in after.calls && after.calls[st.next].pc.Finished?
    ensures CleanEffect(Current(st.hist), Current(after.hist))
  {
    WritesHaveEffect(st, after);
    if |after.hist| == |st.hist| {
      assert after.hist == st.hist;
    }
  }
}
