/** The reconcile protocol as a transition system: one stored NodeDeploy object with its whole write
    history, any number of Reconcile calls working on private and possibly stale copies of it, a clock,
    and the status updates whose fate their senders never learned. */
module Protocol {
  import opened Api
  import opened Operations

  /** DeadlineDuration, in seconds. */
  const DEADLINE: int := 30 * 60

  // ---- The stored object ----

  datatype WriteKind = InitWrite | FallbackWrite | PreflightWrite | PrepareWrite | FinalizeWrite

  /** Who made a version of the object. */
  datatype Tag = Created | SpecEdit | StatusWrite(call: nat, kind: WriteKind)

  /** One version; `at` is the time it was committed. */
  datatype Entry = Entry(spec: Spec, status: NodeStatus, deadline: Option<int>, tag: Tag, at: int)

  const ANY_SPEC := Spec(Active, Work, 3, false, "", Patch(map[], map[], []), true, true, true)

  /** Every version ever stored; the resource version of an entry is its index, and the last one is current. */
  type History = h: seq<Entry> | |h| > 0
    witness [Entry(ANY_SPEC, Unknown, None, Created, 0)]

  function Version(h: History): nat {
    |h| - 1
  }

  function Current(h: History): Entry {
    h[Version(h)]
  }

  /** A status update on its way: it takes effect only while `base` is the current version. */
  datatype Request = Request(base: nat, status: NodeStatus, deadline: Option<int>, call: nat, kind: WriteKind)

  function Commit(h: History, r: Request, now: int): History {
    if r.base == Version(h)
    then h + [Entry(Current(h).spec, r.status, r.deadline, StatusWrite(r.call, r.kind), now)]
    else h
  }

  // ---- One Reconcile call ----

  /** The local copy of the object. */
  datatype Copy = Copy(version: nat, spec: Spec, status: NodeStatus, deadline: Option<int>)

  function Snapshot(h: History, v: nat): Copy
    requires v < |h|
  {
    Copy(v, h[v].spec, h[v].status, h[v].deadline)
  }

  /** Where a call is: about to branch on its copy, at the top of a retry attempt, waiting for a status
      update, inside launchNode or deprecateNode, or returned. */
  datatype Pc = Deciding | Preparing | Writing(kind: WriteKind) | Operating | Finished(err: bool)

  /** What one run of the retried closure came to. */
  datatype Attempt = PrepareFailed | Ran(env: Env, success: bool, err: bool) {
    predicate Failed() {
      PrepareFailed? || err
    }
  }

  /** `captured` is the status variable that the closure assigns; `log` lists the finished attempts. */
  datatype Call = Call(pc: Pc, obj: Copy, captured: NodeStatus, log: seq<Attempt>) {
    function Kind(): Kind {
      KindOf(obj.spec.nodeStatus)
    }
  }

  /** The part of Reconcile between the read and the first write. */
  function Decide(c: Call, now: int): Call {
    var o := c.obj;
    if o.status == Unknown then
      c.(pc := Writing(InitWrite), obj := o.(status := Init))
    else if o.spec.nodeStatus == o.status then
      c.(pc := Finished(false))
    else if InProgress(o.status) then
      if o.deadline.Some? && now > o.deadline.value then
        c.(pc := Writing(FallbackWrite), obj := o.(status := BeforeStatus(o.status)))
      else
        c.(pc := Finished(false))
    else if o.spec.nodeStatus == Active && o.status == LaunchFail then
      c.(pc := Finished(false))
    else if o.spec.nodeStatus == Inactive && o.status == DeprecateFail then
      c.(pc := Finished(false))
    else if !Preflight(o.spec) then
      c.(pc := Writing(PreflightWrite), obj := o.(status := PreflightStatus(o.spec, o.status)))
    else if o.spec.nodeStatus == Inactive && o.status == Init then
      c.(pc := Finished(false))
    else
      c.(pc := Preparing)
  }

  /** prepare up to its status update. */
  function Claim(c: Call, now: int): Call {
    c.(pc := Writing(PrepareWrite),
       obj := c.obj.(deadline := Some(now + DEADLINE), status := ClaimStatus(c.Kind())))
  }

  /** The loop is over: finalize up to its status update. */
  function Leave(c: Call): Call {
    c.(pc := Writing(FinalizeWrite), obj := c.obj.(status := c.captured, deadline := None))
  }

  /** One more attempt is on the log. */
  function NextAttempt(c: Call): Call
    requires c.log != []
  {
    if c.log[|c.log| - 1].Failed() && MoreAttempts(c.obj.spec.maxRetry, |c.log|)
    then c.(pc := Preparing)
    else Leave(c)
  }

  function RequestOf(id: nat, c: Call): Request
    requires c.pc.Writing?
  {
    Request(c.obj.version, c.obj.status, c.obj.deadline, id, c.pc.kind)
  }

  /** The update was answered with the new version. */
  function Accepted(c: Call, version: nat): Call
    requires c.pc.Writing?
  {
    c.(obj := c.obj.(version := version), pc := if c.pc.kind.PrepareWrite? then Operating else Finished(false))
  }

  /** The update was answered with an error; the copy keeps the values it was sent with. */
  function Refused(c: Call): Call
    requires c.pc.Writing?
  {
    if c.pc.kind.PrepareWrite? then NextAttempt(c.(log := c.log + [PrepareFailed]))
    else c.(pc := Finished(true))
  }

  function OperationResult(spec: Spec, env: Env): Result {
    match KindOf(spec.nodeStatus)
    case Launch => LaunchResult(spec, env.launch)
    case Deprecate => DeprecateResult(spec, env.deprecate)
  }

  function AfterOperation(c: Call, env: Env, success: bool, err: bool): Call {
    NextAttempt(c.(captured := Outcome(c.Kind(), success), log := c.log + [Ran(env, success, err)]))
  }

  // ---- The whole system ----

  /** A completed operation: who ran it, under which version as its claim, and what came of it. */
  datatype Operation = Operation(call: nat, claim: nat, kind: Kind, spec: Spec, env: Env, success: bool)

  datatype State = State(
    hist: History,
    calls: map<nat, Call>,
    next: nat,
    clock: int,
    inflight: set<Request>,
    ops: seq<Operation>)

  function Initial(spec: Spec, now: int): State {
    State([Entry(spec, Unknown, None, Created, now)], map[], 0, now, {}, [])
  }

  /** A step that is not possible in a state leaves that state alone.
        Tick      time passes;
        EditSpec  a user changes the spec, which keeps the status but makes a new version;
        Start     a new call reads version `version`, current or stale;
        Read      call `id` looks at its copy and the clock, and branches;
        Stamp     it computes a deadline for its next claim;
        Reply     its status update is answered: `ok` and a matching version commit it, `ok` with a stale
                  version is a conflict, and otherwise the answer is an error that tells it nothing;
        Operate   its operation returns or panics;
        Deliver   an update that was answered with an error takes effect after all, now or much later;
        Crash     the process running call `id` dies. */
  datatype Action =
    | Tick(seconds: nat)
    | EditSpec(spec: Spec)
    | Start(version: nat)
    | Read(id: nat)
    | Stamp(id: nat)
    | Reply(id: nat, ok: bool)
    | Operate(id: nat, env: Env)
    | Deliver(request: Request)
    | Crash(id: nat)

  predicate At(st: State, id: nat, pc: Pc) {
    id in st.calls && st.calls[id].pc == pc
  }

  function StepReply(st: State, id: nat, ok: bool): State
    requires id in st.calls && st.calls[id].pc.Writing?
  {
    var c := st.calls[id];
    var r := RequestOf(id, c);
    if ok && r.base == Version(st.hist) then
      st.(hist := Commit(st.hist, r, st.clock), calls := st.calls[id := Accepted(c, |st.hist|)])
    else
      st.(calls := st.calls[id := Refused(c)], inflight := if ok then st.inflight else st.inflight + {r})
  }

  function StepOperate(st: State, id: nat, env: Env): State
    requires id in st.calls
  {
    var c := st.calls[id];
    match OperationResult(c.obj.spec, env)
    case Panicked => st.(calls := st.calls - {id})
    case Returned(success, err) =>
      st.(calls := st.calls[id := AfterOperation(c, env, success, err)],
          ops := st.ops + [Operation(id, c.obj.version, c.Kind(), c.obj.spec, env, success)])
  }

  function Step(st: State, a: Action): State {
    match a
    case Tick(seconds) => st.(clock := st.clock + seconds)
    case EditSpec(spec) =>
      var e := Current(st.hist);
      st.(hist := st.hist + [Entry(spec, e.status, e.deadline, SpecEdit, st.clock)])
    case Start(version) =>
      if version < |st.hist| then
        st.(calls := st.calls[st.next := Call(Deciding, Snapshot(st.hist, version), Unknown, [])],
            next := st.next + 1)
      else st
    case Read(id) =>
      if At(st, id, Deciding) then st.(calls := st.calls[id := Decide(st.calls[id], st.clock)]) else st
    case Stamp(id) =>
      if At(st, id, Preparing) then st.(calls := st.calls[id := Claim(st.calls[id], st.clock)]) else st
    case Reply(id, ok) =>
      if id in st.calls && st.calls[id].pc.Writing? then StepReply(st, id, ok) else st
    case Operate(id, env) =>
      if At(st, id, Operating) then StepOperate(st, id, env) else st
    case Deliver(r) =>
      if r in st.inflight then st.(hist := Commit(st.hist, r, st.clock)) else st
    case Crash(id) => st.(calls := st.calls - {id})
  }

  /** The state after a schedule, for every interleaving there is. */
  function Exec(st: State, schedule: seq<Action>): State {
    if schedule == [] then st
    else Step(Exec(st, schedule[..|schedule| - 1]), schedule[|schedule| - 1])
  }

  /** The states of all runs: any object, any start time, any interleaving. */
  ghost predicate Reachable(st: State) {
    exists spec, now, schedule :: st == Exec(Initial(spec, now), schedule)
  }

  lemma {:induction false} ExecAppend(st: State, a: seq<Action>, b: seq<Action>)
    ensures Exec(st, a + b) == Exec(Exec(st, a), b)
    decreases |b|
  {
    if b == [] {
      assert a + b == a;
    } else {
      var n := |b| - 1;
      assert (a + b)[..|a + b| - 1] == a + b[..n];
      ExecAppend(st, a, b[..n]);
    }
  }

  lemma ReachableExec(st: State, more: seq<Action>)
    requires Reachable(st)
    ensures Reachable(Exec(st, more))
  {
    var spec, now, schedule :| st == Exec(Initial(spec, now), schedule);
    ExecAppend(Initial(spec, now), schedule, more);
  }

  lemma ReachableStep(st: State, a: Action)
    requires Reachable(st)
    ensures Reachable(Step(st, a))
  {
    ReachableExec(st, [a]);
    assert Exec(st, [a][..0]) == st;
  }

  lemma {:induction false} HistoryGrows(st: State, more: seq<Action>)
    ensures st.hist <= Exec(st, more).hist
    decreases |more|
  {
    if more != [] {
      HistoryGrows(st, more[..|more| - 1]);
    }
  }
}
