/** Reconcile in its imperative form: it edits its copy of the NodeDeploy object in place and talks to a
    cluster in which anything may happen between two of its calls. Every execution of it is a run of the
    protocol, so that all theorems about runs are theorems about this code; and every call of the protocol
    that has ended is an execution of it. */
module Reconciler {
  import opened Api
  import opened Operations
  import opened Protocol
  import opened Invariant
  import opened Driver
  import NodePatch
  import Pipeline

  /** The object that a Reconcile call works on. */
  class NodeDeploy {
    var version: nat
    var spec: Spec
    var status: NodeStatus
    var deadline: Option<int>

    constructor ()
    {
      version, spec, status, deadline := 0, ANY_SPEC, Unknown, None;
    }

    function Value(): Copy
      reads this
    {
      Copy(version, spec, status, deadline)
    }
  }

  /** The API server, the clock and everybody else. When the turns run out, the calling process dies. */
  class Cluster {
    var st: State
    var turns: seq<Turn>
    /** The run so far: `st` is where `trace` leads from `start`. */
    ghost const start: State
    ghost var trace: seq<Action>

    constructor (st: State, turns: seq<Turn>)
      ensures Valid() && this.st == st && this.turns == turns && start == st && trace == []
    {
      this.st, this.turns := st, turns;
      this.start, this.trace := st, [];
    }

    ghost predicate Valid()
      reads this
    {
      st == Exec(start, trace)
    }

    /** Call `id` is under way and its recorded state is `c`. */
    ghost predicate Has(id: nat, c: Call)
      reads this
    {
      id in st.calls && id < st.next && st.calls[id] == c
    }

    /** The state in which call `id` will have ended, if it goes on as the protocol says. */
    ghost function Fate(id: nat): State
      reads this
    {
      Drive(st, id, turns)
    }

    method Take(a: Action)
      requires Valid()
      modifies this`st, this`trace
      ensures Valid() && st == Step(old(st), a) && trace == old(trace) + [a]
    {
      st := Step(st, a);
      trace := trace + [a];
      assert trace[..|trace| - 1] == old(trace);
    }

    method Interleave(others: seq<Action>, id: nat, ghost c: Call)
      requires Valid() && Has(id, c)
      modifies this`st, this`trace
      ensures Valid() && old(trace) <= trace && Has(id, c)
      ensures st == Amid(old(st), others, id)
    {
      for i := 0 to |others|
        invariant Valid() && old(trace) <= trace && Has(id, c)
        invariant st == Amid(old(st), others[..i], id)
      {
        assert others[..i + 1][..i] == others[..i];
        if Foreign(others[i], id) {
          ForeignKeeps(st, others[i], id);
          Take(others[i]);
        }
      }
      assert others[..|others|] == others;
    }

    /** Wait for the next interaction of call `id`; without one its process dies. */
    method NextTurn(id: nat, ghost c: Call) returns (alive: bool, turn: Turn)
      requires Valid() && Has(id, c) && !c.pc.Finished?
      modifies this
      ensures Valid() && old(trace) <= trace && |turns| <= |old(turns)|
      ensures alive ==> Has(id, c) && |turns| < |old(turns)| && !turn.dies
      ensures alive ==> Drive(Step(st, OwnAction(id, c, turn)), id, turns) == old(Fate(id))
      ensures !alive ==> id !in st.calls && Fate(id) == old(Fate(id))
    {
      if turns == [] {
        Take(Crash(id));
        return false, Turn([], 0, true, AnyEnv(), true);
      }
      turn, turns := turns[0], turns[1..];
      Interleave(turn.others, id, c);
      alive := !turn.dies;
      if turn.dies {
        Take(Crash(id));
      }
    }

    /** r.Get: the copy returned may be stale. */
    method Get(nd: NodeDeploy) returns (found: bool, id: nat)
      requires Valid()
      modifies this, nd
      ensures Valid() && old(trace) <= trace && |turns| <= |old(turns)|
      ensures found <==> !ReadFails(old(st), old(turns))
      ensures found ==> Has(id, Call(Deciding, nd.Value(), Unknown, [])) && id == CallNumber(old(st), old(turns))
      ensures CallFrom(old(st), old(turns)) == if found then Fate(id) else st
    {
      if turns == [] {
        return false, 0;
      }
      var turn := turns[0];
      turns := turns[1..];
      for i := 0 to |turn.others|
        invariant Valid() && old(trace) <= trace && turns == old(turns)[1..]
        invariant st == Exec(old(st), turn.others[..i])
      {
        assert turn.others[..i + 1][..i] == turn.others[..i];
        Take(turn.others[i]);
      }
      assert turn.others[..|turn.others|] == turn.others;
      if !turn.ok || turn.version >= |st.hist| {
        return false, 0;
      }
      var e := st.hist[turn.version];
      nd.version, nd.spec, nd.status, nd.deadline := turn.version, e.spec, e.status, e.deadline;
      id := st.next;
      Take(Start(turn.version));
      found := true;
    }

    /** time.Now(), where Reconcile branches. */
    method Now(id: nat, ghost c: Call) returns (alive: bool, now: int)
      requires Valid() && Has(id, c) && c.pc.Deciding?
      modifies this
      ensures Valid() && old(trace) <= trace && |turns| <= |old(turns)|
      ensures alive ==> Has(id, Decide(c, now))
      ensures !alive ==> id !in st.calls
      ensures Fate(id) == old(Fate(id))
    {
      var turn;
      alive, turn := NextTurn(id, c);
      if alive {
        now := st.clock;
        Take(Read(id));
      } else {
        now := 0;
      }
    }

    /** time.Now(), where prepare computes its deadline. */
    method StampNow(id: nat, ghost c: Call) returns (alive: bool, now: int)
      requires Valid() && Has(id, c) && c.pc.Preparing?
      modifies this
      ensures Valid() && old(trace) <= trace && |turns| <= |old(turns)|
      ensures alive ==> Has(id, Claim(c, now))
      ensures !alive ==> id !in st.calls
      ensures Fate(id) == old(Fate(id))
    {
      var turn;
      alive, turn := NextTurn(id, c);
      if alive {
        now := st.clock;
        Take(Stamp(id));
      } else {
        now := 0;
      }
    }

    /** r.Status().Update: it succeeds only on the current version, and then refreshes the copy; an error
        leaves the copy as it was sent. The update sent must be the one the protocol is waiting for. */
    method StatusUpdate(id: nat, nd: NodeDeploy, ghost c: Call) returns (alive: bool, err: bool)
      requires Valid() && Has(id, c) && c.pc.Writing? && c.obj == nd.Value()
      modifies this, nd
      ensures Valid() && old(trace) <= trace && |turns| <= |old(turns)|
      ensures nd.Value() == old(nd.Value()).(version := nd.version)
      ensures alive ==> |turns| < |old(turns)| && Has(id, if err then Refused(c) else Accepted(c, nd.version))
      ensures err ==> nd.version == old(nd.version)
      ensures !alive ==> id !in st.calls
      ensures Fate(id) == old(Fate(id))
    {
      var turn;
      alive, turn := NextTurn(id, c);
      err := true;
      if alive {
        err := !(turn.ok && nd.version == Version(st.hist));
        var committed := |st.hist|;
        Take(Reply(id, turn.ok));
        if !err {
          nd.version := committed;
        }
      }
    }

    /** launchNode or deprecateNode. */
    method RunOperation(id: nat, nd: NodeDeploy, ghost c: Call) returns (alive: bool, env: Env, result: Result)
      requires Valid() && Has(id, c) && c.pc.Operating? && c.obj == nd.Value()
      modifies this
      ensures Valid() && old(trace) <= trace && |turns| <= |old(turns)|
      ensures alive ==> result.Returned? && Has(id, AfterOperation(c, env, result.success, result.err))
      ensures !alive ==> id !in st.calls
      ensures Fate(id) == old(Fate(id))
    {
      var turn;
      alive, turn := NextTurn(id, c);
      env, result := turn.env, Panicked;
      if alive {
        if nd.spec.nodeStatus == Active {
          var manager := new Pipeline.NodeManager();
          var store := new NodePatch.NodeStore(env.launch.nodes);
          result := LaunchNode(nd.spec, env.launch, manager, store);
        } else {
          var host := new Host();
          result := host.DeprecateNode(nd.spec, env.deprecate);
        }
        Take(Operate(id, env));
        alive := result.Returned?;
      }
    }
  }

  /** How a Reconcile call ends: its read failed, it returned, or its process died. */
  datatype Ending = NotRead | Ended(id: nat, err: bool) | Died(id: nat)

  // ---- prepare, finalize and the retried closure ----

  method Prepare(cluster: Cluster, id: nat, nd: NodeDeploy, status: NodeStatus, ghost c: Call)
    returns (alive: bool, err: bool, ghost c': Call)
    requires cluster.Valid() && cluster.Has(id, c) && c.pc.Preparing? && c.obj == nd.Value()
    requires status == ClaimStatus(c.Kind())
    modifies cluster, nd
    ensures cluster.Valid() && old(cluster.trace) <= cluster.trace
    ensures c'.obj == nd.Value() && c'.captured == c.captured && nd.spec == old(nd.spec)
    ensures alive && !err ==> c'.pc.Operating? && c'.log == c.log && cluster.Has(id, c')
    ensures alive && err ==> c'.log == c.log + [PrepareFailed] && cluster.Has(id, NextAttempt(c'))
    ensures alive ==> |cluster.turns| < |old(cluster.turns)|
    ensures !alive ==> id !in cluster.st.calls
    ensures cluster.Fate(id) == old(cluster.Fate(id))
  {
    var now;
    alive, now := cluster.StampNow(id, c);
    err, c' := true, c;
    if !alive {
      return;
    }
    nd.deadline := Some(now + DEADLINE);
    nd.status := status;
    ghost var sent := Claim(c, now);
    alive, err := cluster.StatusUpdate(id, nd, sent);
    c' := if err then sent.(log := sent.log + [PrepareFailed]) else Accepted(sent, nd.version);
  }

  /** One run of the closure given to retry-go: the kind of operation is fixed by the spec. */
  method TryOnce(cluster: Cluster, id: nat, nd: NodeDeploy, captured: NodeStatus, ghost c: Call)
    returns (alive: bool, err: bool, status: NodeStatus, ghost c': Call)
    requires cluster.Valid() && cluster.Has(id, c) && c.pc.Preparing? && c.obj == nd.Value() && c.captured == captured
    modifies cluster, nd
    ensures cluster.Valid() && old(cluster.trace) <= cluster.trace
    ensures nd.spec == old(nd.spec)
    ensures alive ==> |cluster.turns| < |old(cluster.turns)|
    ensures alive ==> c'.obj == nd.Value() && c'.captured == status && |c'.log| == |c.log| + 1 && c.log <= c'.log
    ensures alive ==> c'.log[|c.log|].Failed() == err && cluster.Has(id, NextAttempt(c'))
    ensures !alive ==> id !in cluster.st.calls
    ensures cluster.Fate(id) == old(cluster.Fate(id))
  {
    var kind := KindOf(nd.spec.nodeStatus);
    status := captured;
    alive, err, c' := Prepare(cluster, id, nd, ClaimStatus(kind), c);
    if !alive || err {
      return;
    }
    var env, result;
    alive, env, result := cluster.RunOperation(id, nd, c');
    if alive {
      status := Outcome(kind, result.success);
      err := result.err;
      c' := c'.(captured := status, log := c'.log + [Ran(env, result.success, result.err)]);
    }
  }

  /** retryV4.Do around the closure; its own result is only logged. All runs of the closure but the last
      failed; the last one succeeded, or was the last one allowed. The call is then about to finalize. */
  method RetryDo(cluster: Cluster, id: nat, nd: NodeDeploy, ghost c0: Call)
    returns (alive: bool, status: NodeStatus, ghost c: Call)
    requires cluster.Valid() && cluster.Has(id, c0) && c0 == Call(Preparing, nd.Value(), Unknown, [])
    modifies cluster, nd
    ensures cluster.Valid() && old(cluster.trace) <= cluster.trace
    ensures alive ==> cluster.Has(id, Leave(c)) && c.obj == nd.Value() && c.captured == status
    ensures alive ==>
              && c.log != [] && (forall i :: 0 <= i < |c.log| - 1 ==> c.log[i].Failed())
              && LoopMayEnd(old(nd.spec).maxRetry, |c.log|, c.log[|c.log| - 1].Failed())
    ensures !alive ==> id !in cluster.st.calls
    ensures cluster.Fate(id) == old(cluster.Fate(id))
  {
    var attempts := Attempts(nd.spec.maxRetry);
    var n := 0;
    status, c := Unknown, c0;
    while true
      invariant cluster.Valid() && old(cluster.trace) <= cluster.trace
      invariant cluster.Has(id, c) && c.pc.Preparing? && c.obj == nd.Value() && c.captured == status
      invariant |c.log| == n && attempts == Attempts(nd.spec.maxRetry) && nd.spec == old(nd.spec)
      invariant forall i :: 0 <= i < n ==> c.log[i].Failed()
      invariant attempts > 0 ==> n < attempts
      invariant cluster.Fate(id) == old(cluster.Fate(id))
      decreases |cluster.turns|
    {
      var err;
      ghost var c';
      alive, err, status, c' := TryOnce(cluster, id, nd, status, c);
      if !alive {
        return;
      }
      n := n + 1;
      c := c';
      if !err || !(attempts == 0 || n < attempts) {
        return;
      }
      c := NextAttempt(c');
    }
  }

  method Finalize(cluster: Cluster, id: nat, nd: NodeDeploy, status: NodeStatus, ghost c: Call)
    returns (alive: bool, err: bool)
    requires cluster.Valid() && cluster.Has(id, Leave(c)) && c.obj == nd.Value() && c.captured == status
    modifies cluster, nd
    ensures cluster.Valid() && old(cluster.trace) <= cluster.trace
    ensures alive ==> id in cluster.st.calls && cluster.st.calls[id].pc == Finished(err)
    ensures !alive ==> id !in cluster.st.calls
    ensures cluster.Fate(id) == old(cluster.Fate(id))
  {
    nd.status := status;
    nd.deadline := None;
    alive, err := cluster.StatusUpdate(id, nd, Leave(c));
  }

  /** A status written outside the retry loop. */
  method WriteStatus(cluster: Cluster, id: nat, nd: NodeDeploy, status: NodeStatus, ghost c: Call)
    returns (ending: Ending)
    requires cluster.Valid() && cluster.Has(id, c)
    requires c.pc.Writing? && !c.pc.kind.PrepareWrite? && c.obj == nd.Value().(status := status)
    modifies cluster, nd
    ensures cluster.Valid() && old(cluster.trace) <= cluster.trace
    ensures ending.Ended? ==> id in cluster.st.calls && cluster.st.calls[id].pc == Finished(ending.err)
    ensures ending.Died? ==> id !in cluster.st.calls
    ensures !ending.NotRead? && ending.id == id
    ensures cluster.Fate(id) == old(cluster.Fate(id))
  {
    nd.status := status;
    var alive, err := cluster.StatusUpdate(id, nd, c);
    ending := if alive then Ended(id, err) else Died(id);
  }

  // ---- Reconcile ----

  /** Whatever the world does, the run so far is extended by the steps of one call of the protocol: the state
      is the one into which the protocol drives that call, and the call has ended there as reported. */
  method Reconcile(cluster: Cluster) returns (ending: Ending)
    requires cluster.Valid()
    modifies cluster
    ensures cluster.Valid() && old(cluster.trace) <= cluster.trace
    ensures cluster.st == CallFrom(old(cluster.st), old(cluster.turns))
    ensures ending.NotRead? <==> ReadFails(old(cluster.st), old(cluster.turns))
    ensures !ending.NotRead? ==> ending.id == CallNumber(old(cluster.st), old(cluster.turns))
    ensures ending.Ended? ==> ending.id in cluster.st.calls && cluster.st.calls[ending.id].pc == Finished(ending.err)
    ensures ending.Died? ==> ending.id !in cluster.st.calls
  {
    var nd := new NodeDeploy();
    var found, id := cluster.Get(nd);
    if !found {
      return NotRead;
    }
    ghost var c := Call(Deciding, nd.Value(), Unknown, []);
    var alive, now := cluster.Now(id, c);
    if !alive {
      return Died(id);
    }
    c := Decide(c, now);

    if nd.status == Unknown {
      ending := WriteStatus(cluster, id, nd, Init, c);
      return;
    }
    if nd.spec.nodeStatus == nd.status {
      return Ended(id, false);
    }
    if nd.status == Launching || nd.status == Deprecating {
      if nd.deadline.Some? && now > nd.deadline.value {
        ending := WriteStatus(cluster, id, nd, BeforeStatus(nd.status), c);
        return;
      }
      return Ended(id, false);
    }
    if nd.spec.nodeStatus == Active && nd.status == LaunchFail {
      return Ended(id, false);
    } else if nd.spec.nodeStatus == Inactive && nd.status == DeprecateFail {
      return Ended(id, false);
    }
    if !Preflight(nd.spec) {
      ending := WriteStatus(cluster, id, nd, PreflightStatus(nd.spec, nd.status), c);
      return;
    }
    if nd.spec.nodeStatus == Inactive && nd.status == Init {
      return Ended(id, false);
    }
    var status;
    alive, status, c := RetryDo(cluster, id, nd, c);
    if !alive {
      return Died(id);
    }
    var err;
    alive, err := Finalize(cluster, id, nd, status, c);
    ending := if alive then Ended(id, err) else Died(id);
  }

  /** A cluster that started from a new object is at all times in a state of some run of the protocol. */
  lemma ExecutionsAreRuns(cluster: Cluster, spec: Spec, now: int)
    requires cluster.Valid() && cluster.start == Initial(spec, now)
    ensures Reachable(cluster.st)
  {
    assert cluster.st == Exec(Initial(spec, now), cluster.trace);
  }
}
