/** The protocol seen from one Reconcile call. What the call does next is fixed by where it is, and all the
    rest is up to the world, which takes one turn for each interaction of the call with it. */
module Driver {
  import opened Api
  import opened Operations
  import opened Protocol
  import opened Invariant
  import NodePatch
  import Pipeline
  import Watch

  /** What happens around one interaction: the steps that others take before it, which version a read returns,
      whether a read or an update is answered normally, how an operation goes, and whether the calling process
      dies instead of going on. */
  datatype Turn = Turn(others: seq<Action>, version: nat, ok: bool, env: Env, dies: bool)

  function AnyEnv(): Env {
    Env(LaunchEnv(false, [], seq(Pipeline.TOTAL, i => true), Watch.Feed(Watch.NotFound, true, []), [],
                  seq(NodePatch.TRIES, i => NodePatch.Try(None, [], NodePatch.Answered))),
        DeprecateEnv(NodeMissing, false, false, false, false))
  }

  /** Steps that are not call `id`'s own. A delivery is the server's doing. */
  predicate Foreign(a: Action, id: nat) {
    match a
    case Read(k) => k != id
    case Stamp(k) => k != id
    case Reply(k, _) => k != id
    case Operate(k, _) => k != id
    case Crash(k) => k != id
    case _ => true
  }

  /** The one step that call `id` can take next, if its process lives. */
  function OwnAction(id: nat, c: Call, turn: Turn): Action
    requires !c.pc.Finished?
  {
    if turn.dies then Crash(id)
    else
      match c.pc
      case Deciding => Read(id)
      case Preparing => Stamp(id)
      case Writing(_) => Reply(id, turn.ok)
      case Operating => Operate(id, turn.env)
  }

  /** The foreign ones among `others` take their steps. */
  function Amid(st: State, others: seq<Action>, id: nat): State {
    if others == [] then st
    else
      var n := |others| - 1;
      var before := Amid(st, others[..n], id);
      if Foreign(others[n], id) then Step(before, others[n]) else before
  }

  lemma ForeignKeeps(st: State, a: Action, id: nat)
    requires id in st.calls && id < st.next && Foreign(a, id)
    ensures id in Step(st, a).calls && id < Step(st, a).next && Step(st, a).calls[id] == st.calls[id]
  {
  }

  lemma {:induction false} AmidKeeps(st: State, others: seq<Action>, id: nat)
    requires id in st.calls && id < st.next
    ensures var after := Amid(st, others, id);
            id in after.calls && id < after.next && after.calls[id] == st.calls[id]
    decreases |others|
  {
    if others != [] {
      var n := |others| - 1;
      AmidKeeps(st, others[..n], id);
      if Foreign(others[n], id) {
        ForeignKeeps(Amid(st, others[..n], id), others[n], id);
      }
    }
  }

  /** Call `id` to its end; when the turns run out before that, its process dies. */
  function Drive(st: State, id: nat, turns: seq<Turn>): State
    decreases |turns|
  {
    if Over(st, id) then st
    else if turns == [] then Step(st, Crash(id))
    else Drive(Step(Amid(st, turns[0].others, id), OwnAction(id, st.calls[id], turns[0])), id, turns[1..])
  }

  /** A read goes wrong, or returns some version that exists. */
  predicate ReadFails(st: State, turns: seq<Turn>) {
    turns == [] || !turns[0].ok || turns[0].version >= |Exec(st, turns[0].others).hist|
  }

  /** A whole call, from its read on. */
  function CallFrom(st: State, turns: seq<Turn>): State {
    if turns == [] then st
    else
      var mid := Exec(st, turns[0].others);
      if ReadFails(st, turns) then mid else Drive(Step(mid, Start(turns[0].version)), mid.next, turns[1..])
  }

  /** The number that the protocol gives to such a call. */
  function CallNumber(st: State, turns: seq<Turn>): nat
    requires turns != []
  {
    Exec(st, turns[0].others).next
  }

  // ---- Every call of the protocol can be driven ----

  lemma OverStays(st: State, a: Action, id: nat)
    requires Over(st, id) && id < st.next
    ensures Over(Step(st, a), id) && id < Step(st, a).next
    ensures id !in st.calls ==> id !in Step(st, a).calls
  {
  }

  lemma {:induction false} OverForGood(st: State, schedule: seq<Action>, id: nat)
    requires Over(st, id) && id < st.next
    ensures Over(Exec(st, schedule), id) && id < Exec(st, schedule).next
    ensures id !in st.calls ==> id !in Exec(st, schedule).calls
    decreases |schedule|
  {
    if schedule != [] {
      var n := |schedule| - 1;
      OverForGood(st, schedule[..n], id);
      OverStays(Exec(st, schedule[..n]), schedule[n], id);
    }
  }

  lemma ExecHead(st: State, a: Action, rest: seq<Action>)
    ensures Exec(st, [a] + rest) == Exec(Step(st, a), rest)
  {
    ExecAppend(st, [a], rest);
    assert [a][..0] == [];
    assert Exec(st, [a]) == Step(Exec(st, []), a);
  }

  /** The schedule leads call `id` to its end, a return or a death, and goes no further. */
  ghost predicate LeadsToEnd(st: State, id: nat, schedule: seq<Action>) {
    && schedule != []
    && !Over(Exec(st, schedule[..|schedule| - 1]), id)
    && Over(Exec(st, schedule), id)
  }

  lemma LeadsOn(st: State, id: nat, schedule: seq<Action>)
    requires LeadsToEnd(st, id, schedule) && |schedule| > 1
    ensures LeadsToEnd(Step(st, schedule[0]), id, schedule[1..])
    ensures Exec(Step(st, schedule[0]), schedule[1..]) == Exec(st, schedule)
  {
    var n := |schedule| - 1;
    var rest := schedule[1..];
    assert schedule == [schedule[0]] + rest && schedule[..n] == [schedule[0]] + rest[..n - 1];
    ExecHead(st, schedule[0], rest);
    ExecHead(st, schedule[0], rest[..n - 1]);
  }

  /** Whatever a call of the protocol does until it ends, in whatever surroundings, is what it does when
      it is driven by suitable turns. `pre` are steps of others that have been taken since its last one. */
  lemma {:induction false} EndsAreDriven(st: State, pre: seq<Action>, id: nat, schedule: seq<Action>)
    returns (turns: seq<Turn>)
    requires !Over(st, id) && id < st.next
    requires LeadsToEnd(Amid(st, pre, id), id, schedule)
    ensures Drive(st, id, turns) == Exec(Amid(st, pre, id), schedule)
    decreases |schedule|, 0
  {
    AmidKeeps(st, pre, id);
    var mid := Amid(st, pre, id);
    var a, rest := schedule[0], schedule[1..];
    var turn := Turn(pre, 0, a.Reply? && a.ok, if a.Operate? then a.env else AnyEnv(), a.Crash?);
    assert schedule == [a] + rest;
    ExecHead(mid, a, rest);
    if Foreign(a, id) {
      ForeignKeeps(mid, a, id);
      assert (pre + [a])[..|pre|] == pre;
      LeadsOn(mid, id, schedule);
      turns := EndsAreDriven(st, pre + [a], id, rest);
    } else {
      if a == OwnAction(id, mid.calls[id], turn) {
        var later := EndsAreDrivenOn(mid, a, id, rest);
        turns := [turn] + later;
        assert turns[1..] == later;
      } else {
        LeadsOn(mid, id, schedule);
        turns := EndsAreDriven(st, pre, id, rest);
      }
    }
  }

  lemma {:induction false} EndsAreDrivenOn(mid: State, a: Action, id: nat, rest: seq<Action>)
    returns (turns: seq<Turn>)
    requires !Over(mid, id) && id < mid.next && !Foreign(a, id)
    requires LeadsToEnd(mid, id, [a] + rest)
    ensures Drive(Step(mid, a), id, turns) == Exec(Step(mid, a), rest)
    decreases |rest|, 1
  {
    var next := Step(mid, a);
    var schedule := [a] + rest;
    ExecHead(mid, a, rest);
    if rest == [] {
      turns := [];
    } else {
      LeadsOn(mid, id, schedule);
      assert schedule[1..] == rest;
      if Over(next, id) {
        OverForGood(next, rest[..|rest| - 1], id);
      }
      turns := EndsAreDriven(next, [], id, rest);
    }
  }

  /** From its read to its end: any call of the protocol is one that `CallFrom` describes. */
  lemma EndedCallsAreExecutions(st: State, version: nat, schedule: seq<Action>) returns (turns: seq<Turn>)
    requires version < |st.hist|
    requires LeadsToEnd(Step(st, Start(version)), st.next, schedule)
    ensures !ReadFails(st, turns) && CallNumber(st, turns) == st.next
    ensures CallFrom(st, turns) == Exec(Step(st, Start(version)), schedule)
  {
    var later := EndsAreDriven(Step(st, Start(version)), [], st.next, schedule);
    turns := [Turn([], version, true, AnyEnv(), false)] + later;
    assert turns[1..] == later;
  }
}
