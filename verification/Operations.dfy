/** The two operations a claim protects: launchNode and deprecateNode. */
module Operations {
  import opened Api
  import NodePatch
  import Pipeline
  import Watch

  // ---- Everything the outside world decides during one operation ----

  /** `ssh` says whether the connection to the host can be made, `answers` what the commands of each step
      would answer, and `cloudHosts` are the addresses that the tenth step of a KubeEdge node finds. */
  datatype LaunchEnv = LaunchEnv(
    ssh: bool,
    cloudHosts: seq<string>,
    answers: Pipeline.Answers,
    feed: Watch.Feed,
    nodes: seq<NodePatch.Node>,
    tries: NodePatch.Tries)

  datatype Lookup = NodeFound | NodeMissing | LookupError

  /** `ssh` as above; `disjoined` is what the command would answer over a connection. */
  datatype DeprecateEnv = DeprecateEnv(lookup: Lookup, drained: bool, ssh: bool, disjoined: bool, deleted: bool)

  datatype Env = Env(launch: LaunchEnv, deprecate: DeprecateEnv)

  /** The pair (success, err) both operations return; a panic takes the whole process down. */
  datatype Result = Returned(success: bool, err: bool) | Panicked

  // ---- launchNode ----

  function Steps(spec: Spec, env: LaunchEnv): Pipeline.StepResults {
    Pipeline.Results(spec.nodeType, env.cloudHosts, env.answers)
  }

  function LaunchResult(spec: Spec, env: LaunchEnv): Result {
    if !env.ssh then Returned(false, true)
    else
      match Pipeline.Verdict(Steps(spec, env), 0)
      case StepPanic => Panicked
      case StepError => Returned(false, true)
      case StepOk =>
        var v := Watch.WatchVerdict(env.feed, spec.nodeName, true);
        if v.err then Returned(false, true)
        else if !v.success then Returned(false, false)
        else
          match NodePatch.RunTries(env.nodes, spec.patch, env.tries, 0).result
          case Updated => Returned(true, false)
          case UpdateFailed => Returned(false, true)
          case UpdatePanicked => Panicked
  }

  /** What a launch that returned true has achieved: all ten steps passed, the Node was seen ready, and
      the stored Node is the patch merged into the version it directly follows. */
  ghost predicate Launched(spec: Spec, env: LaunchEnv) {
    && env.ssh
    && Pipeline.AllPassed(Steps(spec, env))
    && SeenReady(env.feed, spec.nodeName)
    && PatchCommitted(spec.patch, NodePatch.RunTries(env.nodes, spec.patch, env.tries, 0).nodes)
  }

  ghost predicate SeenReady(feed: Watch.Feed, name: string) {
    || (feed.read.Found? && Watch.Ready(feed.read.node))
    || (exists e :: e in feed.events && Watch.Decisive(e, name, true))
  }

  ghost predicate PatchCommitted(p: Patch, h: seq<NodePatch.Node>) {
    && |h| >= 2
    && NodePatch.Patched(h[|h| - 2], p, h[|h| - 1])
    && NodePatch.Merge(h[|h| - 1], p) == Some(h[|h| - 1])
  }

  lemma LaunchSuccessMeans(spec: Spec, env: LaunchEnv)
    requires LaunchResult(spec, env) == Returned(true, false)
    ensures Launched(spec, env)
  {
    Pipeline.AllPassedMeans(Steps(spec, env));
    Watch.ScanFindsAny(env.feed.events, spec.nodeName, true);
    NodePatch.UpdateSticks(env.nodes, spec.patch, env.tries);
  }

  /** The Node is written only after all steps have passed and the Node has been seen ready. */
  predicate ReachesPatch(spec: Spec, env: LaunchEnv) {
    && env.ssh && Pipeline.AllPassed(Steps(spec, env))
    && Watch.WatchVerdict(env.feed, spec.nodeName, true) == Watch.Verdict(true, false)
  }

  /** A KubeEdge node gets to its last step, and there is no cloud host to join. */
  predicate JoinsNothing(spec: Spec, env: LaunchEnv) {
    && env.ssh && spec.nodeType.Kubeedge? && env.cloudHosts == []
    && forall k :: 0 <= k < Pipeline.TOTAL - 1 ==> env.answers[k]
  }

  /** The Node is patched with annotations, and a try that is reached reads it with a nil annotation map. */
  ghost predicate PatchesNil(spec: Spec, env: LaunchEnv) {
    ReachesPatch(spec, env) && NodePatch.MeetsSomeNil(env.nodes, spec.patch, env.tries, 0)
  }

  /** These are exactly the two ways in which a launch brings the process down. */
  lemma LaunchPanicsExactly(spec: Spec, env: LaunchEnv)
    ensures LaunchResult(spec, env).Panicked? <==> JoinsNothing(spec, env) || PatchesNil(spec, env)
  {
    Pipeline.PanicsExactlyWithoutCloudHost(spec.nodeType, env.cloudHosts, env.answers);
    Pipeline.AllPassedMeans(Steps(spec, env));
    NodePatch.PanicsExactlyOnNil(env.nodes, spec.patch, env.tries, 0);
  }

  /** There is a connection, and nothing is in the way of the ten steps. */
  predicate StepsGoWell(spec: Spec, env: LaunchEnv) {
    && env.ssh && (forall k :: 0 <= k < 10 ==> env.answers[k])
    && (spec.nodeType == Kubeedge ==> env.cloudHosts != [])
  }

  lemma StepsGoWellMeans(spec: Spec, env: LaunchEnv)
    ensures StepsGoWell(spec, env) <==> env.ssh && Pipeline.AllPassed(Steps(spec, env))
  {
    Pipeline.ResultsAre(spec.nodeType, env.cloudHosts, env.answers);
    if Pipeline.AllPassed(Steps(spec, env)) {
      forall k | 0 <= k < Pipeline.TOTAL ensures env.answers[k] {
        assert Steps(spec, env)[k].StepOk?;
      }
      assert Steps(spec, env)[Pipeline.TOTAL - 1].StepOk?;
    }
  }

  /** Some Node that the wait looks at lists a Ready condition. */
  ghost predicate SeesReady(spec: Spec, env: LaunchEnv) {
    exists n :: Watch.LooksAt(env.feed, spec.nodeName, n) && Watch.Ready(n)
  }

  /** The first read fails, or a watch is needed and cannot be made. */
  predicate WaitFails(env: LaunchEnv) {
    || env.feed.read == Watch.ReadError
    || (!env.feed.watcher && !(env.feed.read.Found? && Watch.Ready(env.feed.read.node)))
  }

  /** Which pair a launch returns. It is false without an error, so that it is not tried again, exactly when the
      steps went well and the wait ended, without an error, on no Node that lists a Ready condition. It is an
      error, and is tried again, when there is no connection, when a step failed, when the wait failed, and when
      the update of the Node did. */
  lemma LaunchOutcomes(spec: Spec, env: LaunchEnv)
    ensures var result := LaunchResult(spec, env);
            && (result == Returned(true, false) <==>
                  && StepsGoWell(spec, env) && SeesReady(spec, env)
                  && NodePatch.WinsSome(env.nodes, spec.patch, env.tries, 0))
            && (result == Returned(false, false) <==>
                  StepsGoWell(spec, env) && !WaitFails(env) && !SeesReady(spec, env))
            && (result == Returned(false, true) <==>
                  || !env.ssh
                  || (exists step :: Pipeline.Do(step, false) in Pipeline.RunFrom(Steps(spec, env), 0))
                  || (StepsGoWell(spec, env) && WaitFails(env))
                  || (StepsGoWell(spec, env) && SeesReady(spec, env)
                      && !NodePatch.WinsSome(env.nodes, spec.patch, env.tries, 0)
                      && !NodePatch.MeetsSomeNil(env.nodes, spec.patch, env.tries, 0)))
            && result != Returned(true, true)
  {
    StepsGoWellMeans(spec, env);
    Pipeline.AllPassedMeans(Steps(spec, env));
    Pipeline.FailedStepIsAnError(Steps(spec, env), 0);
    Watch.WaitSucceeds(env.feed, spec.nodeName);
    Watch.WaitOutcome(env.feed, spec.nodeName, true);
    NodePatch.UpdatesExactlyOnWin(env.nodes, spec.patch, env.tries, 0);
    NodePatch.PanicsExactlyOnNil(env.nodes, spec.patch, env.tries, 0);
  }

  /** Every command of the launch answers well, there is a cloud host, and the Node is ready. */
  function SmoothLaunch(spec: Spec, node: NodePatch.Node): LaunchEnv {
    LaunchEnv(
      true, ["10.0.0.1"], seq(Pipeline.TOTAL, i => true),
      Watch.Feed(Watch.Found(Watch.Seen(spec.nodeName, [Watch.Condition(Watch.READY, "True")])), true, []),
      [node],
      seq(NodePatch.TRIES, i => NodePatch.Try(Some(0), [], NodePatch.Answered)))
  }

  lemma AllStepsPass(spec: Spec, env: LaunchEnv)
    requires (forall k :: 0 <= k < Pipeline.TOTAL ==> env.answers[k]) && (spec.nodeType.Work? || env.cloudHosts != [])
    ensures Pipeline.AllPassed(Steps(spec, env)) && Pipeline.Verdict(Steps(spec, env), 0).StepOk?
  {
    Pipeline.ResultsAre(spec.nodeType, env.cloudHosts, env.answers);
    Pipeline.AllPassedMeans(Steps(spec, env));
  }

  /** For every spec with annotations: all steps pass and the Node is ready, but it has no annotations. */
  lemma NilAnnotationsPanic(spec: Spec) returns (env: LaunchEnv)
    requires spec.patch.annotations != map[]
    ensures LaunchResult(spec, env).Panicked? && PatchesNil(spec, env)
  {
    env := SmoothLaunch(spec, NodePatch.Node(map[], None, [], 0));
    AllStepsPass(spec, env);
    assert env.feed.read.node.conditions[0].kind == Watch.READY;
    assert NodePatch.Known(env.nodes, env.tries, 0, 0) == env.nodes;
    assert NodePatch.ReadsNil(env.tries[0], env.nodes);
    assert NodePatch.MeetsNil(env.nodes, spec.patch, env.tries, 0, 0);
    LaunchPanicsExactly(spec, env);
  }

  /** For every KubeEdge spec: everything goes well, but no cloud host is found. */
  lemma NoCloudHostPanics(spec: Spec) returns (env: LaunchEnv)
    requires spec.nodeType.Kubeedge?
    ensures LaunchResult(spec, env).Panicked? && JoinsNothing(spec, env)
  {
    env := SmoothLaunch(spec, NodePatch.Node(map[], Some(map[]), [], 0)).(cloudHosts := []);
    LaunchPanicsExactly(spec, env);
  }

  method LaunchNode(spec: Spec, env: LaunchEnv, manager: Pipeline.NodeManager, store: NodePatch.NodeStore)
    returns (result: Result)
    requires store.nodes == env.nodes
    modifies manager, store
    ensures result == LaunchResult(spec, env)
    ensures manager.trace == if env.ssh then old(manager.trace) + Pipeline.RunFrom(Steps(spec, env), 0)
                             else old(manager.trace)
    ensures store.nodes == if ReachesPatch(spec, env) then NodePatch.RunTries(env.nodes, spec.patch, env.tries, 0).nodes
                           else env.nodes
  {
    Pipeline.AllPassedMeans(Steps(spec, env));
    var steps := manager.LaunchByCmd(spec.nodeType, env.ssh, env.cloudHosts, env.answers);
    if steps.StepPanic? {
      return Panicked;
    }
    if steps.StepError? {
      return Returned(false, true);
    }
    var v := Watch.WatchNode(env.feed, spec.nodeName, true);
    if v.err {
      return Returned(false, true);
    }
    if v.success {
      var update := store.UpdateNode(spec.patch, env.tries);
      if update.UpdatePanicked? {
        return Panicked;
      }
      if update.UpdateFailed? {
        return Returned(false, true);
      }
    }
    result := Returned(v.success, false);
  }

  // ---- deprecateNode ----

  /** The effects of a deprecation on the cluster and the host, each with its returned result, and for DisJoin
      with whether there was a connection over which it could run. */
  datatype NodeEvent = Drain(ok: bool) | DisJoin(ok: bool, connected: bool) | Delete(ok: bool)

  /** Without a connection DisJoin uses a missing client; the panic is recovered where the command would be
      run, and no error comes back. */
  function DisJoinAnswer(ssh: bool, disjoined: bool): bool {
    !ssh || disjoined
  }

  function DeprecateResult(spec: Spec, env: DeprecateEnv): Result {
    if !env.lookup.NodeFound? then Returned(false, true)
    else if spec.isEvicted && !env.drained then Returned(false, false)
    else if !DisJoinAnswer(env.ssh, env.disjoined) then Returned(false, true)
    else if !env.deleted then Returned(false, true)
    else Returned(true, false)
  }

  /** The events of one attempt, in order. */
  function DeprecateTrace(spec: Spec, env: DeprecateEnv): seq<NodeEvent> {
    if !env.lookup.NodeFound? then []
    else
      (if spec.isEvicted then [Drain(env.drained)] else [])
      + if spec.isEvicted && !env.drained then []
        else
          [DisJoin(DisJoinAnswer(env.ssh, env.disjoined), env.ssh)]
          + if DisJoinAnswer(env.ssh, env.disjoined) then [Delete(env.deleted)] else []
  }

  /** Exec recovers from the panic of using a missing client, and its unnamed results are then nil. */
  method RunCommand(client: Option<bool>) returns (err: bool)
    ensures err <==> client == Some(false)
  {
    match client
    case None => err := false;
    case Some(ok) => err := !ok;
  }

  class Host {
    var events: seq<NodeEvent>

    constructor ()
      ensures events == []
    {
      events := [];
    }

    /** manager.Deprecate: a failed SSH connection is only logged. */
    method Deprecate(ssh: bool, disjoined: bool) returns (err: bool)
      modifies this
      ensures err <==> ssh && !disjoined
      ensures events == old(events) + [DisJoin(!err, ssh)]
    {
      var client := if ssh then Some(disjoined) else None;
      err := RunCommand(client);
      events := events + [DisJoin(!err, ssh)];
    }

    method DeprecateNode(spec: Spec, env: DeprecateEnv) returns (result: Result)
      modifies this
      ensures result == DeprecateResult(spec, env)
      ensures events == old(events) + DeprecateTrace(spec, env)
    {
      if !env.lookup.NodeFound? {
        return Returned(false, true);
      }
      if spec.isEvicted {
        events := events + [Drain(env.drained)];
        if !env.drained {
          return Returned(false, false);
        }
      }
      var err := Deprecate(env.ssh, env.disjoined);
      if err {
        return Returned(false, true);
      }
      events := events + [Delete(env.deleted)];
      if !env.deleted {
        return Returned(false, true);
      }
      result := Returned(true, false);
    }
  }

  /** A deprecation that returned true found the Node and deleted it after a clean disjoin and, if asked for, a
      drain. */
  lemma DeprecateSuccessMeans(spec: Spec, env: DeprecateEnv)
    requires DeprecateResult(spec, env) == Returned(true, false)
    ensures DeprecateTrace(spec, env)
         == (if spec.isEvicted then [Drain(true)] else []) + [DisJoin(true, env.ssh), Delete(true)]
  {
  }

  /** Which pair a deprecation returns. It is false without an error, and so not tried again, exactly when a drain
      was asked for and failed; a missing Node, a failed disjoin and a failed delete are errors. */
  lemma DeprecateOutcomes(spec: Spec, env: DeprecateEnv)
    ensures var result := DeprecateResult(spec, env);
            && (result == Returned(true, false) <==>
                  && env.lookup == NodeFound && (spec.isEvicted ==> env.drained)
                  && (env.ssh ==> env.disjoined) && env.deleted)
            && (result == Returned(false, false) <==> env.lookup == NodeFound && spec.isEvicted && !env.drained)
            && (result == Returned(false, true) <==>
                  || env.lookup != NodeFound
                  || ((spec.isEvicted ==> env.drained) && env.ssh && !env.disjoined)
                  || ((spec.isEvicted ==> env.drained) && !env.deleted))
  {
  }

  /** What one deprecation has done, for every result: the events in order, each with what it returned. A failed
      disjoin or delete is in the trace exactly when an error comes back from a Node that was found. */
  lemma DeprecateEvents(spec: Spec, env: DeprecateEnv)
    ensures var t := DeprecateTrace(spec, env);
            && (t == [] <==> env.lookup != NodeFound)
            && ((exists ok :: Drain(ok) in t) <==> env.lookup == NodeFound && spec.isEvicted)
            && (Drain(false) in t <==> DeprecateResult(spec, env) == Returned(false, false))
            && (Delete(true) in t <==> DeprecateResult(spec, env) == Returned(true, false))
            && (DisJoin(false, true) in t || Delete(false) in t <==>
                  env.lookup == NodeFound && DeprecateResult(spec, env) == Returned(false, true))
            && DisJoin(false, false) !in t
  {
    var t := DeprecateTrace(spec, env);
    if env.lookup.NodeFound? && spec.isEvicted {
      assert t[0] == Drain(env.drained);
    }
    if ReachesDisJoin(spec, env) {
      var i := if spec.isEvicted then 1 else 0;
      assert t[i] == DisJoin(DisJoinAnswer(env.ssh, env.disjoined), env.ssh);
      assert DisJoinAnswer(env.ssh, env.disjoined) ==> t[i + 1] == Delete(env.deleted);
    }
  }

  predicate ReachesDisJoin(spec: Spec, env: DeprecateEnv) {
    env.lookup.NodeFound? && (spec.isEvicted ==> env.drained)
  }

  /** The result of a deprecation is the same with and without a connection exactly when it does not get as far
      as the disjoin, or the disjoin would succeed, or the Node cannot be deleted anyway. */
  lemma ConnectionMattersExactly(spec: Spec, env: DeprecateEnv)
    ensures DeprecateResult(spec, env.(ssh := true)) == DeprecateResult(spec, env.(ssh := false))
       <==> !ReachesDisJoin(spec, env) || env.disjoined || !env.deleted
  {
  }

  /** A deprecation that returned true has run the disjoin on the host exactly when there was a connection. */
  lemma DisJoinedExactlyWhenConnected(spec: Spec, env: DeprecateEnv)
    requires DeprecateResult(spec, env) == Returned(true, false)
    ensures DisJoin(true, true) in DeprecateTrace(spec, env) <==> env.ssh
  {
  }

  /** And it can return true without one, whatever the spec, and whatever the disjoin would have answered. */
  lemma UnreachableHostIsDeprecated(spec: Spec, disjoined: bool) returns (env: DeprecateEnv)
    ensures !env.ssh && env.disjoined == disjoined && DeprecateResult(spec, env) == Returned(true, false)
    ensures DisJoin(true, true) !in DeprecateTrace(spec, env) && Delete(true) in DeprecateTrace(spec, env)
  {
    env := DeprecateEnv(NodeFound, true, false, disjoined, true);
    var t := DeprecateTrace(spec, env);
    assert t[|t| - 1] == Delete(true);
  }

  // ---- Deprecation attempts in a row ----

  function TraceOfAttempts(spec: Spec, envs: seq<DeprecateEnv>): seq<NodeEvent> {
    if envs == [] then []
    else TraceOfAttempts(spec, envs[..|envs| - 1]) + DeprecateTrace(spec, envs[|envs| - 1])
  }

  /** The order that every retried deprecation keeps, told on the flat trace of all its attempts:
      a Delete comes right after a clean DisJoin and, with eviction, a clean Drain before that; a
      successful Delete and a failed Drain are the very last event. */
  ghost predicate OrderedTrace(spec: Spec, t: seq<NodeEvent>) {
    forall k :: 0 <= k < |t| ==> OrderedAt(spec, t, k)
  }

  ghost predicate OrderedAt(spec: Spec, t: seq<NodeEvent>, k: nat)
    requires k < |t|
  {
    && (t[k].Delete? ==> k >= 1 && t[k - 1].DisJoin? && t[k - 1].ok)
    && (t[k].Delete? && spec.isEvicted ==> k >= 2 && t[k - 2] == Drain(true))
    && (t[k] == Delete(true) || t[k] == Drain(false) ==> k == |t| - 1)
  }

  /** The retry loop only goes on after an attempt that returned an error. */
  ghost predicate RetriedOnError(spec: Spec, envs: seq<DeprecateEnv>) {
    forall i :: 0 <= i < |envs| - 1 ==> DeprecateResult(spec, envs[i]).err
  }

  lemma {:induction false} FailedAttemptsLeaveNoEnd(spec: Spec, envs: seq<DeprecateEnv>)
    requires forall i :: 0 <= i < |envs| ==> DeprecateResult(spec, envs[i]).err
    ensures Delete(true) !in TraceOfAttempts(spec, envs)
    ensures Drain(false) !in TraceOfAttempts(spec, envs)
    decreases |envs|
  {
    if envs != [] {
      FailedAttemptsLeaveNoEnd(spec, envs[..|envs| - 1]);
    }
  }

  lemma OneAttemptOrder(spec: Spec, env: DeprecateEnv)
    ensures OrderedTrace(spec, DeprecateTrace(spec, env))
  {
  }

  lemma AppendKeepsOrder(spec: Spec, b: seq<NodeEvent>, a: seq<NodeEvent>)
    requires OrderedTrace(spec, b) && OrderedTrace(spec, a)
    requires Delete(true) !in b && Drain(false) !in b
    ensures OrderedTrace(spec, b + a)
  {
    var t := b + a;
    forall k | 0 <= k < |t| ensures OrderedAt(spec, t, k) {
      if k < |b| {
        assert OrderedAt(spec, b, k) && b[k] in b;
      } else {
        assert OrderedAt(spec, a, k - |b|);
      }
    }
  }

  lemma {:induction false} DeprecationOrder(spec: Spec, envs: seq<DeprecateEnv>)
    requires RetriedOnError(spec, envs)
    ensures OrderedTrace(spec, TraceOfAttempts(spec, envs))
    decreases |envs|
  {
    if envs != [] {
      var before := envs[..|envs| - 1];
      DeprecationOrder(spec, before);
      FailedAttemptsLeaveNoEnd(spec, before);
      var b, t := TraceOfAttempts(spec, before), TraceOfAttempts(spec, envs);
      var a := DeprecateTrace(spec, envs[|envs| - 1]);
      OneAttemptOrder(spec, envs[|envs| - 1]);
      AppendKeepsOrder(spec, b, a);
    }
  }
}
