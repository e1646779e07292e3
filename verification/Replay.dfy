/** When exactly a stored status can be trusted. Any run in which a claim fell back has a twin with the same
    stored history in which the operation of that claim ends last of all, and fails. */
module Replay {
  import opened Api
  import opened Operations
  import opened Protocol
  import opened Invariant
  import opened Fencing
  import opened Origins
  import opened Truth
  import opened Runs
  import opened Driver

  // ---- Twins ----

  /** The two states agree on everything but call `x` and the operations completed. */
  ghost predicate Twins(st: State, st': State, x: nat) {
    && st'.hist == st.hist && st'.clock == st.clock && st'.next == st.next && x < st.next
    && (forall k :: k != x ==> (k in st'.calls <==> k in st.calls))
    && (forall k :: k != x && k in st.calls ==> st'.calls[k] == st.calls[k])
    && (forall r: Request :: r.call != x ==> (r in st'.inflight <==> r in st.inflight))
  }

  /** A step that is call `x`'s own doing, or the delivery of an update of it. */
  predicate Concerns(a: Action, x: nat) {
    !Foreign(a, x) || (a.Deliver? && a.request.call == x)
  }

  lemma OthersStep(st: State, st': State, x: nat, a: Action)
    requires Twins(st, st', x) && !Concerns(a, x)
    ensures Twins(Step(st, a), Step(st', a), x)
    ensures x in st'.calls ==> x in Step(st', a).calls && Step(st', a).calls[x] == st'.calls[x]
  {
    match a
    case Reply(k, ok) =>
    case Operate(k, env) =>
    case _ => OthersRest(st, st', x, a);
  }

  lemma OthersRest(st: State, st': State, x: nat, a: Action)
    requires Twins(st, st', x) && !Concerns(a, x) && !a.Reply? && !a.Operate?
    ensures Twins(Step(st, a), Step(st', a), x)
    ensures x in st'.calls ==> x in Step(st', a).calls && Step(st', a).calls[x] == st'.calls[x]
  {
  }

  /** A step of `x` that writes no version can be left out. */
  lemma OwnStepLeftOut(st: State, st': State, x: nat, a: Action)
    requires Twins(st, st', x) && Concerns(a, x) && Step(st, a).hist == st.hist
    ensures Twins(Step(st, a), st', x)
  {
    match a
    case Operate(k, env) =>
    case _ =>
  }

  /** A step of `x` that writes a version leaves its name on it. */
  lemma OwnCommit(st: State, x: nat, a: Action)
    requires Concerns(a, x) && Step(st, a).hist != st.hist
    ensures var h := Step(st, a).hist;
            && |h| == |st.hist| + 1 && st.hist <= h
            && Current(h).tag.StatusWrite? && Current(h).tag.call == x
  {
    match a
    case Operate(k, env) =>
    case _ =>
  }

  /** Over a stretch in which `x` writes no version, everything that it does can be left out. */
  lemma {:induction false} LeaveOut(st: State, st': State, x: nat, part: seq<Action>) returns (part': seq<Action>)
    requires Twins(st, st', x) && x in st'.calls
    requires NoneBy(Exec(st, part).hist, x, |st.hist|, |Exec(st, part).hist|)
    ensures Twins(Exec(st, part), Exec(st', part'), x)
    ensures x in Exec(st', part').calls && Exec(st', part').calls[x] == st'.calls[x]
    decreases |part|
  {
    part' := [];
    if part != [] {
      var n := |part| - 1;
      var mid := Exec(st, part[..n]);
      HistoryGrows(st, part[..n]);
      HistoryGrows(mid, [part[n]]);
      assert [part[n]][..0] == [];
      assert Exec(mid, [part[n]]) == Step(Exec(mid, []), part[n]);
      part' := LeaveOut(st, st', x, part[..n]);
      var mid' := Exec(st', part');
      if !Concerns(part[n], x) {
        OthersStep(mid, mid', x, part[n]);
        assert (part' + [part[n]])[..|part'|] == part';
        part' := part' + [part[n]];
      } else {
        if Step(mid, part[n]).hist != mid.hist {
          OwnCommit(mid, x, part[n]);
          assert false;
        }
        OwnStepLeftOut(mid, mid', x, part[n]);
      }
    }
  }

  // ---- Where a claim was sent and committed ----

  /** Every update on its way was sent at some moment of the run. */
  lemma {:induction false} SentAt(st: State, schedule: seq<Action>, r: Request) returns (m: nat)
    requires st.inflight == {} && r in Exec(st, schedule).inflight
    ensures m <= |schedule|
    ensures var s := Exec(st, schedule[..m]);
            At(s, r.call, Writing(r.kind)) && RequestOf(r.call, s.calls[r.call]) == r
    decreases |schedule|
  {
    var n := |schedule| - 1;
    var before := Exec(st, schedule[..n]);
    if r in before.inflight {
      m := SentAt(st, schedule[..n], r);
      assert schedule[..n][..m] == schedule[..m];
    } else {
      m := n;
    }
  }

  /** Version `k` is a claim of call `x`: committed by step `c`, as it was sent when `m` steps were taken. */
  ghost predicate ClaimedAt(st: State, schedule: seq<Action>, x: nat, k: nat, m: nat, c: nat) {
    && m <= c < |schedule|
    && var s, t := Exec(st, schedule[..m]), Exec(st, schedule[..c]);
       && At(s, x, Writing(PrepareWrite))
       && var r := RequestOf(x, s.calls[x]);
          && Concerns(schedule[c], x) && r.base == Version(t.hist) && |t.hist| == k
          && Step(t, schedule[c]).hist == Commit(t.hist, r, t.clock)
  }

  lemma {:induction false} ClaimWasSent(st: State, schedule: seq<Action>, k: nat) returns (m: nat, c: nat)
    requires st.inflight == {}
    requires |st.hist| <= k < |Exec(st, schedule).hist|
    requires var e := Exec(st, schedule).hist[k]; e.tag.StatusWrite? && e.tag.kind.PrepareWrite?
    ensures ClaimedAt(st, schedule, Exec(st, schedule).hist[k].tag.call, k, m, c)
    decreases |schedule|
  {
    var n := |schedule| - 1;
    var a := schedule[n];
    var before := Exec(st, schedule[..n]);
    if k < |before.hist| {
      HistoryGrows(before, [a]);
      assert [a][..0] == [];
      assert Exec(before, [a]) == Step(Exec(before, []), a);
      m, c := ClaimWasSent(st, schedule[..n], k);
      assert schedule[..n][..m] == schedule[..m] && schedule[..n][..c] == schedule[..c];
    } else {
      c := n;
      m := SenderOf(st, schedule[..n], a);
      assert schedule[..n][..m] == schedule[..m];
    }
  }

  /** The step that commits a claim answers its update, or delivers one that was sent earlier. */
  lemma SenderOf(st: State, before: seq<Action>, a: Action) returns (m: nat)
    requires st.inflight == {}
    requires var t := Exec(st, before);
             var h := Step(t, a).hist;
             h != t.hist && Current(h).tag.StatusWrite? && Current(h).tag.kind.PrepareWrite?
    ensures m <= |before|
    ensures var s, t := Exec(st, before[..m]), Exec(st, before);
            var x := Current(Step(t, a).hist).tag.call;
            && At(s, x, Writing(PrepareWrite))
            && var r := RequestOf(x, s.calls[x]);
               && Concerns(a, x) && r.base == Version(t.hist) && Step(t, a).hist == Commit(t.hist, r, t.clock)
  {
    if a.Deliver? {
      m := SentAt(st, before, a.request);
    } else {
      m := |before|;
      assert before[..m] == before;
    }
  }

  // ---- The twin run ----

  lemma ExecSplit(st: State, schedule: seq<Action>, m: nat)
    requires m <= |schedule|
    ensures Exec(st, schedule) == Exec(Exec(st, schedule[..m]), schedule[m..])
  {
    assert schedule == schedule[..m] + schedule[m..];
    ExecAppend(st, schedule[..m], schedule[m..]);
  }

  /** The answer to its update, at the moment of the commit, puts `x` inside its operation. */
  lemma ClaimAnswered(st: State, st': State, x: nat, a: Action)
    requires Twins(st, st', x) && At(st', x, Writing(PrepareWrite)) && Concerns(a, x)
    requires st'.calls[x].obj.version == Version(st.hist)
    requires Step(st, a).hist == Commit(st.hist, RequestOf(x, st'.calls[x]), st.clock)
    ensures Twins(Step(st, a), Step(st', Reply(x, true)), x) && At(Step(st', Reply(x, true)), x, Operating)
  {
    match a
    case Operate(k, env) =>
    case _ =>
  }

  /** The end of its operation, whenever it comes, is then the last one of all. */
  lemma FailLast(st: State, x: nat) returns (after: State)
    requires Reachable(st) && At(st, x, Operating)
    ensures Reachable(after) && after.hist == st.hist
    ensures after.ops != [] && !after.ops[|after.ops| - 1].success
  {
    var a := Operate(x, AnyEnv());
    ReachableStep(st, a);
    after := Step(st, a);
  }

  /** Up to the commit nobody writes, and `x` can be left waiting for the answer to its update. */
  lemma WaitForCommit(spec: Spec, now: int, schedule: seq<Action>, x: nat, k: nat, m: nat, c: nat)
    returns (waiting: State)
    requires ClaimedAt(Initial(spec, now), schedule, x, k, m, c)
    ensures var start := Initial(spec, now);
            && Reachable(waiting) && Twins(Exec(start, schedule[..c]), waiting, x)
            && At(waiting, x, Writing(PrepareWrite)) && waiting.calls[x] == Exec(start, schedule[..m]).calls[x]
  {
    var start := Initial(spec, now);
    var sent := Exec(start, schedule[..m]);
    RunKeepsInv(spec, now, schedule[..m]);
    assert Reachable(sent);
    ExecSplit(start, schedule[..c], m);
    assert schedule[..c][..m] == schedule[..m] && schedule[..c][m..] == schedule[m..c];
    var r := RequestOf(x, sent.calls[x]);
    waiting := WaitWhileNobodyWrites(sent, schedule[m..c], x, r.base);
  }

  lemma WaitWhileNobodyWrites(sent: State, part: seq<Action>, x: nat, v: nat) returns (waiting: State)
    requires Reachable(sent) && Inv(sent) && x in sent.calls && sent.calls[x].obj.version == v
    requires Version(Exec(sent, part).hist) == v
    ensures Reachable(waiting) && Twins(Exec(sent, part), waiting, x)
    ensures x in waiting.calls && waiting.calls[x] == sent.calls[x]
  {
    assert CallInv(sent, x, sent.calls[x]);
    HistoryGrows(sent, part);
    var others := LeaveOut(sent, sent, x, part);
    waiting := Exec(sent, others);
    ReachableExec(sent, others);
  }

  /** The answer arrives at the moment of the commit, and `x` stays inside its operation. */
  lemma StayInside(st: State, schedule: seq<Action>, x: nat, k: nat, m: nat, c: nat, waiting: State)
    returns (after: State)
    requires ClaimedAt(st, schedule, x, k, m, c)
    requires NoneBy(Exec(st, schedule).hist, x, k + 1, |Exec(st, schedule).hist|)
    requires Reachable(waiting) && Twins(Exec(st, schedule[..c]), waiting, x)
    requires At(waiting, x, Writing(PrepareWrite)) && waiting.calls[x] == Exec(st, schedule[..m]).calls[x]
    ensures Reachable(after) && At(after, x, Operating) && after.hist == Exec(st, schedule).hist
  {
    var before := Exec(st, schedule[..c]);
    ClaimAnswered(before, waiting, x, schedule[c]);
    var inside := Step(waiting, Reply(x, true));
    ReachableStep(waiting, Reply(x, true));
    assert schedule[..c + 1][..c] == schedule[..c];
    ExecSplit(st, schedule, c + 1);
    var part := LeaveOut(Step(before, schedule[c]), inside, x, schedule[c + 1..]);
    after := Exec(inside, part);
    ReachableExec(inside, part);
  }

  /** A claim after which its call writes no more: in a run with the same history the call is still inside its
      operation. */
  lemma StillInside(spec: Spec, now: int, schedule: seq<Action>, k: nat) returns (after: State, x: nat)
    requires var h := Exec(Initial(spec, now), schedule).hist;
             && 0 < k < |h| && h[k].tag.StatusWrite? && h[k].tag.kind.PrepareWrite?
             && NoneBy(h, h[k].tag.call, k + 1, |h|)
    ensures Reachable(after) && At(after, x, Operating)
    ensures after.hist == Exec(Initial(spec, now), schedule).hist
  {
    var start := Initial(spec, now);
    x := Exec(start, schedule).hist[k].tag.call;
    var m, c := ClaimWasSent(start, schedule, k);
    var waiting := WaitForCommit(spec, now, schedule, x, k, m, c);
    after := StayInside(start, schedule, x, k, m, c, waiting);
  }

  /** The call whose claim a fallback cancels writes nothing afterwards. */
  lemma CancelledWritesNoMore(spec: Spec, now: int, schedule: seq<Action>, i: nat) returns (k: nat)
    requires var h := Exec(Initial(spec, now), schedule).hist; i < |h| && IsFallback(h[i])
    ensures var h := Exec(Initial(spec, now), schedule).hist;
            && 0 < k < |h| && h[k].tag.StatusWrite? && h[k].tag.kind.PrepareWrite?
            && NoneBy(h, h[k].tag.call, k + 1, |h|)
  {
    var st := Exec(Initial(spec, now), schedule);
    assert Reachable(st);
    ReachableInv(st);
    k := NoPrematureFallback(st, i);
    var x := st.hist[k].tag.call;
    var v := EveryCallHasRead(spec, now, schedule, x);
    forall j | k < j < |st.hist| && st.hist[j].tag.StatusWrite? ensures st.hist[j].tag.call != x {
      if st.hist[j].tag.call == x {
        WritesAreOneBlock(st, x, v, k, j);
        assert false;
      }
    }
  }

  /** After a fallback the history alone can no longer vouch for the status: with the very same history, the
      last operation completed may be a failure. */
  lemma FallbackLeavesDoubt(st: State) returns (other: State)
    requires Reachable(st) && !NoFallback(st.hist)
    ensures Reachable(other) && other.hist == st.hist
    ensures other.ops != [] && !other.ops[|other.ops| - 1].success
  {
    var spec, now, schedule :| st == Exec(Initial(spec, now), schedule);
    var i :| 0 <= i < |st.hist| && IsFallback(st.hist[i]);
    var k := CancelledWritesNoMore(spec, now, schedule, i);
    var inside, x := StillInside(spec, now, schedule, k);
    other := FailLast(inside, x);
  }

  /** Truthful status, exactly: a stored active or inactive tells the truth about the last completed operation in
      every run with this history if and only if the history has no fallback. */
  lemma TruthfulExactlyWithoutFallback(st: State)
    requires Reachable(st)
    requires Current(st.hist).status == Active || Current(st.hist).status == Inactive
    ensures NoFallback(st.hist) <==> forall other :: Reachable(other) && other.hist == st.hist ==> StatusIsTrue(other)
  {
    if NoFallback(st.hist) {
      forall other | Reachable(other) && other.hist == st.hist ensures StatusIsTrue(other) {
        TruthfulStatus(other);
      }
    } else {
      var other := FallbackLeavesDoubt(st);
      assert !StatusIsTrue(other);
    }
  }
}
