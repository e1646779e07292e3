/** Progress of Reconcile calls that overlap: any number of calls at the same time, stale copies, crashes and lost
    updates, in any interleaving. */
module Overlap {
  import opened Api
  import opened Operations
  import opened Protocol
  import opened Invariant
  import opened Fencing
  import opened Origins
  import opened Driver
  import opened Rounds
  import opened Convergence

  // ---- Runs, state by state ----

  ghost predicate Follows(run: seq<State>, more: seq<Action>, i: nat)
    requires i + 1 < |run| && i < |more|
  {
    run[i + 1] == Step(run[i], more[i])
  }

  /** The states that the schedule goes through, from `run[0]` on. */
  ghost predicate IsRun(run: seq<State>, more: seq<Action>) {
    |run| == |more| + 1 && forall i :: 0 <= i < |more| ==> Follows(run, more, i)
  }

  lemma {:induction false} RunIsReachable(run: seq<State>, more: seq<Action>, j: nat)
    requires IsRun(run, more) && Reachable(run[0]) && j < |run|
    ensures Reachable(run[j])
    decreases j
  {
    if j > 0 {
      RunIsReachable(run, more, j - 1);
      assert Follows(run, more, j - 1);
      ReachableStep(run[j - 1], more[j - 1]);
    }
  }

  function Added(run: seq<State>): int
    requires run != []
  {
    |run[|run| - 1].hist| - |run[0].hist|
  }

  // ---- Who is running when a version is committed ----

  function Running(st: State): set<nat> {
    set id | id in st.calls && !Over(st, id)
  }

  /** At no time are more than `k` calls running. */
  ghost predicate AtMost(run: seq<State>, k: nat) {
    forall i :: 0 <= i < |run| ==> |Running(run[i])| <= k
  }

  predicate Commits(run: seq<State>, i: nat)
    requires i + 1 < |run|
  {
    |run[i + 1].hist| > |run[i].hist|
  }

  /** The calls that were running when one of the versions of the run was committed. */
  function Witnesses(run: seq<State>): set<nat>
    decreases |run|
  {
    if |run| <= 1 then {}
    else
      var n := |run| - 1;
      Witnesses(run[..n]) + if Commits(run, n - 1) then Running(run[n - 1]) else {}
  }

  ghost predicate OneByOne(run: seq<State>) {
    forall i :: 0 <= i < |run| - 1 ==> AtMostOneMore(run, i)
  }

  ghost predicate AtMostOneMore(run: seq<State>, i: nat)
    requires i + 1 < |run|
  {
    |run[i].hist| <= |run[i + 1].hist| <= |run[i].hist| + 1
  }

  lemma RunsCommitOneByOne(run: seq<State>, more: seq<Action>)
    requires IsRun(run, more)
    ensures OneByOne(run)
  {
    forall i | 0 <= i < |run| - 1 ensures AtMostOneMore(run, i) {
      assert Follows(run, more, i);
      StepAddsOne(run[i], more[i]);
    }
  }

  lemma StepAddsOne(st: State, a: Action)
    ensures st.hist <= Step(st, a).hist
    ensures Step(st, a).hist != st.hist ==> |Step(st, a).hist| == |st.hist| + 1
  {
  }

  lemma SizeOfUnion(a: set<nat>, b: set<nat>)
    ensures |a + b| <= |a| + |b|
  {
    assert a + b == a + (b - a);
    SubsetSize(b - a, b);
  }

  lemma {:induction false} SubsetSize(a: set<nat>, b: set<nat>)
    requires a <= b
    ensures |a| <= |b|
  {
    if a != {} {
      var x :| x in a;
      SubsetSize(a - {x}, b - {x});
    }
  }

  lemma OneMore(k: nat, d: nat, w: nat, d': nat, w': nat)
    requires w <= k * d && d <= d' <= d + 1 && w' <= w + if d' == d then 0 else k
    ensures w' <= k * d'
  {
    assert k * (d + 1) == k * d + k;
  }

  lemma ShorterRun(run: seq<State>, k: nat)
    requires |run| > 1 && AtMost(run, k) && OneByOne(run)
    ensures AtMost(run[..|run| - 1], k) && OneByOne(run[..|run| - 1])
  {
    var short := run[..|run| - 1];
    forall i | 0 <= i < |short| - 1 ensures AtMostOneMore(short, i) {
      assert AtMostOneMore(run, i);
    }
  }

  lemma {:induction false} FewWitnesses(run: seq<State>, k: nat)
    requires run != [] && AtMost(run, k) && OneByOne(run)
    ensures Added(run) >= 0 && |Witnesses(run)| <= k * Added(run)
    decreases |run|
  {
    var n := |run| - 1;
    if n > 0 {
      ShorterRun(run, k);
      FewWitnesses(run[..n], k);
      assert AtMostOneMore(run, n - 1);
      SizeOfUnion(Witnesses(run[..n]), Running(run[n - 1]));
      OneMore(k, Added(run[..n]), |Witnesses(run[..n])|, Added(run), |Witnesses(run)|);
    }
  }

  // ---- A call without faults runs until a version is committed ----

  /** Call `id` starts at step `m`, reads the current version, which is unsettled, and does not have to wait. */
  ghost predicate StartsDue(run: seq<State>, more: seq<Action>, id: nat, m: nat) {
    && m < |more| && m < |run|
    && var s := run[m];
       s.next == id && more[m] == Start(Version(s.hist)) && Due(s) && !Settled(Current(s.hist))
  }

  /** No answer to one of its updates is lost, it does not die, and it returns. */
  ghost predicate ReturnsWell(run: seq<State>, more: seq<Action>, id: nat)
    requires run != []
  {
    && (forall i :: 0 <= i < |more| ==> more[i] != Reply(id, false))
    && id in run[|run| - 1].calls && Over(run[|run| - 1], id)
  }

  ghost predicate Smooth(run: seq<State>, more: seq<Action>, id: nat)
    requires run != []
  {
    ReturnsWell(run, more, id) && exists m: nat :: StartsDue(run, more, id, m)
  }

  /** As long as the version that it read in state `s` is current, such a call has not returned. */
  ghost predicate StillAtIt(s: State, st: State, id: nat) {
    && st.hist == s.hist && s.clock <= st.clock && id in st.calls
    && var c := st.calls[id];
       && c.obj.version == Version(s.hist)
       && match c.pc
          case Deciding => c == Call(Deciding, Snapshot(s.hist, Version(s.hist)), Unknown, [])
          case Operating => false
          case Finished(_) => false
          case _ => true
  }

  /** In an unsettled state, without a claim to wait for, a call does not give up at once. */
  lemma NeverIdle(s: State, now: int)
    requires Due(s) && !Settled(Current(s.hist)) && s.clock <= now
    ensures var c := Decide(Call(Deciding, Snapshot(s.hist, Version(s.hist)), Unknown, []), now);
            (c.pc.Writing? || c.pc.Preparing?) && c.obj.version == Version(s.hist)
  {
  }

  lemma AtItStep(s: State, st: State, id: nat, a: Action)
    requires Due(s) && !Settled(Current(s.hist)) && StillAtIt(s, st, id) && id < st.next && a != Reply(id, false)
    ensures || Step(st, a).hist != st.hist
            || id !in Step(st, a).calls
            || StillAtIt(s, Step(st, a), id)
  {
    if Foreign(a, id) {
      ForeignKeeps(st, a, id);
    } else if a == Read(id) {
      NeverIdle(s, st.clock);
    } else if a == Reply(id, true) {
      if st.calls[id].pc.Writing? {
        StepAddsOne(st, a);
      }
    }
  }

  /** What is known of such a call after `j` steps. */
  ghost predicate SeenOrAtIt(run: seq<State>, id: nat, m: nat, j: nat)
    requires m < j < |run|
  {
    && id < run[j].next
    && (|| id in Witnesses(run[..j + 1])
        || id !in run[j].calls
        || StillAtIt(run[m], run[j], id))
  }

  lemma SeenStep(run: seq<State>, more: seq<Action>, id: nat, m: nat, j: nat)
    requires IsRun(run, more) && StartsDue(run, more, id, m) && m < j < |more| && more[j] != Reply(id, false)
    requires SeenOrAtIt(run, id, m, j)
    ensures SeenOrAtIt(run, id, m, j + 1)
  {
    assert Follows(run, more, j);
    assert run[..j + 2][..j + 1] == run[..j + 1];
    if id !in run[j].calls {
      OverStays(run[j], more[j], id);
    } else if StillAtIt(run[m], run[j], id) {
      AtItStep(run[m], run[j], id, more[j]);
      StepAddsOne(run[j], more[j]);
      assert id in Running(run[j]);
    }
  }

  lemma {:induction false} SeenTo(run: seq<State>, more: seq<Action>, id: nat, m: nat, j: nat)
    requires IsRun(run, more) && StartsDue(run, more, id, m) && m < j <= |more|
    requires forall i :: 0 <= i < |more| ==> more[i] != Reply(id, false)
    ensures SeenOrAtIt(run, id, m, j)
    decreases j
  {
    if j == m + 1 {
      assert Follows(run, more, m);
    } else {
      SeenTo(run, more, id, m, j - 1);
      SeenStep(run, more, id, m, j - 1);
    }
  }

  /** A due call without faults that reads the current version sees a version being committed, by itself or by
      another. */
  lemma SmoothCallsSeeProgress(run: seq<State>, more: seq<Action>, id: nat)
    requires IsRun(run, more) && Smooth(run, more, id)
    ensures id in Witnesses(run)
  {
    var m: nat :| StartsDue(run, more, id, m);
    SeenTo(run, more, id, m, |more|);
    assert run[..|more| + 1] == run;
  }

  // ---- Which versions there can be ----

  /** A write outside the retry loop; the first claim of a call, or its unknown status; a claim on top of an own
      one; and a result. */
  datatype Sort = Passive | Enter | Again | Publish

  function SortOf(prev: Entry, e: Entry): Sort
    requires e.tag.StatusWrite?
  {
    if !InLoop(e.tag.kind) then Passive
    else if !ClaimedBy(prev, e.tag.call) then Enter
    else if e.tag.kind.PrepareWrite? then Again
    else Publish
  }

  predicate IsSort(h: History, i: nat, sort: Sort) {
    0 < i < |h| && h[i].tag.StatusWrite? && SortOf(h[i - 1], h[i]) == sort
  }

  /** How many of the versions from `lo` up to but not including `hi` are of that sort. */
  function Count(h: History, lo: nat, hi: nat, sort: Sort): nat
    requires lo <= hi
    decreases hi
  {
    if hi == lo then 0 else Count(h, lo, hi - 1, sort) + if IsSort(h, hi - 1, sort) then 1 else 0
  }

  lemma LandingAt(st: State, i: nat)
    requires Inv(st) && 0 < i < |st.hist| && st.hist[i].tag.StatusWrite?
    ensures Landing(st.hist[i - 1], st.hist[i])
  {
    assert LegalAt(st.hist, i);
    if ClaimedBy(st.hist[i - 1], st.hist[i].tag.call) {
      ClaimIsValid(st, i - 1);
    }
  }

  ghost predicate OnlyStatus(h: History, lo: nat) {
    forall i :: lo <= i < |h| ==> h[i].tag.StatusWrite?
  }

  lemma StepPaid(st: State, lo: nat, hi: nat)
    requires Inv(st) && 0 < lo < hi <= |st.hist| && st.hist[hi - 1].tag.StatusWrite? && !Settled(st.hist[hi - 1])
    ensures !Settled(st.hist[hi - 2]) && st.hist[hi - 1].spec == st.hist[hi - 2].spec
    ensures var h := st.hist;
            var passive := Count(h, lo, hi, Passive) - Count(h, lo, hi - 1, Passive);
            var enter := Count(h, lo, hi, Enter) - Count(h, lo, hi - 1, Enter);
            var again := Count(h, lo, hi, Again) - Count(h, lo, hi - 1, Again);
            && Rank(h[hi - 1].spec, h[hi - 1].status) + passive <= Rank(h[hi - 2].spec, h[hi - 2].status) + enter
            && passive + enter + again == 1
  {
    LandingAt(st, hi - 1);
  }

  /** Between two versions, the second one unsettled, every passive write is paid for by the rank or by a call that
      enters its retry loop, and nothing has been published. */
  lemma {:induction false} PassivePaid(st: State, lo: nat, hi: nat)
    requires Inv(st) && 0 < lo <= hi <= |st.hist| && OnlyStatus(st.hist, lo) && !Settled(st.hist[hi - 1])
    ensures !Settled(st.hist[lo - 1]) && st.hist[hi - 1].spec == st.hist[lo - 1].spec
    ensures Rank(st.hist[hi - 1].spec, st.hist[hi - 1].status) + Count(st.hist, lo, hi, Passive)
         <= Rank(st.hist[lo - 1].spec, st.hist[lo - 1].status) + Count(st.hist, lo, hi, Enter)
    ensures hi - lo == Count(st.hist, lo, hi, Passive) + Count(st.hist, lo, hi, Enter) + Count(st.hist, lo, hi, Again)
    decreases hi
  {
    if hi > lo {
      StepPaid(st, lo, hi);
      PassivePaid(st, lo, hi - 1);
    }
  }

  /** No call enters its retry loop twice. */
  lemma EnterOnce(st: State, i: nat, j: nat)
    requires Reachable(st) && i < j && IsSort(st.hist, i, Enter) && IsSort(st.hist, j, Enter)
    ensures st.hist[i].tag.call != st.hist[j].tag.call
  {
    ReachableInv(st);
    var x := st.hist[i].tag.call;
    var spec, now, schedule :| st == Exec(Initial(spec, now), schedule);
    var v := EveryCallHasRead(spec, now, schedule, x);
    if IsFinalize(st.hist[i]) {
      assert DoneFinalize(st, i);
    } else if st.hist[j].tag.call == x {
      WritesAreOneBlock(st, x, v, i, j);
    }
  }

  // ---- The bound ----

  ghost predicate NoEdits(more: seq<Action>) {
    forall i :: 0 <= i < |more| ==> !more[i].EditSpec?
  }

  lemma {:induction false} OnlyStatusWithoutEdits(run: seq<State>, more: seq<Action>, j: nat)
    requires IsRun(run, more) && NoEdits(more) && j < |run|
    ensures run[0].hist <= run[j].hist && OnlyStatus(run[j].hist, |run[0].hist|)
    decreases j
  {
    if j > 0 {
      OnlyStatusWithoutEdits(run, more, j - 1);
      assert Follows(run, more, j - 1);
      assert forall i :: 0 <= i < |run[j - 1].hist| ==> run[j].hist[i] == run[j - 1].hist[i];
    }
  }

  /** The rank of the status before version `lo`, two for every call that has entered its retry loop since, and
      one for every claim that was renewed. */
  function Allowance(h: History, lo: nat): nat
    requires 0 < lo <= |h|
  {
    Rank(h[lo - 1].spec, h[lo - 1].status) + 2 * Count(h, lo, |h|, Enter) + Count(h, lo, |h|, Again)
  }

  /** So many versions can be added since version `lo` while the status is unsettled. */
  lemma AllPaid(st: State, lo: nat)
    requires Inv(st) && 0 < lo <= |st.hist| && OnlyStatus(st.hist, lo) && !Settled(Current(st.hist))
    ensures |st.hist| <= lo + Allowance(st.hist, lo)
  {
    PassivePaid(st, lo, |st.hist|);
  }

  /** Convergence with overlapping calls: in any run without spec edits at whose end the status is still unsettled,
      the due calls that read the current version and returned without faults are, for every version that can
      have been added, at most as many as ran at the same time. */
  lemma ConvergesOverlapping(run: seq<State>, more: seq<Action>, k: nat, smooth: set<nat>)
    requires IsRun(run, more) && Reachable(run[0]) && NoEdits(more) && AtMost(run, k)
    requires forall id :: id in smooth ==> Smooth(run, more, id)
    requires !Settled(Current(run[|more|].hist))
    ensures |run[0].hist| <= |run[|more|].hist| <= |run[0].hist| + Allowance(run[|more|].hist, |run[0].hist|)
    ensures |smooth| <= k * Allowance(run[|more|].hist, |run[0].hist|)
  {
    var end := run[|more|];
    RunIsReachable(run, more, |more|);
    ReachableInv(end);
    OnlyStatusWithoutEdits(run, more, |more|);
    AllPaid(end, |run[0].hist|);
    RunsCommitOneByOne(run, more);
    FewWitnesses(run, k);
    forall id | id in smooth ensures id in Witnesses(run) {
      SmoothCallsSeeProgress(run, more, id);
    }
    SubsetSize(smooth, Witnesses(run));
    Scales(k, Added(run), Allowance(end.hist, |run[0].hist|));
  }

  lemma Scales(k: nat, a: nat, b: nat)
    requires a <= b
    ensures k * a <= k * b
  {
  }
}
