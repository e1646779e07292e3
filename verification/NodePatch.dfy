/** The read-merge-write loop that a successful launch runs on the cluster Node. */
module NodePatch {
  import opened Api

  /** `annotations` is None for a nil map; `rest` stands for every field a launch does not touch. */
  datatype Node = Node(
    labels: map<string, string>,
    annotations: Option<map<string, string>>,
    taints: seq<Taint>,
    rest: nat)

  // ---- Taints ----

  predicate Matches(t: Taint, u: Taint) {
    t.key == u.key && t.effect == u.effect
  }

  predicate HasMatch(ts: seq<Taint>, t: Taint) {
    exists u :: u in ts && Matches(t, u)
  }

  function Absorb(ts: seq<Taint>, t: Taint): seq<Taint> {
    if HasMatch(ts, t) then ts else ts + [t]
  }

  /** What the nested loops compute: each spec taint is tested against the growing list. */
  function MergeTaints(ts: seq<Taint>, add: seq<Taint>): seq<Taint>
    decreases |add|
  {
    if add == [] then ts else MergeTaints(Absorb(ts, add[0]), add[1..])
  }

  /** A spec taint is new when neither the node nor an earlier spec taint has its key and effect. */
  predicate Fresh(ts: seq<Taint>, add: seq<Taint>, i: nat)
    requires i < |add|
  {
    !HasMatch(ts, add[i]) && !HasMatch(add[..i], add[i])
  }

  /** The same merge without a growing list: keep the fresh spec taints, in order. */
  function FreshTaints(ts: seq<Taint>, add: seq<Taint>): seq<Taint> {
    if add == [] then []
    else
      var n := |add| - 1;
      FreshTaints(ts, add[..n]) + if Fresh(ts, add, n) then [add[n]] else []
  }

  lemma {:induction false} MergeTaintsSnoc(ts: seq<Taint>, add: seq<Taint>, t: Taint)
    ensures MergeTaints(ts, add + [t]) == Absorb(MergeTaints(ts, add), t)
    decreases |add|
  {
    if add == [] {
      assert (add + [t])[1..] == [];
    } else {
      assert (add + [t])[1..] == add[1..] + [t];
      MergeTaintsSnoc(Absorb(ts, add[0]), add[1..], t);
    }
  }

  lemma {:induction false} FreshTaintsMatch(ts: seq<Taint>, add: seq<Taint>, t: Taint)
    ensures HasMatch(ts + FreshTaints(ts, add), t) <==> HasMatch(ts, t) || HasMatch(add, t)
    decreases |add|
  {
    if add != [] {
      var n := |add| - 1;
      FreshTaintsMatch(ts, add[..n], t);
      FreshTaintsMatch(ts, add[..n], add[n]);
      assert add == add[..n] + [add[n]];
      if Matches(t, add[n]) && !Fresh(ts, add, n) {
        var u :| u in ts + add[..n] && Matches(add[n], u);
      }
    }
  }

  /** The loop over the growing list keeps exactly the fresh spec taints, behind the node's own. */
  lemma {:induction false} MergeTaintsIsFilter(ts: seq<Taint>, add: seq<Taint>)
    ensures MergeTaints(ts, add) == ts + FreshTaints(ts, add)
    decreases |add|
  {
    if add != [] {
      var n := |add| - 1;
      assert add == add[..n] + [add[n]];
      MergeTaintsIsFilter(ts, add[..n]);
      MergeTaintsSnoc(ts, add[..n], add[n]);
      FreshTaintsMatch(ts, add[..n], add[n]);
    }
  }

  /** Every spec taint is covered by key and effect, and nothing else becomes covered. */
  lemma MergeTaintsCovers(ts: seq<Taint>, add: seq<Taint>, t: Taint)
    ensures (exists u :: u in MergeTaints(ts, add) && u.key == t.key && u.effect == t.effect)
       <==> (exists u :: u in ts + add && u.key == t.key && u.effect == t.effect)
  {
    MergeTaintsIsFilter(ts, add);
    FreshTaintsMatch(ts, add, t);
    HasMatchMeans(MergeTaints(ts, add), t);
    HasMatchMeans(ts, t);
    HasMatchMeans(add, t);
  }

  lemma HasMatchMeans(ts: seq<Taint>, t: Taint)
    ensures HasMatch(ts, t) <==> exists u :: u in ts && u.key == t.key && u.effect == t.effect
  {
    if HasMatch(ts, t) {
      var u :| u in ts && Matches(t, u);
      assert u.key == t.key;
    }
    if exists u :: u in ts && u.key == t.key && u.effect == t.effect {
      var u :| u in ts && u.key == t.key && u.effect == t.effect;
      assert Matches(t, u);
    }
  }

  /** Spec taint `i` has a key and effect that no taint of the node and no earlier spec taint has. */
  predicate NewTaint(ts: seq<Taint>, add: seq<Taint>, i: nat)
    requires i < |add|
  {
    && (forall k :: 0 <= k < |ts| ==> ts[k].key != add[i].key || ts[k].effect != add[i].effect)
    && (forall k :: 0 <= k < i ==> add[k].key != add[i].key || add[k].effect != add[i].effect)
  }

  lemma FreshIsNew(ts: seq<Taint>, add: seq<Taint>, i: nat)
    requires i < |add|
    ensures Fresh(ts, add, i) <==> NewTaint(ts, add, i)
  {
    HasMatchMeans(ts, add[i]);
    HasMatchMeans(add[..i], add[i]);
    if NewTaint(ts, add, i) {
      assert forall u :: u in add[..i] ==> u.key != add[i].key || u.effect != add[i].effect;
    } else {
      assert forall k :: 0 <= k < i ==> add[k] in add[..i];
    }
  }

  /** The positions `idx` go up, and are those of the new spec taints. */
  predicate NewPositions(ts: seq<Taint>, add: seq<Taint>, idx: seq<nat>) {
    && (forall j :: 0 <= j < |idx| ==> idx[j] < |add|)
    && (forall j, k :: 0 <= j < k < |idx| ==> idx[j] < idx[k])
    && (forall i :: 0 <= i < |add| ==> (i in idx <==> NewTaint(ts, add, i)))
  }

  /** `merged` is the taints of the node and then those at the positions `idx` of the spec. */
  predicate AppendedAt(ts: seq<Taint>, add: seq<Taint>, idx: seq<nat>, merged: seq<Taint>) {
    && ts <= merged && |merged| == |ts| + |idx|
    && forall j :: 0 <= j < |idx| ==> idx[j] < |add| && merged[|ts| + j] == add[idx[j]]
  }

  lemma MorePositions(ts: seq<Taint>, add: seq<Taint>, before: seq<nat>)
    requires add != [] && NewPositions(ts, add[..|add| - 1], before)
    ensures NewPositions(ts, add, before + if NewTaint(ts, add, |add| - 1) then [|add| - 1] else [])
  {
    var n := |add| - 1;
    var idx := before + if NewTaint(ts, add, n) then [n] else [];
    forall i | 0 <= i < |add| ensures i in idx <==> NewTaint(ts, add, i) {
      if i < n {
        assert forall k :: 0 <= k <= i ==> add[..n][k] == add[k];
      }
    }
  }

  /** The taints of the node stay in front, and behind them come exactly the new spec taints, in the order of
      the spec. */
  lemma {:induction false} MergeTaintsAppends(ts: seq<Taint>, add: seq<Taint>) returns (idx: seq<nat>)
    ensures NewPositions(ts, add, idx) && AppendedAt(ts, add, idx, MergeTaints(ts, add))
    decreases |add|
  {
    MergeTaintsIsFilter(ts, add);
    idx := [];
    if add != [] {
      var n := |add| - 1;
      MergeTaintsIsFilter(ts, add[..n]);
      idx := MergeTaintsAppends(ts, add[..n]);
      MorePositions(ts, add, idx);
      FreshIsNew(ts, add, n);
      idx := idx + if NewTaint(ts, add, n) then [n] else [];
    }
  }

  /** No added taint repeats the key and effect of any other taint of the result. */
  lemma {:induction false} MergeTaintsAddsNoSecond(ts: seq<Taint>, add: seq<Taint>, i: nat, j: nat)
    requires i < j < |MergeTaints(ts, add)| && |ts| <= j
    ensures var t, u := MergeTaints(ts, add)[j], MergeTaints(ts, add)[i];
            t.key != u.key || t.effect != u.effect
    decreases |add|
  {
    MergeTaintsIsFilter(ts, add);
    if add != [] {
      var n := |add| - 1;
      var short := ts + FreshTaints(ts, add[..n]);
      MergeTaintsIsFilter(ts, add[..n]);
      if j < |short| {
        MergeTaintsAddsNoSecond(ts, add[..n], i, j);
      } else {
        FreshTaintsMatch(ts, add[..n], add[n]);
        HasMatchMeans(short, add[n]);
        assert short[i] in short;
      }
    }
  }

  lemma {:induction false} MergeTaintsCovered(ts: seq<Taint>, add: seq<Taint>)
    requires forall t :: t in add ==> HasMatch(ts, t)
    ensures MergeTaints(ts, add) == ts
    decreases |add|
  {
    if add != [] {
      assert add[0] in add;
      MergeTaintsCovered(ts, add[1..]);
    }
  }

  lemma MergeTaintsIdempotent(ts: seq<Taint>, add: seq<Taint>)
    ensures MergeTaints(MergeTaints(ts, add), add) == MergeTaints(ts, add)
  {
    forall t | t in add ensures HasMatch(MergeTaints(ts, add), t) {
      assert Matches(t, t);
      MergeTaintsIsFilter(ts, add);
      FreshTaintsMatch(ts, add, t);
    }
    MergeTaintsCovered(MergeTaints(ts, add), add);
  }

  // ---- The whole patch ----

  /** None is the write to a nil annotation map, which panics. */
  function Merge(n: Node, p: Patch): Option<Node> {
    if n.annotations.None? && p.annotations != map[] then None
    else
      Some(Node(
             n.labels + p.labels,
             if n.annotations.None? then None else Some(n.annotations.value + p.annotations),
             MergeTaints(n.taints, p.taints),
             n.rest))
  }

  /** `m` has the keys of both maps, with the values of `p` where it has any and those of `n` elsewhere. */
  ghost predicate Overridden(n: map<string, string>, p: map<string, string>, m: map<string, string>) {
    && (forall k :: k in m <==> k in n || k in p)
    && (forall k :: k in p ==> m[k] == p[k])
    && (forall k :: k in n && k !in p ==> m[k] == n[k])
  }

  /** What a patch does to a Node: the spec's labels and annotations override, its new taints are added, and all
      else stays. */
  ghost predicate Patched(n: Node, p: Patch, m: Node) {
    && Overridden(n.labels, p.labels, m.labels)
    && (n.annotations.None? ==> m.annotations.None? && p.annotations == map[])
    && (n.annotations.Some? ==>
          m.annotations.Some? && Overridden(n.annotations.value, p.annotations, m.annotations.value))
    && m.taints == n.taints + FreshTaints(n.taints, p.taints)
    && m.rest == n.rest
  }

  /** The patch is defined unless annotations meet a nil map, and there is one Node that it results in. */
  lemma MergeMeans(n: Node, p: Patch)
    ensures Merge(n, p).None? <==> n.annotations.None? && p.annotations != map[]
    ensures Merge(n, p).Some? ==> Patched(n, p, Merge(n, p).value)
    ensures forall m :: Patched(n, p, m) ==> Merge(n, p) == Some(m)
  {
    MergeTaintsIsFilter(n.taints, p.taints);
    forall m | Patched(n, p, m) ensures Merge(n, p) == Some(m) {
      assert m.labels == n.labels + p.labels;
      if n.annotations.Some? {
        assert m.annotations.value == n.annotations.value + p.annotations;
      }
    }
  }

  /** Applying the patch to an already patched Node changes nothing. */
  lemma MergeIdempotent(n: Node, p: Patch)
    requires Merge(n, p).Some?
    ensures Merge(Merge(n, p).value, p) == Merge(n, p)
  {
    MergeTaintsIdempotent(n.taints, p.taints);
    var m := Merge(n, p).value;
    assert m.labels + p.labels == m.labels;
    if n.annotations.Some? {
      assert m.annotations.value + p.annotations == m.annotations.value;
    }
  }

  // ---- Optimistic concurrency on the Node ----

  /** How the server answers an update: normally, or with an error although it may have applied it. */
  datatype Reply = Answered | Lost(applied: bool)

  /** One run of the retried closure: the version its Get returns (None: the Get fails), the
      versions other writers commit before its Update arrives, and the answer. */
  datatype Try = Try(read: Option<nat>, others: seq<Node>, reply: Reply)

  /** retry.DefaultBackoff allows four tries. */
  const TRIES: nat := 4

  type Tries = ts: seq<Try> | |ts| == TRIES
    witness seq(TRIES, i => Try(None, [], Answered))

  datatype UpdateResult = Updated | UpdateFailed | UpdatePanicked

  datatype Update = Update(nodes: seq<Node>, result: UpdateResult)

  /** The committed versions and the result after the tries from number `i` on. */
  function RunTries(nodes: seq<Node>, p: Patch, tries: Tries, i: nat): Update
    requires i <= TRIES
    decreases TRIES - i, tries
  {
    if i == TRIES then Update(nodes, UpdateFailed)
    else
      var t := tries[i];
      if t.read.None? || t.read.value >= |nodes| then Update(nodes, UpdateFailed)
      else
        var merged := Merge(nodes[t.read.value], p);
        if merged.None? then Update(nodes, UpdatePanicked)
        else
          var all := nodes + t.others;
          var current := t.read.value == |all| - 1;
          match t.reply
          case Lost(applied) =>
            Update(if current && applied then all + [merged.value] else all, UpdateFailed)
          case Answered =>
            if current then Update(all + [merged.value], Updated)
            else RunTries(all, p, tries, i + 1)
  }

  /** The versions other writers commit during tries `i` to `k`. */
  function OthersBetween(tries: Tries, i: nat, k: nat): seq<Node>
    requires i <= k <= TRIES
    decreases k - i
  {
    if i == k then [] else tries[i].others + OthersBetween(tries, i + 1, k)
  }

  /** On top of `nodes`, `u` has all of `others`, the versions that other writers committed, in order, and
      then at most one version of its own: the merge of the version it directly follows. */
  ghost predicate Interleaved(nodes: seq<Node>, p: Patch, others: seq<Node>, own: seq<Node>, u: Update) {
    && u.nodes == nodes + others + own
    && |own| <= 1
    && (u.result.Updated? ==> own != [])
    && (own != [] ==> |u.nodes| >= 2 && Merge(u.nodes[|u.nodes| - 2], p) == Some(own[0]))
  }

  lemma InterleavedLater(nodes: seq<Node>, p: Patch, first: seq<Node>, others: seq<Node>, own: seq<Node>, u: Update)
    requires Interleaved(nodes + first, p, others, own, u)
    ensures Interleaved(nodes, p, first + others, own, u)
  {
    assert nodes + first + others + own == nodes + (first + others) + own;
  }

  /** No lost update: whatever interleaves, the versions of the other writers all survive, in order, this
      loop commits at most one version (in try `k - 1`), that version is the merge of the one it directly
      follows, and success is reported only when it was committed. */
  lemma {:induction false} NoLostUpdate(nodes: seq<Node>, p: Patch, tries: Tries, i: nat)
    returns (k: nat, own: seq<Node>)
    requires i <= TRIES
    ensures i <= k <= TRIES
    ensures Interleaved(nodes, p, OthersBetween(tries, i, k), own, RunTries(nodes, p, tries, i))
    decreases TRIES - i
  {
    k, own := i, [];
    if i == TRIES || tries[i].read.None? || tries[i].read.value >= |nodes| {
      return;
    }
    var t := tries[i];
    var all := nodes + t.others;
    if Merge(nodes[t.read.value], p).None? {
      return;
    }
    if t.read.value != |all| - 1 && t.reply.Answered? {
      k, own := NoLostUpdate(all, p, tries, i + 1);
      InterleavedLater(nodes, p, t.others, OthersBetween(tries, i + 1, k), own, RunTries(all, p, tries, i + 1));
      return;
    }
    k := i + 1;
    assert OthersBetween(tries, i, k) == t.others;
    if t.read.value == |all| - 1 && (t.reply.Answered? || t.reply.applied) {
      var m := Merge(nodes[t.read.value], p).value;
      own := [m];
      assert all[|all| - 1] == nodes[t.read.value];
    }
  }

  /** A successful loop leaves the latest other version, patched, and patching it again is a no-op. */
  lemma UpdateSticks(nodes: seq<Node>, p: Patch, tries: Tries)
    requires RunTries(nodes, p, tries, 0).result.Updated?
    ensures var h := RunTries(nodes, p, tries, 0).nodes;
            && |h| >= 2
            && Patched(h[|h| - 2], p, h[|h| - 1])
            && Merge(h[|h| - 1], p) == Some(h[|h| - 1])
  {
    var u := RunTries(nodes, p, tries, 0);
    var k, own := NoLostUpdate(nodes, p, tries, 0);
    MergedLast(nodes, p, OthersBetween(tries, 0, k), own, u);
    PatchSticks(u.nodes[|u.nodes| - 2], p, u.nodes[|u.nodes| - 1]);
  }

  lemma MergedLast(nodes: seq<Node>, p: Patch, others: seq<Node>, own: seq<Node>, u: Update)
    requires Interleaved(nodes, p, others, own, u) && u.result.Updated?
    ensures |u.nodes| >= 2 && Merge(u.nodes[|u.nodes| - 2], p) == Some(u.nodes[|u.nodes| - 1])
  {
    assert u.nodes[|u.nodes| - 1] == own[0];
  }

  lemma PatchSticks(n: Node, p: Patch, m: Node)
    requires Merge(n, p) == Some(m)
    ensures Patched(n, p, m) && Merge(m, p) == Some(m)
  {
    MergeMeans(n, p);
    MergeIdempotent(n, p);
  }

  /** The versions there are when try `k` reads, if all tries since `i` were conflicts. */
  function Known(nodes: seq<Node>, tries: Tries, i: nat, k: nat): seq<Node>
    requires i <= k <= TRIES
  {
    nodes + OthersBetween(tries, i, k)
  }

  predicate ReadsVersion(t: Try, known: seq<Node>) {
    t.read.Some? && t.read.value < |known|
  }

  predicate ReadsNil(t: Try, known: seq<Node>) {
    ReadsVersion(t, known) && known[t.read.value].annotations.None?
  }

  /** The try reads a version that it can patch, and its update finds another one stored. Only this is retried. */
  predicate Conflicts(t: Try, p: Patch, known: seq<Node>) {
    && ReadsVersion(t, known) && (ReadsNil(t, known) ==> p.annotations == map[])
    && t.reply.Answered? && t.read.value != |known + t.others| - 1
  }

  /** The try reads the version that is still stored when its update arrives, and the update is answered. */
  predicate Wins(t: Try, p: Patch, known: seq<Node>) {
    && ReadsVersion(t, known) && (ReadsNil(t, known) ==> p.annotations == map[])
    && t.reply.Answered? && t.read.value == |known + t.others| - 1
  }

  /** There are four tries, and this one comes after conflicts only. */
  ghost predicate Reached(nodes: seq<Node>, p: Patch, tries: Tries, i: nat, k: nat) {
    && i <= k < 4
    && (forall j :: i <= j < k ==> Conflicts(tries[j], p, Known(nodes, tries, i, j)))
  }

  ghost predicate MeetsNil(nodes: seq<Node>, p: Patch, tries: Tries, i: nat, k: nat) {
    Reached(nodes, p, tries, i, k) && ReadsNil(tries[k], Known(nodes, tries, i, k))
  }

  ghost predicate WinsAt(nodes: seq<Node>, p: Patch, tries: Tries, i: nat, k: nat) {
    Reached(nodes, p, tries, i, k) && Wins(tries[k], p, Known(nodes, tries, i, k))
  }

  ghost predicate MeetsSomeNil(nodes: seq<Node>, p: Patch, tries: Tries, i: nat) {
    p.annotations != map[] && exists k: nat :: MeetsNil(nodes, p, tries, i, k)
  }

  ghost predicate WinsSome(nodes: seq<Node>, p: Patch, tries: Tries, i: nat) {
    exists k: nat :: WinsAt(nodes, p, tries, i, k)
  }

  lemma KnownLater(nodes: seq<Node>, tries: Tries, i: nat, k: nat)
    requires i < k <= TRIES
    ensures Known(nodes, tries, i, k) == Known(nodes + tries[i].others, tries, i + 1, k)
  {
    assert nodes + (tries[i].others + OthersBetween(tries, i + 1, k))
        == nodes + tries[i].others + OthersBetween(tries, i + 1, k);
  }

  /** A later try is reached from `i` on exactly when try `i` is a conflict and it is reached from there. */
  lemma ReachedLater(nodes: seq<Node>, p: Patch, tries: Tries, i: nat, k: nat)
    requires i < k < TRIES
    ensures Reached(nodes, p, tries, i, k)
       <==> Conflicts(tries[i], p, nodes) && Reached(nodes + tries[i].others, p, tries, i + 1, k)
    ensures Known(nodes, tries, i, k) == Known(nodes + tries[i].others, tries, i + 1, k)
  {
    var all := nodes + tries[i].others;
    assert Known(nodes, tries, i, i) == nodes;
    KnownLater(nodes, tries, i, k);
    forall j | i < j < k ensures Known(nodes, tries, i, j) == Known(all, tries, i + 1, j) {
      KnownLater(nodes, tries, i, j);
    }
  }

  lemma NilNowOrLater(nodes: seq<Node>, p: Patch, tries: Tries, i: nat)
    requires i < TRIES && p.annotations != map[]
    ensures MeetsSomeNil(nodes, p, tries, i)
       <==> ReadsNil(tries[i], nodes)
            || (Conflicts(tries[i], p, nodes) && MeetsSomeNil(nodes + tries[i].others, p, tries, i + 1))
  {
    assert Known(nodes, tries, i, i) == nodes;
    if ReadsNil(tries[i], nodes) {
      assert MeetsNil(nodes, p, tries, i, i);
    }
    if MeetsSomeNil(nodes, p, tries, i) {
      var k: nat :| MeetsNil(nodes, p, tries, i, k);
      if k > i {
        ReachedLater(nodes, p, tries, i, k);
        assert MeetsNil(nodes + tries[i].others, p, tries, i + 1, k);
      }
    }
    if Conflicts(tries[i], p, nodes) && MeetsSomeNil(nodes + tries[i].others, p, tries, i + 1) {
      var k: nat :| MeetsNil(nodes + tries[i].others, p, tries, i + 1, k);
      ReachedLater(nodes, p, tries, i, k);
      assert MeetsNil(nodes, p, tries, i, k);
    }
  }

  lemma WinNowOrLater(nodes: seq<Node>, p: Patch, tries: Tries, i: nat)
    requires i < TRIES
    ensures WinsSome(nodes, p, tries, i)
       <==> Wins(tries[i], p, nodes)
            || (Conflicts(tries[i], p, nodes) && WinsSome(nodes + tries[i].others, p, tries, i + 1))
  {
    assert Known(nodes, tries, i, i) == nodes;
    if Wins(tries[i], p, nodes) {
      assert WinsAt(nodes, p, tries, i, i);
    }
    if WinsSome(nodes, p, tries, i) {
      var k: nat :| WinsAt(nodes, p, tries, i, k);
      if k > i {
        ReachedLater(nodes, p, tries, i, k);
        assert WinsAt(nodes + tries[i].others, p, tries, i + 1, k);
      }
    }
    if Conflicts(tries[i], p, nodes) && WinsSome(nodes + tries[i].others, p, tries, i + 1) {
      var k: nat :| WinsAt(nodes + tries[i].others, p, tries, i + 1, k);
      ReachedLater(nodes, p, tries, i, k);
      assert WinsAt(nodes, p, tries, i, k);
    }
  }

  /** The loop panics exactly when the patch has annotations and a try that is reached reads a version with a
      nil annotation map. */
  lemma {:induction false} PanicsExactlyOnNil(nodes: seq<Node>, p: Patch, tries: Tries, i: nat)
    requires i <= TRIES
    ensures RunTries(nodes, p, tries, i).result.UpdatePanicked? <==> MeetsSomeNil(nodes, p, tries, i)
    decreases TRIES - i
  {
    if i < TRIES {
      PanicsExactlyOnNil(nodes + tries[i].others, p, tries, i + 1);
      if p.annotations != map[] {
        NilNowOrLater(nodes, p, tries, i);
      }
    }
  }

  /** The loop succeeds exactly when one of its four tries reads the version that is still stored when its update
      arrives, that update is answered, and all tries before were conflicts. Anything else that does not panic
      is an error: an error of the read or the update ends the loop, and so do four conflicts. */
  lemma {:induction false} UpdatesExactlyOnWin(nodes: seq<Node>, p: Patch, tries: Tries, i: nat)
    requires i <= TRIES
    ensures RunTries(nodes, p, tries, i).result.Updated? <==> WinsSome(nodes, p, tries, i)
    decreases TRIES - i
  {
    if i < TRIES {
      UpdatesExactlyOnWin(nodes + tries[i].others, p, tries, i + 1);
      WinNowOrLater(nodes, p, tries, i);
    }
  }

  // ---- The imperative form ----

  /** The local copy of the Node that the closure edits in place. */
  class NodeObject {
    var version: nat
    var labels: map<string, string>
    var annotations: Option<map<string, string>>
    var taints: seq<Taint>
    var rest: nat

    constructor ()
      ensures taints == []
    {
      version, labels, annotations, taints, rest := 0, map[], None, [], 0;
    }

    function Value(): Node
      reads this
    {
      Node(labels, annotations, taints, rest)
    }

    method AddTaints(add: seq<Taint>)
      modifies this`taints
      ensures taints == MergeTaints(old(taints), add)
    {
      for i := 0 to |add|
        invariant taints == MergeTaints(old(taints), add[..i])
      {
        var existed := false;
        var j := 0;
        while j < |taints| && !existed
          invariant 0 <= j <= |taints|
          invariant existed ==> HasMatch(taints, add[i])
          invariant !existed ==> !HasMatch(taints[..j], add[i])
        {
          if Matches(add[i], taints[j]) {
            assert taints[j] in taints;
            existed := true;
          }
          j := j + 1;
        }
        assert !existed ==> taints[..j] == taints;
        assert add[..i + 1] == add[..i] + [add[i]];
        MergeTaintsSnoc(old(taints), add[..i], add[i]);
        if !existed {
          taints := taints + [add[i]];
        }
      }
      assert add[..|add|] == add;
    }

    /** Ranging over a Go map visits the keys in any order. */
    method AddAnnotations(add: map<string, string>) returns (panicked: bool)
      modifies this`annotations
      ensures panicked <==> old(annotations).None? && add != map[]
      ensures old(annotations).None? ==> annotations.None?
      ensures old(annotations).Some? ==> annotations == Some(old(annotations).value + add)
    {
      var todo := add.Keys;
      var done: map<string, string> := map[];
      panicked := false;
      assert annotations.Some? ==> annotations.value == annotations.value + done;
      while todo != {}
        invariant todo <= add.Keys
        invariant done == map k | k in add && k !in todo :: add[k]
        invariant old(annotations).Some? ==> annotations == Some(old(annotations).value + done)
        invariant old(annotations).None? ==> annotations.None? && todo == add.Keys
        decreases todo
      {
        if annotations.None? {
          return true;
        }
        var k :| k in todo;
        assert (old(annotations).value + done)[k := add[k]] == old(annotations).value + done[k := add[k]];
        annotations := Some(annotations.value[k := add[k]]);
        done := done[k := add[k]];
        todo := todo - {k};
      }
      assert done == add;
    }

    method Patch(p: Patch) returns (panicked: bool)
      modifies this
      ensures version == old(version)
      ensures panicked <==> Merge(old(Value()), p).None?
      ensures !panicked ==> Some(Value()) == Merge(old(Value()), p)
    {
      labels := labels + p.labels;
      AddTaints(p.taints);
      panicked := AddAnnotations(p.annotations);
    }
  }

  /** The API server's side of the Node: every version ever committed, the last being the stored one. */
  class NodeStore {
    var nodes: seq<Node>

    constructor (nodes: seq<Node>)
      ensures this.nodes == nodes
    {
      this.nodes := nodes;
    }

    method Get(t: Try, node: NodeObject) returns (err: bool)
      modifies node
      ensures err <==> t.read.None? || t.read.value >= |nodes|
      ensures !err ==> node.version == t.read.value && node.Value() == nodes[node.version]
    {
      if t.read.None? || t.read.value >= |nodes| {
        return true;
      }
      var n := nodes[t.read.value];
      node.version, node.labels, node.annotations, node.taints, node.rest :=
        t.read.value, n.labels, n.annotations, n.taints, n.rest;
      err := false;
    }

    /** Other writers may commit before the conditional update is decided. */
    method Put(t: Try, node: NodeObject) returns (err: bool, conflict: bool)
      modifies this
      ensures var all := old(nodes) + t.others;
              var current := node.version == |all| - 1;
              && (err <==> t.reply.Lost? || !current)
              && (conflict <==> t.reply.Answered? && !current)
              && nodes == if current && (t.reply.Answered? || t.reply.applied) then all + [node.Value()] else all
    {
      nodes := nodes + t.others;
      var current := node.version == |nodes| - 1;
      if current && (t.reply.Answered? || t.reply.applied) {
        nodes := nodes + [node.Value()];
      }
      err := t.reply.Lost? || !current;
      conflict := t.reply.Answered? && !current;
    }

    /** The closure under RetryOnConflict. */
    method UpdateNode(p: Patch, tries: Tries) returns (result: UpdateResult)
      modifies this
      ensures Update(nodes, result) == RunTries(old(nodes), p, tries, 0)
    {
      var node := new NodeObject();
      var i := 0;
      while i < TRIES
        invariant 0 <= i <= TRIES
        invariant fresh(node)
        invariant RunTries(nodes, p, tries, i) == RunTries(old(nodes), p, tries, 0)
      {
        var err := Get(tries[i], node);
        if err {
          return UpdateFailed;
        }
        var panicked := node.Patch(p);
        if panicked {
          return UpdatePanicked;
        }
        var conflict;
        err, conflict := Put(tries[i], node);
        if !err {
          return Updated;
        }
        if !conflict {
          return UpdateFailed;
        }
        i := i + 1;
      }
      result := UpdateFailed;
    }
  }
}
