/** What a stored status says about the operations that were run, over whole runs. */
module Truth {
  import opened Api
  import opened Operations
  import opened Protocol
  import opened Invariant
  import opened Fencing

  /** The last operation that call `id` completed. */
  function LastOp(ops: seq<Operation>, id: nat): Option<Operation> {
    if ops == [] then None
    else if ops[|ops| - 1].call == id then Some(ops[|ops| - 1])
    else LastOp(ops[..|ops| - 1], id)
  }

  function Says(o: Operation): NodeStatus {
    Outcome(o.kind, o.success)
  }

  /** An operation recorded as successful really returned true without an error. */
  predicate Honest(o: Operation) {
    o.success ==>
      match o.kind
      case Launch => LaunchResult(o.spec, o.env.launch) == Returned(true, false)
      case Deprecate => DeprecateResult(o.spec, o.env.deprecate) == Returned(true, false)
  }

  /** The status being written, against the last completed operation of the writing call. */
  predicate SaysLast(h: History, ops: seq<Operation>, id: nat, base: int, s: NodeStatus)
    requires 0 <= base < |h|
  {
    match LastOp(ops, id)
    case None => s == Unknown && !ClaimedBy(h[base], id)
    case Some(o) => s == Says(o) && o.claim == base && ClaimedBy(h[base], id)
  }

  ghost predicate CallTruth(st: State, id: nat, c: Call) {
    && c.obj.version < |st.hist|
    && var last := LastOp(st.ops, id);
       match c.pc
       case Finished(_) => true
       case Deciding => last == None
       case Operating =>
         && (forall k :: 0 <= k < |st.ops| && st.ops[k].call == id ==> st.ops[k].claim < c.obj.version)
         && c.captured == (if last.None? then Unknown else Says(last.value))
       case Preparing => SaysLast(st.hist, st.ops, id, c.obj.version, c.captured)
       case Writing(kind) =>
         if !InLoop(kind) then last == None
         else SaysLast(st.hist, st.ops, id, c.obj.version, c.captured)
  }

  /** The same of an update that is on its way or has taken effect on top of version `base`. */
  ghost predicate WriteTruth(st: State, id: nat, kind: WriteKind, base: int, s: NodeStatus)
    requires 0 <= base < |st.hist|
  {
    && (!InLoop(kind) ==> Over(st, id) && LastOp(st.ops, id) == None)
    && (kind.FinalizeWrite? ==> Over(st, id) && SaysLast(st.hist, st.ops, id, base, s))
  }

  ghost predicate EntryTruth(st: State, j: int)
    requires 0 < j < |st.hist|
  {
    st.hist[j].tag.StatusWrite? ==>
      WriteTruth(st, st.hist[j].tag.call, st.hist[j].tag.kind, j - 1, st.hist[j].status)
  }

  /** The operation was run under a claim of its own call, and is what the spec of that version asks for. */
  predicate UnderClaim(h: History, o: Operation) {
    && o.claim < |h| && ClaimedBy(h[o.claim], o.call)
    && h[o.claim].spec == o.spec && o.kind == KindOf(o.spec.nodeStatus)
  }

  ghost predicate OpsTruth(st: State) {
    && (forall k :: 0 <= k < |st.ops| ==> Honest(st.ops[k]) && UnderClaim(st.hist, st.ops[k]))
    && (NoFallback(st.hist) ==> forall k :: 0 <= k < |st.ops| ==> st.ops[k].claim <= st.ops[|st.ops| - 1].claim)
  }

  /** The stored status tells the truth about the last completed operation of all. */
  ghost predicate StatusTruth(st: State) {
    var s := Current(st.hist).status;
    s == Active || s == Inactive ==> st.ops != [] && Says(st.ops[|st.ops| - 1]) == s
  }

  ghost predicate TruthInv(st: State) {
    && (forall id :: id in st.calls ==> CallTruth(st, id, st.calls[id]))
    && (forall r :: r in st.inflight && r.base < |st.hist| ==> WriteTruth(st, r.call, r.kind, r.base, r.status))
    && (forall j {:trigger EntryTruth(st, j)} :: 0 < j < |st.hist| ==> EntryTruth(st, j))
    && OpsTruth(st)
    && (NoFallback(st.hist) ==> StatusTruth(st))
  }

  ghost predicate AllInv(st: State) {
    Inv(st) && FenceInv(st) && TruthInv(st)
  }

  // ---- Steps that complete no operation ----

  /** `after` has the same operations and at least the history of `before`, and calls that had returned have not
      come back. */
  ghost predicate SameOps(before: State, after: State) {
    && before.hist <= after.hist && after.ops == before.ops
    && (forall k: nat :: k < before.next && Over(before, k) ==> Over(after, k))
  }

  lemma CallTruthFrame(before: State, after: State, id: nat, c: Call)
    requires SameOps(before, after) && CallTruth(before, id, c)
    ensures CallTruth(after, id, c)
  {
    assert after.hist[c.obj.version] == before.hist[c.obj.version];
  }

  lemma WriteTruthFrame(before: State, after: State, id: nat, kind: WriteKind, base: int, s: NodeStatus)
    requires SameOps(before, after) && id < before.next
    requires 0 <= base < |before.hist| && WriteTruth(before, id, kind, base, s)
    ensures WriteTruth(after, id, kind, base, s)
  {
    assert after.hist[base] == before.hist[base];
  }

  lemma OldEntriesTruth(before: State, after: State)
    requires Inv(before) && TruthInv(before) && SameOps(before, after)
    ensures forall j {:trigger EntryTruth(after, j)} :: 0 < j < |before.hist| ==> EntryTruth(after, j)
    ensures forall r :: r in before.inflight ==>
            r.base < |after.hist| && WriteTruth(after, r.call, r.kind, r.base, r.status)
  {
    forall j {:trigger EntryTruth(after, j)} | 0 < j < |before.hist| ensures EntryTruth(after, j) {
      assert EntryTruth(before, j) && after.hist[j] == before.hist[j];
      if after.hist[j].tag.StatusWrite? {
        WriteTruthFrame(before, after, after.hist[j].tag.call, after.hist[j].tag.kind, j - 1, after.hist[j].status);
      }
    }
    forall r | r in before.inflight
      ensures r.base < |after.hist| && WriteTruth(after, r.call, r.kind, r.base, r.status)
    {
      assert LegalRequest(before.hist, r, before.clock);
      WriteTruthFrame(before, after, r.call, r.kind, r.base, r.status);
    }
  }

  lemma {:induction false} NoOpsOfLaterCalls(ops: seq<Operation>, id: nat)
    requires forall k :: 0 <= k < |ops| ==> ops[k].call < id
    ensures LastOp(ops, id) == None
    decreases |ops|
  {
    if ops != [] {
      NoOpsOfLaterCalls(ops[..|ops| - 1], id);
    }
  }

  lemma {:induction false} LastOpIsOne(ops: seq<Operation>, id: nat)
    ensures LastOp(ops, id) == None ==> forall k :: 0 <= k < |ops| ==> ops[k].call != id
    ensures LastOp(ops, id).Some? ==> LastOp(ops, id).value.call == id && LastOp(ops, id).value in ops
    decreases |ops|
  {
    if ops != [] {
      LastOpIsOne(ops[..|ops| - 1], id);
    }
  }

  lemma OpsTruthFrame(before: State, after: State)
    requires OpsTruth(before) && SameOps(before, after)
    ensures OpsTruth(after)
  {
    assert forall i :: 0 <= i < |before.hist| ==> after.hist[i] == before.hist[i];
  }

  /** No new version but a spec edit, and every call is accounted for. */
  lemma QuietTruth(before: State, after: State)
    requires AllInv(before) && SameOps(before, after)
    requires || after.hist == before.hist
             || (exists e ::
                   after.hist == before.hist + [e] && e.tag.SpecEdit? && e.status == Current(before.hist).status)
    requires after.inflight == before.inflight
    requires forall id :: id in after.calls ==> CallTruth(after, id, after.calls[id])
    ensures TruthInv(after)
  {
    OldEntriesTruth(before, after);
    FallbacksStay(before.hist, after.hist);
    OpsTruthFrame(before, after);
  }

  lemma KeptCallTruth(before: State, after: State, id: nat)
    requires AllInv(before) && SameOps(before, after) && id in before.calls
    ensures CallTruth(after, id, before.calls[id])
  {
    assert CallTruth(before, id, before.calls[id]);
    CallTruthFrame(before, after, id, before.calls[id]);
  }

  lemma StartKeepsTruth(st: State, version: nat)
    requires AllInv(st)
    ensures TruthInv(Step(st, Start(version)))
  {
    var after := Step(st, Start(version));
    forall id | id in after.calls ensures CallTruth(after, id, after.calls[id]) {
      if id in st.calls {
        KeptCallTruth(st, after, id);
      } else {
        NoOpsOfLaterCalls(st.ops, id);
      }
    }
    QuietTruth(st, after);
  }

  lemma EditKeepsTruth(st: State, spec: Spec)
    requires AllInv(st)
    ensures TruthInv(Step(st, EditSpec(spec)))
  {
    var after := Step(st, EditSpec(spec));
    forall id | id in after.calls ensures CallTruth(after, id, after.calls[id]) {
      KeptCallTruth(st, after, id);
    }
    assert after.hist == st.hist + [Current(after.hist)];
    QuietTruth(st, after);
  }

  lemma LocalStepKeepsTruth(st: State, a: Action)
    requires AllInv(st)
    requires a.Tick? || a.Read? || a.Stamp? || a.Crash?
    ensures TruthInv(Step(st, a))
  {
    var after := Step(st, a);
    forall id | id in after.calls ensures CallTruth(after, id, after.calls[id]) {
      LocalCallTruth(st, a, id);
    }
    LocalStepIsQuiet(st, a);
    QuietTruth(st, after);
  }

  lemma LocalStepIsQuiet(st: State, a: Action)
    requires a.Tick? || a.Read? || a.Stamp? || a.Crash?
    ensures SameOps(st, Step(st, a)) && Step(st, a).hist == st.hist && Step(st, a).inflight == st.inflight
  {
  }

  lemma LocalCallTruth(st: State, a: Action, id: nat)
    requires AllInv(st) && id in Step(st, a).calls
    requires a.Tick? || a.Read? || a.Stamp? || a.Crash?
    ensures CallTruth(Step(st, a), id, Step(st, a).calls[id])
  {
    LocalStepIsQuiet(st, a);
    assert CallTruth(st, id, st.calls[id]);
    if a.Read? && id == a.id && At(st, id, Deciding) {
      FreshCallTruth(st, id);
    } else if a.Stamp? && id == a.id && At(st, id, Preparing) {
      ClaimCallTruth(st, id, st.calls[id]);
    } else {
      assert Step(st, a).calls[id] == st.calls[id];
    }
    CallTruthFrame(st, Step(st, a), id, Step(st, a).calls[id]);
  }

  lemma ClaimCallTruth(st: State, id: nat, c: Call)
    requires CallTruth(st, id, c) && c.pc.Preparing?
    ensures CallTruth(st, id, Claim(c, st.clock))
  {
  }

  /** A call that gets into the retry loop has no claim yet. */
  lemma FreshCallTruth(st: State, id: nat)
    requires AllInv(st) && At(st, id, Deciding)
    ensures CallTruth(st, id, Decide(st.calls[id], st.clock))
  {
    assert CallTruth(st, id, st.calls[id]) && CallInv(st, id, st.calls[id]) && OwnerInv(st, id, st.calls[id]);
  }

  lemma FallbacksStay(h: History, h': History)
    requires h <= h'
    ensures NoFallback(h') ==> NoFallback(h)
  {
    assert forall i :: 0 <= i < |h| ==> h'[i] == h[i];
  }

  // ---- Updates that take effect ----

  /** In a run without fallbacks, a call that has completed the operation of the current claim has completed the
      last one. */
  lemma ClaimHolderIsLast(st: State, o: Operation)
    requires Inv(st) && OpsTruth(st) && NoFallback(st.hist)
    requires o in st.ops && o.claim == Version(st.hist)
    ensures st.ops != [] && st.ops[|st.ops| - 1].claim == o.claim
  {
    var k :| 0 <= k < |st.ops| && st.ops[k] == o;
  }

  /** A run without fallbacks publishes only the result of the last completed operation of all. */
  lemma CommitKeepsStatusTruth(st: State, r: Request)
    requires AllInv(st) && r.base == Version(st.hist) && LegalRequest(st.hist, r, st.clock)
    requires r.kind.FinalizeWrite? ==> SaysLast(st.hist, st.ops, r.call, r.base, r.status)
    ensures var h := Commit(st.hist, r, st.clock);
            NoFallback(h) ==> NoFallback(st.hist) && StatusTruth(st.(hist := h))
  {
    var h := Commit(st.hist, r, st.clock);
    FallbacksStay(st.hist, h);
    if NoFallback(h) {
      assert !IsFallback(h[|h| - 1]);
      if r.kind.FinalizeWrite? && LastOp(st.ops, r.call).Some? {
        LastOpIsOne(st.ops, r.call);
        ClaimHolderIsLast(st, LastOp(st.ops, r.call).value);
      }
    }
  }

  /** After an update took effect: what remains to be shown is what concerns its sender. */
  lemma CommitTruth(before: State, after: State, r: Request)
    requires AllInv(before) && SameOps(before, after)
    requires r.base == Version(before.hist) && LegalRequest(before.hist, r, before.clock)
    requires after.hist == Commit(before.hist, r, before.clock) && after.inflight == before.inflight
    requires r.kind.FinalizeWrite? ==> SaysLast(before.hist, before.ops, r.call, r.base, r.status)
    requires WriteTruth(after, r.call, r.kind, r.base, r.status)
    requires forall id :: id in after.calls ==> CallTruth(after, id, after.calls[id])
    ensures TruthInv(after)
  {
    EntriesAfterCommit(before, after, r);
    CommitKeepsStatusTruth(before, r);
    OpsTruthFrame(before, after);
  }

  lemma EntriesAfterCommit(before: State, after: State, r: Request)
    requires AllInv(before) && SameOps(before, after)
    requires r.base == Version(before.hist) && after.hist == Commit(before.hist, r, before.clock)
    requires WriteTruth(after, r.call, r.kind, r.base, r.status)
    ensures forall j {:trigger EntryTruth(after, j)} :: 0 < j < |after.hist| ==> EntryTruth(after, j)
    ensures forall q :: q in before.inflight ==>
            q.base < |after.hist| && WriteTruth(after, q.call, q.kind, q.base, q.status)
  {
    OldEntriesTruth(before, after);
    assert EntryTruth(after, Version(after.hist));
  }

  lemma ReplySameOps(st: State, id: nat, ok: bool)
    requires id in st.calls && st.calls[id].pc.Writing?
    ensures SameOps(st, StepReply(st, id, ok))
  {
  }

  lemma AcceptedKeepsTruth(st: State, id: nat)
    requires AllInv(st)
    requires id in st.calls && st.calls[id].pc.Writing? && st.calls[id].obj.version == Version(st.hist)
    ensures TruthInv(StepReply(st, id, true))
  {
    var after := StepReply(st, id, true);
    assert CallInv(st, id, st.calls[id]);
    ReplySameOps(st, id, true);
    assert CallTruth(st, id, st.calls[id]) && CallInv(st, id, st.calls[id]);
    forall k | k in after.calls ensures CallTruth(after, k, after.calls[k]) {
      if k != id {
        KeptCallTruth(st, after, k);
      }
    }
    CommitTruth(st, after, RequestOf(id, st.calls[id]));
  }

  lemma DeliveredKeepsTruth(st: State, r: Request)
    requires AllInv(st) && r in st.inflight && r.base == Version(st.hist)
    ensures TruthInv(st.(hist := Commit(st.hist, r, st.clock)))
  {
    var after := st.(hist := Commit(st.hist, r, st.clock));
    assert LegalRequest(st.hist, r, st.clock) && WriteTruth(st, r.call, r.kind, r.base, r.status);
    WriteTruthFrame(st, after, r.call, r.kind, r.base, r.status);
    forall k | k in after.calls ensures CallTruth(after, k, after.calls[k]) {
      KeptCallTruth(st, after, k);
    }
    CommitTruth(st, after, r);
  }

  lemma RefusedCallTruth(st: State, id: nat, ok: bool)
    requires AllInv(st)
    requires id in st.calls && st.calls[id].pc.Writing?
    requires !ok || st.calls[id].obj.version != Version(st.hist)
    ensures var after := StepReply(st, id, ok);
            var r := RequestOf(id, st.calls[id]);
            && CallTruth(after, id, after.calls[id])
            && r.base < |after.hist| && WriteTruth(after, id, r.kind, r.base, r.status)
  {
    assert CallTruth(st, id, st.calls[id]) && CallInv(st, id, st.calls[id]);
  }

  lemma RefusedKeepsTruth(st: State, id: nat, ok: bool)
    requires AllInv(st)
    requires id in st.calls && st.calls[id].pc.Writing?
    requires !ok || st.calls[id].obj.version != Version(st.hist)
    ensures TruthInv(StepReply(st, id, ok))
  {
    var after := StepReply(st, id, ok);
    ReplySameOps(st, id, ok);
    RefusedCallTruth(st, id, ok);
    OldEntriesTruth(st, after);
    OpsTruthFrame(st, after);
    OtherCallsTruth(st, after, id);
  }

  lemma OtherCallsTruth(before: State, after: State, id: nat)
    requires TruthInv(before) && SameOps(before, after)
    requires forall k :: k in after.calls && k != id ==> k in before.calls && after.calls[k] == before.calls[k]
    ensures forall k :: k in after.calls && k != id ==> CallTruth(after, k, after.calls[k])
  {
    forall k | k in after.calls && k != id ensures CallTruth(after, k, after.calls[k]) {
      CallTruthFrame(before, after, k, before.calls[k]);
    }
  }

  // ---- The end of an operation ----

  lemma CompletionKeepsOthers(before: State, after: State, o: Operation, id: nat)
    requires after.hist == before.hist && after.ops == before.ops + [o] && o.call != id
    ensures LastOp(after.ops, id) == LastOp(before.ops, id)
    ensures id in before.calls && CallTruth(before, id, before.calls[id]) ==> CallTruth(after, id, before.calls[id])
  {
    assert after.ops[..|after.ops| - 1] == before.ops;
  }

  /** In a run without fallbacks the operation that completes belongs to the claim that is stored. */
  lemma CompletionTruth(st: State, id: nat, o: Operation)
    requires AllInv(st) && At(st, id, Operating)
    requires o.call == id && o.claim == st.calls[id].obj.version && Honest(o)
    requires o.spec == st.calls[id].obj.spec && o.kind == KindOf(o.spec.nodeStatus)
    ensures var after := st.(ops := st.ops + [o]);
            OpsTruth(after) && (NoFallback(st.hist) ==> StatusTruth(after))
  {
    var after := st.(ops := st.ops + [o]);
    assert CallInv(st, id, st.calls[id]);
    forall k | 0 <= k < |after.ops|
      ensures Honest(after.ops[k]) && UnderClaim(st.hist, after.ops[k])
    {
      assert k < |st.ops| ==> after.ops[k] == st.ops[k];
    }
    if NoFallback(st.hist) {
      HolderIsInProgress(st, id);
      NoClaimSince(st, id);
    }
  }

  /** Without a fallback, the call inside its operation still holds the object. */
  lemma HolderIsInProgress(st: State, id: nat)
    requires Inv(st) && FenceInv(st) && At(st, id, Operating) && NoFallback(st.hist)
    ensures InProgress(Current(st.hist).status)
  {
    var v := st.calls[id].obj.version;
    assert CallInv(st, id, st.calls[id]) && Fenced(st, st.calls[id]);
    assert LegalAt(st.hist, v);
  }

  lemma NoClaimSince(st: State, id: nat)
    requires Inv(st) && FenceInv(st) && OpsTruth(st) && At(st, id, Operating) && NoFallback(st.hist)
    ensures forall k :: 0 <= k < |st.ops| ==> st.ops[k].claim <= st.calls[id].obj.version
  {
    assert Fenced(st, st.calls[id]);
    forall k | 0 <= k < |st.ops| ensures st.ops[k].claim <= st.calls[id].obj.version {
      assert UnderClaim(st.hist, st.ops[k]);
    }
  }

  lemma CompletedCallTruth(st: State, id: nat, env: Env)
    requires AllInv(st) && At(st, id, Operating)
    requires OperationResult(st.calls[id].obj.spec, env).Returned?
    ensures var after := StepOperate(st, id, env);
            CallTruth(after, id, after.calls[id]) && Honest(after.ops[|st.ops|])
  {
    assert CallInv(st, id, st.calls[id]);
  }

  lemma NoWritesButPrepares(st: State, id: nat)
    requires Inv(st) && TruthInv(st) && At(st, id, Operating)
    ensures forall r :: r in st.inflight && r.call == id ==> r.kind.PrepareWrite?
    ensures forall j :: 0 < j < |st.hist| && st.hist[j].tag.StatusWrite? && st.hist[j].tag.call == id ==>
            st.hist[j].tag.kind.PrepareWrite?
  {
    forall j | 0 < j < |st.hist| && st.hist[j].tag.StatusWrite? && st.hist[j].tag.call == id
      ensures st.hist[j].tag.kind.PrepareWrite?
    {
      assert EntryTruth(st, j);
    }
    forall r | r in st.inflight && r.call == id ensures r.kind.PrepareWrite? {
      assert LegalRequest(st.hist, r, st.clock) && WriteTruth(st, r.call, r.kind, r.base, r.status);
    }
  }

  lemma OtherWritesKept(before: State, after: State, o: Operation, id: nat, kind: WriteKind, base: int, s: NodeStatus)
    requires after.hist == before.hist && after.ops == before.ops + [o] && o.call != id
    requires id in after.calls ==> id in before.calls && after.calls[id] == before.calls[id]
    requires 0 <= base < |before.hist| && WriteTruth(before, id, kind, base, s)
    ensures WriteTruth(after, id, kind, base, s)
  {
    CompletionKeepsOthers(before, after, o, id);
  }

  lemma CompletionKeepsInflight(st: State, after: State, id: nat, o: Operation)
    requires TruthInv(st) && o.call == id
    requires forall r :: r in st.inflight && r.call == id ==> r.kind.PrepareWrite?
    requires after.hist == st.hist && after.ops == st.ops + [o] && after.inflight == st.inflight
    requires forall k :: k in after.calls && k != id ==> k in st.calls && after.calls[k] == st.calls[k]
    ensures forall r :: r in after.inflight && r.base < |after.hist| ==>
            WriteTruth(after, r.call, r.kind, r.base, r.status)
  {
    forall r | r in after.inflight && r.base < |after.hist|
      ensures WriteTruth(after, r.call, r.kind, r.base, r.status)
    {
      if r.call != id {
        OtherWritesKept(st, after, o, r.call, r.kind, r.base, r.status);
      }
    }
  }

  lemma CompletionKeepsWrites(st: State, after: State, id: nat, o: Operation)
    requires AllInv(st) && At(st, id, Operating) && o.call == id
    requires after.hist == st.hist && after.ops == st.ops + [o] && after.inflight == st.inflight
    requires forall k :: k in after.calls && k != id ==> k in st.calls && after.calls[k] == st.calls[k]
    ensures forall r :: r in after.inflight && r.base < |after.hist| ==>
            WriteTruth(after, r.call, r.kind, r.base, r.status)
    ensures forall j {:trigger EntryTruth(after, j)} :: 0 < j < |after.hist| ==> EntryTruth(after, j)
  {
    NoWritesButPrepares(st, id);
    CompletionKeepsInflight(st, after, id, o);
    forall j {:trigger EntryTruth(after, j)} | 0 < j < |after.hist| ensures EntryTruth(after, j) {
      assert EntryTruth(st, j);
      CompletionKeepsEntry(st, after, id, o, j);
    }
  }

  lemma CompletionKeepsEntry(st: State, after: State, id: nat, o: Operation, j: nat)
    requires 0 < j < |st.hist| && EntryTruth(st, j) && o.call == id
    requires after.hist == st.hist && after.ops == st.ops + [o]
    requires forall k :: k in after.calls && k != id ==> k in st.calls && after.calls[k] == st.calls[k]
    requires var e := st.hist[j];
             e.tag.StatusWrite? && e.tag.call == id ==> e.tag.kind.PrepareWrite?
    ensures EntryTruth(after, j)
  {
    var e := after.hist[j];
    if e.tag.StatusWrite? && e.tag.call != id {
      OtherWritesKept(st, after, o, e.tag.call, e.tag.kind, j - 1, e.status);
    }
  }

  lemma CompletionKeepsCalls(st: State, after: State, id: nat, o: Operation)
    requires TruthInv(st) && o.call == id && after.hist == st.hist && after.ops == st.ops + [o]
    requires forall k :: k in after.calls && k != id ==> k in st.calls && after.calls[k] == st.calls[k]
    ensures forall k :: k in after.calls && k != id ==> CallTruth(after, k, after.calls[k])
  {
    forall k | k in after.calls && k != id ensures CallTruth(after, k, after.calls[k]) {
      CompletionKeepsOthers(st, after, o, k);
      assert CallTruth(st, k, st.calls[k]);
    }
  }

  lemma CompletionKeepsTruth(st: State, id: nat, env: Env)
    requires AllInv(st) && At(st, id, Operating)
    requires OperationResult(st.calls[id].obj.spec, env).Returned?
    ensures TruthInv(StepOperate(st, id, env))
  {
    var after := StepOperate(st, id, env);
    CompletedCallTruth(st, id, env);
    CompletionAssembles(st, after, id, after.ops[|st.ops|]);
  }

  /** `after` has one more operation of call `id`, and differs otherwise in that call only. */
  ghost predicate Completes(st: State, after: State, id: nat, o: Operation) {
    && after.hist == st.hist && after.ops == st.ops + [o] && after.inflight == st.inflight
    && o.call == id && id in st.calls && o.claim == st.calls[id].obj.version
    && o.spec == st.calls[id].obj.spec && o.kind == KindOf(o.spec.nodeStatus)
    && forall k :: k in after.calls && k != id ==> k in st.calls && after.calls[k] == st.calls[k]
  }

  lemma CompletionAssembles(st: State, after: State, id: nat, o: Operation)
    requires AllInv(st) && At(st, id, Operating) && Completes(st, after, id, o) && Honest(o)
    requires id in after.calls ==> CallTruth(after, id, after.calls[id])
    ensures TruthInv(after)
  {
    CompletionTruth(st, id, o);
    CompletionKeepsCalls(st, after, id, o);
    CompletionKeepsWrites(st, after, id, o);
  }

  lemma ReplyKeepsTruth(st: State, id: nat, ok: bool)
    requires AllInv(st) && id in st.calls && st.calls[id].pc.Writing?
    ensures TruthInv(StepReply(st, id, ok))
  {
    if ok && st.calls[id].obj.version == Version(st.hist) {
      AcceptedKeepsTruth(st, id);
    } else {
      RefusedKeepsTruth(st, id, ok);
    }
  }

  lemma OperateKeepsTruth(st: State, id: nat, env: Env)
    requires AllInv(st) && At(st, id, Operating)
    ensures TruthInv(StepOperate(st, id, env))
  {
    if OperationResult(st.calls[id].obj.spec, env).Panicked? {
      assert StepOperate(st, id, env) == Step(st, Crash(id));
      LocalStepKeepsTruth(st, Crash(id));
    } else {
      CompletionKeepsTruth(st, id, env);
    }
  }

  lemma StepKeepsTruth(st: State, a: Action)
    requires AllInv(st)
    ensures TruthInv(Step(st, a))
  {
    match a
    case EditSpec(spec) => EditKeepsTruth(st, spec);
    case Start(version) => StartKeepsTruth(st, version);
    case Reply(id, ok) =>
      if id in st.calls && st.calls[id].pc.Writing? {
        ReplyKeepsTruth(st, id, ok);
      }
    case Operate(id, env) =>
      if At(st, id, Operating) {
        OperateKeepsTruth(st, id, env);
      }
    case Deliver(r) =>
      if r in st.inflight && r.base == Version(st.hist) {
        DeliveredKeepsTruth(st, r);
      }
    case _ => LocalStepKeepsTruth(st, a);
  }

  lemma {:induction false} RunKeepsAll(spec: Spec, now: int, schedule: seq<Action>)
    ensures AllInv(Exec(Initial(spec, now), schedule))
    decreases |schedule|
  {
    if schedule != [] {
      var n := |schedule| - 1;
      var st := Exec(Initial(spec, now), schedule[..n]);
      RunKeepsAll(spec, now, schedule[..n]);
      StepKeepsInv(st, schedule[n]);
      StepKeepsFence(st, schedule[n]);
      StepKeepsTruth(st, schedule[n]);
    }
  }

  lemma ReachableAll(st: State)
    requires Reachable(st)
    ensures AllInv(st)
  {
    var spec, now, schedule :| st == Exec(Initial(spec, now), schedule);
    RunKeepsAll(spec, now, schedule);
  }
}
