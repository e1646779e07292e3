/** Where the writes of a call come from: the version it read, and its own claims. */
module Origins {
  import opened Api
  import opened Operations
  import opened Protocol
  import opened Invariant
  import opened Fencing

  /** A write of call `id`, which read version `v`, is made on top of that version; or, in the retry loop, of a
      claim of its own. */
  predicate OnReadOrClaim(h: History, id: nat, v: nat, base: int, kind: WriteKind)
    requires 0 <= base < |h|
  {
    base == v || (InLoop(kind) && ClaimedBy(h[base], id))
  }

  predicate EntryOrigin(h: History, id: nat, v: nat, j: int)
    requires 0 < j < |h|
  {
    h[j].tag.StatusWrite? && h[j].tag.call == id ==> v < j && OnReadOrClaim(h, id, v, j - 1, h[j].tag.kind)
  }

  /** What the copy of a call that read version `v` can be. */
  predicate CopyOrigin(h: History, id: nat, v: nat, c: Call) {
    && c.obj.version < |h|
    && match c.pc
       case Deciding => c.obj.version == v
       case Writing(kind) => OnReadOrClaim(h, id, v, c.obj.version, kind)
       case Finished(_) => true
       case _ => OnReadOrClaim(h, id, v, c.obj.version, PrepareWrite)
  }

  /** Call `id` read version `v`, and everything it does goes back to that or to its own claims. */
  ghost predicate GoesBackTo(st: State, id: nat, v: nat) {
    && v < |st.hist| && id < st.next
    && (id in st.calls ==> CopyOrigin(st.hist, id, v, st.calls[id]))
    && (forall r :: r in st.inflight && r.call == id ==>
          v <= r.base < |st.hist| && OnReadOrClaim(st.hist, id, v, r.base, r.kind))
    && (forall j {:trigger EntryOrigin(st.hist, id, v, j)} :: 0 < j < |st.hist| ==> EntryOrigin(st.hist, id, v, j))
  }

  lemma ReadIsOrigin(st: State, v: nat)
    requires Inv(st) && v < |st.hist|
    ensures GoesBackTo(Step(st, Start(v)), st.next, v)
  {
    NextIsFresh(st);
  }

  lemma CopyNotOlder(h: History, id: nat, v: nat, c: Call)
    requires c.pc.Writing? && CopyOrigin(h, id, v, c)
    requires forall j {:trigger EntryOrigin(h, id, v, j)} :: 0 < j < |h| ==> EntryOrigin(h, id, v, j)
    requires h[0].tag.Created?
    ensures v <= c.obj.version
  {
    if c.obj.version != v {
      assert EntryOrigin(h, id, v, c.obj.version);
    }
  }

  lemma CommitOrigin(h: History, id: nat, v: nat, r: Request, now: int)
    requires forall j {:trigger EntryOrigin(h, id, v, j)} :: 0 < j < |h| ==> EntryOrigin(h, id, v, j)
    requires r.base < |h| && (r.call == id ==> v <= r.base && OnReadOrClaim(h, id, v, r.base, r.kind))
    ensures var h' := Commit(h, r, now);
            forall j {:trigger EntryOrigin(h', id, v, j)} :: 0 < j < |h'| ==> EntryOrigin(h', id, v, j)
  {
    var h' := Commit(h, r, now);
    forall j {:trigger EntryOrigin(h', id, v, j)} | 0 < j < |h'| ensures EntryOrigin(h', id, v, j) {
      if j < |h| {
        assert EntryOrigin(h, id, v, j) && h'[j] == h[j] && h'[j - 1] == h[j - 1];
      }
    }
  }

  lemma EditOrigin(h: History, id: nat, v: nat, e: Entry)
    requires forall j {:trigger EntryOrigin(h, id, v, j)} :: 0 < j < |h| ==> EntryOrigin(h, id, v, j)
    requires e.tag.SpecEdit?
    ensures var h' := h + [e];
            forall j {:trigger EntryOrigin(h', id, v, j)} :: 0 < j < |h'| ==> EntryOrigin(h', id, v, j)
  {
    var h' := h + [e];
    forall j {:trigger EntryOrigin(h', id, v, j)} | 0 < j < |h'| ensures EntryOrigin(h', id, v, j) {
      if j < |h| {
        assert EntryOrigin(h, id, v, j) && h'[j] == h[j] && h'[j - 1] == h[j - 1];
      }
    }
  }

  lemma ReplyOrigin(st: State, id: nat, v: nat, k: nat, ok: bool)
    requires Inv(st) && GoesBackTo(st, id, v) && k in st.calls && st.calls[k].pc.Writing?
    ensures GoesBackTo(StepReply(st, k, ok), id, v)
  {
    var c := st.calls[k];
    assert CallInv(st, k, c);
    if k == id {
      CopyNotOlder(st.hist, id, v, c);
      OwnReplyOrigin(st, id, v, ok);
    } else {
      OtherReplyOrigin(st, id, v, k, ok);
    }
  }

  lemma OwnReplyOrigin(st: State, id: nat, v: nat, ok: bool)
    requires GoesBackTo(st, id, v) && id in st.calls && st.calls[id].pc.Writing?
    requires v <= st.calls[id].obj.version < |st.hist|
    ensures GoesBackTo(StepReply(st, id, ok), id, v)
  {
    CommitOrigin(st.hist, id, v, RequestOf(id, st.calls[id]), st.clock);
  }

  lemma OtherReplyOrigin(st: State, id: nat, v: nat, k: nat, ok: bool)
    requires GoesBackTo(st, id, v) && k in st.calls && st.calls[k].pc.Writing? && k != id
    requires st.calls[k].obj.version < |st.hist|
    ensures GoesBackTo(StepReply(st, k, ok), id, v)
  {
    CommitOrigin(st.hist, id, v, RequestOf(k, st.calls[k]), st.clock);
  }

  lemma OriginStep(st: State, id: nat, v: nat, a: Action)
    requires Inv(st) && GoesBackTo(st, id, v)
    ensures GoesBackTo(Step(st, a), id, v)
  {
    match a
    case EditSpec(spec) => EditOrigin(st.hist, id, v, Current(Step(st, a).hist));
    case Reply(k, ok) =>
      if k in st.calls && st.calls[k].pc.Writing? {
        ReplyOrigin(st, id, v, k, ok);
      }
    case Deliver(r) =>
      if r in st.inflight {
        assert LegalRequest(st.hist, r, st.clock);
        DeliverOrigin(st, id, v, r);
      }
    case _ => QuietOrigin(st, id, v, a);
  }

  lemma DeliverOrigin(st: State, id: nat, v: nat, r: Request)
    requires GoesBackTo(st, id, v) && r in st.inflight && r.base < |st.hist|
    ensures GoesBackTo(Step(st, Deliver(r)), id, v)
  {
    CommitOrigin(st.hist, id, v, r, st.clock);
  }

  /** A step that writes nothing keeps the version of every copy there was. */
  lemma QuietOrigin(st: State, id: nat, v: nat, a: Action)
    requires GoesBackTo(st, id, v)
    requires !a.EditSpec? && !a.Reply? && !a.Deliver?
    ensures GoesBackTo(Step(st, a), id, v)
  {
    var after := Step(st, a);
    assert after.hist == st.hist && after.inflight == st.inflight && st.next <= after.next;
    if id in after.calls {
      assert CopyOrigin(st.hist, id, v, after.calls[id]);
    }
  }

  lemma {:induction false} OriginKept(st: State, id: nat, v: nat, more: seq<Action>)
    requires Inv(st) && GoesBackTo(st, id, v)
    ensures GoesBackTo(Exec(st, more), id, v)
    decreases |more|
  {
    if more != [] {
      var n := |more| - 1;
      OriginKept(st, id, v, more[..n]);
      ExecKeepsInv(st, more[..n]);
      OriginStep(Exec(st, more[..n]), id, v, more[n]);
    }
  }

  /** In every run, each version that a call writes directly follows the version that this call read, or a claim
      of its own. */
  lemma WritesFollowReadOrClaim(st: State, v: nat, more: seq<Action>, j: nat)
    requires Reachable(st) && v < |st.hist|
    requires var h := Exec(Step(st, Start(v)), more).hist;
             0 < j < |h| && h[j].tag.StatusWrite? && h[j].tag.call == st.next
    ensures var h := Exec(Step(st, Start(v)), more).hist;
            j - 1 == v || (InLoop(h[j].tag.kind) && ClaimedBy(h[j - 1], st.next))
  {
    ReachableInv(st);
    ReadIsOrigin(st, v);
    StepKeepsInv(st, Start(v));
    OriginKept(Step(st, Start(v)), st.next, v, more);
    assert EntryOrigin(Exec(Step(st, Start(v)), more).hist, st.next, v, j);
  }

  /** No late result, in full: a finalize that takes effect publishes an outcome right after its call's own claim,
      or else it is the only write of that call, publishes the unknown status, and directly follows the version
      that the call read; and the call never writes again. */
  lemma FinalizeFollowsReadOrClaim(st: State, v: nat, more: seq<Action>, j: nat)
    requires Reachable(st) && v < |st.hist|
    requires var h := Exec(Step(st, Start(v)), more).hist;
             j < |h| && IsFinalize(h[j]) && h[j].tag.call == st.next
    ensures var h := Exec(Step(st, Start(v)), more).hist;
            && j > 0
            && (if ClaimedBy(h[j - 1], st.next) then h[j].status != Unknown
                else h[j].status == Unknown && j - 1 == v && NoneBy(h, st.next, 0, j))
            && NoneBy(h, st.next, j + 1, |h|)
  {
    ReachableStep(st, Start(v));
    ReachableExec(Step(st, Start(v)), more);
    FinalizeFollowsOwnClaim(Exec(Step(st, Start(v)), more), j);
    WritesFollowReadOrClaim(st, v, more, j);
  }

  /** Every call that has started read some version. */
  lemma {:induction false} EveryCallHasRead(spec: Spec, now: int, schedule: seq<Action>, id: nat) returns (v: nat)
    requires id < Exec(Initial(spec, now), schedule).next
    ensures GoesBackTo(Exec(Initial(spec, now), schedule), id, v)
    decreases |schedule|
  {
    var n := |schedule| - 1;
    var before := Exec(Initial(spec, now), schedule[..n]);
    RunKeepsInv(spec, now, schedule[..n]);
    if id < before.next {
      v := EveryCallHasRead(spec, now, schedule[..n], id);
      OriginStep(before, id, v, schedule[n]);
    } else {
      v := schedule[n].version;
      ReadIsOrigin(before, v);
    }
  }

  /** The writes of a call are one block of the history: once another version follows a claim, the call that
      made the claim writes no more. */
  lemma {:induction false} WritesAreOneBlock(st: State, id: nat, v: nat, k: nat, j: nat)
    requires GoesBackTo(st, id, v)
    requires 0 < k < j < |st.hist| && ClaimedBy(st.hist[k], id)
    requires st.hist[j].tag.StatusWrite? && st.hist[j].tag.call == id
    ensures InLoop(st.hist[j].tag.kind) && ClaimedBy(st.hist[j - 1], id)
    ensures forall i :: k <= i < j ==> ClaimedBy(st.hist[i], id)
    decreases j
  {
    assert EntryOrigin(st.hist, id, v, j) && EntryOrigin(st.hist, id, v, k);
    if k < j - 1 {
      WritesAreOneBlock(st, id, v, k, j - 1);
    }
  }
}
