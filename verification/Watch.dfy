/** Waiting for the Node to report its readiness. */
module Watch {
  import opened Api

  datatype Condition = Condition(kind: string, status: string)

  /** The part of a Node that matters here: its name and its status conditions. */
  datatype Seen = Seen(name: string, conditions: seq<Condition>)

  const READY := "Ready"

  /** nodeIsReady asks only whether a condition of type Ready is listed. */
  predicate Ready(n: Seen) {
    exists c :: c in n.conditions && c.kind == READY
  }

  /** What the condition says is ignored: a Node that reports itself not ready counts as ready too. */
  lemma ReadyIgnoresStatus(n: Seen, i: nat, status: string)
    requires i < |n.conditions|
    ensures Ready(n) <==> Ready(n.(conditions := n.conditions[i := n.conditions[i].(status := status)]))
  {
    var m := n.(conditions := n.conditions[i := n.conditions[i].(status := status)]);
    if Ready(n) {
      var j :| 0 <= j < |n.conditions| && n.conditions[j].kind == READY;
      assert m.conditions[j] in m.conditions;
    }
    if Ready(m) {
      var j :| 0 <= j < |m.conditions| && m.conditions[j].kind == READY;
      assert n.conditions[j] in n.conditions;
    }
  }

  /** What the name of nodeIsReady promises: the Node says of itself that it is ready. */
  predicate ReportsReady(n: Seen) {
    exists c :: c in n.conditions && c.kind == READY && c.status == "True"
  }

  /** The answer is right exactly for Nodes that list no Ready condition, or one with status True. */
  lemma ReadyIsRight(n: Seen)
    ensures (Ready(n) <==> ReportsReady(n))
       <==> (forall c :: c in n.conditions ==> c.kind != "Ready")
            || (exists c :: c in n.conditions && c.kind == "Ready" && c.status == "True")
  {
    assert ReportsReady(n) ==> Ready(n);
    assert Ready(n) <==> !(forall c :: c in n.conditions ==> c.kind != "Ready");
  }

  method NodeIsReady(n: Seen) returns (ready: bool)
    ensures ready <==> Ready(n)
  {
    for i := 0 to |n.conditions|
      invariant forall c :: c in n.conditions[..i] ==> c.kind != READY
    {
      if n.conditions[i].kind == READY {
        assert n.conditions[i] in n.conditions;
        return true;
      }
    }
    assert n.conditions[..|n.conditions|] == n.conditions;
    ready := false;
  }

  datatype Read = Found(node: Seen) | NotFound | ReadError

  datatype EventType = Added | Modified | Deleted | Bookmark | Error

  /** `Closed` is a receive from the closed result channel; an event may carry an object of another type. */
  datatype Event = Closed | Event(kind: EventType, item: Option<Seen>)

  /** One call: the initial read, whether the watcher could be made, and what the channel delivers
      before the timeout or the cancellation. */
  datatype Feed = Feed(read: Read, watcher: bool, events: seq<Event>)

  datatype Verdict = Verdict(success: bool, err: bool)

  /** An event that ends the wait. */
  predicate Decisive(e: Event, name: string, ready: bool) {
    && e.Event? && (e.kind.Added? || e.kind.Modified?)
    && e.item.Some? && e.item.value.name == name && Ready(e.item.value) == ready
  }

  /** The wait, event by event; the timer or the context ends it when the events run out. */
  function Scan(events: seq<Event>, name: string, ready: bool): bool {
    if events == [] then false
    else Decisive(events[0], name, ready) || Scan(events[1..], name, ready)
  }

  function WatchVerdict(f: Feed, name: string, ready: bool): Verdict {
    match f.read
    case ReadError => Verdict(false, true)
    case Found(n) =>
      if Ready(n) == ready then Verdict(true, false)
      else if !f.watcher then Verdict(false, true)
      else Verdict(Scan(f.events, name, ready), false)
    case NotFound =>
      if !f.watcher then Verdict(false, true) else Verdict(Scan(f.events, name, ready), false)
  }

  /** Success exactly when some decisive event arrives before the end: position, and every closed,
      mistyped or foreign event, are irrelevant. */
  lemma {:induction false} ScanFindsAny(events: seq<Event>, name: string, ready: bool)
    ensures Scan(events, name, ready) <==> exists e :: e in events && Decisive(e, name, ready)
    decreases |events|
  {
    if events != [] {
      ScanFindsAny(events[1..], name, ready);
      assert events == [events[0]] + events[1..];
      assert events[0] in events;
    }
  }

  /** The event is a change to the Node waited for, and shows it as `n`. */
  predicate Shows(e: Event, name: string, n: Seen) {
    e.Event? && (e.kind.Added? || e.kind.Modified?) && e.item == Some(n) && n.name == name
  }

  /** A Node that the wait looks at, unless it has ended before: the one read first, or the object of a change
      to the Node waited for. */
  predicate LooksAt(f: Feed, name: string, n: Seen) {
    || f.read == Found(n)
    || (f.watcher && !f.read.ReadError?
        && exists e :: e in f.events && Shows(e, name, n))
  }

  /** Waiting for readiness succeeds exactly when some Node that it looks at lists a Ready condition. */
  lemma WaitSucceeds(f: Feed, name: string)
    ensures WatchVerdict(f, name, true).success <==> exists n :: LooksAt(f, name, n) && Ready(n)
  {
    ScanFindsAny(f.events, name, true);
    if WatchVerdict(f, name, true).success && !(f.read.Found? && Ready(f.read.node)) {
      var e :| e in f.events && Decisive(e, name, true);
      assert LooksAt(f, name, e.item.value);
    }
    if exists n :: LooksAt(f, name, n) && Ready(n) {
      var n :| LooksAt(f, name, n) && Ready(n);
      if f.read != Found(n) {
        var e :| e in f.events && Shows(e, name, n);
        assert Decisive(e, name, true);
      }
    }
  }

  /** What the wait returns, for either readiness: an error exactly when the first read fails, or when a watch is
      needed and cannot be made; and otherwise success exactly when the Node read first has the readiness
      wanted, or an added or modified event shows the Node of that name with it. */
  lemma WaitOutcome(f: Feed, name: string, ready: bool)
    ensures var v := WatchVerdict(f, name, ready);
            var atOnce := f.read.Found? && Ready(f.read.node) == ready;
            && (v.err <==> f.read.ReadError? || (!atOnce && !f.watcher))
            && (v.success <==>
                  || atOnce
                  || (f.watcher && !f.read.ReadError?
                      && exists e :: e in f.events && e.Event? && (e.kind == Added || e.kind == Modified)
                                     && e.item.Some? && e.item.value.name == name && Ready(e.item.value) == ready))
            && !(v.err && v.success)
  {
    ScanFindsAny(f.events, name, ready);
    assert forall e :: e in f.events ==>
        (Decisive(e, name, ready)
         <==> e.Event? && (e.kind == Added || e.kind == Modified)
              && e.item.Some? && e.item.value.name == name && Ready(e.item.value) == ready);
  }

  /** The whole wait answers as if it had asked for a report of readiness exactly when every Node it looks at
      lists no Ready condition, or some Node it looks at lists one with status True. */
  lemma WaitIsRight(f: Feed, name: string)
    ensures (WatchVerdict(f, name, true).success <==> exists n :: LooksAt(f, name, n) && ReportsReady(n))
       <==> (forall n :: LooksAt(f, name, n) ==> forall c :: c in n.conditions ==> c.kind != "Ready")
            || (exists n :: LooksAt(f, name, n)
                            && exists c :: c in n.conditions && c.kind == "Ready" && c.status == "True")
  {
    WaitSucceeds(f, name);
    assert forall n :: Ready(n) <==> !(forall c :: c in n.conditions ==> c.kind != "Ready");
    assert forall n :: ReportsReady(n) ==> Ready(n);
  }

  /** A Node that reports itself not ready ends the wait with success, before and during the watch. */
  lemma UnreadyNodeEndsTheWait(name: string)
    ensures var n := Seen(name, [Condition(READY, "False")]);
            && !ReportsReady(n)
            && WatchVerdict(Feed(Found(n), true, []), name, true) == Verdict(true, false)
            && WatchVerdict(Feed(NotFound, true, [Event(Modified, Some(n))]), name, true) == Verdict(true, false)
  {
    var n := Seen(name, [Condition(READY, "False")]);
    assert n.conditions[0].kind == READY;
    assert Decisive(Event(Modified, Some(n)), name, true);
  }

  /** Removing or inserting an event that is not decisive never changes the answer. */
  lemma NoiseIsIrrelevant(f: Feed, i: nat, name: string, ready: bool)
    requires i < |f.events| && !Decisive(f.events[i], name, ready)
    ensures WatchVerdict(f, name, ready) == WatchVerdict(f.(events := f.events[..i] + f.events[i + 1..]), name, ready)
  {
    var fewer := f.events[..i] + f.events[i + 1..];
    ScanFindsAny(f.events, name, ready);
    ScanFindsAny(fewer, name, ready);
    assert f.events == f.events[..i] + [f.events[i]] + f.events[i + 1..];
  }

  method WatchNode(f: Feed, name: string, ready: bool) returns (v: Verdict)
    ensures v == WatchVerdict(f, name, ready)
    ensures f.read.NotFound? && f.watcher ==>
              (v.success <==> exists e :: e in f.events && Decisive(e, name, ready))
  {
    ScanFindsAny(f.events, name, ready);
    if f.read.ReadError? {
      return Verdict(false, true);
    }
    if f.read.Found? {
      var now := NodeIsReady(f.read.node);
      if now == ready {
        return Verdict(true, false);
      }
    }
    if !f.watcher {
      return Verdict(false, true);
    }
    for i := 0 to |f.events|
      invariant forall e :: e in f.events[..i] ==> !Decisive(e, name, ready)
    {
      var e := f.events[i];
      assert e in f.events;
      if e.Event? && (e.kind.Added? || e.kind.Modified?) && e.item.Some? && e.item.value.name == name {
        var now := NodeIsReady(e.item.value);
        if now == ready {
          return Verdict(true, false);
        }
      }
    }
    assert f.events[..|f.events|] == f.events;
    v := Verdict(false, false);
  }
}
