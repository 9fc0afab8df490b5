/**
 * What every event of the crawl fleet keeps, and so what holds on every run.
 */
module FleetLaws {
  import opened Bytes
  import opened Hosts
  import opened UrlClassifier
  import opened ClassifierLaws
  import opened FleetModel

  // ---------------------------------------------------------------- the classifier inside the fleet

  /** Queue i is served by handle i. */
  ghost predicate Shape(c: State, n: nat) {
    |c.table| == n && forall i :: 0 <= i < n ==> c.table[i].n == i
  }

  /** A table entry that repeats an earlier entry's host is an unused one. */
  ghost predicate DistinctHosts(table: seq<Elem>) {
    forall i, j :: 0 <= i < j < |table| && table[i].host == table[j].host ==> table[j].host == "" && table[j].queue == []
  }

  /** Between events, and for all queues but busy during the event of handle busy. */
  ghost predicate ClsOk(c: State, n: nat, busy: int) {
    && Shape(c, n)
    && SingleHost(c)
    && DistinctHosts(c.table)
    && (forall i, u :: 0 <= i < n && u in c.top ==> u.host != c.table[i].host)
    && (c.top != multiset{} ==> forall i :: 0 <= i < n && i != busy ==> c.table[i].queue != [])
  }

  lemma ShapeIndex(c: State, n: nat, i: nat)
    requires Shape(c, n) && i < n
    ensures IndexOfN(c.table, i) == i && Queue(c, i) == c.table[i].queue
  {
    assert c.table[i].n == i;
  }

  /** An element changed in place, keeping its number, its single host and the table's distinct hosts. */
  lemma TableUpdate(c: State, n: nat, i: nat, e: Elem, top: multiset<Url>)
    requires Shape(c, n) && SingleHost(c) && DistinctHosts(c.table) && i < n && e.n == i
    requires forall u :: u in e.queue ==> u.host == e.host
    requires if e.host == c.table[i].host then i == IndexOfHost(c.table, e.host) || e.queue == []
             else forall k :: 0 <= k < n ==> c.table[k].host != e.host
    ensures var t := State(top, c.table[i := e]); Shape(t, n) && SingleHost(t) && DistinctHosts(t.table)
  {
    var t := c.table[i := e];
    forall x, y | 0 <= x < y < n && t[x].host == t[y].host ensures t[y].host == "" && t[y].queue == [] {
      if e.host == c.table[i].host {
        assert c.table[x].host == c.table[y].host;
      }
    }
  }

  lemma PushOk(c: State, n: nat, u: Url)
    requires ClsOk(c, n, -1)
    ensures ClsOk(Pushed(c, u), n, -1)
  {
    var i, j := IndexOfHost(c.table, u.host), FirstEmpty(c.table);
    if i < n {
      TableUpdate(c, n, i, c.table[i].(queue := c.table[i].queue + [u]), c.top);
    } else if j < n {
      assert c.top == multiset{};
      TableUpdate(c, n, j, Elem(j, u.host, [u]), c.top);
    }
  }

  lemma PopOk(c: State, n: nat, id: nat)
    requires ClsOk(c, n, id) && id < n && Queue(c, id) != []
    ensures Popped(c, id).Ok?
    ensures var d := Popped(c, id).value;
            && ClsOk(d, n, id) && d.top == c.top
            && d.table == c.table[id := c.table[id].(queue := c.table[id].queue[1..])]
  {
    ShapeIndex(c, n, id);
    assert IndexOfHost(c.table, c.table[id].host) == id;
    TableUpdate(c, n, id, c.table[id].(queue := c.table[id].queue[1..]), c.top);
  }

  /** Peeking refills the busy queue whenever something waits, which completes the invariant again. */
  lemma PeekOk(c: State, n: nat, id: nat, order: seq<Url>)
    requires ClsOk(c, n, id) && id < n && (Queue(c, id) != [] || c.top != multiset{})
    requires NeedsDrain(c, id) ==> IsDrain(c.top, order)
    ensures Peeked(c, id, order).Ok?
    ensures var (d, front) := Peeked(c, id, order).value;
            && ClsOk(d, n, -1)
            && d.table == c.table[id := d.table[id]] && d.table[id].queue != [] && d.table[id].queue[0] == front
            && (if NeedsDrain(c, id) then d.table[id].host == front.host else d == c)
  {
    ShapeIndex(c, n, id);
    if NeedsDrain(c, id) {
      var e := Elem(id, order[0].host, order);
      var d := State(c.top - multiset(order), c.table[id := e]);
      assert order[0] in c.top;
      TableUpdate(c, n, id, e, d.top);
      forall u | u in d.top ensures u in c.top && u.host != e.host { }
    } else {
      assert c.table[id := c.table[id]] == c.table;
    }
  }

  // ---------------------------------------------------------------- the log

  /** What the log says of one handle since its queue took its host: the robots.txt fetched and the last request. */
  datatype Memory = Memory(known: Option<(Text, Robots)>, asked: Option<Request>)

  ghost function Recall(m: Memory, e: Event, id: nat): (r: Memory) {
    match e
    case RobotsKnown(i, host, robots) => if i == id then m.(known := Some((host, robots))) else m
    case Took(i, _) => if i == id then Memory(None, None) else m
    case Requested(i, request) => if i == id then m.(asked := Some(request)) else m
    case _ => m
  }

  ghost function Remembered(log: seq<Event>, id: nat): (r: Memory) {
    if log == [] then Memory(None, None) else Recall(Remembered(log[..|log| - 1], id), log[|log| - 1], id)
  }

  ghost function KnownRobots(log: seq<Event>, id: nat): (r: Option<(Text, Robots)>) {
    Remembered(log, id).known
  }

  /**
   * A HEAD or GET needs a fetched robots.txt of that host that permits it, a
   * drop one that forbids it; a robots.txt is known only after asking for it.
   */
  ghost predicate EventOk(log: seq<Event>, e: Event) {
    match e
    case Requested(id, request) =>
      request.kind == RobotsTxt ||
      var known := KnownRobots(log, id);
      known.Some? && known.value.0 == request.url.host && Permits(known.value.1, request.url.path)
    case Dropped(id, url) =>
      var known := KnownRobots(log, id);
      known.Some? && known.value.0 == NormalHost(url.host) && !Permits(known.value.1, url.path)
    case RobotsKnown(id, host, _) => Remembered(log, id).asked == Some(Request(RobotsTxt, Url(host, "robots.txt")))
    case Saved(_, url, doc) => doc == Normalize(url)
    case _ => true
  }

  ghost predicate LogOk(log: seq<Event>) {
    forall k :: 0 <= k < |log| ==> EventOk(log[..k], log[k])
  }

  lemma LogAppend(log: seq<Event>, e: Event)
    requires LogOk(log) && EventOk(log, e)
    ensures LogOk(log + [e])
  {
    var l := log + [e];
    forall k | 0 <= k < |l| ensures EventOk(l[..k], l[k]) {
      if k < |log| { assert l[..k] == log[..k]; } else { assert l[..k] == log; }
    }
  }

  lemma RememberedAfter(log: seq<Event>, e: Event, id: nat)
    ensures Remembered(log + [e], id) == Recall(Remembered(log, id), e, id)
  {
    assert (log + [e])[..|log|] == log;
  }

  /** What KnownRobots means: a fetch in the log with no later fetch or change of host. */
  lemma {:induction false} KnownMeans(log: seq<Event>, id: nat) returns (j: nat)
    requires KnownRobots(log, id).Some?
    ensures j < |log|
    ensures var (host, robots) := KnownRobots(log, id).value; log[j] == RobotsKnown(id, host, robots)
    ensures forall k :: j < k < |log| ==> !(log[k].RobotsKnown? && log[k].id == id) && !(log[k].Took? && log[k].id == id)
  {
    var e := log[|log| - 1];
    if e.RobotsKnown? && e.id == id {
      j := |log| - 1;
    } else {
      j := KnownMeans(log[..|log| - 1], id);
    }
  }

  /** What a remembered request means: it is in the log, with no later request or change of host. */
  lemma {:induction false} AskedMeans(log: seq<Event>, id: nat) returns (j: nat)
    requires Remembered(log, id).asked.Some?
    ensures j < |log| && log[j] == Requested(id, Remembered(log, id).asked.value)
    ensures forall k :: j < k < |log| ==> !(log[k].Requested? && log[k].id == id) && !(log[k].Took? && log[k].id == id)
  {
    var e := log[|log| - 1];
    if e.Requested? && e.id == id {
      j := |log| - 1;
    } else {
      j := AskedMeans(log[..|log| - 1], id);
    }
  }

  // ---------------------------------------------------------------- handles

  function KindFor(state: HandleState): Kind {
    if state == ROBOTS then RobotsTxt else if state == HEAD then Head else Get
  }

  /** The url that is asked for. */
  function LinkFor(state: HandleState, front: Url): Url {
    if state == ROBOTS then RobotsUrl(Normalize(front)) else Normalize(front)
  }

  function DocFor(state: HandleState, front: Url): Url {
    if state == ROBOTS then RobotsUrl(Normalize(front)) else Loaded(Normalize(front))
  }

  /** The robots.txt handle i holds is that of its queue's host, fetched since the queue took it. */
  ghost predicate RobotsFresh(s: Fleet, i: nat)
    requires i < |s.handles| && i < |s.cls.table|
  {
    s.handles[i].robots.Some? &&
    KnownRobots(s.log, i) == Some((NormalHost(s.cls.table[i].host), s.handles[i].robots.value))
  }

  /** Handle i may ask for the url at the front of its queue. */
  ghost predicate MayFetch(s: Fleet, i: nat)
    requires i < |s.handles| && i < |s.cls.table|
  {
    var q := s.cls.table[i].queue;
    q != [] && RobotsFresh(s, i) && Steady(s.cls.table[i].host) && Permits(s.handles[i].robots.value, q[0].path)
  }

  ghost predicate HandleOk(s: Fleet, i: nat)
    requires i < |s.handles| && i < |s.cls.table|
  {
    var h, q := s.handles[i], s.cls.table[i].queue;
    && h.state != NEXT
    && (h.state == IDLE ==> h.inflight.None?)
    && (h.state != IDLE ==>
          && q != [] && h.doc == Some(DocFor(h.state, q[0]))
          && h.inflight == Some(Request(KindFor(h.state), LinkFor(h.state, q[0])))
          && Remembered(s.log, i).asked == h.inflight)
    && (h.state == HEAD || h.state == CONTENT ==> MayFetch(s, i))
  }

  /** Everything but handle busy and its queue is as it is between events. */
  ghost predicate Working(s: Fleet, n: nat, busy: int) {
    && |s.handles| == n && ClsOk(s.cls, n, busy) && LogOk(s.log)
    && forall i :: 0 <= i < n && i != busy ==> HandleOk(s, i)
  }

  /** The invariant between events. */
  ghost predicate FleetOk(s: Fleet, n: nat) {
    Working(s, n, -1)
  }

  /** An event of one handle does not disturb the others. */
  lemma HandleFrame(s: Fleet, t: Fleet, n: nat, busy: nat, i: nat)
    requires Working(s, n, busy) && i < n && i != busy
    requires |t.handles| == n && |t.cls.table| == n
    requires t.handles[i] == s.handles[i] && t.cls.table[i] == s.cls.table[i]
    requires Remembered(t.log, i) == Remembered(s.log, i)
    ensures HandleOk(t, i)
  {
    assert HandleOk(s, i);
  }

  /** The busy handle is ready to be rescheduled. */
  ghost predicate Decided(s: Fleet, n: nat, id: nat)
    requires |s.handles| == n && |s.cls.table| == n && id < n
  {
    var h, q := s.handles[id], s.cls.table[id].queue;
    && h.inflight.None? && h.state != NEXT
    && (h.state == HEAD || h.state == CONTENT ==> MayFetch(s, id))
    && (h.state == ROBOTS ==> q != [])
  }

  /** The loop of done: it never throws, and stops at a url that may be fetched or at the end of the queue. */
  lemma {:induction false} AdvanceOk(s: Fleet, n: nat, id: nat)
    requires Working(s, n, id) && id < n && s.handles[id].inflight.None? && RobotsFresh(s, id)
    ensures Advance(s, id).Some?
    ensures var t := Advance(s, id).value;
            Working(t, n, id) && Decided(t, n, id)
    decreases |Queue(s.cls, id)|
  {
    ShapeIndex(s.cls, n, id);
    var h, q := s.handles[id], s.cls.table[id].queue;
    if q == [] {
      BusyHandle(s, n, id, h.(state := IDLE));
    } else if !Steady(q[0].host) {
      BusyHandle(s, n, id, h.(doc := Some(Loaded(Normalize(q[0]))), state := ROBOTS));
    } else if Permits(h.robots.value, q[0].path) {
      assert q[0] in q;
      BusyHandle(s, n, id, h.(doc := Some(Loaded(Normalize(q[0]))), state := HEAD));
    } else {
      assert q[0] in q;
      var e := Dropped(id, q[0]);
      var t := s.(cls := Popped(s.cls, id).value,
                  handles := s.handles[id := h.(doc := Some(Loaded(Normalize(q[0]))), state := IDLE)],
                  log := s.log + [e]);
      PopOk(s.cls, n, id);
      IndexOfNAfterPop(s.cls, id);
      LogAppend(s.log, e);
      forall i | 0 <= i < n ensures Remembered(t.log, i) == Remembered(s.log, i) { RememberedAfter(s.log, e, i); }
      forall i | 0 <= i < n && i != id ensures HandleOk(t, i) { HandleFrame(s, t, n, id, i); }
      AdvanceOk(t, n, id);
    }
  }

  /** Rescheduling never throws and completes the invariant, refilling the queue if anything waits. */
  lemma RescheduleOk(s: Fleet, n: nat, id: nat, order: seq<Url>)
    requires Working(s, n, id) && id < n && Decided(s, n, id)
    requires NeedsDrain(s.cls, id) ==> IsDrain(s.cls.top, order)
    ensures Reschedule(s, id, order).Some?
    ensures FleetOk(Reschedule(s, id, order).value, n)
  {
    ShapeIndex(s.cls, n, id);
    if s.cls.top != multiset{} || Queue(s.cls, id) != [] {
      PeekOk(s.cls, n, id, order);
      var front := Peeked(s.cls, id, order).value.1;
      var t := Reschedule(s, id, order).value;
      var request := t.handles[id].inflight.value;
      RescheduleLog(s, n, id, front, request);
      forall i | 0 <= i < n && i != id ensures HandleOk(t, i) {
        KnownUnaffected(s.log, id, front.host, request, NeedsDrain(s.cls, id), i);
        HandleFrame(s, t, n, id, i);
      }
      RescheduledHandle(s, n, id, order);
    }
  }

  /** The rescheduled handle is as it should be between events. */
  lemma RescheduledHandle(s: Fleet, n: nat, id: nat, order: seq<Url>)
    requires Working(s, n, id) && id < n && Decided(s, n, id)
    requires NeedsDrain(s.cls, id) ==> IsDrain(s.cls.top, order)
    requires s.cls.top != multiset{} || Queue(s.cls, id) != []
    requires Reschedule(s, id, order).Some?
    ensures HandleOk(Reschedule(s, id, order).value, id)
  {
    ShapeIndex(s.cls, n, id);
    PeekOk(s.cls, n, id, order);
    var front := Peeked(s.cls, id, order).value.1;
    var t := Reschedule(s, id, order).value;
    var e := Requested(id, t.handles[id].inflight.value);
    var taken := s.log + if NeedsDrain(s.cls, id) then [Took(id, front.host)] else [];
    assert t.log == taken + [e];
    RememberedAfter(taken, e, id);
    if t.handles[id].state != ROBOTS { assert taken == s.log; }
  }

  lemma KnownUnaffected(log: seq<Event>, id: nat, host: Text, request: Request, drained: bool, i: nat)
    requires i != id
    ensures Remembered(log + (if drained then [Took(id, host)] else []) + [Requested(id, request)], i) == Remembered(log, i)
  {
    RememberedAfter(log, Took(id, host), i);
    var l := log + if drained then [Took(id, host)] else [];
    RememberedAfter(l, Requested(id, request), i);
    assert drained || l == log;
  }

  /** The request that rescheduling issues is one the log allows. */
  lemma RescheduleLog(s: Fleet, n: nat, id: nat, front: Url, request: Request)
    requires Working(s, n, id) && id < n && Decided(s, n, id)
    requires s.handles[id].state == HEAD || s.handles[id].state == CONTENT ==>
               !NeedsDrain(s.cls, id) && front == s.cls.table[id].queue[0]
    requires request == Request(KindFor(if s.handles[id].state == IDLE then ROBOTS else s.handles[id].state),
                                LinkFor(if s.handles[id].state == IDLE then ROBOTS else s.handles[id].state, front))
    ensures LogOk(s.log + (if NeedsDrain(s.cls, id) then [Took(id, front.host)] else []) + [Requested(id, request)])
  {
    var l := s.log + if NeedsDrain(s.cls, id) then [Took(id, front.host)] else [];
    if NeedsDrain(s.cls, id) { LogAppend(s.log, Took(id, front.host)); } else { assert l == s.log; }
    LogAppend(l, Requested(id, request));
  }

  // ---------------------------------------------------------------- each event keeps the invariant

  /** The busy handle's own fields do not matter to the others. */
  lemma BusyHandle(s: Fleet, n: nat, id: nat, h: Handle)
    requires Working(s, n, id) && id < n
    ensures Working(s.(handles := s.handles[id := h]), n, id)
  {
    var t := s.(handles := s.handles[id := h]);
    forall i | 0 <= i < n && i != id ensures HandleOk(t, i) { HandleFrame(s, t, n, id, i); }
  }

  /** An event that only speaks of handle id, and changes no host, goes into the log. */
  lemma BusyLog(s: Fleet, n: nat, id: nat, e: Event)
    requires Working(s, n, id) && id < n && EventOk(s.log, e)
    requires (e.RobotsKnown? || e.Saved?) && e.id == id
    ensures Working(s.(log := s.log + [e]), n, id)
    ensures Remembered(s.log + [e], id) == Recall(Remembered(s.log, id), e, id)
  {
    LogAppend(s.log, e);
    var t := s.(log := s.log + [e]);
    RememberedAfter(s.log, e, id);
    forall i | 0 <= i < n && i != id ensures HandleOk(t, i) {
      RememberedAfter(s.log, e, i);
      HandleFrame(s, t, n, id, i);
    }
  }

  lemma RobotsDone(s: Fleet, n: nat, id: nat, robots: Robots)
    requires Working(s, n, id) && id < n
    requires s.handles[id].state == ROBOTS && s.handles[id].inflight.None?
    requires s.cls.table[id].queue != [] && s.handles[id].doc == Some(DocFor(ROBOTS, s.cls.table[id].queue[0]))
    requires Remembered(s.log, id).asked == Some(Request(RobotsTxt, s.handles[id].doc.value))
    ensures var t := s.(handles := s.handles[id := s.handles[id].(robots := Some(robots))],
                        log := s.log + [RobotsKnown(id, s.handles[id].doc.value.host, robots)]);
            Working(t, n, id) && RobotsFresh(t, id)
  {
    var q := s.cls.table[id].queue;
    assert q[0] in q;
    BusyHandle(s, n, id, s.handles[id].(robots := Some(robots)));
    BusyLog(s.(handles := s.handles[id := s.handles[id].(robots := Some(robots))]), n, id,
            RobotsKnown(id, s.handles[id].doc.value.host, robots));
  }

  lemma SaveOk(s: Fleet, n: nat, id: nat)
    requires Working(s, n, id) && id < n && MayFetch(s, id)
    requires s.handles[id].doc == Some(DocFor(HEAD, s.cls.table[id].queue[0]))
    ensures SaveAndPop(s, id).Some?
    ensures var t := SaveAndPop(s, id).value; Working(t, n, id) && RobotsFresh(t, id) && t.handles == s.handles
  {
    ShapeIndex(s.cls, n, id);
    PopOk(s.cls, n, id);
    assert s.cls.table[id].queue[0] in s.cls.table[id].queue;
    BusyLog(s, n, id, Saved(id, s.cls.table[id].queue[0], Normalize(s.handles[id].doc.value)));
    var t := SaveAndPop(s, id).value;
    BusyQueue(s.(log := t.log), n, id, t.cls, t.saved);
    assert t.cls.table[id].host == s.cls.table[id].host;
  }

  /** The busy queue and the document count do not matter to the other handles. */
  lemma BusyQueue(s: Fleet, n: nat, id: nat, c: State, count: nat)
    requires Working(s, n, id) && id < n && ClsOk(c, n, id)
    requires forall i :: 0 <= i < n && i != id ==> c.table[i] == s.cls.table[i]
    ensures Working(Fleet(c, s.handles, count, s.log), n, id)
  {
    var t := Fleet(c, s.handles, count, s.log);
    forall i | 0 <= i < n && i != id ensures HandleOk(t, i) { HandleFrame(s, t, n, id, i); }
  }

  /** done never throws on a transfer that was in flight, whatever its outcome. */
  lemma DecideOk(s: Fleet, n: nat, id: nat, out: Outcome)
    requires FleetOk(s, n) && id < n && s.handles[id].inflight.Some?
    ensures Decide(TakeBack(s, id), id, out).Some?
    ensures var t := Decide(TakeBack(s, id), id, out).value; Working(t, n, id) && Decided(t, n, id)
  {
    assert HandleOk(s, id);
    var h := s.handles[id];
    BusyHandle(s, n, id, h.(inflight := None));
    var b := TakeBack(s, id);
    if h.state == ROBOTS {
      RobotsDone(b, n, id, RobotsResult(out));
      AdvanceOk(b.(handles := b.handles[id := b.handles[id].(robots := Some(RobotsResult(out)))],
                   log := b.log + [RobotsKnown(id, h.doc.value.host, RobotsResult(out))]), n, id);
    } else if h.state == HEAD && out.ok && out.acceptable {
      BusyHandle(b, n, id, b.handles[id].(state := CONTENT));
    } else {
      SaveOk(b, n, id);
      AdvanceOk(SaveAndPop(b, id).value, n, id);
    }
  }

  lemma DoneOk(s: Fleet, n: nat, id: nat, out: Outcome, order: seq<Url>)
    requires FleetOk(s, n) && id < n && s.handles[id].inflight.Some? && DoneOrder(s, id, out, order)
    ensures Done(s, id, out, order).Some? && FleetOk(Done(s, id, out, order).value, n)
  {
    DecideOk(s, n, id, out);
    var t := Decide(TakeBack(s, id), id, out).value;
    BusyHandle(t, n, id, t.handles[id].(doc := None));
    RescheduleOk(ClearDoc(t, id), n, id, order);
  }

  /** Between events an idle handle's reschedule never has to drain the priority queue. */
  lemma IdleReschedule(s: Fleet, n: nat, k: nat, order: seq<Url>)
    requires FleetOk(s, n) && k < n && s.handles[k].state == IDLE
    ensures !NeedsDrain(s.cls, k)
    ensures Reschedule(s, k, order).Some? && FleetOk(Reschedule(s, k, order).value, n)
  {
    ShapeIndex(s.cls, n, k);
    assert HandleOk(s, k);
    RescheduleOk(s, n, k, order);
  }

  lemma {:induction false} TickOk(s: Fleet, n: nat, k: nat, t: Fleet)
    requires FleetOk(s, n) && Ticked(s, k, t)
    ensures FleetOk(t, n)
    decreases n - k
  {
    if k < n {
      if s.handles[k].state != IDLE {
        TickOk(s, n, k + 1, t);
      } else {
        var order :| LegalOrder(s, k, order) && RescheduledTo(s, k, order, t);
        IdleReschedule(s, n, k, order);
        TickOk(Reschedule(s, k, order).value, n, k + 1, t);
      }
    }
  }

  /** What a new url changes about a queue with something in it: its end. */
  lemma AcceptQueue(s: Fleet, n: nat, u: Url, i: nat)
    requires FleetOk(s, n) && i < n && s.cls.table[i].queue != []
    ensures var e, f := s.cls.table[i], Accept(s, u).cls.table[i]; f.host == e.host && e.queue <= f.queue
    ensures Remembered(Accept(s, u).log, i) == Remembered(s.log, i)
  {
    var l, j := s.log + [Accepted(u)], FirstEmpty(s.cls.table);
    RememberedAfter(s.log, Accepted(u), i);
    if Accept(s, u).log != l {
      assert s.cls.table[j].n == j != i;
      RememberedAfter(l, Took(j, u.host), i);
    }
  }

  /** So it does not disturb the handles. */
  lemma AcceptHandle(s: Fleet, n: nat, u: Url, i: nat)
    requires FleetOk(s, n) && i < n && |Accept(s, u).cls.table| == n
    ensures HandleOk(Accept(s, u), i)
  {
    assert HandleOk(s, i);
    if s.handles[i].state != IDLE {
      AcceptQueue(s, n, u, i);
    }
  }

  lemma AcceptOk(s: Fleet, n: nat, u: Url)
    requires FleetOk(s, n)
    ensures FleetOk(Accept(s, u), n)
  {
    PushOk(s.cls, n, u);
    var t := Accept(s, u);
    var l := s.log + [Accepted(u)];
    LogAppend(s.log, Accepted(u));
    var j := FirstEmpty(s.cls.table);
    if t.log != l { LogAppend(l, Took(j, u.host)); }
    forall i | 0 <= i < n ensures HandleOk(t, i) { AcceptHandle(s, n, u, i); }
  }
}
