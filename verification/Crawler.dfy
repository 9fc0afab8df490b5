/**
 * The crawler's objects: easy handles that share one classifier. Each method
 * is proved to make the transition of the fleet model, so the laws of the
 * model are laws of the objects.
 */
module Crawler {
  import opened Bytes
  import opened Hosts
  import opened UrlClassifier
  import opened ClassifierLaws
  import opened FleetModel
  import opened FleetLaws

  class EasyHandle {
    const id: nat
    var state: HandleState
    var robots: Option<Robots>
    var doc: Option<Url>
    var inflight: Option<Request>

    constructor (id: nat)
      ensures this.id == id && View() == Handle(IDLE, None, None, None)
    {
      this.id := id;
      state, robots, doc, inflight := IDLE, None, None, None;
    }

    ghost function View(): Handle
      reads this
    {
      Handle(state, robots, doc, inflight)
    }

    /** The part of reschedule after peek: load the document's url and hand a transfer to curl. */
    method Begin(url: Url) returns (ok: bool)
      modifies this
      ensures ok == (old(state) != NEXT)
      ensures ok ==> View() == Scheduled(old(View()), url)
    {
      doc := Some(Loaded(url));
      match state {
        case IDLE | ROBOTS =>
          state := ROBOTS;
          doc := Some(RobotsUrl(url));
          inflight := Some(Request(RobotsTxt, RobotsUrl(url)));
        case HEAD =>
          inflight := Some(Request(Head, url));
        case CONTENT =>
          inflight := Some(Request(Get, url));
        case NEXT =>
          return false;
      }
      ok := true;
    }

    /** The part of the loop of done that decides on one url; drop when robots.txt forbids it. */
    method Choose(front: Url) returns (drop: bool)
      requires state == IDLE
      modifies this`state, this`doc
      ensures View() == Chosen(old(View()), front) && drop == (state == IDLE)
    {
      var url := Normalize(front);
      doc := Some(Loaded(url));
      if robots.None? || doc.value.host != url.host {
        state := ROBOTS;
      } else if Permits(robots.value, url.path) {
        state := HEAD;
      }
      drop := state == IDLE;
    }
  }

  ghost function Taken(s: Fleet, id: nat, front: Url): seq<Event> {
    if NeedsDrain(s.cls, id) then [Took(id, front.host)] else []
  }

  /** Rescheduling a handle that has something to do, spelled out. */
  lemma DequeueIs(s: Fleet, id: nat, order: seq<Url>)
    requires id < |s.handles| && LegalOrder(s, id, order) && (s.cls.top != multiset{} || Queue(s.cls, id) != [])
    ensures var p := Peeked(s.cls, id, order);
            FleetModel.Reschedule(s, id, order) ==
            if p.Err? || s.handles[id].state == NEXT then None
            else
              var (c, front) := p.value;
              var g := Scheduled(s.handles[id], Normalize(front));
              Some(Fleet(c, s.handles[id := g], s.saved, s.log + Taken(s, id, front) + [Requested(id, g.inflight.value)]))
  {
  }

  /** The loop of done, one round spelled out. */
  lemma AdvanceIs(s: Fleet, id: nat)
    requires id < |s.handles|
    ensures var h, q := s.handles[id], Queue(s.cls, id);
            FleetModel.Advance(s, id) ==
            if IndexOfN(s.cls.table, id) == |s.cls.table| then None
            else if q == [] then Some(s.(handles := s.handles[id := h.(state := IDLE)]))
            else
              var g := Chosen(h, q[0]);
              if g.state != IDLE then Some(s.(handles := s.handles[id := g]))
              else FleetModel.Advance(Fleet(Popped(s.cls, id).value, s.handles[id := g], s.saved,
                                            s.log + [Dropped(id, q[0])]), id)
  {
  }

  /** The loop starts by setting the state, so it does not depend on it. */
  lemma AdvanceFromIdle(s: Fleet, id: nat)
    requires id < |s.handles|
    ensures FleetModel.Advance(s.(handles := s.handles[id := s.handles[id].(state := IDLE)]), id) == FleetModel.Advance(s, id)
  {
    var h := s.handles[id];
    var t := s.(handles := s.handles[id := h.(state := IDLE)]);
    assert t.handles[id := h.(state := IDLE)] == s.handles[id := h.(state := IDLE)];
    if Queue(s.cls, id) != [] {
      var g := Chosen(h, Queue(s.cls, id)[0]);
      assert Chosen(t.handles[id], Queue(s.cls, id)[0]) == g;
      assert t.handles[id := g] == s.handles[id := g];
    }
    AdvanceIs(s, id);
    AdvanceIs(t, id);
  }

  /** One round of the loop: what it leaves behind, and whether there is another. */
  ghost predicate Tried(s: Fleet, id: nat, again: bool, ok: bool, t: Fleet)
    requires id < |s.handles|
  {
    var q := Queue(s.cls, id);
    if IndexOfN(s.cls.table, id) == |s.cls.table| then !again && !ok
    else if q == [] then !again && ok && t == s
    else
      var g := Chosen(s.handles[id], q[0]);
      && ok && again == (g.state == IDLE)
      && t == if again then Fleet(Popped(s.cls, id).value, s.handles[id := g], s.saved, s.log + [Dropped(id, q[0])])
              else s.(handles := s.handles[id := g])
  }

  /** So the loop computes what the model does. */
  lemma TriedIs(s: Fleet, id: nat, again: bool, ok: bool, t: Fleet)
    requires id < |s.handles| && s.handles[id].state == IDLE && Tried(s, id, again, ok, t)
    ensures again ==> id < |t.handles| && t.handles[id].state == IDLE
    ensures again ==> FleetModel.Advance(t, id) == FleetModel.Advance(s, id) && |Queue(t.cls, id)| < |Queue(s.cls, id)|
    ensures !again ==> var a := FleetModel.Advance(s, id); ok == a.Some? && (ok ==> t == a.value)
  {
    AdvanceIs(s, id);
    if again {
      IndexOfNAfterPop(s.cls, id);
    }
    assert s.handles[id := s.handles[id]] == s.handles;
  }

  class GlobalInfo {
    const classifier: Classifier
    const handles: seq<EasyHandle>
    var nDocsSaved: nat
    ghost var log: seq<Event>

    /** One handle object per queue number. */
    ghost predicate Wired() {
      forall i, j :: 0 <= i < |handles| && 0 <= j < |handles| ==> handles[i].id == i && (i != j ==> handles[i] != handles[j])
    }

    ghost function View(): Fleet
      reads this, classifier, handles
    {
      Fleet(classifier.View(),
            seq(|handles|, i requires 0 <= i < |handles| reads handles => handles[i].View()),
            nDocsSaved, log)
    }

    constructor (parallel: nat)
      ensures Wired() && fresh(classifier) && (forall h :: h in handles ==> fresh(h))
      ensures View() == Start(parallel)
    {
      var hs: seq<EasyHandle> := [];
      var c := new Classifier(parallel);
      for i := 0 to parallel
        invariant |hs| == i && c.View() == Init(parallel) && fresh(c)
        invariant forall k :: 0 <= k < i ==> fresh(hs[k]) && hs[k].id == k && hs[k].View() == Handle(IDLE, None, None, None)
        invariant forall k, m :: 0 <= k < m < i ==> hs[k] != hs[m]
      {
        var h := new EasyHandle(i);
        hs := hs + [h];
      }
      classifier, handles, nDocsSaved := c, hs, 0;
      log := [];
    }

    /** A url read from a connection. */
    method Accept(u: Url)
      requires Wired()
      modifies this`log, classifier
      ensures View() == FleetModel.Accept(old(View()), u)
    {
      ghost var s := View();
      classifier.Push(u);
      log := FleetModel.Accept(s, u).log;
      assert View().handles == s.handles;
    }

    /** The part of reschedule that peeks at the queue and starts a transfer. */
    method Dequeue(id: nat) returns (ok: bool, ghost order: seq<Url>)
      requires Wired() && id < |handles|
      requires classifier.topQ != multiset{} || Queue(classifier.View(), id) != []
      modifies this`log, classifier, handles[id]
      ensures LegalOrder(old(View()), id, order)
      ensures var r := FleetModel.Reschedule(old(View()), id, order); ok == r.Some? && (ok ==> View() == r.value)
    {
      ghost var s := View();
      var r;
      r, order := classifier.Peek(id);
      DequeueIs(s, id, order);
      if r.Err? { return false, order; }
      ok := handles[id].Begin(Normalize(r.value));
      if ok {
        log := s.log + Taken(s, id, r.value) + [Requested(id, handles[id].inflight.value)];
        assert View().handles == s.handles[id := handles[id].View()];
      }
    }

    /** EasyHandle::reschedule; ok is false when the code throws. */
    method Reschedule(id: nat) returns (ok: bool, ghost order: seq<Url>)
      requires Wired() && id < |handles|
      modifies this`log, classifier, handles[id]
      ensures LegalOrder(old(View()), id, order)
      ensures var r := FleetModel.Reschedule(old(View()), id, order); ok == r.Some? && (ok ==> View() == r.value)
    {
      order := [];
      var topEmpty := classifier.EmptyTop();
      if topEmpty {
        var e := classifier.EmptyQueue(id);
        if e.Err? { return false, []; }
        if e.value { return true, []; }
      }
      ok, order := Dequeue(id);
    }

    /** One round of the loop of done; again when a forbidden url was popped, ok when nothing was thrown. */
    method TryFront(id: nat) returns (again: bool, ok: bool)
      requires Wired() && id < |handles| && handles[id].state == IDLE
      modifies this`log, classifier, handles[id]
      ensures Tried(old(View()), id, again, ok, View())
    {
      ghost var s := View();
      assert s.cls == classifier.View();
      var e := classifier.EmptyQueue(id);
      if e.Err? { return false, false; }
      if e.value { return false, true; }
      var drop, front := ChooseFront(id);
      ghost var g := Chosen(s.handles[id], front);
      assert View() == s.(handles := s.handles[id := g]) && View().handles[id].state == g.state;
      if drop {
        assert classifier.View() == s.cls;
        DropFront(id, front);
        assert View() == Fleet(Popped(s.cls, id).value, s.handles[id := g], s.saved, s.log + [Dropped(id, front)]);
      }
      return drop, true;
    }

    /** Looks at the front of the queue and decides on it. */
    method ChooseFront(id: nat) returns (drop: bool, front: Url)
      requires Wired() && id < |handles| && handles[id].state == IDLE && Queue(classifier.View(), id) != []
      modifies classifier, handles[id]
      ensures front == Queue(old(classifier.View()), id)[0]
      ensures View() == old(View()).(handles := old(View()).handles[id := Chosen(old(View()).handles[id], front)])
      ensures drop == (handles[id].state == IDLE)
    {
      ghost var s := View();
      var r, _ := classifier.Peek(id);
      front := r.value;
      drop := handles[id].Choose(front);
      assert View().handles == s.handles[id := handles[id].View()];
    }

    method DropFront(id: nat, front: Url)
      requires Wired() && id < |handles| && Queue(classifier.View(), id) != []
      modifies this`log, classifier
      ensures Popped(old(classifier.View()), id).Ok?
      ensures View() == old(View()).(cls := Popped(old(classifier.View()), id).value, log := old(log) + [Dropped(id, front)])
    {
      ghost var s := View();
      var p := classifier.Pop(id);
      log := log + [Dropped(id, front)];
      assert View().handles == s.handles;
    }

    /** The loop of done: pop urls that robots.txt forbids until one may be fetched. */
    method Advance(id: nat) returns (ok: bool)
      requires Wired() && id < |handles|
      modifies this`log, classifier, handles[id]
      ensures var r := FleetModel.Advance(old(View()), id); ok == r.Some? && (ok ==> View() == r.value)
    {
      ghost var s := View();
      AdvanceFromIdle(s, id);
      handles[id].state := IDLE;
      assert View().handles == s.handles[id := s.handles[id].(state := IDLE)];
      assert View() == s.(handles := s.handles[id := s.handles[id].(state := IDLE)]);
      var again := true;
      ok := false;
      while again
        invariant again ==> handles[id].state == IDLE && FleetModel.Advance(View(), id) == FleetModel.Advance(s, id)
        invariant !again ==> var r := FleetModel.Advance(s, id); ok == r.Some? && (ok ==> View() == r.value)
        decreases again, |Queue(classifier.View(), id)|
      {
        ghost var before := View();
        again, ok := TryFront(id);
        TriedIs(before, id, again, ok, View());
      }
    }

    /** Save the document and pop its url. */
    method SaveAndPop(id: nat) returns (ok: bool)
      requires Wired() && id < |handles|
      modifies this`log, this`nDocsSaved, classifier
      ensures var r := FleetModel.SaveAndPop(old(View()), id); ok == r.Some? && (ok ==> View() == r.value)
    {
      ghost var s := View();
      if handles[id].doc.None? { return false; }
      nDocsSaved := nDocsSaved + 1;
      var p := classifier.Pop(id);
      if p.Err? { return false; }
      log := log + [Saved(id, Queue(s.cls, id)[0], Normalize(handles[id].doc.value))];
      assert View().handles == s.handles;
      ok := true;
    }

    /** done on a robots.txt transfer: keep what was fetched, then look for a url it allows. */
    method RobotsDone(id: nat, out: Outcome) returns (ok: bool)
      requires Wired() && id < |handles| && handles[id].state == ROBOTS
      modifies this`log, classifier, handles[id]
      ensures var r := FleetModel.Decide(old(View()), id, out); ok == r.Some? && (ok ==> View() == r.value)
    {
      ghost var s := View();
      var h := handles[id];
      if h.doc.None? { return false; }
      h.robots := Some(RobotsResult(out));
      log := log + [RobotsKnown(id, h.doc.value.host, RobotsResult(out))];
      assert View().handles == s.handles[id := s.handles[id].(robots := Some(RobotsResult(out)))];
      ok := Advance(id);
    }

    /** The switch of done on the state of the handle. */
    method Decide(id: nat, out: Outcome) returns (ok: bool)
      requires Wired() && id < |handles|
      modifies this`log, this`nDocsSaved, classifier, handles[id]
      ensures var r := FleetModel.Decide(old(View()), id, out); ok == r.Some? && (ok ==> View() == r.value)
    {
      ghost var s := View();
      var h := handles[id];
      match h.state
      case IDLE =>
        ok := false;
      case ROBOTS =>
        ok := RobotsDone(id, out);
      case HEAD =>
        if out.ok && out.acceptable {
          h.state := CONTENT;
          assert View().handles == s.handles[id := h.View()];
          ok := true;
        } else {
          ok := SaveAndPop(id);
          if ok { ok := Advance(id); }
        }
      case CONTENT =>
        ok := SaveAndPop(id);
        if ok { ok := Advance(id); }
      case NEXT =>
        ok := Advance(id);
    }

    /** A transfer of handle id completes: curl gives it back, done decides and reschedules. */
    method Done(id: nat, out: Outcome) returns (ok: bool, ghost order: seq<Url>)
      requires Wired() && id < |handles|
      modifies this`log, this`nDocsSaved, classifier, handles[id]
      ensures DoneOrder(old(View()), id, out, order)
      ensures var r := FleetModel.Done(old(View()), id, out, order); ok == r.Some? && (ok ==> View() == r.value)
    {
      ghost var s := View();
      var h := handles[id];
      h.inflight := None;
      assert View().handles == TakeBack(s, id).handles;
      ok := Decide(id, out);
      order := [];
      if ok {
        ghost var t := View();
        h.doc := None;
        assert View().handles == ClearDoc(t, id).handles;
        ok, order := Reschedule(id);
      }
    }

    /** Between events a completion never throws, and makes a transition that keeps the invariant. */
    method Complete(id: nat, out: Outcome)
      requires Wired() && id < |handles| && FleetOk(View(), |handles|) && handles[id].inflight.Some?
      modifies this`log, this`nDocsSaved, classifier, handles[id]
      ensures FleetOk(View(), |handles|) && Completed(old(View()), id, out, View())
    {
      ghost var s := View();
      var ok;
      ghost var order;
      ok, order := Done(id, out);
      DoneOk(s, |handles|, id, out, order);
    }

    /** GlobalInfo::reschedule: between events it never throws, and makes the tick transition. */
    method Tick()
      requires Wired() && FleetOk(View(), |handles|)
      modifies this`log, classifier, handles
      ensures FleetOk(View(), |handles|) && Ticked(old(View()), 0, View())
    {
      ghost var s := View();
      for k := 0 to |handles|
        invariant FleetOk(View(), |handles|)
        invariant forall t :: Ticked(View(), k, t) ==> Ticked(s, 0, t)
      {
        ghost var before := View();
        if handles[k].state == IDLE {
          var ok;
          ghost var order;
          ok, order := Reschedule(k);
          IdleReschedule(before, |handles|, k, order);
          forall t | Ticked(View(), k + 1, t) ensures Ticked(before, k, t) {
            assert RescheduledTo(before, k, order, t);
          }
        }
      }
    }
  }
}
