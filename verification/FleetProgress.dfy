/**
 * When the fleet goes quiet: without new urls every completion for a steady
 * host and every effective tick lowers a measure, and a fleet with nothing left
 * to do has accounted for every url. A host that is not steady is asked for its
 * robots.txt for ever.
 */
module FleetProgress {
  import opened Bytes
  import opened Hosts
  import opened UrlClassifier
  import opened ClassifierLaws
  import opened FleetModel
  import opened FleetLaws
  import opened FleetRuns
  import opened FleetHeld

  // ---------------------------------------------------------------- the measure

  function Rank(state: HandleState): nat {
    match state
    case IDLE => 3
    case ROBOTS => 2
    case HEAD => 1
    case CONTENT => 0
    case NEXT => 3
  }

  function RankSum(handles: seq<Handle>): (r: nat) {
    if handles == [] then 0 else RankSum(handles[..|handles| - 1]) + Rank(handles[|handles| - 1].state)
  }

  function Measure(s: Fleet): (r: nat) {
    4 * |Held(s.cls)| + RankSum(s.handles)
  }

  lemma {:induction false} RankSumUpdate(handles: seq<Handle>, i: nat, h: Handle)
    requires i < |handles|
    ensures RankSum(handles[i := h]) == RankSum(handles) - Rank(handles[i].state) + Rank(h.state)
  {
    var k := |handles| - 1;
    if i < k {
      assert handles[i := h][..k] == handles[..k][i := h];
      RankSumUpdate(handles[..k], i, h);
    } else {
      assert handles[i := h][..k] == handles[..k];
    }
  }

  lemma RescheduleMeasure(s: Fleet, id: nat, order: seq<Url>)
    requires id < |s.handles| && LegalOrder(s, id, order) && Reschedule(s, id, order).Some?
    ensures var t := Reschedule(s, id, order).value;
            t == s || Measure(t) == Measure(s) - if s.handles[id].state == IDLE then 1 else 0
  {
    var t := Reschedule(s, id, order).value;
    RescheduleHeld(s, id, order);
    if t != s { RankSumUpdate(s.handles, id, t.handles[id]); }
  }

  lemma PopMeasure(c: State, id: nat)
    requires Popped(c, id).Ok?
    ensures |Held(Popped(c, id).value)| == |Held(c)| - 1
  {
    PopConserves(c, id);
  }

  /** What the other handles and the urls contribute. */
  function Others(s: Fleet, id: nat): (r: int)
    requires id < |s.handles|
  {
    Measure(s) - Rank(s.handles[id].state)
  }

  lemma OthersUpdate(s: Fleet, id: nat, h: Handle, c: State, log: seq<Event>, saved: nat)
    requires id < |s.handles|
    ensures Others(Fleet(c, s.handles[id := h], saved, log), id) == Others(s, id) + 4 * (|Held(c)| - |Held(s.cls)|)
  {
    RankSumUpdate(s.handles, id, h);
  }

  lemma StopMeasure(s: Fleet, id: nat, h: Handle)
    requires id < |s.handles|
    ensures Measure(s.(handles := s.handles[id := h])) == Others(s, id) + Rank(h.state)
  {
    RankSumUpdate(s.handles, id, h);
  }

  lemma DropMeasure(s: Fleet, id: nat, h: Handle, log: seq<Event>)
    requires id < |s.handles| && Popped(s.cls, id).Ok?
    ensures Others(Fleet(Popped(s.cls, id).value, s.handles[id := h], s.saved, log), id) == Others(s, id) - 4
  {
    PopMeasure(s.cls, id);
    OthersUpdate(s, id, h, Popped(s.cls, id).value, log, s.saved);
  }

  /** The loop of done stops at once, or has dropped something. */
  lemma {:induction false} AdvanceMeasure(s: Fleet, id: nat)
    requires id < |s.handles| && s.handles[id].robots.Some? && Advance(s, id).Some?
    ensures Measure(Advance(s, id).value) <= Others(s, id) + 3
    ensures Queue(s.cls, id) != [] && Steady(Queue(s.cls, id)[0].host) ==>
              Measure(Advance(s, id).value) <= Others(s, id) + 1
    decreases |Queue(s.cls, id)|
  {
    var h, q := s.handles[id], Queue(s.cls, id);
    if q == [] {
      StopMeasure(s, id, h.(state := IDLE));
    } else {
      var g := h.(doc := Some(Loaded(Normalize(q[0]))), state := IDLE);
      if !Steady(q[0].host) {
        StopMeasure(s, id, g.(state := ROBOTS));
      } else if Permits(h.robots.value, q[0].path) {
        StopMeasure(s, id, g.(state := HEAD));
      } else {
        var l := s.log + [Dropped(id, q[0])];
        IndexOfNAfterPop(s.cls, id);
        DropMeasure(s, id, g, l);
        AdvanceMeasure(Fleet(Popped(s.cls, id).value, s.handles[id := g], s.saved, l), id);
      }
    }
  }

  /** A handle that is past its robots.txt works on a steady host. */
  lemma BusyHost(s: Fleet, n: nat, id: nat)
    requires FleetOk(s, n) && id < n && s.handles[id].inflight.Some?
    ensures Queue(s.cls, id) == s.cls.table[id].queue != []
    ensures s.handles[id].state != IDLE && s.handles[id].state != NEXT && s.handles[id].doc.Some?
    ensures s.handles[id].state != ROBOTS ==> Steady(Queue(s.cls, id)[0].host) && s.handles[id].robots.Some?
  {
    assert HandleOk(s, id);
    ShapeIndex(s.cls, n, id);
    var q := s.cls.table[id].queue;
    assert q != [] && q[0] in q;
  }

  /** Where done goes on from once a robots.txt has arrived. */
  function Informed(b: Fleet, id: nat, robots: Robots): (t: Fleet)
    requires id < |b.handles| && b.handles[id].doc.Some?
  {
    b.(handles := b.handles[id := b.handles[id].(robots := Some(robots))],
       log := b.log + [RobotsKnown(id, b.handles[id].doc.value.host, robots)])
  }

  lemma DecideMeasure(b: Fleet, id: nat, out: Outcome)
    requires id < |b.handles| && b.handles[id].doc.Some? && Decide(b, id, out).Some?
    requires b.handles[id].state != NEXT && (b.handles[id].state != ROBOTS ==> b.handles[id].robots.Some?)
    requires Queue(b.cls, id) != [] && Steady(Queue(b.cls, id)[0].host)
    ensures Measure(Decide(b, id, out).value) < Measure(b)
  {
    var h := b.handles[id];
    if h.state == ROBOTS {
      DecideRobots(b, id, out);
      RobotsMeasure(b, id, RobotsResult(out), Informed(b, id, RobotsResult(out)));
    } else if h.state == HEAD && out.ok && out.acceptable {
      StopMeasure(b, id, h.(state := CONTENT));
    } else {
      DecideSaved(b, id, out);
      SavedMeasure(b, id, SaveAndPop(b, id).value);
    }
  }

  lemma MeasureIs(s: Fleet, id: nat)
    requires id < |s.handles|
    ensures Measure(s) == Others(s, id) + Rank(s.handles[id].state)
  {
  }

  lemma DecideRobots(b: Fleet, id: nat, out: Outcome)
    requires id < |b.handles| && b.handles[id].state == ROBOTS && b.handles[id].doc.Some?
    ensures Decide(b, id, out) == Advance(Informed(b, id, RobotsResult(out)), id)
  {
  }

  lemma DecideSaved(b: Fleet, id: nat, out: Outcome)
    requires id < |b.handles| && Decide(b, id, out).Some?
    requires b.handles[id].state == CONTENT || (b.handles[id].state == HEAD && !(out.ok && out.acceptable))
    ensures SaveAndPop(b, id).Some? && Decide(b, id, out) == Advance(SaveAndPop(b, id).value, id)
  {
  }

  lemma RobotsMeasure(b: Fleet, id: nat, robots: Robots, t: Fleet)
    requires id < |b.handles| && b.handles[id].doc.Some? && t == Informed(b, id, robots)
    requires Queue(b.cls, id) != [] && Steady(Queue(b.cls, id)[0].host) && Advance(t, id).Some?
    requires b.handles[id].state == ROBOTS
    ensures Measure(Advance(t, id).value) < Measure(b)
  {
    MeasureIs(b, id);
    OthersUpdate(b, id, t.handles[id], b.cls, t.log, b.saved);
    AdvanceMeasure(t, id);
  }

  lemma SavedMeasure(b: Fleet, id: nat, t: Fleet)
    requires id < |b.handles| && b.handles[id].robots.Some? && SaveAndPop(b, id) == Some(t) && Advance(t, id).Some?
    ensures Measure(Advance(t, id).value) < Measure(b)
  {
    MeasureIs(b, id);
    PopMeasure(b.cls, id);
    assert b.handles[id := b.handles[id]] == b.handles;
    OthersUpdate(b, id, b.handles[id], t.cls, t.log, t.saved);
    AdvanceMeasure(t, id);
  }

  lemma AdvanceUnsteady(s: Fleet, id: nat)
    requires id < |s.handles| && IndexOfN(s.cls.table, id) < |s.cls.table|
    requires Queue(s.cls, id) != [] && !Steady(Queue(s.cls, id)[0].host)
    ensures Advance(s, id) == Some(s.(handles := s.handles[id :=
              s.handles[id].(doc := Some(Loaded(Normalize(Queue(s.cls, id)[0]))), state := ROBOTS)]))
  {
  }

  /** Handle id asks for the robots.txt of a host that is not steady. */
  ghost predicate AsksInVain(s: Fleet, id: nat) {
    && id < |s.handles| && IndexOfN(s.cls.table, id) < |s.cls.table|
    && Queue(s.cls, id) != [] && !Steady(Queue(s.cls, id)[0].host)
    && s.handles[id] == Asking(s.handles[id].robots, Queue(s.cls, id)[0])
  }

  function Asking(robots: Option<Robots>, front: Url): (h: Handle) {
    var url := RobotsUrl(Normalize(front));
    Handle(ROBOTS, robots, Some(url), Some(Request(RobotsTxt, url)))
  }

  lemma UnsteadyAsks(s: Fleet, n: nat, id: nat)
    requires FleetOk(s, n) && id < n && s.handles[id].inflight.Some?
    requires Queue(s.cls, id) != [] && !Steady(Queue(s.cls, id)[0].host)
    ensures AsksInVain(s, id)
  {
    assert HandleOk(s, id);
    BusyHost(s, n, id);
    ShapeIndex(s.cls, n, id);
  }

  /** What done decides for such a host: robots.txt again, for the same queue. */
  lemma DecideAgain(s: Fleet, id: nat, out: Outcome)
    requires AsksInVain(s, id)
    ensures var d := Some(Loaded(Normalize(Queue(s.cls, id)[0])));
            Decide(TakeBack(s, id), id, out) ==
            Some(s.(handles := s.handles[id := Handle(ROBOTS, Some(RobotsResult(out)), d, None)],
                    log := s.log + [RobotsKnown(id, s.handles[id].doc.value.host, RobotsResult(out))]))
  {
    var b := TakeBack(s, id);
    var t := Informed(b, id, RobotsResult(out));
    DecideRobots(b, id, out);
    AdvanceUnsteady(t, id);
    var g := Handle(ROBOTS, Some(RobotsResult(out)), Some(Loaded(Normalize(Queue(s.cls, id)[0]))), None);
    assert t.handles[id := g] == s.handles[id := g];
  }

  /** Rescheduling in state ROBOTS with something in the queue, spelled out. */
  lemma RescheduleRobots(t: Fleet, id: nat, order: seq<Url>)
    requires id < |t.handles| && t.handles[id].state == ROBOTS
    requires IndexOfN(t.cls.table, id) < |t.cls.table| && Queue(t.cls, id) != []
    ensures LegalOrder(t, id, order)
    ensures var g := Asking(t.handles[id].robots, Queue(t.cls, id)[0]);
            Reschedule(t, id, order) ==
            Some(Fleet(t.cls, t.handles[id := g], t.saved, t.log + [Requested(id, g.inflight.value)]))
  {
    assert !NeedsDrain(t.cls, id);
    assert t.log + [] == t.log;
  }

  lemma DoneIs(s: Fleet, id: nat, out: Outcome, order: seq<Url>, d: Fleet)
    requires id < |s.handles| && Decide(TakeBack(s, id), id, out) == Some(d)
    ensures DoneOrder(s, id, out, order) <==> LegalOrder(ClearDoc(d, id), id, order)
    ensures Done(s, id, out, order) == Reschedule(ClearDoc(d, id), id, order)
  {
  }

  lemma UpdateTwice(handles: seq<Handle>, id: nat, g: Handle, h: Handle)
    requires id < |handles|
    ensures handles[id := g][id := h] == handles[id := h]
  {
  }

  lemma DoneAgain(s: Fleet, id: nat, out: Outcome, order: seq<Url>)
    requires AsksInVain(s, id)
    ensures DoneOrder(s, id, out, order) && Done(s, id, out, order).Some?
    ensures var t := Done(s, id, out, order).value;
            && t.cls == s.cls && t.handles == s.handles[id := s.handles[id].(robots := Some(RobotsResult(out)))]
            && |t.log| == |s.log| + 2
  {
    var robots, doc := Some(RobotsResult(out)), Some(Loaded(Normalize(Queue(s.cls, id)[0])));
    var log := s.log + [RobotsKnown(id, s.handles[id].doc.value.host, RobotsResult(out))];
    var g, h := Handle(ROBOTS, robots, doc, None), Handle(ROBOTS, robots, None, None);
    DecideAgain(s, id, out);
    DoneIs(s, id, out, order, Fleet(s.cls, s.handles[id := g], s.saved, log));
    UpdateTwice(s.handles, id, g, h);
    RescheduleRobots(Fleet(s.cls, s.handles[id := h], s.saved, log), id, order);
    UpdateTwice(s.handles, id, h, Asking(robots, Queue(s.cls, id)[0]));
  }

  /** Such a completion leaves the queues and the handle as they were, but for the robots.txt it brought. */
  lemma RobotsAgain(s: Fleet, n: nat, id: nat, out: Outcome, order: seq<Url>)
    requires FleetOk(s, n) && id < n && s.handles[id].inflight.Some?
    requires Queue(s.cls, id) != [] && !Steady(Queue(s.cls, id)[0].host)
    ensures DoneOrder(s, id, out, order) && Done(s, id, out, order).Some?
    ensures var t := Done(s, id, out, order).value;
            && t.cls == s.cls && t.handles == s.handles[id := s.handles[id].(robots := Some(RobotsResult(out)))]
            && |t.log| == |s.log| + 2 && Measure(t) == Measure(s)
  {
    UnsteadyAsks(s, n, id);
    DoneAgain(s, id, out, order);
    RankSumUpdate(s.handles, id, s.handles[id].(robots := Some(RobotsResult(out))));
  }

  /** A completion lowers the measure exactly when the host at the front is steady. */
  lemma DoneMeasure(s: Fleet, n: nat, id: nat, out: Outcome, order: seq<Url>)
    requires FleetOk(s, n) && id < n && s.handles[id].inflight.Some? && DoneOrder(s, id, out, order)
    ensures Done(s, id, out, order).Some? && Queue(s.cls, id) != []
    ensures Measure(Done(s, id, out, order).value) < Measure(s) <==> Steady(Queue(s.cls, id)[0].host)
  {
    DoneOk(s, n, id, out, order);
    BusyHost(s, n, id);
    if Steady(Queue(s.cls, id)[0].host) {
      DecideOk(s, n, id, out);
      DecideMeasure(TakeBack(s, id), id, out);
      StopMeasure(s, id, s.handles[id].(inflight := None));
      var t := Decide(TakeBack(s, id), id, out).value;
      StopMeasure(t, id, t.handles[id].(doc := None));
      RescheduleMeasure(ClearDoc(t, id), id, order);
    } else {
      RobotsAgain(s, n, id, out, order);
    }
  }

  /** An idle handle with work is put to work; nothing else changes. */
  lemma IdleStep(s: Fleet, n: nat, k: nat, order: seq<Url>)
    requires FleetOk(s, n) && k < n && s.handles[k].state == IDLE && LegalOrder(s, k, order)
    ensures Reschedule(s, k, order).Some? && FleetOk(Reschedule(s, k, order).value, n)
    ensures var r := Reschedule(s, k, order).value;
      && r.cls == s.cls && |r.handles| == |s.handles| && (forall i :: k < i < n ==> r.handles[i] == s.handles[i])
      && (r == s || Measure(r) < Measure(s))
      && (s.cls.table[k].queue != [] ==> Measure(r) < Measure(s))
  {
    IdleReschedule(s, n, k, order);
    RescheduleMeasure(s, k, order);
    ShapeIndex(s.cls, n, k);
  }

  /** A tick lowers the measure or changes nothing; it does lower it when an idle handle has work. */
  lemma {:induction false} TickMeasure(s: Fleet, n: nat, k: nat, t: Fleet)
    requires FleetOk(s, n) && Ticked(s, k, t)
    ensures t == s || Measure(t) < Measure(s)
    ensures (exists i :: k <= i < n && s.handles[i].state == IDLE && s.cls.table[i].queue != []) ==> Measure(t) < Measure(s)
    decreases n - k
  {
    if k < n {
      if s.handles[k].state != IDLE {
        TickMeasure(s, n, k + 1, t);
      } else {
        var order :| LegalOrder(s, k, order) && RescheduledTo(s, k, order, t);
        IdleStep(s, n, k, order);
        TickMeasure(Reschedule(s, k, order).value, n, k + 1, t);
      }
    }
  }

  lemma RunPrefix(states: seq<Fleet>, steps: seq<Step>, k: nat)
    requires IsRun(states, steps) && k <= |steps|
    ensures IsRun(states[..k + 1], steps[..k])
  {
    var a, b := states[..k + 1], steps[..k];
    forall x | 0 <= x < k ensures StepAt(a, b, x) { assert StepAt(states, steps, x); }
  }

  /** No new urls, and every event changes something. */
  ghost predicate Effective(states: seq<Fleet>, steps: seq<Step>) {
    |states| == |steps| + 1 &&
    forall k :: 0 <= k < |steps| ==> !steps[k].AcceptStep? && states[k + 1] != states[k]
  }

  ghost function SteadyHosts(): iset<Text> {
    iset h: Text | Steady(h)
  }

  lemma StepMeasure(s: Fleet, step: Step, t: Fleet, n: nat)
    requires FleetOk(s, n) && HeldFrom(s.cls, SteadyHosts()) && !step.AcceptStep? && t != s
    ensures Next(s, step, t) ==> Measure(t) < Measure(s)
  {
    if Next(s, step, t) {
      match step
      case TickStep => TickMeasure(s, n, 0, t);
      case DoneStep(id, out) =>
        var order :| DoneOrder(s, id, out, order) && Done(s, id, out, order) == Some(t);
        DoneMeasure(s, n, id, out, order);
        ShapeIndex(s.cls, n, id);
        FrontHeld(s.cls, n, id);
    }
  }

  /** With steady hosts only, a run without new urls has at most Measure effective events. */
  lemma {:induction false} BoundedWork(states: seq<Fleet>, steps: seq<Step>, n: nat)
    requires IsRun(states, steps) && FleetOk(states[0], n) && HeldFrom(states[0].cls, SteadyHosts())
    requires Effective(states, steps)
    ensures FleetOk(states[|steps|], n) && HeldFrom(states[|steps|].cls, SteadyHosts())
    ensures |steps| + Measure(states[|steps|]) <= Measure(states[0])
    decreases |steps|
  {
    if steps != [] {
      var k := |steps| - 1;
      RunPrefix(states, steps, k);
      BoundedWork(states[..k + 1], steps[..k], n);
      var s, t := states[k], states[k + 1];
      assert StepAt(states, steps, k);
      NextOk(s, steps[k], t, n);
      NextHeld(s, steps[k], t, SteadyHosts());
      StepMeasure(s, steps[k], t, n);
    }
  }

  /** A reachable fleet that is quiet, with no transfer and no effect of a tick, has saved or dropped every url. */
  lemma QuietMeansFinished(n: nat, steps: seq<Step>, s: Fleet)
    requires n > 0 && Reaches(n, steps, s)
    requires |s.handles| == n && (forall i :: 0 <= i < n ==> s.handles[i].inflight.None?) && Ticked(s, 0, s)
    ensures Held(s.cls) == multiset{}
    ensures Urls(s.log, Acceptance) == Urls(s.log, Saving) + Urls(s.log, Dropping)
  {
    ReachableOk(n, steps, s);
    Conservation(n, steps, s);
    forall i | 0 <= i < n ensures s.cls.table[i].queue == [] {
      assert HandleOk(s, i);
      TickMeasure(s, n, 0, s);
    }
    AllEmpty(s.cls.table);
    assert s.cls.table[0].queue == [];
  }

  lemma {:induction false} AllEmpty(table: seq<Elem>)
    requires forall i :: 0 <= i < |table| ==> table[i].queue == []
    ensures InQueues(table) == multiset{}
  {
    if table != [] { AllEmpty(table[..|table| - 1]); }
  }
}
