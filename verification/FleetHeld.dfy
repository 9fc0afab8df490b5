/** Where held urls come from, what a tick does to one handle, and how runs are put together. */
module FleetHeld {
  import opened Bytes
  import opened Hosts
  import opened UrlClassifier
  import opened ClassifierLaws
  import opened FleetModel
  import opened FleetLaws
  import opened FleetRuns

  ghost predicate AcceptsOnly(steps: seq<Step>, hosts: iset<Text>) {
    forall k :: 0 <= k < |steps| && steps[k].AcceptStep? ==> steps[k].url.host in hosts
  }

  // ---------------------------------------------------------------- held urls were accepted

  ghost predicate HeldFrom(c: State, hosts: iset<Text>) {
    forall u :: u in Held(c) ==> u.host in hosts
  }

  lemma {:induction false} AdvanceHeld(s: Fleet, id: nat)
    requires id < |s.handles| && Advance(s, id).Some?
    ensures Held(Advance(s, id).value.cls) <= Held(s.cls)
    decreases |Queue(s.cls, id)|
  {
    var h, q := s.handles[id], Queue(s.cls, id);
    if q != [] && h.robots.Some? && Steady(q[0].host) && !Permits(h.robots.value, q[0].path) {
      IndexOfNAfterPop(s.cls, id);
      PopConserves(s.cls, id);
      AdvanceHeld(s.(cls := Popped(s.cls, id).value,
                     handles := s.handles[id := h.(doc := Some(Loaded(Normalize(q[0]))), state := IDLE)],
                     log := s.log + [Dropped(id, q[0])]), id);
    }
  }

  lemma SaveHeld(s: Fleet, id: nat)
    requires id < |s.handles| && SaveAndPop(s, id).Some?
    ensures Held(SaveAndPop(s, id).value.cls) <= Held(s.cls)
  {
    PopConserves(s.cls, id);
  }

  lemma DecideHeld(s: Fleet, id: nat, out: Outcome)
    requires id < |s.handles| && Decide(s, id, out).Some?
    ensures Held(Decide(s, id, out).value.cls) <= Held(s.cls)
  {
    var h := s.handles[id];
    match h.state
    case ROBOTS =>
      AdvanceHeld(s.(handles := s.handles[id := h.(robots := Some(RobotsResult(out)))],
                     log := s.log + [RobotsKnown(id, h.doc.value.host, RobotsResult(out))]), id);
    case HEAD =>
      if !(out.ok && out.acceptable) {
        SaveHeld(s, id);
        AdvanceHeld(SaveAndPop(s, id).value, id);
      }
    case CONTENT =>
      SaveHeld(s, id);
      AdvanceHeld(SaveAndPop(s, id).value, id);
    case NEXT =>
      AdvanceHeld(s, id);
  }

  lemma {:induction false} TickHeld(s: Fleet, k: nat, t: Fleet)
    requires Ticked(s, k, t)
    ensures Held(t.cls) == Held(s.cls)
    decreases |s.handles| - k
  {
    if k < |s.handles| {
      if s.handles[k].state != IDLE {
        TickHeld(s, k + 1, t);
      } else {
        var order :| LegalOrder(s, k, order) && RescheduledTo(s, k, order, t);
        RescheduleHeld(s, k, order);
        TickHeld(Reschedule(s, k, order).value, k + 1, t);
      }
    }
  }

  lemma NextHeld(s: Fleet, step: Step, t: Fleet, hosts: iset<Text>)
    requires HeldFrom(s.cls, hosts)
    requires step.AcceptStep? ==> step.url.host in hosts
    ensures Next(s, step, t) ==> HeldFrom(t.cls, hosts)
  {
    if Next(s, step, t) {
      match step
      case AcceptStep(u) => PushConserves(s.cls, u);
      case TickStep => TickHeld(s, 0, t);
      case DoneStep(id, out) =>
        var order :| DoneOrder(s, id, out, order) && Done(s, id, out, order) == Some(t);
        DecideHeld(TakeBack(s, id), id, out);
        RescheduleHeld(ClearDoc(Decide(TakeBack(s, id), id, out).value, id), id, order);
    }
  }

  lemma StartHeld(n: nat, hosts: iset<Text>)
    ensures HeldFrom(Start(n).cls, hosts)
  {
    NothingHeld(n);
  }

  lemma {:induction false} ReachableHeld(n: nat, steps: seq<Step>, s: Fleet, hosts: iset<Text>)
    requires Reaches(n, steps, s) && AcceptsOnly(steps, hosts)
    ensures HeldFrom(s.cls, hosts)
    decreases |steps|
  {
    if steps == [] {
      StartHeld(n, hosts);
    } else {
      var before, step := steps[..|steps| - 1], steps[|steps| - 1];
      var p :| Reaches(n, before, p) && Next(p, step, s);
      ReachableHeld(n, before, p, hosts);
      NextHeld(p, step, s, hosts);
    }
  }

  lemma FrontHeld(c: State, n: nat, i: nat)
    requires Shape(c, n) && i < n && c.table[i].queue != []
    ensures c.table[i].queue[0] in Held(c)
  {
    InQueuesHere(c.table, i);
    assert c.table[i].queue[0] in c.table[i].queue;
  }

  // ---------------------------------------------------------------- ticks and runs

  /** A tick never touches the classifier, nor a busy handle, nor one already passed. */
  lemma {:induction false} TickLeaves(s: Fleet, n: nat, k: nat, t: Fleet, i: nat)
    requires FleetOk(s, n) && Ticked(s, k, t) && i < n && (i < k || s.handles[i].state != IDLE)
    ensures |t.handles| == n && t.cls == s.cls && t.handles[i] == s.handles[i]
    decreases n - k
  {
    if k < n {
      if s.handles[k].state != IDLE {
        TickLeaves(s, n, k + 1, t, i);
      } else {
        var order :| LegalOrder(s, k, order) && RescheduledTo(s, k, order, t);
        IdleReschedule(s, n, k, order);
        TickLeaves(Reschedule(s, k, order).value, n, k + 1, t, i);
      }
    }
  }

  /** A tick puts every idle handle with a non-empty queue to work. */
  lemma {:induction false} TickServes(s: Fleet, n: nat, k: nat, t: Fleet, i: nat)
    requires FleetOk(s, n) && Ticked(s, k, t) && k <= i < n
    requires s.handles[i].state == IDLE && s.cls.table[i].queue != []
    ensures |t.handles| == n && t.cls == s.cls && t.handles[i].state == ROBOTS
    decreases n - k
  {
    if s.handles[k].state != IDLE {
      TickServes(s, n, k + 1, t, i);
    } else {
      var order :| LegalOrder(s, k, order) && RescheduledTo(s, k, order, t);
      IdleReschedule(s, n, k, order);
      ShapeIndex(s.cls, n, k);
      var r := Reschedule(s, k, order).value;
      if k == i { TickLeaves(r, n, k + 1, t, i); } else { TickServes(r, n, k + 1, t, i); }
    }
  }

  lemma ReachStart(n: nat)
    ensures Reaches(n, [], Start(n))
  {
  }

  lemma ReachAccept(n: nat, steps: seq<Step>, s: Fleet, u: Url)
    requires Reaches(n, steps, s)
    ensures Reaches(n, steps + [AcceptStep(u)], Accept(s, u))
  {
    var longer := steps + [AcceptStep(u)];
    assert longer[..|longer| - 1] == steps;
    assert Next(s, AcceptStep(u), Accept(s, u));
  }

  lemma ReachTick(n: nat, steps: seq<Step>, s: Fleet, t: Fleet)
    requires Reaches(n, steps, s)
    ensures Ticked(s, 0, t) ==> Reaches(n, steps + [TickStep], t)
  {
    var longer := steps + [TickStep];
    assert longer[..|longer| - 1] == steps;
    assert Ticked(s, 0, t) ==> Next(s, TickStep, t);
  }
}
