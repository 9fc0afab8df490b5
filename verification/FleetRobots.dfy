/**
 * What the fleet does with the outcome of a transfer, told by the events of a
 * run: which robots.txt a handle goes by, and what follows a HEAD or a GET.
 */
module FleetRobots {
  import opened Bytes
  import opened Hosts
  import opened UrlClassifier
  import opened ClassifierLaws
  import opened FleetModel
  import opened FleetLaws
  import opened FleetRuns

  // ---------------------------------------------------------------- runs

  lemma StepOk(n: nat, states: seq<Fleet>, steps: seq<Step>, k: nat)
    requires k < |steps| && |states| == |steps| + 1 && FleetOk(states[k], n)
    ensures StepAt(states, steps, k) ==> FleetOk(states[k + 1], n)
  {
    NextOk(states[k], steps[k], states[k + 1], n);
  }

  lemma {:induction false} RunOk(n: nat, states: seq<Fleet>, steps: seq<Step>, k: nat)
    requires IsRun(states, steps) && states[0] == Start(n) && k <= |steps|
    ensures FleetOk(states[k], n)
  {
    if k == 0 {
      StartOk(n);
    } else {
      RunOk(n, states, steps, k - 1);
      StepOk(n, states, steps, k - 1);
    }
  }

  /** Every reachable state is the end of a run. */
  lemma {:induction false} ReachesRun(n: nat, steps: seq<Step>, s: Fleet) returns (states: seq<Fleet>)
    requires Reaches(n, steps, s)
    ensures IsRun(states, steps) && states[0] == Start(n) && states[|steps|] == s
    decreases |steps|
  {
    if steps == [] {
      states := [s];
    } else {
      var before, last := steps[..|steps| - 1], steps[|steps| - 1];
      var p :| Reaches(n, before, p) && Next(p, last, s);
      var a := ReachesRun(n, before, p);
      states := a + [s];
      forall k | 0 <= k < |steps| ensures StepAt(states, steps, k) {
        if k < |before| { assert StepAt(a, before, k); }
      }
    }
  }

  // ---------------------------------------------------------------- what an event adds to the log

  /** The log grows, by entries that bring no robots.txt. */
  ghost predicate Quietly(a: seq<Event>, b: seq<Event>) {
    a <= b && forall p :: |a| <= p < |b| ==> !b[p].RobotsKnown?
  }

  lemma QuietlyTwice(a: seq<Event>, b: seq<Event>, c: seq<Event>)
    requires Quietly(a, b) && Quietly(b, c)
    ensures Quietly(a, c)
  {
    forall p | |a| <= p < |c| ensures !c[p].RobotsKnown? {
      if p < |b| { assert c[p] == b[p]; }
    }
  }

  lemma {:induction false} AdvanceQuietly(s: Fleet, id: nat)
    requires id < |s.handles| && Advance(s, id).Some?
    ensures Quietly(s.log, Advance(s, id).value.log)
    decreases |Queue(s.cls, id)|
  {
    var h, q := s.handles[id], Queue(s.cls, id);
    if q != [] && Chosen(h, q[0]).state == IDLE {
      var t := s.(cls := Popped(s.cls, id).value, handles := s.handles[id := Chosen(h, q[0])],
                  log := s.log + [Dropped(id, q[0])]);
      IndexOfNAfterPop(s.cls, id);
      AdvanceQuietly(t, id);
      QuietlyTwice(s.log, t.log, Advance(s, id).value.log);
    }
  }

  lemma RescheduleQuietly(s: Fleet, id: nat, order: seq<Url>)
    requires id < |s.handles| && Reschedule(s, id, order).Some?
    ensures Quietly(s.log, Reschedule(s, id, order).value.log)
  {
  }

  lemma {:induction false} TickQuietly(s: Fleet, k: nat, t: Fleet)
    requires Ticked(s, k, t)
    ensures Quietly(s.log, t.log)
    decreases |s.handles| - k
  {
    if k < |s.handles| {
      if s.handles[k].state != IDLE {
        TickQuietly(s, k + 1, t);
      } else {
        var order :| LegalOrder(s, k, order) && RescheduledTo(s, k, order, t);
        RescheduleQuietly(s, k, order);
        var r := Reschedule(s, k, order).value;
        TickQuietly(r, k + 1, t);
        QuietlyTwice(s.log, r.log, t.log);
      }
    }
  }

  /** The first thing a completion logs, if it brings a robots.txt. */
  function Brought(s: Fleet, id: nat, out: Outcome): (e: seq<Event>)
    requires id < |s.handles|
  {
    if s.handles[id].state == ROBOTS && s.handles[id].doc.Some?
    then [RobotsKnown(id, s.handles[id].doc.value.host, RobotsResult(out))] else []
  }

  lemma DecideQuietly(s: Fleet, id: nat, out: Outcome)
    requires id < |s.handles| && Decide(s, id, out).Some?
    ensures Quietly(s.log + Brought(s, id, out), Decide(s, id, out).value.log)
  {
    var h := s.handles[id];
    assert s.log + [] == s.log;
    match h.state
    case ROBOTS =>
      AdvanceQuietly(s.(handles := s.handles[id := h.(robots := Some(RobotsResult(out)))],
                        log := s.log + [RobotsKnown(id, h.doc.value.host, RobotsResult(out))]), id);
    case HEAD =>
      if !(out.ok && out.acceptable) { SavedQuietly(s, id); }
    case CONTENT =>
      SavedQuietly(s, id);
    case NEXT =>
      AdvanceQuietly(s, id);
  }

  lemma SavedQuietly(s: Fleet, id: nat)
    requires id < |s.handles| && SaveAndPop(s, id).Some? && Advance(SaveAndPop(s, id).value, id).Some?
    ensures Quietly(s.log, Advance(SaveAndPop(s, id).value, id).value.log)
  {
    var t := SaveAndPop(s, id).value;
    AdvanceQuietly(t, id);
    QuietlyTwice(s.log, t.log, Advance(t, id).value.log);
  }

  lemma DoneQuietly(s: Fleet, id: nat, out: Outcome, order: seq<Url>)
    requires id < |s.handles| && Done(s, id, out, order).Some?
    ensures Quietly(s.log + Brought(s, id, out), Done(s, id, out, order).value.log)
  {
    var b := TakeBack(s, id);
    DecideQuietly(b, id, out);
    var t := ClearDoc(Decide(b, id, out).value, id);
    RescheduleQuietly(t, id, order);
    QuietlyTwice(s.log + Brought(s, id, out), t.log, Reschedule(t, id, order).value.log);
  }

  /** One event: only a completed robots.txt transfer brings a robots.txt, and it is logged first. */
  lemma NextQuietly(s: Fleet, step: Step, t: Fleet)
    ensures Next(s, step, t) ==>
      Quietly(s.log + if step.DoneStep? && step.id < |s.handles| then Brought(s, step.id, step.out) else [], t.log)
  {
    assert s.log + [] == s.log;
    if Next(s, step, t) {
      match step
      case AcceptStep(u) =>
      case TickStep => TickQuietly(s, 0, t);
      case DoneStep(id, out) =>
        var order :| DoneOrder(s, id, out, order) && Done(s, id, out, order) == Some(t);
        DoneQuietly(s, id, out, order);
    }
  }

  // ---------------------------------------------------------------- which robots.txt

  /** The completion of step j brought the robots.txt of a host to handle id; it is logged as entry p. */
  ghost predicate BroughtBy(states: seq<Fleet>, steps: seq<Step>, j: nat, id: nat, host: Text, p: nat) {
    && j < |steps| && |states| == |steps| + 1
    && steps[j].DoneStep? && steps[j].id == id && |states[j].log| == p && id < |states[j].handles|
    && states[j].handles[id].inflight == Some(Request(RobotsTxt, Url(host, "robots.txt")))
  }

  lemma LogGrows(states: seq<Fleet>, steps: seq<Step>, j: nat, p: nat)
    requires j < |steps| && |states| == |steps| + 1 && StepAt(states, steps, j)
    ensures states[j].log <= states[j + 1].log
    ensures |states[j].log| <= p < |states[j + 1].log| && states[j + 1].log[p].RobotsKnown? ==>
      && steps[j].DoneStep? && steps[j].id < |states[j].handles| && p == |states[j].log|
      && Brought(states[j], steps[j].id, steps[j].out) == [states[j + 1].log[p]]
  {
    NextQuietly(states[j], steps[j], states[j + 1]);
  }

  lemma AskingHandle(s: Fleet, n: nat, id: nat)
    requires FleetOk(s, n) && id < n && s.handles[id].state == ROBOTS && s.handles[id].doc.Some?
    ensures s.handles[id].inflight == Some(Request(RobotsTxt, Url(s.handles[id].doc.value.host, "robots.txt")))
  {
    assert HandleOk(s, id);
  }

  /**
   * Every robots.txt in the log was brought by the completion of a request for
   * it, and is what that completion found: the rules that were parsed, or that
   * they did not parse, or that there was no such file.
   */
  lemma {:induction false} KnownComes(n: nat, states: seq<Fleet>, steps: seq<Step>, m: nat, p: nat) returns (j: nat)
    requires IsRun(states, steps) && states[0] == Start(n) && m <= |steps|
    requires p < |states[m].log| && states[m].log[p].RobotsKnown?
    ensures j < m && BroughtBy(states, steps, j, states[m].log[p].id, states[m].log[p].host, p)
    ensures states[m].log[p].robots ==
      if !steps[j].out.ok then NotAvailable
      else if steps[j].out.rules.None? then ParseError
      else Present(steps[j].out.rules.value)
    decreases m
  {
    var k := m - 1;
    assert StepAt(states, steps, k);
    LogGrows(states, steps, k, p);
    if p < |states[k].log| {
      j := KnownComes(n, states, steps, k, p);
    } else {
      j := k;
      RunOk(n, states, steps, k);
      AskingHandle(states[k], n, steps[k].id);
    }
  }

  /** No robots.txt came to handle id, and its queue took no host, between two entries. */
  ghost predicate Undisturbed(log: seq<Event>, id: nat, from: nat, to: nat)
    requires to <= |log|
  {
    forall x :: from < x < to && (log[x].RobotsKnown? || log[x].Took?) ==> log[x].id != id
  }

  /**
   * Every HEAD or GET on any run: an earlier completion of the same handle, for
   * the robots.txt of that host, found none, or could not parse it, or parsed
   * rules that allow the path; since then no other came and the queue took no
   * other host. The handle had asked for that robots.txt since its queue took
   * the host.
   */
  lemma RobotsObeyed(n: nat, states: seq<Fleet>, steps: seq<Step>, k: nat) returns (i: nat, j: nat)
    requires IsRun(states, steps) && states[0] == Start(n) && k < |states[|steps|].log|
    requires states[|steps|].log[k].Requested? && states[|steps|].log[k].request.kind != RobotsTxt
    ensures var log := states[|steps|].log;
      var id, url := log[k].id, log[k].request.url;
      && j < |steps| && BroughtBy(states, steps, j, id, url.host, |states[j].log|) && i < |states[j].log| < k
      && (!steps[j].out.ok || steps[j].out.rules.None? || steps[j].out.rules.value(url.path))
      && Undisturbed(log, id, |states[j].log|, k)
      && log[i] == Requested(id, Request(RobotsTxt, Url(url.host, "robots.txt")))
      && (forall x :: i < x < k && log[x].Took? ==> log[x].id != id)
  {
    var log := states[|steps|].log;
    RunOk(n, states, steps, |steps|);
    var p := KnownInLog(log, k);
    i := AskedInLog(log, p);
    j := KnownComes(n, states, steps, |steps|, p);
  }

  lemma DroppedInLog(log: seq<Event>, k: nat) returns (j: nat)
    requires LogOk(log) && k < |log| && log[k].Dropped?
    ensures j < k && log[j].RobotsKnown? && log[j].id == log[k].id && log[j].host == NormalHost(log[k].url.host)
    ensures !Permits(log[j].robots, log[k].url.path) && Undisturbed(log, log[k].id, j, k)
  {
    var before := log[..k];
    assert EventOk(before, log[k]);
    j := KnownMeans(before, log[k].id);
    assert forall x :: 0 <= x < k ==> before[x] == log[x];
  }

  /** Every url dropped on any run: an earlier completion of the handle parsed rules that forbid its path. */
  lemma DropsForbidden(n: nat, states: seq<Fleet>, steps: seq<Step>, k: nat) returns (j: nat)
    requires IsRun(states, steps) && states[0] == Start(n) && k < |states[|steps|].log|
    requires states[|steps|].log[k].Dropped?
    ensures var log := states[|steps|].log;
      var id, url := log[k].id, log[k].url;
      && j < |steps| && BroughtBy(states, steps, j, id, NormalHost(url.host), |states[j].log|) && |states[j].log| < k
      && steps[j].out.ok && steps[j].out.rules.Some? && !steps[j].out.rules.value(url.path)
      && Undisturbed(log, id, |states[j].log|, k)
  {
    RunOk(n, states, steps, |steps|);
    var p := DroppedInLog(states[|steps|].log, k);
    j := KnownComes(n, states, steps, |steps|, p);
  }

  // ---------------------------------------------------------------- what follows a transfer

  /** A handle in flight: its state, by what it asked for. */
  lemma InFlight(s: Fleet, n: nat, id: nat)
    requires FleetOk(s, n) && id < n && s.handles[id].inflight.Some?
    ensures IndexOfN(s.cls.table, id) == id < |s.cls.table| && Queue(s.cls, id) != []
    ensures var h, front := s.handles[id], Queue(s.cls, id)[0];
      && h.doc.Some?
      && (h.state == ROBOTS ==> h.inflight.value == Request(RobotsTxt, Url(NormalHost(front.host), "robots.txt")))
      && (h.state == HEAD ==> h.inflight.value == Request(Head, Normalize(front)))
      && (h.state == CONTENT ==> h.inflight.value == Request(Get, Normalize(front)))
      && (h.state == ROBOTS || h.state == HEAD || h.state == CONTENT)
  {
    assert HandleOk(s, id);
    ShapeIndex(s.cls, n, id);
  }

  /** A HEAD that finds something acceptable is followed by a GET of the same url, and by nothing else. */
  lemma HeadThenGet(s: Fleet, n: nat, id: nat, out: Outcome, order: seq<Url>)
    requires FleetOk(s, n) && id < n && s.handles[id].inflight.Some? && s.handles[id].inflight.value.kind == Head
    requires out.ok && out.acceptable
    ensures Done(s, id, out, order).Some?
    ensures var t, url := Done(s, id, out, order).value, s.handles[id].inflight.value.url;
      && t.cls == s.cls && t.saved == s.saved && t.log == s.log + [Requested(id, Request(Get, url))]
      && t.handles[id].state == CONTENT && t.handles[id].inflight == Some(Request(Get, url))
  {
    InFlight(s, n, id);
    var b := TakeBack(s, id);
    var t := ClearDoc(b.(handles := b.handles[id := b.handles[id].(state := CONTENT)]), id);
    assert Decide(b, id, out) == Some(b.(handles := b.handles[id := b.handles[id].(state := CONTENT)]));
    assert !NeedsDrain(t.cls, id);
    assert t.log + [] == t.log;
  }

  /** A GET, and a HEAD that finds nothing acceptable, end with the document saved, counted and its url gone. */
  lemma ThenSaved(s: Fleet, n: nat, id: nat, out: Outcome, order: seq<Url>)
    requires FleetOk(s, n) && id < n && s.handles[id].inflight.Some? && Done(s, id, out, order).Some?
    requires s.handles[id].inflight.value.kind == Get || (s.handles[id].inflight.value.kind == Head && !(out.ok && out.acceptable))
    ensures Queue(s.cls, id) != []
    ensures var t := Done(s, id, out, order).value;
      && t.saved == s.saved + 1 && |t.log| > |s.log| && s.log <= t.log
      && t.log[|s.log|].Saved? && t.log[|s.log|].id == id && t.log[|s.log|].url == Queue(s.cls, id)[0]
      && Normalize(Queue(s.cls, id)[0]) == s.handles[id].inflight.value.url
  {
    InFlight(s, n, id);
    var b := TakeBack(s, id);
    var u := SaveAndPop(b, id).value;
    assert Decide(b, id, out) == Advance(u, id);
    AdvanceQuietly(u, id);
    AdvanceSaved(u, id);
    var d := ClearDoc(Advance(u, id).value, id);
    RescheduleQuietly(d, id, order);
  }

  lemma {:induction false} AdvanceSaved(s: Fleet, id: nat)
    requires id < |s.handles| && Advance(s, id).Some?
    ensures Advance(s, id).value.saved == s.saved
    decreases |Queue(s.cls, id)|
  {
    var h, q := s.handles[id], Queue(s.cls, id);
    if q != [] && Chosen(h, q[0]).state == IDLE {
      IndexOfNAfterPop(s.cls, id);
      AdvanceSaved(s.(cls := Popped(s.cls, id).value, handles := s.handles[id := Chosen(h, q[0])],
                      log := s.log + [Dropped(id, q[0])]), id);
    }
  }

  /** What a robots.txt transfer has found, spelled out. */
  ghost predicate Forbids(out: Outcome, path: string) {
    out.ok && out.rules.Some? && !out.rules.value(path)
  }

  function Found(out: Outcome): (r: Robots) {
    if !out.ok then NotAvailable else if out.rules.None? then ParseError else Present(out.rules.value)
  }

  /** How done goes on once a robots.txt has come in for a steady host. */
  lemma DecideRobots(s: Fleet, n: nat, id: nat, out: Outcome) returns (b: Fleet)
    requires FleetOk(s, n) && id < n && s.handles[id].inflight.Some? && s.handles[id].inflight.value.kind == RobotsTxt
    ensures b.cls == s.cls && b.saved == s.saved && |b.handles| == n && b.handles[id].robots == Some(Found(out))
    ensures b.log == s.log + [RobotsKnown(id, s.handles[id].inflight.value.url.host, Found(out))]
    ensures Decide(TakeBack(s, id), id, out) == Advance(b, id)
  {
    InFlight(s, n, id);
    assert HandleOk(s, id);
    var h := s.handles[id].(inflight := None);
    b := s.(handles := s.handles[id := h.(robots := Some(Found(out)))],
            log := s.log + [RobotsKnown(id, h.doc.value.host, Found(out))]);
    assert s.handles[id := h][id := h.(robots := Some(Found(out)))] == b.handles;
  }

  /** A robots.txt that does not forbid the url at the front is followed by a HEAD of it. */
  lemma RobotsThenHead(s: Fleet, n: nat, id: nat, out: Outcome, order: seq<Url>)
    requires FleetOk(s, n) && id < n && s.handles[id].inflight.Some? && s.handles[id].inflight.value.kind == RobotsTxt
    requires Queue(s.cls, id) != [] && Steady(Queue(s.cls, id)[0].host) && !Forbids(out, Queue(s.cls, id)[0].path)
    ensures Done(s, id, out, order).Some?
    ensures var t, url := Done(s, id, out, order).value, Normalize(Queue(s.cls, id)[0]);
      && t.cls == s.cls && t.saved == s.saved && |t.log| == |s.log| + 2 && s.log <= t.log
      && t.log[|s.log| + 1] == Requested(id, Request(Head, url)) && t.handles[id].inflight == Some(Request(Head, url))
  {
    InFlight(s, n, id);
    var b := DecideRobots(s, n, id, out);
    var g := Chosen(b.handles[id], Queue(s.cls, id)[0]);
    assert g.state == HEAD;
    assert Advance(b, id) == Some(b.(handles := b.handles[id := g]));
    HeadStarted(ClearDoc(b.(handles := b.handles[id := g]), id), id, order);
  }

  lemma HeadStarted(t: Fleet, id: nat, order: seq<Url>)
    requires id < |t.handles| && t.handles[id].state == HEAD
    requires IndexOfN(t.cls.table, id) < |t.cls.table| && Queue(t.cls, id) != []
    ensures var url := Normalize(Queue(t.cls, id)[0]);
      var g := Handle(HEAD, t.handles[id].robots, Some(Loaded(url)), Some(Request(Head, url)));
      Reschedule(t, id, order) == Some(t.(handles := t.handles[id := g], log := t.log + [Requested(id, Request(Head, url))]))
  {
    assert !NeedsDrain(t.cls, id);
    assert t.log + [] == t.log;
  }

  /** One that forbids it is followed by dropping it. */
  lemma RobotsThenDrop(s: Fleet, n: nat, id: nat, out: Outcome, order: seq<Url>)
    requires FleetOk(s, n) && id < n && s.handles[id].inflight.Some? && s.handles[id].inflight.value.kind == RobotsTxt
    requires Queue(s.cls, id) != [] && Steady(Queue(s.cls, id)[0].host) && Forbids(out, Queue(s.cls, id)[0].path)
    requires Done(s, id, out, order).Some?
    ensures var t := Done(s, id, out, order).value;
      |t.log| > |s.log| + 1 && s.log <= t.log && t.log[|s.log| + 1] == Dropped(id, Queue(s.cls, id)[0])
  {
    InFlight(s, n, id);
    var b := DecideRobots(s, n, id, out);
    var q := Queue(s.cls, id);
    var g := Chosen(b.handles[id], q[0]);
    var c := b.(cls := Popped(b.cls, id).value, handles := b.handles[id := g], log := b.log + [Dropped(id, q[0])]);
    assert g.state == IDLE;
    assert Advance(b, id) == Advance(c, id) by { IndexOfNAfterPop(b.cls, id); }
    AdvanceQuietly(c, id);
    RescheduleQuietly(ClearDoc(Advance(c, id).value, id), id, order);
  }
}
