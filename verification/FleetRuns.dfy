/**
 * Theorems over whole runs of the crawl fleet: the invariant, no exceptions,
 * one transfer per host, and conservation of urls.
 */
module FleetRuns {
  import opened Bytes
  import opened Hosts
  import opened UrlClassifier
  import opened ClassifierLaws
  import opened FleetModel
  import opened FleetLaws

  // ---------------------------------------------------------------- safety on every run

  lemma NextOk(s: Fleet, step: Step, t: Fleet, n: nat)
    requires FleetOk(s, n)
    ensures Next(s, step, t) ==> FleetOk(t, n)
  {
    if Next(s, step, t) {
      match step
      case AcceptStep(u) => AcceptOk(s, n, u);
      case TickStep => TickOk(s, n, 0, t);
      case DoneStep(id, out) =>
        var order :| DoneOrder(s, id, out, order) && Done(s, id, out, order) == Some(t);
        DoneOk(s, n, id, out, order);
    }
  }

  lemma StartOk(n: nat)
    ensures FleetOk(Start(n), n)
  {
    forall i | 0 <= i < n ensures HandleOk(Start(n), i) { }
  }

  /** The invariant holds in every reachable state. */
  lemma {:induction false} ReachableOk(n: nat, steps: seq<Step>, s: Fleet)
    requires Reaches(n, steps, s)
    ensures FleetOk(s, n)
    decreases |steps|
  {
    if steps == [] {
      StartOk(n);
    } else {
      var before, last := steps[..|steps| - 1], steps[|steps| - 1];
      var p :| Reaches(n, before, p) && Next(p, last, s);
      ReachableOk(n, before, p);
      NextOk(p, last, s, n);
    }
  }

  /**
   * In every reachable state: a transfer is in flight exactly when the handle
   * is not idle, NEXT is never visible, and the transfer is the one for the
   * url at the front of the handle's queue.
   */
  lemma InFlightIffBusy(n: nat, steps: seq<Step>, s: Fleet, i: nat)
    requires Reaches(n, steps, s) && i < n
    ensures |s.handles| == n
    ensures s.handles[i].state != NEXT
    ensures s.handles[i].inflight.Some? <==> s.handles[i].state != IDLE
    ensures s.handles[i].inflight.Some? ==>
              && Queue(s.cls, i) != []
              && s.handles[i].inflight.value.url == LinkFor(s.handles[i].state, Queue(s.cls, i)[0])
              && s.handles[i].inflight.value.kind == KindFor(s.handles[i].state)
  {
    ReachableOk(n, steps, s);
    assert HandleOk(s, i);
    ShapeIndex(s.cls, n, i);
  }

  /** done throws on no reachable state, whatever the outcome and the order of the priority queue. */
  lemma DoneNeverThrows(n: nat, steps: seq<Step>, s: Fleet, id: nat, out: Outcome, order: seq<Url>)
    requires Reaches(n, steps, s)
    requires id < n && |s.handles| == n && s.handles[id].inflight.Some? && DoneOrder(s, id, out, order)
    ensures Done(s, id, out, order).Some?
  {
    ReachableOk(n, steps, s);
    DoneOk(s, n, id, out, order);
  }

  /** No reschedule from handle k on throws, whatever the orders of the priority queue. */
  ghost predicate TickSafe(s: Fleet, k: nat)
    decreases |s.handles| - k
  {
    k >= |s.handles| ||
    if s.handles[k].state != IDLE then TickSafe(s, k + 1)
    else forall order :: LegalOrder(s, k, order) ==> RescheduleSafe(s, k, order)
  }

  ghost predicate RescheduleSafe(s: Fleet, k: nat, order: seq<Url>)
    requires k < |s.handles|
    decreases |s.handles| - k, 0
  {
    var r := Reschedule(s, k, order);
    r.Some? && TickSafe(r.value, k + 1)
  }

  lemma {:induction false} TickIsSafe(s: Fleet, n: nat, k: nat)
    requires FleetOk(s, n)
    ensures TickSafe(s, k)
    decreases n - k
  {
    if k < n {
      if s.handles[k].state != IDLE {
        TickIsSafe(s, n, k + 1);
      } else {
        forall order | LegalOrder(s, k, order) ensures RescheduleSafe(s, k, order) {
          IdleReschedule(s, n, k, order);
          TickIsSafe(Reschedule(s, k, order).value, n, k + 1);
        }
      }
    }
  }

  /** A tick throws on no reachable state, with transfers in flight or without, and can always be made. */
  lemma TickNeverThrows(n: nat, steps: seq<Step>, s: Fleet)
    requires Reaches(n, steps, s)
    ensures TickSafe(s, 0)
    ensures exists t :: Ticked(s, 0, t)
  {
    ReachableOk(n, steps, s);
    TickIsSafe(s, n, 0);
    var t := TickExists(s, n, 0);
  }

  /** Nor does the reschedule of any idle handle. */
  lemma RescheduleNeverThrows(n: nat, steps: seq<Step>, s: Fleet, k: nat, order: seq<Url>)
    requires Reaches(n, steps, s) && k < n && |s.handles| == n && s.handles[k].state == IDLE
    requires LegalOrder(s, k, order)
    ensures Reschedule(s, k, order).Some?
  {
    ReachableOk(n, steps, s);
    IdleReschedule(s, n, k, order);
  }

  lemma {:induction false} TickExists(s: Fleet, n: nat, k: nat) returns (t: Fleet)
    requires FleetOk(s, n)
    ensures Ticked(s, k, t)
    decreases n - k
  {
    if k >= n {
      t := s;
    } else if s.handles[k].state != IDLE {
      t := TickExists(s, n, k + 1);
    } else {
      IdleReschedule(s, n, k, []);
      t := TickExists(Reschedule(s, k, []).value, n, k + 1);
      assert LegalOrder(s, k, []) && RescheduledTo(s, k, [], t);
    }
  }

  // ---------------------------------------------------------------- one transfer per host

  /** No two handles ever have transfers in flight for urls of the same host. */
  lemma OneTransferPerHost(n: nat, steps: seq<Step>, s: Fleet, i: nat, j: nat)
    requires Reaches(n, steps, s) && i < j < n && |s.handles| == n
    requires s.handles[i].inflight.Some? && s.handles[j].inflight.Some?
    ensures Queue(s.cls, i) != [] && Queue(s.cls, j) != []
    ensures Queue(s.cls, i)[0].host != Queue(s.cls, j)[0].host
  {
    ReachableOk(n, steps, s);
    assert HandleOk(s, i) && HandleOk(s, j);
    ShapeIndex(s.cls, n, i);
    ShapeIndex(s.cls, n, j);
    assert s.cls.table[i].queue[0] in s.cls.table[i].queue && s.cls.table[j].queue[0] in s.cls.table[j].queue;
  }

  // ---------------------------------------------------------------- robots.txt obeyed

  lemma KnownInLog(log: seq<Event>, k: nat) returns (j: nat)
    requires LogOk(log) && k < |log| && log[k].Requested? && log[k].request.kind != RobotsTxt
    ensures j < k && log[j].RobotsKnown? && log[j].id == log[k].id
    ensures log[j].host == log[k].request.url.host && Permits(log[j].robots, log[k].request.url.path)
    ensures forall x :: j < x < k && (log[x].RobotsKnown? || log[x].Took?) ==> log[x].id != log[k].id
  {
    var before := log[..k];
    assert EventOk(before, log[k]);
    j := KnownMeans(before, log[k].id);
    assert forall x :: 0 <= x < k ==> before[x] == log[x];
  }

  lemma AskedInLog(log: seq<Event>, j: nat) returns (i: nat)
    requires LogOk(log) && j < |log| && log[j].RobotsKnown?
    ensures i < j && log[i] == Requested(log[j].id, Request(RobotsTxt, Url(log[j].host, "robots.txt")))
    ensures forall x :: i < x < j && log[x].Took? ==> log[x].id != log[j].id
  {
    var before := log[..j];
    assert EventOk(before, log[j]);
    i := AskedMeans(before, log[j].id);
    assert forall x :: 0 <= x < j ==> before[x] == log[x];
  }

  lemma LogObeyed(log: seq<Event>, k: nat) returns (i: nat, j: nat)
    requires LogOk(log) && k < |log| && log[k].Requested? && log[k].request.kind != RobotsTxt
    ensures i < j < k && log[j].RobotsKnown? && log[j].id == log[k].id
    ensures log[i] == Requested(log[k].id, Request(RobotsTxt, Url(log[k].request.url.host, "robots.txt")))
    ensures log[j].host == log[k].request.url.host && Permits(log[j].robots, log[k].request.url.path)
    ensures forall x :: j < x < k && log[x].RobotsKnown? ==> log[x].id != log[k].id
    ensures forall x :: i < x < k && log[x].Took? ==> log[x].id != log[k].id
  {
    j := KnownInLog(log, k);
    i := AskedInLog(log, j);
  }

  // ---------------------------------------------------------------- nothing lost

  datatype Tag = Acceptance | Saving | Dropping

  predicate Tagged(e: Event, tag: Tag) {
    match tag
    case Acceptance => e.Accepted?
    case Saving => e.Saved?
    case Dropping => e.Dropped?
  }

  /** The urls accepted, saved or dropped so far. */
  ghost function Urls(log: seq<Event>, tag: Tag): (m: multiset<Url>) {
    if log == [] then multiset{}
    else
      var e := log[|log| - 1];
      Urls(log[..|log| - 1], tag) + if Tagged(e, tag) then multiset{e.url} else multiset{}
  }

  lemma UrlsAfter(log: seq<Event>, e: Event, tag: Tag)
    ensures Urls(log + [e], tag) == Urls(log, tag) + if Tagged(e, tag) then multiset{e.url} else multiset{}
  {
    assert (log + [e])[..|log|] == log;
  }

  /** Both logs account for the same urls. */
  ghost predicate SameUrls(a: seq<Event>, b: seq<Event>) {
    Urls(a, Acceptance) == Urls(b, Acceptance) && Urls(a, Saving) == Urls(b, Saving) && Urls(a, Dropping) == Urls(b, Dropping)
  }

  lemma Neutral(log: seq<Event>, e: Event)
    requires e.Took? || e.Requested? || e.RobotsKnown?
    ensures SameUrls(log + [e], log)
  {
    UrlsAfter(log, e, Acceptance);
    UrlsAfter(log, e, Saving);
    UrlsAfter(log, e, Dropping);
  }

  /** Accepted urls are still held, saved or dropped; the document counter counts the saved ones. */
  ghost predicate Balanced(s: Fleet) {
    && Urls(s.log, Acceptance) == Held(s.cls) + Urls(s.log, Saving) + Urls(s.log, Dropping)
    && s.saved == |Urls(s.log, Saving)|
  }

  lemma AcceptBalanced(s: Fleet, u: Url)
    requires Balanced(s)
    ensures Balanced(Accept(s, u))
  {
    PushConserves(s.cls, u);
    var l, j := s.log + [Accepted(u)], FirstEmpty(s.cls.table);
    UrlsAfter(s.log, Accepted(u), Acceptance);
    UrlsAfter(s.log, Accepted(u), Saving);
    UrlsAfter(s.log, Accepted(u), Dropping);
    MoveOne(Held(s.cls), multiset{u}, Urls(s.log, Saving), Urls(s.log, Dropping));
    if Accept(s, u).log != l { Neutral(l, Took(s.cls.table[j].n, u.host)); }
  }

  lemma MoveOne(held: multiset<Url>, one: multiset<Url>, saved: multiset<Url>, dropped: multiset<Url>)
    ensures (held + one) + saved + dropped == held + saved + dropped + one
    ensures (held + one) + saved + dropped == held + (saved + one) + dropped
    ensures (held + one) + saved + dropped == held + saved + (dropped + one)
  {
  }

  lemma RescheduleLogUrls(s: Fleet, id: nat, order: seq<Url>)
    requires id < |s.handles| && LegalOrder(s, id, order) && Reschedule(s, id, order).Some?
    ensures SameUrls(Reschedule(s, id, order).value.log, s.log)
  {
    var t := Reschedule(s, id, order).value;
    if t.log != s.log {
      var front := Peeked(s.cls, id, order).value.1;
      var l := s.log + if NeedsDrain(s.cls, id) then [Took(id, front.host)] else [];
      var e := t.log[|t.log| - 1];
      assert t.log == l + [e];
      Neutral(l, e);
      Neutral(s.log, Took(id, front.host));
      assert l == s.log || l == s.log + [Took(id, front.host)];
    }
  }

  lemma RescheduleHeld(s: Fleet, id: nat, order: seq<Url>)
    requires id < |s.handles| && LegalOrder(s, id, order) && Reschedule(s, id, order).Some?
    ensures Held(Reschedule(s, id, order).value.cls) == Held(s.cls)
  {
    if Peeked(s.cls, id, order).Ok? { PeekConserves(s.cls, id, order); }
  }

  lemma RescheduleBalanced(s: Fleet, id: nat, order: seq<Url>)
    requires Balanced(s) && id < |s.handles| && LegalOrder(s, id, order) && Reschedule(s, id, order).Some?
    ensures Balanced(Reschedule(s, id, order).value)
  {
    RescheduleLogUrls(s, id, order);
    RescheduleHeld(s, id, order);
  }

  /** One url leaves the queue and enters the log as saved or dropped. */
  lemma PopBalanced(s: Fleet, id: nat, e: Event)
    requires Balanced(s) && Queue(s.cls, id) != [] && Popped(s.cls, id).Ok?
    requires (e.Saved? || e.Dropped?) && e.url == Queue(s.cls, id)[0]
    ensures Balanced(s.(cls := Popped(s.cls, id).value, log := s.log + [e],
                        saved := if e.Saved? then s.saved + 1 else s.saved))
  {
    PopConserves(s.cls, id);
    UrlsAfter(s.log, e, Acceptance);
    UrlsAfter(s.log, e, Saving);
    UrlsAfter(s.log, e, Dropping);
    MoveOne(Held(Popped(s.cls, id).value), multiset{e.url}, Urls(s.log, Saving), Urls(s.log, Dropping));
  }

  lemma {:induction false} AdvanceBalanced(s: Fleet, id: nat)
    requires Balanced(s) && id < |s.handles| && Advance(s, id).Some?
    ensures Balanced(Advance(s, id).value)
    decreases |Queue(s.cls, id)|
  {
    var h, q := s.handles[id], Queue(s.cls, id);
    if q != [] && h.robots.Some? && Steady(q[0].host) && !Permits(h.robots.value, q[0].path) {
      IndexOfNAfterPop(s.cls, id);
      PopBalanced(s, id, Dropped(id, q[0]));
      AdvanceBalanced(s.(cls := Popped(s.cls, id).value,
                         handles := s.handles[id := h.(doc := Some(Loaded(Normalize(q[0]))), state := IDLE)],
                         log := s.log + [Dropped(id, q[0])]), id);
    }
  }

  lemma SaveBalanced(s: Fleet, id: nat)
    requires Balanced(s) && id < |s.handles| && SaveAndPop(s, id).Some?
    ensures Balanced(SaveAndPop(s, id).value)
  {
    PopBalanced(s, id, Saved(id, Queue(s.cls, id)[0], Normalize(s.handles[id].doc.value)));
  }

  lemma RobotsBalanced(s: Fleet, id: nat, h: Handle, e: Event)
    requires Balanced(s) && id < |s.handles| && e.RobotsKnown?
    ensures Balanced(s.(handles := s.handles[id := h], log := s.log + [e]))
  {
    Neutral(s.log, e);
  }

  lemma DecideBalanced(s: Fleet, id: nat, out: Outcome)
    requires Balanced(s) && id < |s.handles| && Decide(s, id, out).Some?
    ensures Balanced(Decide(s, id, out).value)
  {
    var h := s.handles[id];
    match h.state
    case ROBOTS =>
      var g, e := h.(robots := Some(RobotsResult(out))), RobotsKnown(id, h.doc.value.host, RobotsResult(out));
      RobotsBalanced(s, id, g, e);
      AdvanceBalanced(s.(handles := s.handles[id := g], log := s.log + [e]), id);
    case HEAD =>
      if !(out.ok && out.acceptable) {
        SaveBalanced(s, id);
        AdvanceBalanced(SaveAndPop(s, id).value, id);
      }
    case CONTENT =>
      SaveBalanced(s, id);
      AdvanceBalanced(SaveAndPop(s, id).value, id);
    case NEXT =>
      AdvanceBalanced(s, id);
  }

  lemma DoneBalanced(s: Fleet, id: nat, out: Outcome, order: seq<Url>)
    requires Balanced(s) && id < |s.handles| && DoneOrder(s, id, out, order) && Done(s, id, out, order).Some?
    ensures Balanced(Done(s, id, out, order).value)
  {
    DecideBalanced(TakeBack(s, id), id, out);
    RescheduleBalanced(ClearDoc(Decide(TakeBack(s, id), id, out).value, id), id, order);
  }

  lemma {:induction false} TickBalanced(s: Fleet, k: nat, t: Fleet)
    requires Balanced(s) && Ticked(s, k, t)
    ensures Balanced(t)
    decreases |s.handles| - k
  {
    if k < |s.handles| {
      if s.handles[k].state != IDLE {
        TickBalanced(s, k + 1, t);
      } else {
        var order :| LegalOrder(s, k, order) && RescheduledTo(s, k, order, t);
        RescheduleBalanced(s, k, order);
        TickBalanced(Reschedule(s, k, order).value, k + 1, t);
      }
    }
  }

  lemma NextBalanced(s: Fleet, step: Step, t: Fleet)
    requires Balanced(s)
    ensures Next(s, step, t) ==> Balanced(t)
  {
    if Next(s, step, t) {
      match step
      case AcceptStep(u) => AcceptBalanced(s, u);
      case TickStep => TickBalanced(s, 0, t);
      case DoneStep(id, out) =>
        var order :| DoneOrder(s, id, out, order) && Done(s, id, out, order) == Some(t);
        DoneBalanced(s, id, out, order);
    }
  }

  lemma StartBalanced(n: nat)
    ensures Balanced(Start(n))
  {
    NothingHeld(n);
  }

  lemma {:induction false} NothingHeld(n: nat)
    ensures Held(Init(n)) == multiset{}
  {
    if n > 0 {
      NothingHeld(n - 1);
      assert Init(n).table[..n - 1] == Init(n - 1).table;
    }
  }

  /** On every run, what was accepted is what is held plus what was saved plus what was dropped. */
  lemma {:induction false} Conservation(n: nat, steps: seq<Step>, s: Fleet)
    requires Reaches(n, steps, s)
    ensures Balanced(s)
    decreases |steps|
  {
    if steps == [] {
      StartBalanced(n);
    } else {
      var before, last := steps[..|steps| - 1], steps[|steps| - 1];
      var p :| Reaches(n, before, p) && Next(p, last, s);
      Conservation(n, before, p);
      NextBalanced(p, last, s);
    }
  }
}
