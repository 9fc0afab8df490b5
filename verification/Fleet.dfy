/**
 * The crawl fleet as a state machine: one shared classifier, one handle per
 * child queue, and a log of what was done. A handle fetches robots.txt, then
 * HEAD, then the content of the url at the front of its queue.
 */
module FleetModel {
  import opened Bytes
  import opened Hosts
  import opened UrlClassifier
  import opened ClassifierLaws

  datatype HandleState = IDLE | ROBOTS | NEXT | HEAD | CONTENT

  /** What is known of a host's robots.txt; allows answers path_allowed for our user agent. */
  datatype Robots = NotAvailable | ParseError | Present(allows: string -> bool)

  predicate Permits(r: Robots, path: string) {
    match r
    case NotAvailable => true
    case ParseError => true
    case Present(allows) => allows(path)
  }

  datatype Kind = RobotsTxt | Head | Get

  datatype Request = Request(kind: Kind, url: Url)

  /** doc is the url of the handle's document; inflight the transfer handed to curl. */
  datatype Handle = Handle(state: HandleState, robots: Option<Robots>, doc: Option<Url>, inflight: Option<Request>)

  /** A finished transfer: ok is CURLE_OK with HTTP 200; rules is None when robots.txt does not parse. */
  datatype Outcome = Outcome(ok: bool, rules: Option<string -> bool>, acceptable: bool)

  datatype Event =
    | Accepted(url: Url)
    | Took(id: nat, host: Text)
    | Requested(id: nat, request: Request)
    | RobotsKnown(id: nat, host: Text, robots: Robots)
    | Saved(id: nat, url: Url, doc: Url)
    | Dropped(id: nat, url: Url)

  datatype Fleet = Fleet(cls: State, handles: seq<Handle>, saved: nat, log: seq<Event>)

  // ---------------------------------------------------------------- urls

  /** Url::normalize, as far as the fleet can see it. */
  function Normalize(u: Url): (r: Url) {
    u.(host := NormalHost(u.host))
  }

  /** load_url: the url of the document is normalised once more. */
  function Loaded(url: Url): (r: Url) {
    Normalize(url)
  }

  function RobotsUrl(u: Url): (r: Url) {
    Url(u.host, "robots.txt")
  }

  // ---------------------------------------------------------------- the transitions

  function Start(n: nat): (s: Fleet) {
    Fleet(Init(n), seq(n, _ => Handle(IDLE, None, None, None)), 0, [])
  }

  function Accept(s: Fleet, u: Url): (r: Fleet) {
    var j := FirstEmpty(s.cls.table);
    var taken := if IndexOfHost(s.cls.table, u.host) == |s.cls.table| && j < |s.cls.table|
                 then [Took(s.cls.table[j].n, u.host)] else [];
    s.(cls := Pushed(s.cls, u), log := s.log + [Accepted(u)] + taken)
  }

  /** The transfer a handle starts for url: robots.txt first, then HEAD, then GET. */
  function Scheduled(h: Handle, url: Url): (g: Handle)
    ensures g.inflight.Some?
  {
    var state := if h.state == IDLE then ROBOTS else h.state;
    if state == ROBOTS then Handle(state, h.robots, Some(RobotsUrl(url)), Some(Request(RobotsTxt, RobotsUrl(url))))
    else Handle(state, h.robots, Some(Loaded(url)), Some(Request(if state == HEAD then Head else Get, url)))
  }

  /** Set up the next transfer of handle id; None when the code throws. */
  function Reschedule(s: Fleet, id: nat, order: seq<Url>): (r: Option<Fleet>)
    requires id < |s.handles|
    ensures r.Some? ==> |r.value.handles| == |s.handles|
  {
    if s.cls.top == multiset{} && IndexOfN(s.cls.table, id) == |s.cls.table| then None
    else if s.cls.top == multiset{} && Queue(s.cls, id) == [] then Some(s)
    else
      match Peeked(s.cls, id, order)
      case Err(_) => None
      case Ok((c, front)) =>
        if s.handles[id].state == NEXT then None
        else
          var g := Scheduled(s.handles[id], Normalize(front));
          var taken := if NeedsDrain(s.cls, id) then [Took(id, front.host)] else [];
          Some(s.(cls := c, handles := s.handles[id := g], log := s.log + taken + [Requested(id, g.inflight.value)]))
  }

  /**
   * What done makes of the url at the front: ask for robots.txt when none is
   * known or the host of the document differs from the host of the url, fetch
   * it when it is allowed, and drop it otherwise.
   */
  function Chosen(h: Handle, front: Url): (g: Handle) {
    var url := Normalize(front);
    var state := if h.robots.None? || Loaded(url).host != url.host then ROBOTS
                 else if Permits(h.robots.value, url.path) then HEAD
                 else IDLE;
    h.(doc := Some(Loaded(url)), state := state)
  }

  /** The loop of done after NEXT: drop disallowed urls until one may be worked on or the queue is empty. */
  function Advance(s: Fleet, id: nat): (r: Option<Fleet>)
    requires id < |s.handles|
    ensures r.Some? ==> |r.value.handles| == |s.handles|
    decreases |Queue(s.cls, id)|
  {
    var h := s.handles[id];
    var i := IndexOfN(s.cls.table, id);
    if i == |s.cls.table| then None
    else if s.cls.table[i].queue == [] then Some(s.(handles := s.handles[id := h.(state := IDLE)]))
    else
      var front := s.cls.table[i].queue[0];
      var g := Chosen(h, front);
      if g.state != IDLE then Some(s.(handles := s.handles[id := g]))
      else
        var c := Popped(s.cls, id).value;
        IndexOfNAfterPop(s.cls, id);
        Advance(s.(cls := c, handles := s.handles[id := g], log := s.log + [Dropped(id, front)]), id)
  }

  lemma IndexOfNAfterPop(s: State, n: nat)
    requires IndexOfN(s.table, n) < |s.table| && Queue(s, n) != []
    ensures IndexOfN(Popped(s, n).value.table, n) == IndexOfN(s.table, n)
    ensures Queue(Popped(s, n).value, n) == Queue(s, n)[1..]
  {
    var i := IndexOfN(s.table, n);
    var t := Popped(s, n).value.table;
    assert t[i].n == n && forall j :: 0 <= j < i ==> t[j] == s.table[j];
  }

  /** Save the document, whose url Doc::save normalises again, and take its url off the queue. */
  function SaveAndPop(s: Fleet, id: nat): (r: Option<Fleet>)
    requires id < |s.handles|
    ensures r.Some? ==> |r.value.handles| == |s.handles|
  {
    var h := s.handles[id];
    var c := Popped(s.cls, id);
    if h.doc.None? || c.Err? then None
    else Some(s.(cls := c.value, saved := s.saved + 1,
                log := s.log + [Saved(id, Queue(s.cls, id)[0], Normalize(h.doc.value))]))
  }

  function RobotsResult(out: Outcome): Robots {
    if !out.ok then NotAvailable else if out.rules.Some? then Present(out.rules.value) else ParseError
  }

  /** What done decides before rescheduling. */
  function Decide(s: Fleet, id: nat, out: Outcome): (r: Option<Fleet>)
    requires id < |s.handles|
    ensures r.Some? ==> |r.value.handles| == |s.handles|
  {
    var h := s.handles[id];
    match h.state
    case IDLE => None
    case ROBOTS =>
      if h.doc.None? then None
      else
        var robots := RobotsResult(out);
        Advance(s.(handles := s.handles[id := h.(robots := Some(robots))],
                   log := s.log + [RobotsKnown(id, h.doc.value.host, robots)]), id)
    case HEAD =>
      if out.ok && out.acceptable then Some(s.(handles := s.handles[id := h.(state := CONTENT)]))
      else
        var t := SaveAndPop(s, id);
        if t.None? then None else Advance(t.value, id)
    case CONTENT =>
      var t := SaveAndPop(s, id);
      if t.None? then None else Advance(t.value, id)
    case NEXT => Advance(s, id)
  }

  function ClearDoc(s: Fleet, id: nat): (r: Fleet)
    requires id < |s.handles|
  {
    s.(handles := s.handles[id := s.handles[id].(doc := None)])
  }

  /** The transfer of handle id leaves curl. */
  function TakeBack(s: Fleet, id: nat): (r: Fleet)
    requires id < |s.handles|
  {
    s.(handles := s.handles[id := s.handles[id].(inflight := None)])
  }

  /** A transfer completes: done decides, clears the document's url and reschedules. */
  function Done(s: Fleet, id: nat, out: Outcome, order: seq<Url>): (r: Option<Fleet>)
    requires id < |s.handles|
  {
    var t := Decide(TakeBack(s, id), id, out);
    if t.None? then None else Reschedule(ClearDoc(t.value, id), id, order)
  }

  // ---------------------------------------------------------------- events and runs

  /** The priority queue can come out in this order if queue id has to be refilled. */
  ghost predicate LegalOrder(s: Fleet, id: nat, order: seq<Url>) {
    NeedsDrain(s.cls, id) ==> IsDrain(s.cls.top, order)
  }

  /** GlobalInfo::reschedule from handle k on: every idle handle is rescheduled in turn. */
  ghost predicate Ticked(s: Fleet, k: nat, t: Fleet)
    decreases |s.handles| - k
  {
    if k >= |s.handles| then t == s
    else if s.handles[k].state != IDLE then Ticked(s, k + 1, t)
    else exists order :: LegalOrder(s, k, order) && RescheduledTo(s, k, order, t)
  }

  ghost predicate RescheduledTo(s: Fleet, k: nat, order: seq<Url>, t: Fleet)
    requires k < |s.handles| && LegalOrder(s, k, order)
    decreases |s.handles| - k, 0
  {
    var r := Reschedule(s, k, order);
    r.Some? && Ticked(r.value, k + 1, t)
  }

  /** done for handle id, when the priority queue may come out in some legal order. */
  ghost predicate Completed(s: Fleet, id: nat, out: Outcome, t: Fleet) {
    && id < |s.handles| && s.handles[id].inflight.Some?
    && exists order :: DoneOrder(s, id, out, order) && Done(s, id, out, order) == Some(t)
  }

  ghost predicate DoneOrder(s: Fleet, id: nat, out: Outcome, order: seq<Url>)
    requires id < |s.handles|
  {
    var t := Decide(TakeBack(s, id), id, out);
    t.Some? ==> LegalOrder(ClearDoc(t.value, id), id, order)
  }

  datatype Step = AcceptStep(url: Url) | TickStep | DoneStep(id: nat, out: Outcome)

  ghost predicate Next(s: Fleet, step: Step, t: Fleet) {
    match step
    case AcceptStep(u) => t == Accept(s, u)
    case TickStep => Ticked(s, 0, t)
    case DoneStep(id, out) => Completed(s, id, out, t)
  }

  ghost predicate IsRun(states: seq<Fleet>, steps: seq<Step>) {
    |states| == |steps| + 1 && forall k :: 0 <= k < |steps| ==> StepAt(states, steps, k)
  }

  ghost predicate StepAt(states: seq<Fleet>, steps: seq<Step>, k: nat)
    requires k < |steps| && |states| == |steps| + 1
  {
    Next(states[k], steps[k], states[k + 1])
  }

  /** The fleet of n handles can get to s by these events, starting idle and empty. */
  ghost predicate Reaches(n: nat, steps: seq<Step>, s: Fleet)
    decreases |steps|
  {
    if steps == [] then s == Start(n)
    else
      var before, last := steps[..|steps| - 1], steps[|steps| - 1];
      exists p :: Reaches(n, before, p) && Next(p, last, s)
  }
}
