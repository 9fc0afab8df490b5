/** Which hosts let the fleet go quiet: exactly those that one normalisation settles. */
module FleetQuiet {
  import opened Bytes
  import opened Hosts
  import opened UrlClassifier
  import opened ClassifierLaws
  import opened FleetModel
  import opened FleetLaws
  import opened FleetRuns
  import opened FleetHeld
  import opened FleetProgress

  /** After any run that accepts these hosts, the work left is bounded by the measure. */
  ghost predicate Quiet(n: nat, hosts: iset<Text>) {
    forall before, states, steps ::
      Leads(n, before, states, hosts) && IsRun(states, steps) && Effective(states, steps) ==>
      |steps| <= Measure(states[0])
  }

  ghost predicate Leads(n: nat, before: seq<Step>, states: seq<Fleet>, hosts: iset<Text>) {
    states != [] && Reaches(n, before, states[0]) && AcceptsOnly(before, hosts)
  }

  // ---------------------------------------------------------------- work without end

  /** A transfer that brings nothing. */
  function Failed(): Outcome {
    Outcome(false, None, false)
  }

  /** One round: the transfer completes and the same transfer is started again. */
  lemma Again(s: Fleet, n: nat, id: nat) returns (t: Fleet)
    requires FleetOk(s, n) && id < n && s.handles[id].inflight.Some?
    requires Queue(s.cls, id) != [] && !Steady(Queue(s.cls, id)[0].host)
    ensures Next(s, DoneStep(id, Failed()), t) && t != s
    ensures FleetOk(t, n) && t.cls == s.cls && t.handles[id].inflight.Some?
  {
    RobotsAgain(s, n, id, Failed(), []);
    DoneOk(s, n, id, Failed(), []);
    t := Done(s, id, Failed(), []).value;
    assert Completed(s, id, Failed(), t);
  }

  /** A transfer for a host that is not steady can complete any number of times and leave everything to do. */
  lemma {:induction false} Endless(s: Fleet, n: nat, id: nat, m: nat) returns (states: seq<Fleet>, steps: seq<Step>)
    requires FleetOk(s, n) && id < n && s.handles[id].inflight.Some?
    requires Queue(s.cls, id) != [] && !Steady(Queue(s.cls, id)[0].host)
    ensures |steps| == m && IsRun(states, steps) && Effective(states, steps) && states[0] == s
    ensures FleetOk(states[m], n) && states[m].cls == s.cls && states[m].handles[id].inflight.Some?
  {
    if m == 0 {
      states, steps := [s], [];
    } else {
      var a, b := Endless(s, n, id, m - 1);
      var t := Again(a[m - 1], n, id);
      LongerRun(a, b, DoneStep(id, Failed()), t);
      LongerEffective(a, b, DoneStep(id, Failed()), t);
      states, steps := a + [t], b + [DoneStep(id, Failed())];
    }
  }

  lemma LongerRun(a: seq<Fleet>, b: seq<Step>, step: Step, t: Fleet)
    requires IsRun(a, b)
    ensures Next(a[|b|], step, t) ==> IsRun(a + [t], b + [step])
  {
    var states, steps := a + [t], b + [step];
    forall k | 0 <= k < |b| ensures StepAt(states, steps, k) {
      assert StepAt(a, b, k);
      StepSame(a, b, states, steps, k);
    }
    assert states[|b|] == a[|b|] && states[|b| + 1] == t && steps[|b|] == step;
  }

  lemma StepSame(a: seq<Fleet>, b: seq<Step>, states: seq<Fleet>, steps: seq<Step>, k: nat)
    requires k < |b| && |a| == |b| + 1 && k < |steps| && |states| == |steps| + 1 && StepAt(a, b, k)
    requires states[k] == a[k] && states[k + 1] == a[k + 1] && steps[k] == b[k]
    ensures StepAt(states, steps, k)
  {
  }

  lemma LongerEffective(a: seq<Fleet>, b: seq<Step>, step: Step, t: Fleet)
    requires Effective(a, b) && !step.AcceptStep? && t != a[|b|]
    ensures Effective(a + [t], b + [step])
  {
    var states, steps := a + [t], b + [step];
    forall k | 0 <= k < |steps| ensures !steps[k].AcceptStep? && states[k + 1] != states[k] {
      if k < |b| {
        assert states[k] == a[k] && states[k + 1] == a[k + 1] && steps[k] == b[k];
      }
    }
  }

  /** One accepted url lands in the first queue. */
  lemma OneAccepted(n: nat, u: Url)
    requires n >= 1
    ensures var s := Accept(Start(n), u);
            |s.handles| == n && s.handles[0].state == IDLE && |s.cls.table| == n && s.cls.table[0].queue == [u]
  {
    var t0 := Init(n).table;
    assert t0[0].host == "" && t0[0].queue == [];
    assert FirstEmpty(t0) == 0 && (IndexOfHost(t0, u.host) == 0 || IndexOfHost(t0, u.host) == n);
  }

  /** A fleet that has accepted one url and ticked once works on it. */
  lemma OneServed(n: nat, h: Text) returns (steps: seq<Step>, t: Fleet)
    requires n >= 1
    ensures Reaches(n, steps, t) && AcceptsOnly(steps, iset{h}) && FleetOk(t, n)
    ensures t.handles[0].inflight.Some? && Queue(t.cls, 0) == [Url(h, "")]
  {
    var u := Url(h, "");
    var s := Accept(Start(n), u);
    ReachStart(n);
    ReachAccept(n, [], Start(n), u);
    ReachableOk(n, [] + [AcceptStep(u)], s);
    OneAccepted(n, u);
    t := TickExists(s, n, 0);
    steps := [] + [AcceptStep(u)] + [TickStep];
    ReachTick(n, [] + [AcceptStep(u)], s, t);
    TickServes(s, n, 0, t, 0);
    TickOk(s, n, 0, t);
    assert HandleOk(t, 0);
    ShapeIndex(t.cls, n, 0);
  }

  lemma NotQuiet(n: nat, hosts: iset<Text>, h: Text)
    requires n >= 1 && h in hosts && !Steady(h)
    ensures !Quiet(n, hosts)
  {
    var before, s := OneServed(n, h);
    var states, steps := Endless(s, n, 0, Measure(s) + 1);
    assert AcceptsOnly(before, hosts);
    assert Leads(n, before, states, hosts);
  }

  // ---------------------------------------------------------------- both ways

  lemma QuietWhenSteady(n: nat, hosts: iset<Text>, before: seq<Step>, states: seq<Fleet>, steps: seq<Step>)
    requires hosts <= SteadyHosts() && Leads(n, before, states, hosts)
    requires IsRun(states, steps) && Effective(states, steps)
    ensures |steps| <= Measure(states[0])
  {
    ReachableOk(n, before, states[0]);
    ReachableHeld(n, before, states[0], hosts);
    BoundedWork(states, steps, n);
  }

  /** The fleet goes quiet whatever it accepts of these hosts, exactly when all of them are steady. */
  lemma QuietExactly(n: nat, hosts: iset<Text>)
    requires n >= 1
    ensures Quiet(n, hosts) <==> forall h :: h in hosts ==> Steady(h)
  {
    if h :| h in hosts && !Steady(h) {
      NotQuiet(n, hosts, h);
    } else {
      forall before, states, steps |
        Leads(n, before, states, hosts) && IsRun(states, steps) && Effective(states, steps)
        ensures |steps| <= Measure(states[0])
      {
        QuietWhenSteady(n, hosts, before, states, steps);
      }
    }
  }

  /** One escaped upper-case letter is enough to keep a fleet busy for ever. */
  lemma NeverQuiet(n: nat, h: Text)
    requires n >= 1 && h == "ex%41mple.com"
    ensures !Quiet(n, iset{h})
  {
    EscapedUpperLetter(h);
    QuietExactly(n, iset{h});
  }
}
