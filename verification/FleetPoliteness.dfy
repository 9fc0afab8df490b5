/**
 * Politeness as the network sees it. The classifier separates hosts as
 * written, while requests go to normalised hosts and names are looked up
 * regardless of case: two handles can reach the same host exactly when two
 * accepted hosts are spellings of one name.
 */
module FleetPoliteness {
  import opened Bytes
  import opened Hosts
  import opened UrlClassifier
  import opened ClassifierLaws
  import opened FleetModel
  import opened FleetLaws
  import opened FleetRuns
  import opened FleetHeld

  /** On no run do two handles ask the same host of the network at once. */
  ghost predicate Polite(n: nat, hosts: iset<Text>) {
    forall steps, s, i, j ::
      Reaches(n, steps, s) && AcceptsOnly(steps, hosts) && 0 <= i < j < n && BothInFlight(s, i, j) ==>
      Lower(s.handles[i].inflight.value.url.host) != Lower(s.handles[j].inflight.value.url.host)
  }

  ghost predicate BothInFlight(s: Fleet, i: int, j: int) {
    0 <= i < |s.handles| && 0 <= j < |s.handles| && s.handles[i].inflight.Some? && s.handles[j].inflight.Some?
  }

  /** A transfer goes to the normalised host of the url at the front, which was accepted. */
  lemma AskedHost(n: nat, hosts: iset<Text>, steps: seq<Step>, s: Fleet, i: nat)
    requires Reaches(n, steps, s) && AcceptsOnly(steps, hosts)
    requires i < n && |s.handles| == n && s.handles[i].inflight.Some?
    ensures Queue(s.cls, i) != [] && Queue(s.cls, i)[0].host in hosts
    ensures s.handles[i].inflight.value.url.host == NormalHost(Queue(s.cls, i)[0].host)
  {
    InFlightIffBusy(n, steps, s, i);
    ReachableOk(n, steps, s);
    ReachableHeld(n, steps, s, hosts);
    ShapeIndex(s.cls, n, i);
    FrontHeld(s.cls, n, i);
  }

  lemma DistinctApart(hosts: iset<Text>, a: Text, b: Text)
    requires NetworkDistinct(hosts) && a in hosts && b in hosts && a != b
    ensures Lower(NormalHost(a)) != Lower(NormalHost(b))
  {
    assert NetworkHost(a) != NetworkHost(b);
  }

  /** Hosts that the network keeps apart are never asked twice at once. */
  lemma PoliteWhenDistinct(n: nat, hosts: iset<Text>, steps: seq<Step>, s: Fleet, i: nat, j: nat)
    requires NetworkDistinct(hosts) && Reaches(n, steps, s) && AcceptsOnly(steps, hosts)
    requires i < j < n && BothInFlight(s, i, j)
    ensures Lower(s.handles[i].inflight.value.url.host) != Lower(s.handles[j].inflight.value.url.host)
  {
    InFlightIffBusy(n, steps, s, i);
    AskedHost(n, hosts, steps, s, i);
    AskedHost(n, hosts, steps, s, j);
    OneTransferPerHost(n, steps, s, i, j);
    DistinctApart(hosts, Queue(s.cls, i)[0].host, Queue(s.cls, j)[0].host);
  }

  // ---------------------------------------------------------------- the impolite run

  /** Two urls of different hosts land in the first two queues. */
  lemma TwoAccepted(n: nat, a: Url, b: Url)
    requires n >= 2 && a.host != b.host
    ensures var s := Accept(Accept(Start(n), a), b);
            && |s.handles| == n && (forall i :: 0 <= i < n ==> s.handles[i].state == IDLE)
            && |s.cls.table| == n && s.cls.table[0] == Elem(0, a.host, [a]) && s.cls.table[1] == Elem(1, b.host, [b])
  {
    var t0 := Init(n).table;
    assert t0[0].host == "" && t0[0].queue == [];
    assert FirstEmpty(t0) == 0 && (IndexOfHost(t0, a.host) == 0 || IndexOfHost(t0, a.host) == n);
    var t1 := Pushed(Init(n), a).table;
    assert t1[0] == Elem(0, a.host, [a]) && forall i :: 1 <= i < n ==> t1[i] == Elem(i, "", []);
    assert FirstEmpty(t1) == 1 && (IndexOfHost(t1, b.host) == 1 || IndexOfHost(t1, b.host) == n);
  }

  lemma AcceptTwo(n: nat, a: Url, b: Url)
    ensures Reaches(n, [AcceptStep(a), AcceptStep(b)], Accept(Accept(Start(n), a), b))
  {
    ReachStart(n);
    ReachAccept(n, [], Start(n), a);
    assert [] + [AcceptStep(a)] == [AcceptStep(a)];
    ReachAccept(n, [AcceptStep(a)], Accept(Start(n), a), b);
    assert [AcceptStep(a)] + [AcceptStep(b)] == [AcceptStep(a), AcceptStep(b)];
  }

  lemma TwoServed(n: nat, a: Url, b: Url, s: Fleet, t: Fleet)
    requires n >= 2 && a.host != b.host && s == Accept(Accept(Start(n), a), b)
    requires FleetOk(s, n) && Ticked(s, 0, t)
    ensures BothInFlight(t, 0, 1)
    ensures t.handles[0].inflight.value.url.host == NormalHost(a.host) && t.handles[1].inflight.value.url.host == NormalHost(b.host)
  {
    TwoAccepted(n, a, b);
    BothServed(s, n, t);
  }

  lemma OnlyTwo(a: Url, b: Url)
    ensures AcceptsOnly([AcceptStep(a), AcceptStep(b)] + [TickStep], iset{a.host, b.host})
  {
  }

  /** Two spellings of one name are asked at once after a single tick. */
  lemma ImpoliteRun(n: nat, a: Text, b: Text) returns (steps: seq<Step>, t: Fleet)
    requires n >= 2 && a != b && NetworkHost(a) == NetworkHost(b)
    ensures Reaches(n, steps, t) && AcceptsOnly(steps, iset{a, b}) && BothInFlight(t, 0, 1)
    ensures Lower(t.handles[0].inflight.value.url.host) == Lower(t.handles[1].inflight.value.url.host)
  {
    var ua, ub := Url(a, ""), Url(b, "");
    var s := Accept(Accept(Start(n), ua), ub);
    steps := [AcceptStep(ua), AcceptStep(ub)] + [TickStep];
    AcceptTwo(n, ua, ub);
    ReachableOk(n, [AcceptStep(ua), AcceptStep(ub)], s);
    t := TickExists(s, n, 0);
    TwoServed(n, ua, ub, s, t);
    ReachTick(n, [AcceptStep(ua), AcceptStep(ub)], s, t);
    OnlyTwo(ua, ub);
  }

  lemma BothServed(s: Fleet, n: nat, t: Fleet)
    requires FleetOk(s, n) && n >= 2 && Ticked(s, 0, t)
    requires forall i :: 0 <= i < 2 ==> s.handles[i].state == IDLE && s.cls.table[i].queue != []
    ensures BothInFlight(t, 0, 1)
    ensures forall i :: 0 <= i < 2 ==> t.handles[i].inflight.value.url.host == NormalHost(s.cls.table[i].queue[0].host)
  {
    TickServes(s, n, 0, t, 0);
    TickServes(s, n, 0, t, 1);
    TickOk(s, n, 0, t);
    assert HandleOk(t, 0) && HandleOk(t, 1);
  }

  /** A fleet of two or more handles is polite exactly when the network keeps the accepted hosts apart. */
  lemma PoliteExactly(n: nat, hosts: iset<Text>)
    requires n >= 2
    ensures Polite(n, hosts) <==> NetworkDistinct(hosts)
  {
    if NetworkDistinct(hosts) {
      forall steps, s, i, j | Reaches(n, steps, s) && AcceptsOnly(steps, hosts) && 0 <= i < j < n && BothInFlight(s, i, j)
        ensures Lower(s.handles[i].inflight.value.url.host) != Lower(s.handles[j].inflight.value.url.host)
      {
        PoliteWhenDistinct(n, hosts, steps, s, i, j);
      }
    } else {
      var a, b :| a in hosts && b in hosts && NetworkHost(a) == NetworkHost(b) && a != b;
      var steps, t := ImpoliteRun(n, a, b);
      assert AcceptsOnly(steps, hosts);
    }
  }

  /** Two ways to break politeness: letter case, and an escaped digit. */
  lemma ImpolitePairs(n: nat, a: Text, b: Text, x: Text, y: Text)
    requires n >= 2 && a == "F3oo.com" && b == "f3oo.com" && x == "f%33oo.com" && y == "f3oo.com"
    ensures !Polite(n, iset{a, b}) && !Polite(n, iset{x, y})
  {
    assert a != b by { assert a[0] != b[0]; }
    assert Lower(a) == Lower(b);
    CaseReachesSame(a, b);
    EscapedDigitPair(x, y);
    PoliteExactly(n, iset{a, b});
    PoliteExactly(n, iset{x, y});
  }
}
