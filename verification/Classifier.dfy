/**
 * Url_classifier: urls grouped by host in child queues, with a priority queue
 * for hosts that have no child queue yet. The priority queue orders urls by
 * host only, so which url of the greatest host comes out first is left open:
 * every operation that drains it takes the order as a parameter.
 */
module UrlClassifier {
  import opened Bytes

  datatype Url = Url(host: Text, path: string)

  /** table_elmt_t: queue number n, serving one host. */
  datatype Elem = Elem(n: nat, host: Text, queue: seq<Url>)

  /** top is the priority queue; table lists the elements in sequence order. */
  datatype State = State(top: multiset<Url>, table: seq<Elem>)

  datatype Error = Empty | EmptyClassifyingQueue | NoSuchQueue

  datatype Result<+T> = Ok(value: T) | Err(error: Error)

  // ---------------------------------------------------------------- lookups in the table

  function IndexOfN(table: seq<Elem>, n: nat): (i: nat)
    ensures i <= |table| && (i < |table| ==> table[i].n == n)
    ensures forall j :: 0 <= j < i ==> table[j].n != n
  {
    if table == [] || table[0].n == n then 0 else 1 + IndexOfN(table[1..], n)
  }

  function IndexOfHost(table: seq<Elem>, host: Text): (i: nat)
    ensures i <= |table| && (i < |table| ==> table[i].host == host)
    ensures forall j :: 0 <= j < i ==> table[j].host != host
  {
    if table == [] || table[0].host == host then 0 else 1 + IndexOfHost(table[1..], host)
  }

  function FirstEmpty(table: seq<Elem>): (i: nat)
    ensures i <= |table| && (i < |table| ==> table[i].queue == [])
    ensures forall j :: 0 <= j < i ==> table[j].queue != []
  {
    if table == [] || table[0].queue == [] then 0 else 1 + FirstEmpty(table[1..])
  }

  // ---------------------------------------------------------------- the operations as functions

  function Init(n: nat): (s: State)
    ensures |s.table| == n && forall i :: 0 <= i < n ==> s.table[i] == Elem(i, "", [])
  {
    State(multiset{}, seq(n, i requires 0 <= i < n => Elem(i, "", [])))
  }

  /** A queue of this host, else the first empty queue, else the priority queue. */
  function Pushed(s: State, u: Url): (r: State) {
    var i := IndexOfHost(s.table, u.host);
    if i < |s.table| then s.(table := s.table[i := s.table[i].(queue := s.table[i].queue + [u])])
    else
      var j := FirstEmpty(s.table);
      if j < |s.table| then s.(table := s.table[j := Elem(s.table[j].n, u.host, [u])])
      else s.(top := s.top + multiset{u})
  }

  function Popped(s: State, n: nat): (r: Result<State>) {
    var i := IndexOfN(s.table, n);
    if i == |s.table| then Err(NoSuchQueue)
    else if s.table[i].queue == [] then Err(if s.top == multiset{} then Empty else EmptyClassifyingQueue)
    else Ok(s.(table := s.table[i := s.table[i].(queue := s.table[i].queue[1..])]))
  }

  /** order lists exactly the urls of the greatest host in top, in some order. */
  ghost predicate IsDrain(top: multiset<Url>, order: seq<Url>) {
    && order != [] && multiset(order) <= top
    && (forall u :: u in order ==> u.host == order[0].host)
    && forall u :: u in top ==> Leq(u.host, order[0].host) && (u.host == order[0].host ==> u !in top - multiset(order))
  }

  /** Peek may have to refill queue n from the priority queue, in the given order. */
  predicate NeedsDrain(s: State, n: nat) {
    var i := IndexOfN(s.table, n);
    s.top != multiset{} && (i == |s.table| || s.table[i].queue == [])
  }

  function Peeked(s: State, n: nat, order: seq<Url>): (r: Result<(State, Url)>) {
    var i := IndexOfN(s.table, n);
    if NeedsDrain(s, n) && order != [] then
      var e := Elem(n, order[0].host, order);
      Ok((State(s.top - multiset(order), if i < |s.table| then s.table[i := e] else s.table + [e]), order[0]))
    else if i == |s.table| || s.table[i].queue == [] then Err(Empty)
    else Ok((s, s.table[i].queue[0]))
  }

  /** Part of the way through draining host from top0: order has come out, top is left. */
  ghost predicate Draining(top0: multiset<Url>, top: multiset<Url>, order: seq<Url>, host: Text) {
    && multiset(order) <= top0 && top == top0 - multiset(order)
    && (forall u :: u in order ==> u.host == host)
    && (forall u :: u in top0 ==> Leq(u.host, host))
    && (order == [] ==> exists u :: u in top && u.host == host)
  }

  lemma DrainStep(top0: multiset<Url>, top: multiset<Url>, order: seq<Url>, host: Text, u: Url)
    requires Draining(top0, top, order, host) && u in top && u.host == host
    ensures Draining(top0, top - multiset{u}, order + [u], host)
  {
    assert multiset(order + [u]) == multiset(order) + multiset{u};
  }

  /** When another host comes out on top, the drain is complete. */
  lemma DrainEnd(top0: multiset<Url>, top: multiset<Url>, order: seq<Url>, host: Text, u: Url)
    requires Draining(top0, top, order, host)
    requires u in top && u.host != host && forall v :: v in top ==> Leq(v.host, u.host)
    ensures IsDrain(top0, order)
  {
    assert u in top0;
    forall v | v in top ensures v.host != host {
      LeqOrder(u.host, host, host);
    }
    assert order != [];
  }

  lemma DrainAll(top0: multiset<Url>, order: seq<Url>, host: Text)
    requires Draining(top0, multiset{}, order, host)
    ensures IsDrain(top0, order)
  {
  }

  // ---------------------------------------------------------------- the object

  class Classifier {
    var topQ: multiset<Url>
    var table: seq<Elem>

    ghost function View(): State
      reads this
    {
      State(topQ, table)
    }

    constructor (count: nat)
      ensures View() == Init(count)
    {
      var t: seq<Elem> := [];
      for i := 0 to count
        invariant |t| == i && forall k :: 0 <= k < i ==> t[k] == Elem(k, "", [])
      {
        t := t + [Elem(i, "", [])];
      }
      topQ, table := multiset{}, t;
    }

    method Push(u: Url)
      modifies this
      ensures View() == Pushed(old(View()), u)
    {
      var i := IndexOfHost(table, u.host);
      if i < |table| {
        table := table[i := table[i].(queue := table[i].queue + [u])];
        return;
      }
      for j := 0 to |table|
        invariant View() == old(View())
        invariant forall k :: 0 <= k < j ==> table[k].queue != []
      {
        if table[j].queue == [] {
          assert table[j].queue + [u] == [u] && FirstEmpty(table) == j;
          table := table[j := Elem(table[j].n, u.host, table[j].queue + [u])];
          return;
        }
      }
      topQ := topQ + multiset{u};
    }

    method Pop(num: nat) returns (r: Result<()>)
      modifies this
      ensures match Popped(old(View()), num)
              case Ok(s) => r == Ok(()) && View() == s
              case Err(e) => r == Err(e) && View() == old(View())
    {
      var i := IndexOfN(table, num);
      if i < |table| {
        if table[i].queue == [] && topQ == multiset{} {
          return Err(Empty);
        } else if table[i].queue == [] {
          return Err(EmptyClassifyingQueue);
        } else {
          table := table[i := table[i].(queue := table[i].queue[1..])];
          return Ok(());
        }
      } else {
        return Err(NoSuchQueue);
      }
    }

    /** top(): a url of the greatest host; ties are broken arbitrarily. */
    method Top() returns (u: Url)
      requires topQ != multiset{}
      ensures u in topQ && forall v :: v in topQ ==> Leq(v.host, u.host)
    {
      ghost var g := Greatest(topQ);
      u :| u in topQ && forall v :: v in topQ ==> Leq(v.host, u.host);
    }

    /** The loop that moves every url of the greatest host from the priority queue to one list. */
    method Drain() returns (order: seq<Url>)
      requires topQ != multiset{}
      modifies this`topQ
      ensures IsDrain(old(topQ), order) && topQ == old(topQ) - multiset(order)
    {
      var first := Top();
      var host := first.host;
      order := [];
      while topQ != multiset{}
        invariant Draining(old(topQ), topQ, order, host)
        decreases |topQ|
      {
        var u := Top();
        if u.host != host {
          DrainEnd(old(topQ), topQ, order, host, u);
          break;
        }
        DrainStep(old(topQ), topQ, order, host, u);
        order := order + [u];
        topQ := topQ - multiset{u};
      }
      if topQ == multiset{} { DrainAll(old(topQ), order, host); }
    }

    method Peek(num: nat) returns (r: Result<Url>, ghost order: seq<Url>)
      modifies this
      ensures NeedsDrain(old(View()), num) ==> IsDrain(old(topQ), order)
      ensures match Peeked(old(View()), num, order)
              case Ok((s, u)) => r == Ok(u) && View() == s
              case Err(e) => r == Err(e) && View() == old(View())
    {
      order := [];
      var i := IndexOfN(table, num);
      if i < |table| {
        if table[i].queue == [] && topQ == multiset{} {
          r := Err(Empty);
        } else if table[i].queue == [] {
          var drained := Drain();
          order := drained;
          table := table[i := Elem(num, drained[0].host, drained)];
          r := Ok(drained[0]);
        } else {
          r := Ok(table[i].queue[0]);
        }
      } else if topQ != multiset{} {
        var drained := Drain();
        order := drained;
        table := table + [Elem(num, drained[0].host, drained)];
        r := Ok(drained[0]);
      } else {
        r := Err(Empty);
      }
    }

    method EmptyTop() returns (b: bool)
      ensures b == (topQ == multiset{})
    {
      b := topQ == multiset{};
    }

    method EmptyQueue(num: nat) returns (r: Result<bool>)
      ensures var i := IndexOfN(table, num);
              r == if i == |table| then Err(NoSuchQueue) else Ok(table[i].queue == [])
    {
      var i := IndexOfN(table, num);
      if i < |table| { r := Ok(table[i].queue == []); } else { r := Err(NoSuchQueue); }
    }

    /** size(): the urls in all queues. */
    method Size() returns (sum: nat)
      ensures sum == |InQueues(table) + topQ|
    {
      sum := 0;
      for i := 0 to |table|
        invariant sum == |InQueues(table[..i])|
      {
        assert table[..i + 1][..i] == table[..i];
        sum := sum + |table[i].queue|;
      }
      assert table[..|table|] == table;
      sum := sum + |topQ|;
    }
  }

  /** The urls held in the child queues. */
  function InQueues(table: seq<Elem>): (m: multiset<Url>) {
    if table == [] then multiset{} else InQueues(table[..|table| - 1]) + multiset(table[|table| - 1].queue)
  }

  /** Some url has the greatest host. */
  lemma {:induction false} Greatest(top: multiset<Url>) returns (u: Url)
    requires top != multiset{}
    ensures u in top && forall v :: v in top ==> Leq(v.host, u.host)
    decreases |top|
  {
    var x :| x in top;
    var rest := top - multiset{x};
    LeqOrder(x.host, x.host, x.host);
    if rest == multiset{} {
      assert top == multiset{x};
      return x;
    }
    var g := Greatest(rest);
    LeqOrder(x.host, g.host, g.host);
    u := if Leq(x.host, g.host) then g else x;
    forall v | v in top ensures Leq(v.host, u.host) {
      if v != x {
        assert v in rest;
        LeqOrder(v.host, g.host, x.host);
      }
    }
  }
}
