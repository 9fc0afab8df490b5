/**
 * Laws of the classifier on its own, over every sequence of pushes, peeks and
 * pops: queues hold one host each, fronts stay put, nothing is lost. One queue
 * per host is not among them.
 */
module ClassifierLaws {
  import opened Bytes
  import opened UrlClassifier

  datatype Op = PushOp(u: Url) | PopOp(n: nat) | PeekOp(n: nat, order: seq<Url>)

  /** A drain order must be one the priority queue can produce at that moment. */
  ghost predicate LegalOp(s: State, op: Op) {
    op.PeekOp? && NeedsDrain(s, op.n) ==> IsDrain(s.top, op.order)
  }

  /** An operation that throws leaves the state alone. */
  ghost function Apply(s: State, op: Op): (r: State)
    requires LegalOp(s, op)
  {
    match op
    case PushOp(u) => Pushed(s, u)
    case PopOp(n) => var r := Popped(s, n); if r.Ok? then r.value else s
    case PeekOp(n, order) => var r := Peeked(s, n, order); if r.Ok? then r.value.0 else s
  }

  ghost predicate LegalRun(s: State, ops: seq<Op>)
    decreases |ops|
  {
    ops == [] || (LegalOp(s, ops[0]) && LegalRun(Apply(s, ops[0]), ops[1..]))
  }

  ghost function Run(s: State, ops: seq<Op>): (r: State)
    requires LegalRun(s, ops)
    decreases |ops|
  {
    if ops == [] then s else Run(Apply(s, ops[0]), ops[1..])
  }

  // ---------------------------------------------------------------- one host per queue

  ghost predicate SingleHost(s: State) {
    forall i, u :: 0 <= i < |s.table| && u in s.table[i].queue ==> u.host == s.table[i].host
  }

  /** The unique index: no queue number occurs twice. */
  ghost predicate Numbered(table: seq<Elem>) {
    forall i, j :: 0 <= i < j < |table| ==> table[i].n != table[j].n
  }

  /** Replacing one element keeps a table numbered and single-host when the new element is. */
  lemma ReplaceKeeps(s: State, i: nat, e: Elem, top: multiset<Url>)
    requires SingleHost(s) && Numbered(s.table) && i < |s.table| && e.n == s.table[i].n
    requires forall u :: u in e.queue ==> u.host == e.host
    ensures var r := State(top, s.table[i := e]); SingleHost(r) && Numbered(r.table)
  {
  }

  lemma PushKeeps(s: State, u: Url)
    requires SingleHost(s) && Numbered(s.table)
    ensures SingleHost(Pushed(s, u)) && Numbered(Pushed(s, u).table)
  {
    var i, j := IndexOfHost(s.table, u.host), FirstEmpty(s.table);
    if i < |s.table| {
      ReplaceKeeps(s, i, s.table[i].(queue := s.table[i].queue + [u]), s.top);
    } else if j < |s.table| {
      ReplaceKeeps(s, j, Elem(s.table[j].n, u.host, [u]), s.top);
    }
  }

  lemma PopKeeps(s: State, n: nat)
    requires SingleHost(s) && Numbered(s.table) && Popped(s, n).Ok?
    ensures var r := Popped(s, n).value; SingleHost(r) && Numbered(r.table)
  {
    var i := IndexOfN(s.table, n);
    ReplaceKeeps(s, i, s.table[i].(queue := s.table[i].queue[1..]), s.top);
  }

  /** Adding an element with a new number. */
  lemma AppendKeeps(s: State, e: Elem, top: multiset<Url>)
    requires SingleHost(s) && Numbered(s.table) && IndexOfN(s.table, e.n) == |s.table|
    requires forall u :: u in e.queue ==> u.host == e.host
    ensures var r := State(top, s.table + [e]); SingleHost(r) && Numbered(r.table)
  {
  }

  lemma PeekKeeps(s: State, n: nat, order: seq<Url>)
    requires SingleHost(s) && Numbered(s.table)
    requires NeedsDrain(s, n) ==> IsDrain(s.top, order)
    requires Peeked(s, n, order).Ok?
    ensures var r := Peeked(s, n, order).value.0; SingleHost(r) && Numbered(r.table)
  {
    var i := IndexOfN(s.table, n);
    if NeedsDrain(s, n) {
      var e, top := Elem(n, order[0].host, order), s.top - multiset(order);
      if i < |s.table| { ReplaceKeeps(s, i, e, top); } else { AppendKeeps(s, e, top); }
    }
  }

  lemma SingleHostKept(s: State, op: Op)
    requires SingleHost(s) && Numbered(s.table) && LegalOp(s, op)
    ensures SingleHost(Apply(s, op)) && Numbered(Apply(s, op).table)
  {
    match op
    case PushOp(u) => PushKeeps(s, u);
    case PopOp(n) => if Popped(s, n).Ok? { PopKeeps(s, n); }
    case PeekOp(n, order) => if Peeked(s, n, order).Ok? { PeekKeeps(s, n, order); }
  }

  /** Every run from a state of single-host queues ends in one. */
  lemma {:induction false} RunSingleHost(s: State, ops: seq<Op>)
    requires SingleHost(s) && Numbered(s.table) && LegalRun(s, ops)
    ensures SingleHost(Run(s, ops)) && Numbered(Run(s, ops).table)
    decreases |ops|
  {
    if ops != [] {
      SingleHostKept(s, ops[0]);
      RunSingleHost(Apply(s, ops[0]), ops[1..]);
    }
  }

  /** Every run of a fresh classifier keeps each queue to one host. */
  lemma FreshRunSingleHost(n: nat, ops: seq<Op>)
    requires LegalRun(Init(n), ops)
    ensures SingleHost(Run(Init(n), ops))
  {
    RunSingleHost(Init(n), ops);
  }

  // ---------------------------------------------------------------- fronts stay put

  function Queue(s: State, n: nat): (q: seq<Url>) {
    var i := IndexOfN(s.table, n);
    if i < |s.table| then s.table[i].queue else []
  }

  lemma IndexOfNIs(table: seq<Elem>, i: nat)
    requires i < |table| && Numbered(table)
    ensures IndexOfN(table, table[i].n) == i
  {
  }

  /** Only pop(n) takes anything from a non-empty queue n; everything else leaves it or adds at the back. */
  lemma QueueGrows(s: State, n: nat, op: Op)
    requires Numbered(s.table) && LegalOp(s, op) && Queue(s, n) != [] && op != PopOp(n)
    ensures Queue(s, n) <= Queue(Apply(s, op), n)
  {
    var i := IndexOfN(s.table, n);
    var t := Apply(s, op).table;
    assert |s.table| <= |t| && t[i].n == n;
    SingleNumber(s, op);
    IndexOfNIs(t, i);
  }

  lemma SingleNumber(s: State, op: Op)
    requires Numbered(s.table) && LegalOp(s, op)
    ensures Numbered(Apply(s, op).table)
  {
  }

  /** After a peek, the front of queue n is the same until pop(n), whatever else happens. */
  lemma {:induction false} FrontStable(s: State, n: nat, ops: seq<Op>)
    requires Numbered(s.table) && LegalRun(s, ops) && Queue(s, n) != []
    requires forall k :: 0 <= k < |ops| ==> ops[k] != PopOp(n)
    ensures Queue(s, n) <= Queue(Run(s, ops), n)
    ensures Queue(Run(s, ops), n)[0] == Queue(s, n)[0]
    decreases |ops|
  {
    if ops != [] {
      QueueGrows(s, n, ops[0]);
      SingleNumber(s, ops[0]);
      FrontStable(Apply(s, ops[0]), n, ops[1..]);
    }
  }

  /** A peek that refills takes all the urls of the greatest host and no others. */
  lemma PeekTakesGreatestHost(s: State, n: nat, order: seq<Url>)
    requires Numbered(s.table) && NeedsDrain(s, n) && IsDrain(s.top, order)
    ensures var r := Peeked(s, n, order);
            && r.Ok? && r.value.1 == order[0]
            && Queue(r.value.0, n) == order
            && (forall u: Url :: u.host == order[0].host ==> multiset(order)[u] == s.top[u] && r.value.0.top[u] == 0)
            && (forall u: Url :: u.host != order[0].host ==> multiset(order)[u] == 0 && r.value.0.top[u] == s.top[u])
            && (forall u :: u in s.top ==> Leq(u.host, order[0].host))
  {
    SingleNumber(s, PeekOp(n, order));
    var t := Peeked(s, n, order).value.0.table;
    var i := IndexOfN(s.table, n);
    assert t[i].n == n;
    IndexOfNIs(t, i);
    forall u: Url | u.host == order[0].host ensures multiset(order)[u] == s.top[u] {
      if u in s.top { assert u !in s.top - multiset(order); }
    }
    forall u: Url | u.host != order[0].host ensures multiset(order)[u] == 0 {
      assert u !in order;
    }
  }

  // ---------------------------------------------------------------- where a url goes, and what fails

  /**
   * A url goes behind those of its host, else it opens the first empty queue for
   * its host, and it waits only if all queues are taken by other hosts.
   */
  lemma PushPlaces(s: State, u: Url) returns (i: nat)
    ensures var r := Pushed(s, u);
      && |r.table| == |s.table| && i <= |s.table|
      && (forall k :: 0 <= k < |s.table| && k != i ==> r.table[k] == s.table[k])
      && r.top == (if i == |s.table| then s.top + multiset{u} else s.top)
      && (i < |s.table| ==> r.table[i].n == s.table[i].n && r.table[i].host == u.host && r.table[i].queue == s.table[i].queue + [u])
    ensures i == |s.table| <==> forall e :: e in s.table ==> e.host != u.host && e.queue != []
    ensures i < |s.table| && (exists e :: e in s.table && e.host == u.host) ==> s.table[i].host == u.host
    ensures i < |s.table| && s.table[i].host != u.host ==> s.table[i].queue == [] && forall k :: 0 <= k < i ==> s.table[k].queue != []
  {
    i := IndexOfHost(s.table, u.host);
    if i == |s.table| { i := FirstEmpty(s.table); }
  }

  /** Pop fails exactly on a number without queue and on an empty queue, and says whether anything waits. */
  lemma PopFails(s: State, n: nat)
    requires Numbered(s.table)
    ensures Popped(s, n) == Err(NoSuchQueue) <==> forall e :: e in s.table ==> e.n != n
    ensures Popped(s, n) == Err(Empty) <==> (exists e :: e in s.table && e.n == n && e.queue == []) && s.top == multiset{}
    ensures Popped(s, n) == Err(EmptyClassifyingQueue) <==> (exists e :: e in s.table && e.n == n && e.queue == []) && s.top != multiset{}
  {
    var i := IndexOfN(s.table, n);
    assert i < |s.table| ==> s.table[i] in s.table;
    forall e | e in s.table && e.n == n ensures i < |s.table| && e == s.table[i] {
      var k :| 0 <= k < |s.table| && s.table[k] == e;
      IndexOfNIs(s.table, k);
    }
  }

  /** Peek fails exactly when the queue is empty or missing and nothing waits; a queue with urls is only read. */
  lemma PeekFails(s: State, n: nat, order: seq<Url>)
    requires NeedsDrain(s, n) ==> IsDrain(s.top, order)
    ensures Peeked(s, n, order).Err? <==> Queue(s, n) == [] && s.top == multiset{}
    ensures Queue(s, n) != [] ==> Peeked(s, n, order) == Ok((s, Queue(s, n)[0]))
  {
  }

  // ---------------------------------------------------------------- nothing lost

  /** All the urls in the classifier. */
  function Held(s: State): (m: multiset<Url>) {
    InQueues(s.table) + s.top
  }

  /** The urls outside queue i of the table. */
  function Outside(table: seq<Elem>, i: nat): (m: multiset<Url>)
    requires i < |table|
  {
    InQueues(table[i := Elem(0, "", [])])
  }

  lemma {:induction false} InQueuesAt(table: seq<Elem>, i: nat, e: Elem)
    requires i < |table|
    ensures InQueues(table[i := e]) == Outside(table, i) + multiset(e.queue)
  {
    var k := |table| - 1;
    var blank := Elem(0, "", []);
    var t, o := table[i := e], table[i := blank];
    if i < k {
      assert t[..k] == table[..k][i := e] && o[..k] == table[..k][i := blank];
      InQueuesAt(table[..k], i, e);
      var a, b, c := Outside(table[..k], i), multiset(e.queue), multiset(table[k].queue);
      assert (a + b) + c == (a + c) + b;
    } else {
      assert t[..k] == table[..k] == o[..k];
    }
  }

  lemma InQueuesHere(table: seq<Elem>, i: nat)
    requires i < |table|
    ensures InQueues(table) == Outside(table, i) + multiset(table[i].queue)
  {
    assert table[i := table[i]] == table;
    InQueuesAt(table, i, table[i]);
  }

  lemma InQueuesAppend(table: seq<Elem>, e: Elem)
    ensures InQueues(table + [e]) == InQueues(table) + multiset(e.queue)
  {
    assert (table + [e])[..|table|] == table;
  }

  lemma PushConserves(s: State, u: Url)
    ensures Held(Pushed(s, u)) == Held(s) + multiset{u}
  {
    var i := IndexOfHost(s.table, u.host);
    if i < |s.table| {
      var e := s.table[i].(queue := s.table[i].queue + [u]);
      InQueuesHere(s.table, i);
      InQueuesAt(s.table, i, e);
      assert multiset(e.queue) == multiset(s.table[i].queue) + multiset{u};
    } else {
      var j := FirstEmpty(s.table);
      if j < |s.table| {
        InQueuesHere(s.table, j);
        InQueuesAt(s.table, j, Elem(s.table[j].n, u.host, [u]));
      }
    }
  }

  lemma PopConserves(s: State, n: nat)
    requires Popped(s, n).Ok?
    ensures Queue(s, n) != [] && Held(Popped(s, n).value) + multiset{Queue(s, n)[0]} == Held(s)
  {
    var i := IndexOfN(s.table, n);
    var q := s.table[i].queue;
    assert q == [q[0]] + q[1..];
    assert multiset(q) == multiset{q[0]} + multiset(q[1..]);
    InQueuesHere(s.table, i);
    InQueuesAt(s.table, i, s.table[i].(queue := q[1..]));
  }

  lemma PeekConserves(s: State, n: nat, order: seq<Url>)
    requires NeedsDrain(s, n) ==> IsDrain(s.top, order)
    requires Peeked(s, n, order).Ok?
    ensures Held(Peeked(s, n, order).value.0) == Held(s)
  {
    if NeedsDrain(s, n) {
      var i := IndexOfN(s.table, n);
      var e := Elem(n, order[0].host, order);
      var a, b := multiset(order), s.top - multiset(order);
      assert a + b == s.top;
      if i < |s.table| {
        InQueuesHere(s.table, i);
        InQueuesAt(s.table, i, e);
        assert (Outside(s.table, i) + a) + b == Outside(s.table, i) + (a + b);
      } else {
        InQueuesAppend(s.table, e);
        assert (InQueues(s.table) + a) + b == InQueues(s.table) + (a + b);
      }
    }
  }

  // ---------------------------------------------------------------- what does not hold

  lemma TwoFilled(a: Url, b: Url, c: Url)
    requires a.host == "a" && b.host == "b" && c.host == "c"
    ensures Pushed(Init(2), a) == State(multiset{}, [Elem(0, "a", [a]), Elem(1, "", [])])
    ensures Pushed(Pushed(Init(2), a), c) == State(multiset{}, [Elem(0, "a", [a]), Elem(1, "c", [c])])
    ensures Pushed(Pushed(Pushed(Init(2), a), c), b) == State(multiset{b}, [Elem(0, "a", [a]), Elem(1, "c", [c])])
  {
    assert Init(2).table == [Elem(0, "", []), Elem(1, "", [])];
  }

  /** Queue 0 runs dry while b waits in the priority queue, and a second url of host b takes the queue. */
  lemma StaleQueueTaken(a: Url, b1: Url, b2: Url, c: Url)
    requires a.host == "a" && b2.host == "b" && c.host == "c"
    ensures var s := State(multiset{b1}, [Elem(0, "a", [a]), Elem(1, "c", [c])]);
            var p := Popped(s, 0);
            p.Ok? && Pushed(p.value, b2) == State(multiset{b1}, [Elem(0, "b", [b2]), Elem(1, "c", [c])])
  {
    var s := State(multiset{b1}, [Elem(0, "a", [a]), Elem(1, "c", [c])]);
    assert IndexOfN(s.table, 0) == 0 && [a][1..] == [];
    assert Popped(s, 0).value == State(multiset{b1}, [Elem(0, "a", []), Elem(1, "c", [c])]);
  }

  lemma OtherQueueRefilled(b1: Url, b2: Url, c: Url)
    requires b1.host == "b" && b2.host == "b" && c.host == "c"
    ensures var s := State(multiset{b1}, [Elem(0, "b", [b2]), Elem(1, "c", [c])]);
            var p := Popped(s, 1);
            && p.Ok? && LegalOp(p.value, PeekOp(1, [b1]))
            && Apply(p.value, PeekOp(1, [b1])).table == [Elem(0, "b", [b2]), Elem(1, "b", [b1])]
  {
    var s := State(multiset{b1}, [Elem(0, "b", [b2]), Elem(1, "c", [c])]);
    assert IndexOfN(s.table, 1) == 1 && [c][1..] == [];
    var t := Popped(s, 1).value;
    assert t == State(multiset{b1}, [Elem(0, "b", [b2]), Elem(1, "c", [])]);
    OneUrlDrain(b1);
    assert IndexOfN(t.table, 1) == 1;
  }

  /** The classifier alone can give two queues the same host. */
  lemma TwoQueuesOneHost()
    ensures exists ops ::
              LegalRun(Init(2), ops) &&
              var t := Run(Init(2), ops).table;
              |t| == 2 && t[0].queue != [] && t[1].queue != [] && t[0].host == t[1].host
  {
    var a, b1, b2, c := Url("a", ""), Url("b", "1"), Url("b", "2"), Url("c", "");
    TwoFilled(a, b1, c);
    StaleQueueTaken(a, b1, b2, c);
    OtherQueueRefilled(b1, b2, c);
    var s0 := Init(2);
    var s1 := Pushed(s0, a);
    var s2 := Pushed(s1, c);
    var s3 := Pushed(s2, b1);
    var s4 := Popped(s3, 0).value;
    var s5 := Pushed(s4, b2);
    var s6 := Popped(s5, 1).value;
    var ops := Prepend(s6, PeekOp(1, [b1]), []);
    ops := Prepend(s5, PopOp(1), ops);
    ops := Prepend(s4, PushOp(b2), ops);
    ops := Prepend(s3, PopOp(0), ops);
    ops := Prepend(s2, PushOp(b1), ops);
    ops := Prepend(s1, PushOp(c), ops);
    ops := Prepend(s0, PushOp(a), ops);
  }

  lemma OneUrlDrain(u: Url)
    ensures IsDrain(multiset{u}, [u])
  {
    LessAsymmetric(u.host, u.host);
    assert multiset([u]) == multiset{u};
  }

  /** A run from the state after op, extended backwards by op. */
  lemma Prepend(s: State, op: Op, ops: seq<Op>) returns (longer: seq<Op>)
    requires LegalOp(s, op) && LegalRun(Apply(s, op), ops)
    ensures LegalRun(s, longer) && Run(s, longer) == Run(Apply(s, op), ops)
  {
    longer := [op] + ops;
    assert longer[1..] == ops;
  }
}
