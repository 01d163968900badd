/**
 Insertion by priority. With a constant priority it is insertion at the end, so that the plain queue is the
 special case in which all priorities are equal.
 */
module StableQueue {

  /** From the back, the new element passes everything of strictly lower priority. */
  function Insert<T>(q: seq<T>, x: T, priority: T -> int): (r: seq<T>)
    ensures |r| == |q| + 1
  {
    if q == [] then [x]
    else
      var k := |q| - 1;
      if priority(q[k]) < priority(x) then Insert(q[..k], x, priority) + [q[k]] else q + [x]
  }

  /** The element lands behind the last one that is at least as urgent; all others keep their order. */
  lemma {:induction false} InsertAt<T>(q: seq<T>, x: T, priority: T -> int, at: nat)
    requires at <= |q|
    requires at == 0 || priority(q[at - 1]) >= priority(x)
    requires forall i | at <= i < |q| :: priority(q[i]) < priority(x)
    ensures Insert(q, x, priority) == q[..at] + [x] + q[at..]
  {
    if at < |q| {
      var k := |q| - 1;
      assert q[..k][..at] == q[..at] && q[..k][at..] + [q[k]] == q[at..];
      InsertAt(q[..k], x, priority, at);
    } else {
      assert q[..at] == q && q[at..] == [];
    }
  }

  lemma {:induction false} InsertContents<T>(q: seq<T>, x: T, priority: T -> int)
    ensures multiset(Insert(q, x, priority)) == multiset(q) + multiset{x}
  {
    if q != [] {
      var k := |q| - 1;
      assert q == q[..k] + [q[k]];
      InsertContents(q[..k], x, priority);
    }
  }

  /** An element already in the queue moves back by at most one place, and only for a strictly more urgent one. */
  lemma {:induction false} InsertMoves<T>(q: seq<T>, x: T, priority: T -> int, at: nat) returns (at': nat)
    requires at < |q|
    ensures at' < |q| + 1 && Insert(q, x, priority)[at'] == q[at]
    ensures at' == at || (at' == at + 1 && priority(q[at]) < priority(x))
  {
    var k := |q| - 1;
    if priority(q[k]) >= priority(x) {
      at' := at;
    } else if at == k {
      at' := at + 1;
    } else {
      at' := InsertMoves(q[..k], x, priority, at);
    }
  }

  function MapSeq<T, U>(q: seq<T>, f: T -> U): (r: seq<U>)
    ensures |r| == |q| && forall i | 0 <= i < |q| :: r[i] == f(q[i])
  {
    seq(|q|, i requires 0 <= i < |q| => f(q[i]))
  }

  /** Bookkeeping carried along with the elements does not influence where they land. */
  lemma {:induction false} InsertMapped<T, U>(q: seq<T>, x: T, f: T -> U, priority: T -> int, priority': U -> int)
    requires forall e: T :: priority(e) == priority'(f(e))
    ensures MapSeq(Insert(q, x, priority), f) == Insert(MapSeq(q, f), f(x), priority')
  {
    if q != [] {
      var k := |q| - 1;
      assert MapSeq(q, f)[..k] == MapSeq(q[..k], f);
      InsertMapped(q[..k], x, f, priority, priority');
    }
  }

  // ---- Runs of the queue ----

  const CAPACITY := 32

  /** A message reduced to its priority, with its number in order of arrival. */
  datatype Item = Item(priority: int, arrival: nat)

  datatype Op = Push(priority: int) | Pop

  /** The queue, the number of arrivals, and everything accepted and popped so far. */
  datatype Run = Run(queue: seq<Item>, arrivals: nat, accepted: seq<Item>, popped: seq<Item>)

  const EMPTY := Run([], 0, [], [])

  function PriorityOf(e: Item): int {
    e.priority
  }

  /** A push on a full queue is refused; a pop on an empty queue does nothing. */
  function Step(r: Run, op: Op): Run {
    match op
    case Push(priority) =>
      if |r.queue| >= CAPACITY then r.(arrivals := r.arrivals + 1)
      else
        var e := Item(priority, r.arrivals);
        Run(Insert(r.queue, e, PriorityOf), r.arrivals + 1, r.accepted + [e], r.popped)
    case Pop =>
      if r.queue == [] then r
      else r.(queue := r.queue[1..], popped := r.popped + [r.queue[0]])
  }

  function RunOf(ops: seq<Op>): Run {
    if ops == [] then EMPTY else Step(RunOf(ops[..|ops| - 1]), ops[|ops| - 1])
  }

  /** `a` is served before `b` when both wait: higher priority first, then earlier arrival. */
  predicate Before(a: Item, b: Item) {
    a.priority > b.priority || (a.priority == b.priority && a.arrival < b.arrival)
  }

  ghost predicate Ordered(q: seq<Item>) {
    forall i, j | 0 <= i < j < |q| :: Before(q[i], q[j])
  }

  /** Whoever was popped ahead of an earlier arrival was strictly more urgent. */
  ghost predicate FairOvertaking(r: Run) {
    (forall i, j | 0 <= i < j < |r.popped| && r.popped[j].arrival < r.popped[i].arrival ::
       r.popped[i].priority > r.popped[j].priority) &&
    (forall x, y | x in r.popped && y in r.queue && y.arrival < x.arrival :: x.priority > y.priority)
  }

  ghost predicate ArrivalsBelow(q: seq<Item>, n: nat) {
    forall e | e in q :: e.arrival < n
  }

  ghost predicate StablePriorityQueue(r: Run) {
    Ordered(r.queue) && |r.queue| <= CAPACITY &&
    ArrivalsBelow(r.queue, r.arrivals) && ArrivalsBelow(r.popped, r.arrivals) &&
    FairOvertaking(r) &&
    multiset(r.accepted) == multiset(r.popped) + multiset(r.queue)
  }

  /** Where a new arrival lands. */
  lemma {:induction false} Landing(q: seq<Item>, e: Item) returns (at: nat)
    requires Ordered(q)
    ensures at <= |q| && Insert(q, e, PriorityOf) == q[..at] + [e] + q[at..]
    ensures forall i | 0 <= i < at :: q[i].priority >= e.priority
    ensures forall i | at <= i < |q| :: q[i].priority < e.priority
  {
    at := |q|;
    while at > 0 && q[at - 1].priority < e.priority
      invariant at <= |q|
      invariant forall i | at <= i < |q| :: q[i].priority < e.priority
    {
      at := at - 1;
    }
    if at > 0 {
      forall i | 0 <= i < at ensures q[i].priority >= e.priority {
        assert i < at - 1 ==> Before(q[i], q[at - 1]);
      }
    }
    InsertAt(q, e, PriorityOf, at);
  }

  lemma OrderedInsert(q: seq<Item>, e: Item)
    requires Ordered(q) && ArrivalsBelow(q, e.arrival)
    ensures Ordered(Insert(q, e, PriorityOf))
  {
    var at := Landing(q, e);
    var r := q[..at] + [e] + q[at..];
    forall i, j | 0 <= i < j < |r| ensures Before(r[i], r[j]) {
      if i == at {
        assert r[j] == q[j - 1];
      } else if j == at {
        assert r[i] == q[i] && q[i] in q;
      } else {
        assert r[i] == q[if i < at then i else i - 1] && r[j] == q[if j < at then j else j - 1];
      }
    }
  }

  lemma InsertMembers<T>(q: seq<T>, x: T, priority: T -> int)
    ensures forall y :: y in Insert(q, x, priority) <==> y in q || y == x
  {
    InsertContents(q, x, priority);
    var r := Insert(q, x, priority);
    assert forall y :: y in r <==> y in multiset(r);
  }

  lemma PushKeeps(r: Run, priority: int)
    requires StablePriorityQueue(r)
    ensures StablePriorityQueue(Step(r, Push(priority)))
  {
    hide Ordered, Insert, Before;
    if |r.queue| < CAPACITY {
      var e := Item(priority, r.arrivals);
      OrderedInsert(r.queue, e);
      InsertContents(r.queue, e, PriorityOf);
      InsertMembers(r.queue, e, PriorityOf);
    }
  }

  lemma RestOrdered(q: seq<Item>)
    requires q != [] && Ordered(q)
    ensures Ordered(q[1..]) && forall y | y in q[1..] :: Before(q[0], y)
  {
    hide Before;
    forall i, j | 0 <= i < j < |q| - 1 ensures Before(q[1..][i], q[1..][j]) {
      assert q[1..][i] == q[i + 1] && q[1..][j] == q[j + 1];
    }
  }

  lemma RestContents(q: seq<Item>)
    requires q != []
    ensures multiset(q) == multiset{q[0]} + multiset(q[1..])
    ensures q[0] in q && forall y | y in q[1..] :: y in q
  {
    assert q == [q[0]] + q[1..];
  }

  lemma PopKeeps(r: Run)
    requires StablePriorityQueue(r)
    ensures StablePriorityQueue(Step(r, Pop))
  {
    hide Ordered;
    if r.queue != [] {
      RestOrdered(r.queue);
      RestContents(r.queue);
    }
  }

  /**
   Over every run: the queue is ordered by priority and, among equals, by arrival; one message overtakes another
   only with strictly higher priority; nothing accepted is lost or duplicated.
   */
  lemma {:induction false} EveryRunIsStable(ops: seq<Op>)
    ensures StablePriorityQueue(RunOf(ops))
  {
    hide Step, StablePriorityQueue;
    if ops == [] {
      EmptyIsStable();
    } else {
      var k := |ops| - 1;
      EveryRunIsStable(ops[..k]);
      match ops[k]
      case Push(priority) => PushKeeps(RunOf(ops[..k]), priority);
      case Pop => PopKeeps(RunOf(ops[..k]));
    }
  }

  lemma EmptyIsStable()
    ensures StablePriorityQueue(EMPTY)
  {
  }

  /** A pop takes the oldest message of the highest priority. */
  lemma PopTakesOldestOfHighest(ops: seq<Op>)
    requires RunOf(ops).queue != []
    ensures var q := RunOf(ops).queue;
      forall e | e in q :: e == q[0] || Before(q[0], e)
  {
    hide RunOf, Before;
    EveryRunIsStable(ops);
  }
}
