/** The bounded priority queue of LCD flash messages: a fixed array shifted in place, and the
    stable priority list it implements. */
module FlashQueue {

  const DEPTH := 16

  /** What a caller asks to show; the payload stands for the rows, the duration and the screen
      to return to, which the queue only carries. */
  datatype Entry<T> = Entry(priority: int, payload: T, valid: bool)

  // ---------------------------------------------------------------- the list

  predicate Descending<T>(q: seq<Entry<T>>) {
    forall i, j :: 0 <= i < j < |q| ==> q[i].priority >= q[j].priority
  }

  /** The first position whose entry has a lower priority. */
  function InsertPosition<T>(q: seq<Entry<T>>, priority: int): (pos: nat)
    ensures pos <= |q|
    ensures forall i :: 0 <= i < pos ==> q[i].priority >= priority
    ensures pos < |q| ==> q[pos].priority < priority
  {
    if |q| == 0 || priority > q[0].priority then 0 else 1 + InsertPosition(q[1..], priority)
  }

  /** The list with `e` put at `pos`; everything from there on moves one place back. */
  function InsertedAt<T>(q: seq<Entry<T>>, pos: nat, e: Entry<T>): (r: seq<Entry<T>>)
    requires pos <= |q|
    ensures |r| == |q| + 1 && r[pos] == e
    ensures forall k :: 0 <= k < pos ==> r[k] == q[k]
    ensures forall k :: pos < k < |r| ==> r[k] == q[k - 1]
  {
    q[..pos] + [e] + q[pos..]
  }

  /** The list with the entry at `pos` taken out. */
  function RemovedAt<T>(q: seq<Entry<T>>, pos: nat): (r: seq<Entry<T>>)
    requires pos < |q|
    ensures |r| == |q| - 1
    ensures forall k :: 0 <= k < pos ==> r[k] == q[k]
    ensures forall k :: pos <= k < |r| ==> r[k] == q[k + 1]
  {
    q[..pos] + q[pos + 1..]
  }

  function Insert<T>(q: seq<Entry<T>>, e: Entry<T>): seq<Entry<T>> {
    InsertedAt(q, InsertPosition(q, e.priority), e)
  }

  function Front<T>(q: seq<Entry<T>>, n: nat): seq<Entry<T>> {
    if |q| <= n then q else q[..n]
  }

  /** A new message on a queue of at most DEPTH. */
  function Offer<T>(q: seq<Entry<T>>, e: Entry<T>): seq<Entry<T>> {
    Front(Insert(q, e), DEPTH)
  }

  function AtLeast<T>(q: seq<Entry<T>>, priority: int): seq<Entry<T>> {
    if |q| == 0 then []
    else if q[0].priority >= priority then [q[0]] + AtLeast(q[1..], priority)
    else AtLeast(q[1..], priority)
  }

  /** The list once positions from i on have been purged. */
  function PurgedFrom<T>(q: seq<Entry<T>>, i: nat, priority: int): (r: seq<Entry<T>>)
    requires i <= |q|
    ensures i == 0 ==> r == AtLeast(q, priority)
    ensures i == |q| ==> r == q[..|q|]
  {
    q[..i] + AtLeast(q[i..], priority)
  }

  lemma PurgeStep<T>(q: seq<Entry<T>>, i: nat, priority: int)
    requires i < |q|
    ensures var p := PurgedFrom(q, i + 1, priority);
            i < |p| && p[i] == q[i]
            && PurgedFrom(q, i, priority) == if q[i].priority < priority then RemovedAt(p, i) else p
  {
    var kept := AtLeast(q[i + 1..], priority);
    assert q[i..][1..] == q[i + 1..];
    assert q[..i + 1] + kept == q[..i] + ([q[i]] + kept);
    assert RemovedAt(q[..i + 1] + kept, i) == q[..i] + kept;
  }

  // ---------------------------------------------------------------- the array

  class Queue<T> {
    const slots: array<Entry<T>>
    var count: nat

    ghost predicate Valid()
      reads this, slots
    {
      slots.Length == DEPTH && count <= DEPTH && Descending(slots[..count])
    }

    function Contents(): seq<Entry<T>>
      reads this, slots
      requires count <= slots.Length
    {
      slots[..count]
    }

    constructor (blank: T)
      ensures Valid() && Contents() == [] && fresh(slots)
    {
      slots := new Entry<T>[DEPTH](_ => Entry(0, blank, false));
      count := 0;
    }

    /** find_insert_pos. */
    method FindInsertPos(priority: int) returns (pos: nat)
      requires slots.Length == DEPTH && count <= DEPTH
      ensures pos == InsertPosition(Contents(), priority)
    {
      pos := 0;
      while pos < count
        invariant pos <= count
        invariant InsertPosition(slots[..count], priority) == pos + InsertPosition(slots[pos..count], priority)
      {
        if priority > slots[pos].priority {
          return;
        }
        assert slots[pos..count][1..] == slots[pos + 1..count];
        pos := pos + 1;
      }
    }

    /** insert_at: shifts the tail one slot to the right. */
    method InsertAt(pos: nat, e: Entry<T>)
      requires slots.Length == DEPTH && count < DEPTH && pos <= count
      modifies this`count, slots
      ensures count == old(count) + 1
      ensures Contents() == InsertedAt(old(Contents()), pos, e)
    {
      ghost var before := Contents();
      var i := count;
      while i > pos
        invariant pos <= i <= count == |before|
        invariant forall k :: 0 <= k < i ==> slots[k] == before[k]
        invariant forall k :: i < k <= count ==> slots[k] == before[k - 1]
      {
        slots[i] := slots[i - 1];
        i := i - 1;
      }
      slots[pos] := e;
      count := count + 1;
      assert forall k :: 0 <= k < count ==> slots[k] == InsertedAt(before, pos, e)[k];
    }

    /** remove_at: closes the gap and marks the vacated slot invalid. */
    method RemoveAt(pos: nat)
      requires slots.Length == DEPTH && count <= DEPTH && pos < count
      modifies this`count, slots
      ensures count == old(count) - 1
      ensures Contents() == RemovedAt(old(Contents()), pos)
    {
      ghost var before := Contents();
      var i := pos;
      while i < count - 1
        invariant pos <= i <= count - 1 && count == |before|
        invariant forall k :: 0 <= k < pos ==> slots[k] == before[k]
        invariant forall k :: pos <= k < i ==> slots[k] == before[k + 1]
        invariant forall k :: i <= k < count ==> slots[k] == before[k]
      {
        slots[i] := slots[i + 1];
        i := i + 1;
      }
      slots[count - 1] := slots[count - 1].(valid := false);
      count := count - 1;
      assert forall k :: 0 <= k < count ==> slots[k] == RemovedAt(before, pos)[k];
    }

    /** find_insert_pos followed by insert_at. */
    method InsertByPriority(e: Entry<T>)
      requires slots.Length == DEPTH && count < DEPTH
      modifies this`count, slots
      ensures count == old(count) + 1 && Contents() == Insert(old(Contents()), e)
    {
      var pos := FindInsertPos(e.priority);
      InsertAt(pos, e);
    }

    /** The queued branch of lcd_flash_enqueue_rows_to. */
    method Enqueue(e: Entry<T>)
      requires Valid()
      modifies this`count, slots
      ensures Valid() && Contents() == Offer(old(Contents()), e)
    {
      ghost var before := Contents();
      InsertKeepsDescending(before, e);
      if count < DEPTH {
        InsertByPriority(e);
      } else if e.priority > slots[count - 1].priority {
        count := count - 1;
        DropTailThenInsert(before, e);
        assert slots[..count] == before[..DEPTH - 1];
        InsertByPriority(e);
      } else {
        RejectedGoesLast(before, e);
      }
    }

    /** The shift of lcd_flash_dequeue: every waiting message moves one slot forward. */
    method DropHead()
      requires slots.Length == DEPTH && 0 < count <= DEPTH
      modifies this`count, slots
      ensures count == old(count) - 1
      ensures Contents() == old(Contents())[1..]
    {
      ghost var before := Contents();
      var i := 0;
      while i < count - 1
        invariant 0 <= i <= count - 1 && count == |before|
        invariant forall k :: 0 <= k < i ==> slots[k] == before[k + 1]
        invariant forall k :: i <= k < count ==> slots[k] == before[k]
      {
        slots[i] := slots[i + 1];
        i := i + 1;
      }
      count := count - 1;
      assert forall k :: 0 <= k < count ==> slots[k] == before[1..][k];
    }

    /** lcd_flash_dequeue. */
    method Dequeue() returns (found: bool, e: Entry<T>)
      requires Valid()
      modifies this`count, slots
      ensures Valid() && found == (old(Contents()) != [])
      ensures found ==> [e] + Contents() == old(Contents())
      ensures !found ==> Contents() == []
    {
      e := slots[0];
      if count == 0 {
        return false, e;
      }
      TailOf(Contents());
      DropHead();
      return true, e;
    }

    /** lcd_flash_queue_purge_below: from the tail to the head. */
    method PurgeBelow(minPriority: int)
      requires Valid()
      modifies this`count, slots
      ensures Valid() && Contents() == AtLeast(old(Contents()), minPriority)
    {
      ghost var before := Contents();
      var i := count;
      assert before[..count] == before;
      while i > 0
        invariant 0 <= i <= count <= DEPTH && i <= |before|
        invariant Contents() == PurgedFrom(before, i, minPriority)
      {
        i := i - 1;
        PurgeStep(before, i, minPriority);
        if slots[i].priority < minPriority {
          RemoveAt(i);
        }
      }
      AtLeastKeepsDescending(before, minPriority);
    }
  }

  // ---------------------------------------------------------------- facts about the list

  lemma TailOf<T>(q: seq<Entry<T>>)
    requires |q| > 0 && Descending(q)
    ensures Descending(q[1..]) && [q[0]] + q[1..] == q
  {
  }

  lemma InsertKeepsDescending<T>(q: seq<Entry<T>>, e: Entry<T>)
    requires Descending(q)
    ensures Descending(Insert(q, e)) && Descending(Offer(q, e))
  {
  }

  /** On a full queue, a message that beats the tail: dropping the tail first gives the same list. */
  lemma DropTailThenInsert<T>(q: seq<Entry<T>>, e: Entry<T>)
    requires Descending(q) && |q| == DEPTH && e.priority > q[DEPTH - 1].priority
    ensures Insert(q[..DEPTH - 1], e) == Offer(q, e)
    ensures Descending(q[..DEPTH - 1])
  {
    var pos, short := InsertPosition(q, e.priority), q[..DEPTH - 1];
    assert pos <= |short| && forall i :: 0 <= i < |short| ==> short[i] == q[i];
    PositionUnique(short, e.priority, pos);
    InsertThenCut(q, pos, e);
  }

  lemma InsertThenCut<T>(q: seq<Entry<T>>, pos: nat, e: Entry<T>)
    requires pos < |q|
    ensures InsertedAt(q[..|q| - 1], pos, e) == InsertedAt(q, pos, e)[..|q|]
  {
  }

  lemma {:induction false} PositionUnique<T>(q: seq<Entry<T>>, priority: int, pos: nat)
    requires pos <= |q| && (forall i :: 0 <= i < pos ==> q[i].priority >= priority)
    requires pos < |q| ==> q[pos].priority < priority
    ensures InsertPosition(q, priority) == pos
    decreases |q|
  {
    if pos > 0 {
      PositionUnique(q[1..], priority, pos - 1);
    }
  }

  lemma RejectedGoesLast<T>(q: seq<Entry<T>>, e: Entry<T>)
    requires Descending(q) && |q| == DEPTH && e.priority <= q[DEPTH - 1].priority
    ensures Offer(q, e) == q
  {
    PositionUnique(q, e.priority, DEPTH);
    assert (q + [e] + [])[..DEPTH] == q;
  }

  lemma {:induction false} AtLeastMembers<T>(q: seq<Entry<T>>, priority: int)
    ensures forall e :: e in AtLeast(q, priority) <==> e in q && e.priority >= priority
    decreases |q|
  {
    if |q| > 0 {
      AtLeastMembers(q[1..], priority);
      assert q == [q[0]] + q[1..];
    }
  }

  lemma {:induction false} AtLeastKeepsDescending<T>(q: seq<Entry<T>>, priority: int)
    requires Descending(q)
    ensures Descending(AtLeast(q, priority))
    ensures |q| > 0 ==> forall i :: 0 <= i < |AtLeast(q, priority)| ==> q[0].priority >= AtLeast(q, priority)[i].priority
    decreases |q|
  {
    if |q| > 1 {
      AtLeastKeepsDescending(q[1..], priority);
    }
  }

  // ---------------------------------------------------------------- enqueues only

  /** The unbounded stable sort: insert the offers one by one, each after its equals. */
  function StableSort<T>(offers: seq<Entry<T>>): seq<Entry<T>>
    decreases |offers|
  {
    if |offers| == 0 then [] else Insert(StableSort(offers[..|offers| - 1]), offers[|offers| - 1])
  }

  /** The queue after these offers, starting empty. */
  function Offered<T>(offers: seq<Entry<T>>): seq<Entry<T>>
    decreases |offers|
  {
    if |offers| == 0 then [] else Offer(Offered(offers[..|offers| - 1]), offers[|offers| - 1])
  }

  lemma {:induction false} SortIsDescending<T>(offers: seq<Entry<T>>)
    ensures Descending(StableSort(offers))
    decreases |offers|
  {
    if |offers| > 0 {
      SortIsDescending(offers[..|offers| - 1]);
      InsertKeepsDescending(StableSort(offers[..|offers| - 1]), offers[|offers| - 1]);
    }
  }

  /** Cutting the list to DEPTH before an insertion loses nothing the cut after it would keep. */
  lemma CutCommutesWithInsert<T>(q: seq<Entry<T>>, e: Entry<T>)
    requires Descending(q)
    ensures Offer(Front(q, DEPTH), e) == Offer(q, e)
  {
    if |q| > DEPTH {
      var pos := InsertPosition(q, e.priority);
      PositionUnique(q[..DEPTH], e.priority, if pos <= DEPTH then pos else DEPTH);
    }
  }

  /** With enqueues only, the waiting queue is the first 16 of the stable sort of everything offered. */
  lemma {:induction false} QueueIsTopOfStableSort<T>(offers: seq<Entry<T>>)
    ensures Offered(offers) == Front(StableSort(offers), DEPTH)
    decreases |offers|
  {
    if |offers| > 0 {
      var front := offers[..|offers| - 1];
      QueueIsTopOfStableSort(front);
      SortIsDescending(front);
      CutCommutesWithInsert(StableSort(front), offers[|offers| - 1]);
    }
  }

  // ---------------------------------------------------------------- order of arrival

  /** With arrival numbers as payload: priority descending, then arrival ascending. */
  predicate Ranked(q: seq<Entry<nat>>) {
    forall i, j :: 0 <= i < j < |q| ==> Outranks(q[i], q[j])
  }

  predicate Outranks(a: Entry<nat>, b: Entry<nat>) {
    a.priority > b.priority || (a.priority == b.priority && a.payload < b.payload)
  }

  predicate OlderThan(q: seq<Entry<nat>>, arrival: nat) {
    forall i :: 0 <= i < |q| ==> q[i].payload < arrival
  }

  lemma InsertKeepsRanked(q: seq<Entry<nat>>, e: Entry<nat>)
    requires Ranked(q) && OlderThan(q, e.payload)
    ensures Ranked(Insert(q, e)) && OlderThan(Insert(q, e), e.payload + 1)
    ensures Ranked(Offer(q, e)) && OlderThan(Offer(q, e), e.payload + 1)
  {
    var pos, full := InsertPosition(q, e.priority), Insert(q, e);
    forall i, j | 0 <= i < j < |full|
      ensures Outranks(full[i], full[j])
    {
      if i != pos && j != pos {
        assert Outranks(q[if i < pos then i else i - 1], q[if j < pos then j else j - 1]);
      } else if i == pos && j > pos + 1 {
        assert Outranks(q[pos], q[j - 1]);
      }
    }
  }

  /** The sort is a permutation in priority order, equal priorities in order of arrival. */
  lemma SortIsStable(offers: seq<Entry<nat>>)
    requires forall i :: 0 <= i < |offers| ==> offers[i].payload == i
    ensures Ranked(StableSort(offers)) && OlderThan(StableSort(offers), |offers|)
    ensures multiset(StableSort(offers)) == multiset(offers)
  {
    SortIsRanked(offers);
    SortIsPermutation(offers);
  }

  lemma {:induction false} SortIsRanked(offers: seq<Entry<nat>>)
    requires forall i :: 0 <= i < |offers| ==> offers[i].payload == i
    ensures Ranked(StableSort(offers)) && OlderThan(StableSort(offers), |offers|)
    decreases |offers|
  {
    if |offers| > 0 {
      var front := offers[..|offers| - 1];
      SortIsRanked(front);
      InsertKeepsRanked(StableSort(front), offers[|offers| - 1]);
    }
  }

  lemma {:induction false} SortIsPermutation<T>(offers: seq<Entry<T>>)
    ensures multiset(StableSort(offers)) == multiset(offers)
    decreases |offers|
  {
    if |offers| > 0 {
      var front, last := offers[..|offers| - 1], offers[|offers| - 1];
      SortIsPermutation(front);
      InsertAdds(StableSort(front), last);
      LastAdds(offers);
    }
  }

  lemma LastAdds<T>(q: seq<T>)
    requires |q| > 0
    ensures multiset(q) == multiset(q[..|q| - 1]) + multiset{q[|q| - 1]}
  {
    assert q == q[..|q| - 1] + [q[|q| - 1]];
  }

  lemma InsertAdds<T>(q: seq<Entry<T>>, e: Entry<T>)
    ensures multiset(Insert(q, e)) == multiset(q) + multiset{e}
  {
    var pos := InsertPosition(q, e.priority);
    assert q == q[..pos] + q[pos..];
  }

  // ---------------------------------------------------------------- any mix of operations

  datatype Op<T> = EnqueueOp(e: Entry<T>) | DequeueOp | PurgeOp(min: int)

  function Apply<T>(q: seq<Entry<T>>, op: Op<T>): seq<Entry<T>> {
    match op
    case EnqueueOp(e) => Offer(q, e)
    case DequeueOp => if |q| == 0 then [] else q[1..]
    case PurgeOp(min) => AtLeast(q, min)
  }

  function After<T>(ops: seq<Op<T>>): seq<Entry<T>>
    decreases |ops|
  {
    if |ops| == 0 then [] else Apply(After(ops[..|ops| - 1]), ops[|ops| - 1])
  }

  lemma {:induction false} FilterKeepsRanked(q: seq<Entry<nat>>, min: int, arrival: nat)
    requires Ranked(q) && OlderThan(q, arrival)
    ensures Ranked(AtLeast(q, min)) && OlderThan(AtLeast(q, min), arrival) && |AtLeast(q, min)| <= |q|
    decreases |q|
  {
    if |q| > 0 {
      FilterKeepsRanked(q[1..], min, arrival);
      AtLeastMembers(q[1..], min);
      var rest := AtLeast(q[1..], min);
      forall i | 0 <= i < |rest|
        ensures Outranks(q[0], rest[i])
      {
        assert rest[i] in q[1..];
      }
    }
  }

  /** In every run of enqueues, dequeues and purges the queue holds at most 16 messages, ranked
      by priority and then age. */
  lemma {:induction false} EveryRunIsRanked(ops: seq<Op<nat>>)
    requires forall i :: 0 <= i < |ops| && ops[i].EnqueueOp? ==> ops[i].e.payload == i
    ensures Ranked(After(ops)) && OlderThan(After(ops), |ops|) && |After(ops)| <= DEPTH
    decreases |ops|
  {
    if |ops| > 0 {
      var front, last := ops[..|ops| - 1], ops[|ops| - 1];
      EveryRunIsRanked(front);
      match last
      case EnqueueOp(e) => InsertKeepsRanked(After(front), e);
      case DequeueOp =>
      case PurgeOp(min) => FilterKeepsRanked(After(front), min, |front|);
    }
  }

  /** So a dequeue yields the oldest message of the highest priority waiting. */
  lemma DequeueYieldsOldestOfHighest(ops: seq<Op<nat>>, e: Entry<nat>)
    requires forall i :: 0 <= i < |ops| && ops[i].EnqueueOp? ==> ops[i].e.payload == i
    requires e in After(ops)
    ensures e == After(ops)[0] || Outranks(After(ops)[0], e)
  {
    EveryRunIsRanked(ops);
  }
}
