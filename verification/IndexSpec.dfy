/** What the index array of the message queue means, without saying how it is updated.

    The index is read as a rotation: starting from the first queued pointer and going round, the
    first num pointers are the queued slots in ascending priority and the rest is the free list.
    The linear build is the rotation that starts at cell 0. */
module IndexSpec {
  import opened Basics
  import opened PriorityQueue

  /** A preallocated message: header fields and a data buffer of the queue's maximum size. */
  datatype Slot = Slot(len: nat, priority: nat, data: seq<Byte>)

  // ----- Rotations -----

  /** The array cell that holds the i-th pointer counted from the first queued one. */
  function Cell(n: nat, first: nat, i: nat): (c: nat)
    requires first < n && i <= n
    ensures c < n
  {
    if first + i < n then first + i else first + i - n
  }

  /** The start cell one place before the given one, going round. */
  function Pred(n: nat, first: nat): (c: nat)
    requires first < n
    ensures c < n
  {
    if first == 0 then n - 1 else first - 1
  }

  function Rotation(index: seq<nat>, first: nat): (r: seq<nat>)
    requires first < |index|
    ensures |r| == |index|
    ensures forall i {:trigger r[i]} :: 0 <= i < |index| ==> r[i] == index[Cell(|index|, first, i)]
  {
    seq(|index|, i requires 0 <= i < |index| => index[Cell(|index|, first, i)])
  }

  // ----- Well-formed queue states -----

  ghost predicate Distinct(r: seq<nat>) {
    forall i, j :: 0 <= i < j < |r| ==> r[i] != r[j]
  }

  ghost predicate InRange(r: seq<nat>, n: nat) {
    forall i :: 0 <= i < |r| ==> r[i] < n
  }

  ghost predicate SlotsFit(slots: seq<Slot>, maxSize: nat) {
    forall s :: 0 <= s < |slots| ==> |slots[s].data| == maxSize && slots[s].len <= maxSize
  }

  ghost predicate SortedByPriority(r: seq<nat>, num: nat, slots: seq<Slot>)
    requires num <= |r| && InRange(r, |slots|)
  {
    forall i, j :: 0 <= i < j < num ==> slots[r[i]].priority <= slots[r[j]].priority
  }

  ghost predicate FreeSlotsClean(r: seq<nat>, num: nat, slots: seq<Slot>)
    requires num <= |r| && InRange(r, |slots|)
  {
    forall i :: num <= i < |r| ==> slots[r[i]].len == 0 && slots[r[i]].priority == 0
  }

  ghost predicate WellFormed(r: seq<nat>, num: nat, slots: seq<Slot>, maxSize: nat) {
    && 0 < |r| == |slots|
    && num <= |r|
    && InRange(r, |slots|)
    && Distinct(r)
    && SlotsFit(slots, maxSize)
    && SortedByPriority(r, num, slots)
    && FreeSlotsClean(r, num, slots)
  }

  function MessageIn(s: Slot): Message
    requires s.len <= |s.data|
  {
    Message(s.data[..s.len], s.priority)
  }

  /** The queue a well-formed state stands for. */
  ghost function Contents(r: seq<nat>, num: nat, slots: seq<Slot>): (q: seq<Message>)
    requires num <= |r| && InRange(r, |slots|)
    requires forall s :: 0 <= s < |slots| ==> slots[s].len <= |slots[s].data|
    ensures |q| == num
    ensures forall i :: 0 <= i < num ==> q[i] == MessageIn(slots[r[i]])
  {
    seq(num, i requires 0 <= i < num => MessageIn(slots[r[i]]))
  }

  // ----- A permutation of the preallocated slots -----

  lemma {:induction false} DistinctBound(r: seq<nat>, n: nat, missing: nat)
    requires Distinct(r) && InRange(r, n) && missing < n && missing !in r
    ensures |r| < n
    decreases n
  {
    // Rename the largest slot to the missing one and drop it from the range.
    var last := n - 1;
    if missing == last {
      if r != [] {
        assert forall i :: 0 <= i < |r| ==> r[i] != last;
        assert InRange(r, n - 1);
        if n - 1 > 0 {
          if |r| >= n {
            var t := r[1..];
            assert r[0] !in t;
            DistinctBound(t, n - 1, r[0]);
          }
        }
      }
    } else if i :| 0 <= i < |r| && r[i] == last {
      var t := r[..i] + r[i + 1..];
      assert forall j :: 0 <= j < |t| ==> t[j] == if j < i then r[j] else r[j + 1];
      DistinctBound(t, n - 1, missing);
    } else {
      assert forall j :: 0 <= j < |r| ==> r[j] != last;
      DistinctBound(r, n - 1, missing);
    }
  }

  /** In a well-formed state every preallocated slot is in exactly one cell of the index: none is lost,
      duplicated, or both queued and free. */
  lemma EverySlotOnce(r: seq<nat>, num: nat, slots: seq<Slot>, maxSize: nat, s: nat)
    requires WellFormed(r, num, slots, maxSize) && s < |slots|
    ensures exists i :: 0 <= i < |r| && r[i] == s && forall j :: 0 <= j < |r| && r[j] == s ==> j == i
  {
    if s !in r {
      DistinctBound(r, |slots|, s);
      assert false;
    }
    var i :| 0 <= i < |r| && r[i] == s;
    assert forall j :: 0 <= j < |r| && r[j] == s ==> j == i;
  }

  // ----- Insertion -----

  /** Pull the free pointer just before the first queued one into position k. */
  function FrontInsert(r: seq<nat>, k: nat): (r': seq<nat>)
    requires k < |r|
    ensures |r'| == |r|
    ensures forall i :: 0 <= i < |r| ==> r'[i] == if i < k then r[i] else if i == k then r[|r| - 1] else r[i - 1]
  {
    r[..k] + [r[|r| - 1]] + r[k..|r| - 1]
  }

  /** Pull the free pointer just after the last queued one into position k. */
  function BackInsert(r: seq<nat>, num: nat, k: nat): (r': seq<nat>)
    requires k <= num < |r|
    ensures |r'| == |r|
    ensures forall i :: 0 <= i < |r| ==>
              r'[i] == if i < k || num < i then r[i] else if i == k then r[num] else r[i - 1]
  {
    r[..k] + [r[num]] + r[k..num] + r[num + 1..]
  }

  /** The circular build takes the cheaper side. */
  function CircularInsert(r: seq<nat>, num: nat, k: nat): (r': seq<nat>)
    requires k <= num < |r|
    ensures |r'| == |r|
  {
    if k == 0 || k < num / 2 then FrontInsert(r, k) else BackInsert(r, num, k)
  }

  ghost predicate Inserts(r: seq<nat>, num: nat, k: nat, r': seq<nat>)
    requires k <= num < |r|
  {
    r' == FrontInsert(r, k) || r' == BackInsert(r, num, k)
  }

  /** Where the pointer at position i of the new index came from. */
  function Origin(n: nat, num: nat, k: nat, front: bool, i: nat): (o: nat)
    requires k <= num < n && i < n
    ensures o < n
  {
    if i < k || (!front && num < i) then i
    else if i == k then (if front then n - 1 else num)
    else i - 1
  }

  lemma InsertsOrigin(r: seq<nat>, num: nat, k: nat, r': seq<nat>) returns (front: bool)
    requires k <= num < |r| && Inserts(r, num, k, r')
    ensures |r'| == |r|
    ensures forall i :: 0 <= i < |r| ==> r'[i] == r[Origin(|r|, num, k, front, i)]
  {
    front := r' == FrontInsert(r, k);
  }

  /** An insertion only rearranges the pointers: they stay distinct and in range, the queued ones keep
      their order around position k, and whatever is at k or free came from the free list. */
  lemma InsertsRearranges(r: seq<nat>, num: nat, k: nat, r': seq<nat>, n: nat)
    requires k <= num < |r| && Inserts(r, num, k, r')
    requires Distinct(r) && InRange(r, n)
    ensures |r'| == |r|
    ensures Distinct(r') && InRange(r', n)
    ensures forall i :: 0 <= i < k ==> r'[i] == r[i]
    ensures forall i :: k < i <= num ==> r'[i] == r[i - 1]
    ensures forall i :: 0 <= i < |r| && (i == k || num < i) ==> r'[i] in r[num..]
  {
    var front := InsertsOrigin(r, num, k, r');
    forall i, j | 0 <= i < j < |r'| ensures r'[i] != r'[j] {
      var a, b := Origin(|r|, num, k, front, i), Origin(|r|, num, k, front, j);
      assert a < b || b < a;
    }
    forall i | 0 <= i < |r| && (i == k || num < i) ensures r'[i] in r[num..] {
      var a := Origin(|r|, num, k, front, i);
      assert r[num..][a - num] == r[a];
    }
  }

  function Filled(slot: Slot, m: Message): (s: Slot)
    requires |m.payload| <= |slot.data|
    ensures |s.data| == |slot.data| && s.len <= |s.data|
    ensures MessageIn(s) == m
  {
    Slot(|m.payload|, m.priority, m.payload + slot.data[|m.payload|..])
  }

  lemma FreeIsClean(r: seq<nat>, num: nat, slots: seq<Slot>, s: nat)
    requires num <= |r| && InRange(r, |slots|) && FreeSlotsClean(r, num, slots)
    requires s in r[num..]
    ensures s < |slots| && slots[s].len == 0 && slots[s].priority == 0
  {
  }

  /** The state after a send: the index r' takes a free slot in at the lower bound and that slot's
      header and data are written.  The slot was clean, the state stays well-formed, and the queue it
      stands for has the message enqueued. */
  lemma SendRefines(r: seq<nat>, num: nat, slots: seq<Slot>, maxSize: nat, m: Message, k: nat, r': seq<nat>)
    requires WellFormed(r, num, slots, maxSize) && num < |r| && |m.payload| <= maxSize
    requires k == LowerBound(Priorities(Contents(r, num, slots)), m.priority)
    requires Inserts(r, num, k, r')
    ensures r'[k] < |slots|
    ensures slots[r'[k]].len == 0 && slots[r'[k]].priority == 0
    ensures var slots' := slots[r'[k] := Filled(slots[r'[k]], m)];
            && WellFormed(r', num + 1, slots', maxSize)
            && Contents(r', num + 1, slots') == Enqueue(Contents(r, num, slots), m)
  {
    InsertsRearranges(r, num, k, r', |slots|);
    var s := r'[k];
    FreeIsClean(r, num, slots, s);
    var slots' := slots[s := Filled(slots[s], m)];
    assert SlotsFit(slots', maxSize);
    assert FreeSlotsClean(r', num + 1, slots') by {
      forall i | num + 1 <= i < |r'| ensures slots'[r'[i]].len == 0 && slots'[r'[i]].priority == 0 {
        FreeIsClean(r, num, slots, r'[i]);
        assert r'[k] != r'[i];
      }
    }
    SendContents(r, num, slots, m, k, r', slots');
    var q, q' := Contents(r, num, slots), Contents(r', num + 1, slots');
    ContentsAscend(r, num, slots);
    EnqueueAscending(q, m);
    AscendSorted(r', num + 1, slots');
  }

  lemma SendContents(r: seq<nat>, num: nat, slots: seq<Slot>, m: Message, k: nat, r': seq<nat>, slots': seq<Slot>)
    requires |r'| == |r| && k <= num < |r| && InRange(r, |slots|) && InRange(r', |slots|) && Distinct(r')
    requires forall s :: 0 <= s < |slots| ==> slots[s].len <= |slots[s].data|
    requires |m.payload| <= |slots[r'[k]].data| && slots' == slots[r'[k] := Filled(slots[r'[k]], m)]
    requires forall i :: 0 <= i < k ==> r'[i] == r[i]
    requires forall i :: k < i <= num ==> r'[i] == r[i - 1]
    ensures Contents(r', num + 1, slots') == InsertAt(Contents(r, num, slots), k, m)
  {
  }

  lemma ContentsAscend(r: seq<nat>, num: nat, slots: seq<Slot>)
    requires num <= |r| && InRange(r, |slots|) && SortedByPriority(r, num, slots)
    requires forall s :: 0 <= s < |slots| ==> slots[s].len <= |slots[s].data|
    ensures Ascending(Priorities(Contents(r, num, slots)))
  {
  }

  lemma AscendSorted(r: seq<nat>, num: nat, slots: seq<Slot>)
    requires num <= |r| && InRange(r, |slots|)
    requires forall s :: 0 <= s < |slots| ==> slots[s].len <= |slots[s].data|
    requires Ascending(Priorities(Contents(r, num, slots)))
    ensures SortedByPriority(r, num, slots)
  {
  }

  // ----- Searching the cells -----

  /** How far cell c is from the first queued pointer, going round. */
  function Offset(n: nat, first: nat, c: nat): (i: nat)
    requires first < n && c < n
    ensures i < n && Cell(n, first, i) == c
  {
    if first <= c then c - first else c + n - first
  }

  /** Sortedness of the queued pointers, said of the cells: inside each of the two stretches of the array
      the priorities ascend. */
  ghost predicate CellsAscend(index: seq<nat>, first: nat, num: nat, slots: seq<Slot>)
    requires first < |index|
  {
    && InRange(index, |slots|)
    && forall c, d :: 0 <= c < d < |index| && (first <= c || d < first) && Offset(|index|, first, d) < num ==>
         slots[index[c]].priority <= slots[index[d]].priority
  }

  /** The queued pointers before cell p have lower priority and the one in it does not. */
  ghost predicate SplitsAt(index: seq<nat>, first: nat, num: nat, slots: seq<Slot>, priority: nat, p: nat)
    requires first < |index| && InRange(index, |slots|)
  {
    && p < |index|
    && 0 < Offset(|index|, first, p) < num
    && priority <= slots[index[p]].priority
    && forall c :: 0 <= c < |index| && Offset(|index|, first, c) < Offset(|index|, first, p) ==>
         slots[index[c]].priority < priority
  }

  lemma WellFormedCells(index: seq<nat>, first: nat, num: nat, slots: seq<Slot>, maxSize: nat)
    requires first < |index| && WellFormed(Rotation(index, first), num, slots, maxSize)
    ensures CellsAscend(index, first, num, slots)
  {
    var r := Rotation(index, first);
    forall c | 0 <= c < |index| ensures index[c] == r[Offset(|index|, first, c)] {
    }
  }

  /** Such a cell is the least-position search's answer over the unrolled queue. */
  lemma SplitIsLowerBound(index: seq<nat>, first: nat, num: nat, slots: seq<Slot>, maxSize: nat, priority: nat, p: nat)
    requires first < |index| && WellFormed(Rotation(index, first), num, slots, maxSize)
    requires InRange(index, |slots|) && SplitsAt(index, first, num, slots, priority, p)
    ensures LowerBound(Priorities(Contents(Rotation(index, first), num, slots)), priority) == Offset(|index|, first, p)
  {
    var r := Rotation(index, first);
    var q := Contents(r, num, slots);
    var k := Offset(|index|, first, p);
    forall i | 0 <= i < k ensures Priorities(q)[i] < priority {
      assert r[i] == index[Cell(|index|, first, i)];
    }
    assert r[k] == index[p];
    LowerBoundUnique(Priorities(q), priority, k);
  }

  /** The two cases in which queue_free_msg does not search. */
  lemma NotAboveBottom(r: seq<nat>, num: nat, slots: seq<Slot>, maxSize: nat, priority: nat)
    requires WellFormed(r, num, slots, maxSize)
    requires num == 0 || priority <= slots[r[0]].priority
    ensures LowerBound(Priorities(Contents(r, num, slots)), priority) == 0
  {
  }

  lemma AboveTop(r: seq<nat>, num: nat, slots: seq<Slot>, maxSize: nat, priority: nat)
    requires WellFormed(r, num, slots, maxSize) && 0 < num
    requires slots[r[num - 1]].priority < priority
    ensures LowerBound(Priorities(Contents(r, num, slots)), priority) == num
  {
  }

  // ----- Removal -----

  /** The state after a receive: the top slot's header is cleared and it becomes the first free one. */
  lemma ReceiveRefines(r: seq<nat>, num: nat, slots: seq<Slot>, maxSize: nat)
    requires WellFormed(r, num, slots, maxSize) && 0 < num
    ensures var s := r[num - 1];
            var slots' := slots[s := slots[s].(len := 0, priority := 0)];
            && WellFormed(r, num - 1, slots', maxSize)
            && Contents(r, num - 1, slots') == Dequeue(Contents(r, num, slots))
            && MessageIn(slots[s]) == Top(Contents(r, num, slots))
            && slots[s].len <= maxSize
  {
  }

  // ----- Cost of a circular insertion -----

  /** Positions (counted from the first queued pointer) whose cell holds another pointer afterwards. */
  function Disturbed(before: seq<nat>, after: seq<nat>, first: nat, lo: nat, hi: nat): set<nat>
    requires first < |before| == |after| && hi <= |before|
  {
    set i: nat | lo <= i < hi && after[Cell(|before|, first, i)] != before[Cell(|before|, first, i)]
  }

  lemma {:induction false} RangeSize(s: set<nat>, lo: nat, hi: nat)
    requires lo <= hi && forall i :: i in s ==> lo <= i < hi
    ensures |s| <= hi - lo
    decreases hi - lo
  {
    if lo < hi {
      RangeSize(s - {hi - 1}, lo, hi - 1);
    } else {
      assert s == {};
    }
  }

  /** A circular insertion among num queued pointers moves at most half of them (rounded up) and
      leaves every free pointer where it was except the one it takes. */
  lemma CircularInsertCost(before: seq<nat>, after: seq<nat>, first: nat, first': nat, num: nat, k: nat)
    requires first < |before| == |after| && first' < |after| && k <= num < |before|
    requires Rotation(after, first') == CircularInsert(Rotation(before, first), num, k)
    requires first' == if k == 0 || k < num / 2 then Pred(|before|, first) else first
    ensures |Disturbed(before, after, first, 0, num)| <= (num + 1) / 2
    ensures forall i :: i in Disturbed(before, after, first, num, |before|) ==>
              before[Cell(|before|, first, i)] == Rotation(after, first')[k]
  {
    if k == 0 || k < num / 2 {
      FrontInsertCost(before, after, first, first', num, k);
    } else {
      BackInsertCost(before, after, first, num, k);
    }
  }

  lemma FrontInsertCost(before: seq<nat>, after: seq<nat>, first: nat, first': nat, num: nat, k: nat)
    requires first < |before| == |after| && k <= num < |before|
    requires first' == Pred(|before|, first)
    requires Rotation(after, first') == FrontInsert(Rotation(before, first), k)
    ensures |Disturbed(before, after, first, 0, num)| <= k
    ensures forall i :: i in Disturbed(before, after, first, num, |before|) ==>
              before[Cell(|before|, first, i)] == Rotation(after, first')[k]
  {
    var n := |before|;
    forall i | k <= i < n - 1 ensures after[Cell(n, first, i)] == before[Cell(n, first, i)] {
      assert Rotation(after, first')[i + 1] == Rotation(before, first)[i];
    }
    RangeSize(Disturbed(before, after, first, 0, num), 0, k);
  }

  lemma BackInsertCost(before: seq<nat>, after: seq<nat>, first: nat, num: nat, k: nat)
    requires first < |before| == |after| && k <= num < |before|
    requires Rotation(after, first) == BackInsert(Rotation(before, first), num, k)
    ensures |Disturbed(before, after, first, 0, num)| <= num - k
    ensures forall i :: i in Disturbed(before, after, first, num, |before|) ==>
              before[Cell(|before|, first, i)] == Rotation(after, first)[k]
  {
    var n := |before|;
    forall i | 0 <= i < n && (i < k || num < i) ensures after[Cell(n, first, i)] == before[Cell(n, first, i)] {
      assert Rotation(after, first)[i] == Rotation(before, first)[i];
    }
    RangeSize(Disturbed(before, after, first, 0, num), k, num);
  }
}
