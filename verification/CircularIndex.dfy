/** The circular-index build of mq_hdr_t: a moving first cell, a binary search split over the wrap, and
    an insertion that shifts towards the cheaper side in one or two segments. */
module CircularIndex {
  import opened Basics
  import opened PriorityQueue
  import opened IndexSpec
  import opened ArrayOps
  import opened Protocol

  // ----- What the shifts do to the array, cell by cell -----

  /** The cell whose old pointer ends up in cell c after a back shift: every cell after position k up to the
      free one after the last queued takes its neighbour's, and position k takes the free one. */
  function BackShiftSource(n: nat, first: nat, num: nat, k: nat, c: nat): (d: nat)
    requires first < n && k <= num < n && c < n
    ensures d < n
  {
    var i := Offset(n, first, c);
    if i < k || num < i then c else if i == k then Cell(n, first, num) else Pred(n, c)
  }

  lemma BackShiftMeaning(before: seq<nat>, after: seq<nat>, first: nat, num: nat, k: nat)
    requires first < |before| == |after| && k <= num < |before|
    requires forall c {:trigger after[c]} :: 0 <= c < |before| ==>
               after[c] == before[BackShiftSource(|before|, first, num, k, c)]
    ensures Rotation(after, first) == BackInsert(Rotation(before, first), num, k)
  {
    var n := |before|;
    var r, r' := Rotation(before, first), Rotation(after, first);
    forall j | 0 <= j < n ensures r'[j] == BackInsert(r, num, k)[j] {
      var c := Cell(n, first, j);
      assert r'[j] == after[c];
      assert j > 0 ==> Pred(n, c) == Cell(n, first, j - 1);
    }
  }

  /** The cell whose old pointer ends up in cell c when a front shift stays inside one stretch of the
      array. */
  function OneSegmentSource(first: nat, pos: nat, c: nat): (d: nat)
    requires 0 < first < pos
  {
    if first - 1 <= c < pos - 1 then c + 1 else if c == pos - 1 then first - 1 else c
  }

  /** The same when the shift crosses the array boundary. */
  function TwoSegmentSource(n: nat, first: nat, pos: nat, c: nat): (d: nat)
    requires first < n && 0 < pos && c < n
  {
    if c < pos - 1 then c + 1
    else if c == pos - 1 then Pred(n, first)
    else if c == n - 1 then 0
    else if 0 < first && first - 1 <= c then c + 1
    else c
  }

  lemma FrontShiftOneSegment(before: seq<nat>, after: seq<nat>, first: nat, pos: nat, k: nat)
    requires 0 < first < |before| == |after| && first + k == pos <= |before| && 0 < k
    requires forall c {:trigger after[c]} :: 0 <= c < |before| ==> after[c] == before[OneSegmentSource(first, pos, c)]
    ensures Rotation(after, Pred(|before|, first)) == FrontInsert(Rotation(before, first), k)
  {
  }

  lemma FrontShiftTwoSegments(before: seq<nat>, after: seq<nat>, first: nat, pos: nat, k: nat)
    requires first < |before| == |after| && 0 < k < |before| && 0 < pos < |before|
    requires if first == 0 then pos == k else pos == first + k - |before|
    requires forall c {:trigger after[c]} :: 0 <= c < |before| ==>
               after[c] == before[TwoSegmentSource(|before|, first, pos, c)]
    ensures Rotation(after, Pred(|before|, first)) == FrontInsert(Rotation(before, first), k)
  {
  }

  /** Moves the stretch [beg, end) one cell back and puts the backup in the hole this leaves. */
  method CloseUp(index: array<nat>, beg: nat, end: nat, backup: nat)
    requires 0 < beg <= end <= index.Length
    modifies index
    ensures index[end - 1] == backup
    ensures forall c {:trigger index[c]} :: beg - 1 <= c < end - 1 ==> index[c] == old(index[c + 1])
    ensures forall c {:trigger index[c]} :: 0 <= c < beg - 1 || end <= c < index.Length ==> index[c] == old(index[c])
  {
    Copy(index, beg, end, beg - 1);
    index[end - 1] := backup;
  }

  /** The front shift when the pointers to move lie in one stretch: [first, pos). */
  method ShiftFrontOneSegment(index: array<nat>, first: nat, pos: nat)
    requires 0 < first < pos <= index.Length
    modifies index
    ensures forall c {:trigger index[c]} :: 0 <= c < index.Length ==>
              index[c] == old(index[..])[OneSegmentSource(first, pos, c)]
  {
    CloseUp(index, first, pos, index[first - 1]);
  }

  /** First half of a front shift over the boundary: the stretch [beg, n) at the end of the array moves
      back and the pointer in cell 0 goes round to the last cell. */
  method ShiftEndSegment(index: array<nat>, beg: nat)
    requires 1 < beg <= index.Length
    modifies index
    ensures forall c {:trigger index[c]} :: 0 <= c < index.Length ==>
              index[c] == old(index[..])[if c == index.Length - 1 then 0 else if beg - 1 <= c then c + 1 else c]
  {
    Copy(index, beg, index.Length, beg - 1);
    index[index.Length - 1] := index[0];
  }

  /** The front shift over the boundary; the stretch at the end is empty when the queue starts at
      cell 0. */
  method ShiftFrontTwoSegments(index: array<nat>, first: nat, pos: nat)
    requires first < index.Length && 0 < pos < index.Length && (first == 0 || pos < first)
    modifies index
    ensures forall c {:trigger index[c]} :: 0 <= c < index.Length ==>
              index[c] == old(index[..])[TwoSegmentSource(index.Length, first, pos, c)]
  {
    var secondSegmentBeg := if first == 0 then index.Length else first;
    var backup := index[secondSegmentBeg - 1];
    ShiftEndSegment(index, secondSegmentBeg);
    CloseUp(index, 1, pos, backup);
  }

  /** Shift the pointers before position k one place towards the front; returns the cell that becomes
      position k. */
  method ShiftFront(index: array<nat>, first: nat, where: nat, ghost k: nat) returns (hole: nat)
    requires first < index.Length && 0 < k < index.Length && where == Cell(index.Length, first, k)
    modifies index
    ensures hole < index.Length
    ensures Rotation(index[..], Pred(index.Length, first)) == FrontInsert(old(Rotation(index[..], first)), k)
    ensures hole == Cell(index.Length, Pred(index.Length, first), k)
  {
    ghost var before := index[..];
    var pos := where;
    if pos == 0 {
      pos := index.Length;
      hole := index.Length - 1;
    } else {
      hole := pos - 1;
    }
    if first != 0 && first <= pos {
      ShiftFrontOneSegment(index, first, pos);
      FrontShiftOneSegment(before, index[..], first, pos, k);
    } else {
      ShiftFrontTwoSegments(index, first, pos);
      FrontShiftTwoSegments(before, index[..], first, pos, k);
    }
  }

  /** Moves the stretch [beg, end) one cell on and puts the backup in the hole this leaves. */
  method OpenUp(index: array<nat>, beg: nat, end: nat, backup: nat)
    requires beg <= end < index.Length
    modifies index
    ensures index[beg] == backup
    ensures forall c {:trigger index[c]} :: beg < c <= end ==> index[c] == old(index[c - 1])
    ensures forall c {:trigger index[c]} :: 0 <= c < beg || end < c < index.Length ==> index[c] == old(index[c])
  {
    CopyBackward(index, beg, end, end + 1);
    index[beg] := backup;
  }

  /** Shift the pointers from position k on one place towards the back: in one stretch, or first the stretch
      at the beginning of the array, then the pointer that goes round, then the stretch at the end. */
  method ShiftBack(index: array<nat>, first: nat, num: nat, posEnd: nat, pos: nat, ghost k: nat)
    requires first < index.Length && 0 < k < num < index.Length
    requires pos == Cell(index.Length, first, k) && posEnd == Cell(index.Length, first, num)
    modifies index
    ensures Rotation(index[..], first) == BackInsert(old(Rotation(index[..], first)), num, k)
  {
    ghost var before := index[..];
    var backup := index[posEnd];
    if pos < posEnd {
      OpenUp(index, pos, posEnd, backup);
    } else {
      var last := index[index.Length - 1];
      OpenUp(index, 0, posEnd, last);
      OpenUp(index, pos, index.Length - 1, backup);
    }
    BackShiftMeaning(before, index[..], first, num, k);
  }

  /** The binary search when the queued pointers go round the end of the array: the stretch at the end
      first, then the one at the beginning.  The guards make both sanity checks hold. */
  method WrappedSearch(index: array<nat>, slots: array<Slot>, first: nat, num: nat, end: nat, priority: nat)
    returns (where: nat)
    requires first < index.Length && 0 < num < index.Length && end == Cell(index.Length, first, num) && end < first
    requires CellsAscend(index[..], first, num, slots[..])
    requires slots[index[first]].priority < priority
    requires priority <= slots[index[Cell(index.Length, first, num - 1)]].priority
    ensures SplitsAt(index[..], first, num, slots[..], priority, where)
  {
    where := LowerBoundCells(index, slots, first, index.Length, priority);
    if where == index.Length {
      where := LowerBoundCells(index, slots, 0, end, priority);
      assert where != end;
      assert where != first;
    }
  }

  /** lower_bound on the bare array.  The cells from first to end, going round, ascend, and the guards say
      the priority lies above the bottom and not above the top. */
  method SplitSearch(index: array<nat>, slots: array<Slot>, first: nat, num: nat, end: nat, priority: nat)
    returns (where: nat)
    requires first < index.Length && 0 < num < index.Length && end == Cell(index.Length, first, num)
    requires CellsAscend(index[..], first, num, slots[..])
    requires slots[index[first]].priority < priority
    requires priority <= slots[index[Cell(index.Length, first, num - 1)]].priority
    ensures SplitsAt(index[..], first, num, slots[..], priority, where)
  {
    if end < first {
      where := WrappedSearch(index, slots, first, num, end, priority);
    } else {
      where := LowerBoundCells(index, slots, first, end, priority);
    }
  }

  lemma InsertAtEnd(r: seq<nat>, num: nat)
    requires num < |r|
    ensures BackInsert(r, num, num) == r
  {
  }

  lemma StepBack(index: seq<nat>, first: nat)
    requires first < |index|
    ensures Rotation(index, Pred(|index|, first)) == FrontInsert(Rotation(index, first), 0)
  {
  }

  /** insert_at on the bare index: takes a free slot in at position k, from the cheaper side, and returns
      the new first cell and the slot taken.  At most half of the queued pointers move, and of the free
      ones only the one taken. */
  method InsertPointer(index: array<nat>, first: nat, num: nat, end: nat, where: nat, ghost k: nat)
    returns (first': nat, slot: nat)
    requires first < index.Length && k <= num < index.Length
    requires where == Cell(index.Length, first, k) && end == Cell(index.Length, first, num)
    modifies index
    ensures first' == if k == 0 || k < num / 2 then Pred(index.Length, first) else first
    ensures Rotation(index[..], first') == CircularInsert(old(Rotation(index[..], first)), num, k)
    ensures slot == Rotation(index[..], first')[k]
    ensures |Disturbed(old(index[..]), index[..], first, 0, num)| <= (num + 1) / 2
    ensures forall i :: i in Disturbed(old(index[..]), index[..], first, num, index.Length) ==>
              old(index[..])[Cell(index.Length, first, i)] == slot
  {
    ghost var before := index[..];
    if where == first {
      StepBack(index[..], first);
      first' := if first != 0 then first else index.Length;
      first' := first' - 1;
      slot := index[first'];
    } else if where == end {
      InsertAtEnd(Rotation(index[..], first), num);
      first' := first;
      slot := index[end];
    } else {
      var circPos := if where >= first then where - first else where + (index.Length - first);
      if circPos < num / 2 {
        var hole := ShiftFront(index, first, where, k);
        first' := if first != 0 then first else index.Length;
        first' := first' - 1;
        slot := index[hole];
      } else {
        ShiftBack(index, first, num, end, where, k);
        first' := first;
        slot := index[where];
      }
    }
    CircularInsertCost(before, index[..], first, first', num, k);
  }

  /** mq_hdr_t with a circular index, the message slots it manages and the counters of blocked callers.
      A fresh segment is zero-filled. */
  class CircularQueue {
    const index: array<nat>
    const slots: array<Slot>
    const maxNum: nat
    const maxSize: nat
    var first: nat
    var num: nat
    var blockedSenders: nat
    var blockedReceivers: nat

    ghost predicate Valid()
      reads this, index, slots
    {
      && index.Length == slots.Length == maxNum
      && if maxNum == 0 then first == num == 0
         else first < maxNum && WellFormed(Rotation(index[..], first), num, slots[..], maxSize)
    }

    /** All slot pointers, starting from the first queued one. */
    ghost function Pointers(): seq<nat>
      reads this, index, slots
      requires Valid() && 0 < maxNum
    {
      Rotation(index[..], first)
    }

    ghost function Queue(): (q: seq<Message>)
      reads this, index, slots
      requires Valid()
      ensures |q| == num
    {
      if maxNum == 0 then [] else Contents(Pointers(), num, slots[..])
    }

    constructor (maxNum: nat, maxSize: nat)
      ensures Valid() && fresh(index) && fresh(slots)
      ensures this.maxNum == maxNum && this.maxSize == maxSize
      ensures Queue() == [] && blockedSenders == 0 && blockedReceivers == 0
    {
      this.maxNum, this.maxSize := maxNum, maxSize;
      first, num, blockedSenders, blockedReceivers := 0, 0, 0, 0;
      var pointers := new nat[maxNum];
      var i := 0;
      while i < maxNum
        invariant i <= maxNum
        invariant forall c :: 0 <= c < i ==> pointers[c] == c
      {
        pointers[i] := i;
        i := i + 1;
      }
      index := pointers;
      slots := new Slot[maxNum](_ => Slot(0, 0, seq(maxSize, _ => 0)));
    }

    predicate IsFull()
      reads this
    {
      num == maxNum
    }

    predicate IsEmpty()
      reads this
    {
      num == 0
    }

    /** The cell after the last queued pointer. */
    function EndPos(): (p: nat)
      reads this, index, slots
      requires Valid() && 0 < maxNum
      ensures p == Cell(maxNum, first, num)
    {
      var spaceUntilBufend := maxNum - first;
      if spaceUntilBufend > num then first + num else num - spaceUntilBufend
    }

    function TopSlot(): (s: nat)
      reads this, index, slots
      requires Valid() && 0 < num
      ensures s == Pointers()[num - 1]
    {
      var pos := EndPos();
      index[if pos != 0 then pos - 1 else maxNum - 1]
    }

    function BottomSlot(): (s: nat)
      reads this, index, slots
      requires Valid() && 0 < num
      ensures s == Pointers()[0]
    {
      index[first]
    }

    /** Under the guards of QueueFreeMsg the split search finds the same place as the least-position
        search over the unrolled queue. */
    method LowerBoundCell(priority: nat) returns (where: nat)
      requires Valid() && 0 < num < maxNum
      requires slots[BottomSlot()].priority < priority <= slots[TopSlot()].priority
      ensures var k := LowerBound(Priorities(Queue()), priority);
              0 < k < num && where == Cell(maxNum, first, k)
    {
      WellFormedCells(index[..], first, num, slots[..], maxSize);
      assert TopSlot() == index[Cell(maxNum, first, num - 1)];
      where := SplitSearch(index, slots, first, num, EndPos(), priority);
      SplitIsLowerBound(index[..], first, num, slots[..], maxSize, priority, where);
    }

    ghost function State(): Core
      reads this, index, slots
      requires Valid()
    {
      Core(Queue(), blockedSenders, blockedReceivers)
    }

    ghost function Bounds(): Limits {
      Limits(maxNum, maxSize)
    }

    /** The place queue_free_msg picks: a search only when the priority lies above the bottom message
        and not above the top one. */
    method PlaceFor(priority: nat) returns (where: nat)
      requires Valid() && num < maxNum
      ensures where == Cell(maxNum, first, LowerBound(Priorities(Queue()), priority))
    {
      where := first;
      if num != 0 && priority > slots[BottomSlot()].priority {
        if priority > slots[TopSlot()].priority {
          where := EndPos();
          AboveTop(Pointers(), num, slots[..], maxSize, priority);
        } else {
          where := LowerBoundCell(priority);
        }
      } else {
        NotAboveBottom(Pointers(), num, slots[..], maxSize, priority);
      }
    }

    /** queue_free_msg: takes a free slot into the index at the place for this priority. */
    method QueueFreeMsg(priority: nat) returns (slot: nat)
      requires Valid() && num < maxNum
      modifies this`first, this`num, index
      ensures first < maxNum && num == old(num) + 1
      ensures var k := LowerBound(Priorities(old(Queue())), priority);
              && Rotation(index[..], first) == CircularInsert(old(Pointers()), old(num), k)
              && slot == Rotation(index[..], first)[k]
    {
      var where := PlaceFor(priority);
      ghost var k := LowerBound(Priorities(Queue()), priority);
      first, slot := InsertPointer(index, first, num, EndPos(), where, k);
      num := num + 1;
    }

    /** The part of do_send after the queue is known not to be full: the recycled slot is clean, and
        filling it enqueues the message. */
    method StoreMessage(buffer: seq<Byte>, priority: nat)
      requires Valid() && num < maxNum && |buffer| <= maxSize
      modifies this`first, this`num, index, slots
      ensures Valid()
      ensures Queue() == Enqueue(old(Queue()), Message(buffer, priority))
    {
      ghost var r, n, all := Pointers(), num, slots[..];
      ghost var k := LowerBound(Priorities(Queue()), priority);
      SendRefines(r, n, all, maxSize, Message(buffer, priority), k, CircularInsert(r, n, k));
      var s := QueueFreeMsg(priority);
      assert slots[..] == all;
      FillSlot(slots, s, buffer, priority);
    }

    /** The part of do_receive after the queue is known not to be empty. */
    method TakeMessage(buffer: array<Byte>) returns (recvdSize: nat, priority: nat)
      requires Valid() && 0 < num && maxSize <= buffer.Length
      modifies this`num, slots, buffer
      ensures Valid()
      ensures Queue() == Dequeue(old(Queue()))
      ensures recvdSize <= buffer.Length
      ensures Message(buffer[..recvdSize], priority) == Top(old(Queue()))
      ensures buffer[recvdSize..] == old(buffer[recvdSize..])
    {
      ReceiveRefines(Pointers(), num, slots[..], maxSize);
      var s := TopSlot();
      recvdSize, priority := slots[s].len, slots[s].priority;
      ClearSlot(slots, s);
      CopyOut(slots[s].data[..recvdSize], buffer);
      num := num - 1;
    }

    method StoreAndNotify(buffer: seq<Byte>, priority: nat) returns (o: Outcome)
      requires Valid() && num < maxNum && |buffer| <= maxSize
      modifies this`first, this`num, index, slots
      ensures Valid()
      ensures (State(), o) == Store(Circular, old(State()), Message(buffer, priority))
    {
      var notify := blockedReceivers != 0;
      StoreMessage(buffer, priority);
      o := Accepted(notify);
    }

    method TakeAndNotify(buffer: array<Byte>) returns (o: Outcome, recvdSize: nat, priority: nat)
      requires Valid() && 0 < num && maxSize <= buffer.Length
      modifies this`num, slots, buffer
      ensures Valid()
      ensures (State(), o) == Take(Circular, old(State()))
      ensures recvdSize <= buffer.Length && o.message == Message(buffer[..recvdSize], priority)
      ensures buffer[recvdSize..] == old(buffer[recvdSize..])
    {
      var notify := blockedSenders != 0;
      recvdSize, priority := TakeMessage(buffer);
      o := Delivered(Message(buffer[..recvdSize], priority), notify);
    }

    /** Every way out of the sender's blocking section, also the one through a throwing wait. */
    method LeaveBlockedSenders()
      requires Valid() && 0 < blockedSenders
      modifies this`blockedSenders
      ensures Valid() && State() == old(State()).(blockedSenders := old(blockedSenders) - 1)
    {
      blockedSenders := blockedSenders - 1;
    }

    method LeaveBlockedReceivers()
      requires Valid() && 0 < blockedReceivers
      modifies this`blockedReceivers
      ensures Valid() && State() == old(State()).(blockedReceivers := old(blockedReceivers) - 1)
    {
      blockedReceivers := blockedReceivers - 1;
    }

    // ----- The locked sections of do_send and do_receive -----

    method SendEnter(mode: Mode, buffer: seq<Byte>, priority: nat) returns (o: Outcome)
      requires Valid()
      modifies this, index, slots
      ensures Valid()
      ensures (State(), o) == Protocol.SendEnter(Circular, Bounds(), old(State()), mode, Message(buffer, priority))
    {
      if |buffer| > maxSize {
        return SizeError;
      }
      if IsFull() {
        blockedSenders := blockedSenders + 1;
        if mode == NonBlocking {
          blockedSenders := blockedSenders - 1;
          return Refused;
        }
        return MustWait;
      }
      o := StoreAndNotify(buffer, priority);
    }

    /** From the return of the wait on; expired says that a timed wait reported a timeout. */
    method SendResume(expired: bool, buffer: seq<Byte>, priority: nat) returns (o: Outcome)
      requires Valid() && 0 < blockedSenders && |buffer| <= maxSize
      modifies this, index, slots
      ensures Valid()
      ensures (State(), o) == Protocol.SendResume(Circular, Bounds(), old(State()), expired, Message(buffer, priority))
    {
      if IsFull() {
        if expired {
          LeaveBlockedSenders();
          return Refused;
        }
        return MustWait;
      }
      LeaveBlockedSenders();
      o := StoreAndNotify(buffer, priority);
    }

    method ReceiveEnter(mode: Mode, buffer: array<Byte>) returns (o: Outcome, recvdSize: nat, priority: nat)
      requires Valid()
      modifies this, slots, buffer
      ensures Valid()
      ensures (State(), o) == Protocol.ReceiveEnter(Circular, Bounds(), old(State()), mode, buffer.Length)
      ensures o.Delivered? ==> recvdSize <= buffer.Length && o.message == Message(buffer[..recvdSize], priority)
                               && buffer[recvdSize..] == old(buffer[recvdSize..])
      ensures !o.Delivered? ==> buffer[..] == old(buffer[..])
    {
      if buffer.Length < maxSize {
        return SizeError, 0, 0;
      }
      if IsEmpty() {
        blockedReceivers := blockedReceivers + 1;
        if mode == NonBlocking {
          blockedReceivers := blockedReceivers - 1;
          return Refused, 0, 0;
        }
        return MustWait, 0, 0;
      }
      o, recvdSize, priority := TakeAndNotify(buffer);
    }

    method ReceiveResume(expired: bool, buffer: array<Byte>) returns (o: Outcome, recvdSize: nat, priority: nat)
      requires Valid() && 0 < blockedReceivers && maxSize <= buffer.Length
      modifies this, slots, buffer
      ensures Valid()
      ensures (State(), o) == Protocol.ReceiveResume(Circular, old(State()), expired)
      ensures o.Delivered? ==> recvdSize <= buffer.Length && o.message == Message(buffer[..recvdSize], priority)
                               && buffer[recvdSize..] == old(buffer[recvdSize..])
      ensures !o.Delivered? ==> buffer[..] == old(buffer[..])
    {
      if IsEmpty() {
        if expired {
          LeaveBlockedReceivers();
          return Refused, 0, 0;
        }
        return MustWait, 0, 0;
      }
      LeaveBlockedReceivers();
      o, recvdSize, priority := TakeAndNotify(buffer);
    }
  }
}
