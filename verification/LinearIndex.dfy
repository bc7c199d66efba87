/** The linear-index build of mq_hdr_t: the queued pointers are always the first num cells. */
module LinearIndex {
  import opened Basics
  import opened PriorityQueue
  import opened IndexSpec
  import opened ArrayOps
  import opened Protocol

  /** insert_at of the linear build on the bare index. */
  method InsertPointer(index: array<nat>, num: nat, pos: nat) returns (slot: nat)
    requires pos <= num < index.Length
    modifies index
    ensures index[..] == BackInsert(old(index[..]), num, pos)
    ensures slot == index[pos]
  {
    var backup := index[num];
    CopyBackward(index, pos, num, num + 1);
    index[pos] := backup;
    slot := index[pos];
  }

  /** mq_hdr_t with a linear index.  This build keeps no counters of blocked callers; the ghost ones only say
      how many there are. */
  class LinearQueue {
    const index: array<nat>
    const slots: array<Slot>
    const maxNum: nat
    const maxSize: nat
    var num: nat
    ghost var blockedSenders: nat
    ghost var blockedReceivers: nat

    ghost predicate Valid()
      reads this, index, slots
    {
      && index.Length == slots.Length == maxNum
      && if maxNum == 0 then num == 0 else WellFormed(index[..], num, slots[..], maxSize)
    }

    ghost function Queue(): (q: seq<Message>)
      reads this, index, slots
      requires Valid()
      ensures |q| == num
    {
      if maxNum == 0 then [] else Contents(index[..], num, slots[..])
    }

    constructor (maxNum: nat, maxSize: nat)
      ensures Valid() && fresh(index) && fresh(slots)
      ensures this.maxNum == maxNum && this.maxSize == maxSize
      ensures Queue() == [] && blockedSenders == 0 && blockedReceivers == 0
    {
      this.maxNum, this.maxSize := maxNum, maxSize;
      num, blockedSenders, blockedReceivers := 0, 0, 0;
      var pointers := new nat[maxNum];
      var i := 0;
      while i < maxNum
        invariant i <= maxNum
        invariant forall c :: 0 <= c < i ==> pointers[c] == c
      {
        pointers[i] := i;
        i := i + 1;
      }
      index := pointers;
      slots := new Slot[maxNum](_ => Slot(0, 0, seq(maxSize, _ => 0)));
    }

    predicate IsFull()
      reads this
    {
      num == maxNum
    }

    predicate IsEmpty()
      reads this
    {
      num == 0
    }

    /** lower_bound of the linear build. */
    method LowerBoundCell(priority: nat) returns (pos: nat)
      requires Valid() && 0 < num
      ensures pos == LowerBound(Priorities(Queue()), priority)
    {
      pos := LowerBoundCells(index, slots, 0, num, priority);
      LowerBoundUnique(Priorities(Queue()), priority, pos);
    }

    /** The place queue_free_msg picks. */
    method PlaceFor(priority: nat) returns (pos: nat)
      requires Valid() && num < maxNum
      ensures pos == LowerBound(Priorities(Queue()), priority)
    {
      pos := 0;
      if num != 0 && priority > slots[index[0]].priority {
        if priority > slots[index[num - 1]].priority {
          pos := num;
          AboveTop(index[..], num, slots[..], maxSize, priority);
        } else {
          pos := LowerBoundCell(priority);
        }
      } else {
        NotAboveBottom(index[..], num, slots[..], maxSize, priority);
      }
    }

    /** queue_free_msg: takes the first free slot into the index at the place for this priority. */
    method QueueFreeMsg(priority: nat) returns (slot: nat)
      requires Valid() && num < maxNum
      modifies this`num, index
      ensures num == old(num) + 1
      ensures var k := LowerBound(Priorities(old(Queue())), priority);
              index[..] == BackInsert(old(index[..]), old(num), k) && slot == index[..][k]
    {
      var pos := PlaceFor(priority);
      slot := InsertPointer(index, num, pos);
      num := num + 1;
    }

    method StoreMessage(buffer: seq<Byte>, priority: nat)
      requires Valid() && num < maxNum && |buffer| <= maxSize
      modifies this`num, index, slots
      ensures Valid()
      ensures Queue() == Enqueue(old(Queue()), Message(buffer, priority))
    {
      ghost var r, n, all := index[..], num, slots[..];
      ghost var k := LowerBound(Priorities(Queue()), priority);
      SendRefines(r, n, all, maxSize, Message(buffer, priority), k, BackInsert(r, n, k));
      var s := QueueFreeMsg(priority);
      assert slots[..] == all;
      FillSlot(slots, s, buffer, priority);
    }

    method TakeMessage(buffer: array<Byte>) returns (recvdSize: nat, priority: nat)
      requires Valid() && 0 < num && maxSize <= buffer.Length
      modifies this`num, slots, buffer
      ensures Valid()
      ensures Queue() == Dequeue(old(Queue()))
      ensures recvdSize <= buffer.Length
      ensures Message(buffer[..recvdSize], priority) == Top(old(Queue()))
      ensures buffer[recvdSize..] == old(buffer[recvdSize..])
    {
      ReceiveRefines(index[..], num, slots[..], maxSize);
      var s := index[num - 1];
      recvdSize, priority := slots[s].len, slots[s].priority;
      ClearSlot(slots, s);
      CopyOut(slots[s].data[..recvdSize], buffer);
      num := num - 1;
    }

    ghost function State(): Core
      reads this, index, slots
      requires Valid()
    {
      Core(Queue(), blockedSenders, blockedReceivers)
    }

    ghost function Bounds(): Limits {
      Limits(maxNum, maxSize)
    }

    method StoreAndNotify(buffer: seq<Byte>, priority: nat) returns (o: Outcome)
      requires Valid() && num < maxNum && |buffer| <= maxSize
      modifies this`num, index, slots
      ensures Valid()
      ensures (State(), o) == Store(Linear, old(State()), Message(buffer, priority))
    {
      StoreMessage(buffer, priority);
      o := Accepted(true);
    }

    method TakeAndNotify(buffer: array<Byte>) returns (o: Outcome, recvdSize: nat, priority: nat)
      requires Valid() && 0 < num && maxSize <= buffer.Length
      modifies this`num, slots, buffer
      ensures Valid()
      ensures (State(), o) == Take(Linear, old(State()))
      ensures recvdSize <= buffer.Length && o.message == Message(buffer[..recvdSize], priority)
      ensures buffer[recvdSize..] == old(buffer[recvdSize..])
    {
      recvdSize, priority := TakeMessage(buffer);
      o := Delivered(Message(buffer[..recvdSize], priority), true);
    }

    ghost method JoinBlockedSenders()
      requires Valid()
      modifies this`blockedSenders
      ensures Valid() && State() == old(State()).(blockedSenders := old(blockedSenders) + 1)
    {
      blockedSenders := blockedSenders + 1;
    }

    ghost method JoinBlockedReceivers()
      requires Valid()
      modifies this`blockedReceivers
      ensures Valid() && State() == old(State()).(blockedReceivers := old(blockedReceivers) + 1)
    {
      blockedReceivers := blockedReceivers + 1;
    }

    ghost method LeaveBlockedSenders()
      requires Valid() && 0 < blockedSenders
      modifies this`blockedSenders
      ensures Valid() && State() == old(State()).(blockedSenders := old(blockedSenders) - 1)
    {
      blockedSenders := blockedSenders - 1;
    }

    ghost method LeaveBlockedReceivers()
      requires Valid() && 0 < blockedReceivers
      modifies this`blockedReceivers
      ensures Valid() && State() == old(State()).(blockedReceivers := old(blockedReceivers) - 1)
    {
      blockedReceivers := blockedReceivers - 1;
    }

    // ----- The locked sections of do_send and do_receive -----

    method SendEnter(mode: Mode, buffer: seq<Byte>, priority: nat) returns (o: Outcome)
      requires Valid()
      modifies this, index, slots
      ensures Valid()
      ensures (State(), o) == Protocol.SendEnter(Linear, Bounds(), old(State()), mode, Message(buffer, priority))
    {
      if |buffer| > maxSize {
        return SizeError;
      }
      if !IsFull() {
        o := StoreAndNotify(buffer, priority);
      } else if mode == NonBlocking {
        o := Refused;
      } else {
        JoinBlockedSenders();
        o := MustWait;
      }
    }

    /** From the return of the wait on; expired says that a timed wait reported a timeout. */
    method SendResume(expired: bool, buffer: seq<Byte>, priority: nat) returns (o: Outcome)
      requires Valid() && 0 < blockedSenders && |buffer| <= maxSize
      modifies this, index, slots
      ensures Valid()
      ensures (State(), o) == Protocol.SendResume(Linear, Bounds(), old(State()), expired, Message(buffer, priority))
    {
      if IsFull() {
        if expired {
          LeaveBlockedSenders();
          return Refused;
        }
        return MustWait;
      }
      LeaveBlockedSenders();
      o := StoreAndNotify(buffer, priority);
    }

    method ReceiveEnter(mode: Mode, buffer: array<Byte>) returns (o: Outcome, recvdSize: nat, priority: nat)
      requires Valid()
      modifies this, slots, buffer
      ensures Valid()
      ensures (State(), o) == Protocol.ReceiveEnter(Linear, Bounds(), old(State()), mode, buffer.Length)
      ensures o.Delivered? ==> recvdSize <= buffer.Length && o.message == Message(buffer[..recvdSize], priority)
                               && buffer[recvdSize..] == old(buffer[recvdSize..])
      ensures !o.Delivered? ==> buffer[..] == old(buffer[..])
    {
      if buffer.Length < maxSize {
        return SizeError, 0, 0;
      }
      recvdSize, priority := 0, 0;
      if !IsEmpty() {
        o, recvdSize, priority := TakeAndNotify(buffer);
      } else if mode == NonBlocking {
        o := Refused;
      } else {
        JoinBlockedReceivers();
        o := MustWait;
      }
    }

    method ReceiveResume(expired: bool, buffer: array<Byte>) returns (o: Outcome, recvdSize: nat, priority: nat)
      requires Valid() && 0 < blockedReceivers && maxSize <= buffer.Length
      modifies this, slots, buffer
      ensures Valid()
      ensures (State(), o) == Protocol.ReceiveResume(Linear, old(State()), expired)
      ensures o.Delivered? ==> recvdSize <= buffer.Length && o.message == Message(buffer[..recvdSize], priority)
                               && buffer[recvdSize..] == old(buffer[recvdSize..])
      ensures !o.Delivered? ==> buffer[..] == old(buffer[..])
    {
      if IsEmpty() {
        if expired {
          LeaveBlockedReceivers();
          return Refused, 0, 0;
        }
        return MustWait, 0, 0;
      }
      LeaveBlockedReceivers();
      o, recvdSize, priority := TakeAndNotify(buffer);
    }
  }
}
