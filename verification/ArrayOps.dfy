/** The standard algorithms the index code calls, as loops over the array itself. */
module ArrayOps {
  import opened Basics
  import opened PriorityQueue
  import opened IndexSpec

  /** std::copy: moves [lo, hi) to dst going forwards, so dst may not lie after lo. */
  method Copy<T>(a: array<T>, lo: nat, hi: nat, dst: nat)
    requires dst <= lo <= hi <= a.Length
    modifies a
    ensures forall c {:trigger a[c]} :: 0 <= c < a.Length ==>
              a[c] == if dst <= c < dst + hi - lo then old(a[c + lo - dst]) else old(a[c])
  {
    var i := lo;
    while i < hi
      invariant lo <= i <= hi
      invariant forall c {:trigger a[c]} :: 0 <= c < a.Length ==>
                  a[c] == if dst <= c < dst + i - lo then old(a[c + lo - dst]) else old(a[c])
    {
      a[dst + i - lo] := a[i];
      i := i + 1;
    }
  }

  /** std::copy_backward: moves [lo, hi) so that it ends at dst, going backwards. */
  method CopyBackward<T>(a: array<T>, lo: nat, hi: nat, dst: nat)
    requires lo <= hi <= dst <= a.Length
    modifies a
    ensures forall c {:trigger a[c]} :: 0 <= c < a.Length ==>
              a[c] == if dst - (hi - lo) <= c < dst then old(a[c - (dst - hi)]) else old(a[c])
  {
    var i := hi;
    while lo < i
      invariant lo <= i <= hi
      invariant forall c {:trigger a[c]} :: 0 <= c < a.Length ==>
                  a[c] == if dst - (hi - i) <= c < dst then old(a[c - (dst - hi)]) else old(a[c])
    {
      i := i - 1;
      a[dst - (hi - i)] := a[i];
    }
  }

  /** memcpy into the front of the receiver's buffer. */
  method CopyOut(src: seq<Byte>, dst: array<Byte>)
    requires |src| <= dst.Length
    modifies dst
    ensures dst[..|src|] == src
    ensures dst[|src|..] == old(dst[|src|..])
  {
    var i := 0;
    while i < |src|
      invariant i <= |src|
      invariant dst[..i] == src[..i]
      invariant dst[|src|..] == old(dst[|src|..])
    {
      dst[i] := src[i];
      i := i + 1;
    }
  }

  /** Writes a message's header and data into its slot. */
  method FillSlot(slots: array<Slot>, s: nat, buffer: seq<Byte>, priority: nat)
    requires s < slots.Length && |buffer| <= |slots[s].data|
    requires slots[s].priority == 0 && slots[s].len == 0
    modifies slots
    ensures slots[..] == old(slots[..])[s := Filled(old(slots[s]), Message(buffer, priority))]
  {
    slots[s] := Slot(|buffer|, priority, buffer + slots[s].data[|buffer|..]);
  }

  /** Cleans the header of a received message. */
  method ClearSlot(slots: array<Slot>, s: nat)
    requires s < slots.Length
    modifies slots
    ensures slots[..] == old(slots[..])[s := old(slots[s]).(len := 0, priority := 0)]
  {
    slots[s] := slots[s].(len := 0, priority := 0);
  }

  /** std::lower_bound over the cells [lo, hi) of the index, comparing the priorities of the slots they
      point to. */
  method LowerBoundCells(index: array<nat>, slots: array<Slot>, lo: nat, hi: nat, priority: nat) returns (p: nat)
    requires lo <= hi <= index.Length
    requires forall c :: lo <= c < hi ==> index[c] < slots.Length
    requires forall c, d :: lo <= c < d < hi ==> slots[index[c]].priority <= slots[index[d]].priority
    ensures lo <= p <= hi
    ensures forall c :: lo <= c < p ==> slots[index[c]].priority < priority
    ensures forall c :: p <= c < hi ==> priority <= slots[index[c]].priority
  {
    p := lo;
    var count := hi - lo;
    while count > 0
      invariant lo <= p <= p + count <= hi
      invariant forall c :: lo <= c < p ==> slots[index[c]].priority < priority
      invariant forall c :: p + count <= c < hi ==> priority <= slots[index[c]].priority
      decreases count
    {
      var step := count / 2;
      var it := p + step;
      if slots[index[it]].priority < priority {
        p := it + 1;
        count := count - (step + 1);
      } else {
        count := step;
      }
    }
  }
}
