/** The memory layout of the queue: control block, index, then the preallocated messages, as sized by
    get_mem_size and laid out by initialize_memory, with the unsigned arithmetic written out. */
module Layout {
  /** The sizes and alignments the compiler supplies, and the number of values of the size type. */
  datatype Platform = Platform(
    word: nat,
    hdrSize: nat,
    ptrSize: nat,
    ptrAlign: nat,
    msgHdrSize: nat,
    msgHdrAlign: nat,
    userOffset: nat)

  // ----- Multiples -----

  ghost predicate Times(x: int, q: int, a: int) {
    x == q * a
  }

  ghost predicate Multiple(x: int, a: int) {
    exists q :: Times(x, q, a)
  }

  lemma MultipleSum(x: int, y: int, a: int)
    requires Multiple(y, a)
    ensures Multiple(x + y, a) <==> Multiple(x, a)
  {
    var q :| Times(y, q, a);
    var sum := x + y;
    if p :| Times(x, p, a) {
      assert Times(sum, p + q, a);
    }
    if p :| Times(sum, p, a) {
      assert Times(x, p - q, a);
    }
  }

  lemma MultipleProduct(n: int, x: int, a: int)
    requires Multiple(x, a)
    ensures Multiple(n * x, a)
  {
    var q :| Times(x, q, a);
    assert n * x == n * q * a;
    assert Times(n * x, n * q, a);
  }

  /** The least multiple of a that is at least n. */
  function RoundUp(n: nat, a: nat): (r: nat)
    requires 0 < a
    ensures n <= r < n + a
    ensures Multiple(r, a)
  {
    var q := (n + a - 1) / a;
    assert Times(q * a, q, a);
    assert q * a == n + a - 1 - (n + a - 1) % a;
    q * a
  }

  // ----- The layout in unbounded arithmetic -----

  /** What C++ guarantees: alignments are positive and sizes are multiples of them. */
  ghost predicate Sound(p: Platform) {
    && 0 < p.word && 0 < p.ptrAlign && 0 < p.msgHdrAlign && 0 < p.ptrSize && 0 < p.msgHdrSize
    && Multiple(p.ptrSize, p.ptrAlign) && Multiple(p.msgHdrSize, p.msgHdrAlign)
    && RoundUp(p.hdrSize, p.ptrAlign) < p.word
  }

  function IndexStart(p: Platform): nat
    requires 0 < p.ptrAlign
  {
    RoundUp(p.hdrSize, p.ptrAlign)
  }

  function IndexBytes(p: Platform, num: nat): nat
    requires 0 < p.msgHdrAlign
  {
    RoundUp(num * p.ptrSize, p.msgHdrAlign)
  }

  function SlotBytes(p: Platform, maxSize: nat): nat
    requires 0 < p.msgHdrAlign
  {
    RoundUp(maxSize, p.msgHdrAlign) + p.msgHdrSize
  }

  function CellOffset(p: Platform, i: nat): nat
    requires 0 < p.ptrAlign
  {
    IndexStart(p) + i * p.ptrSize
  }

  function SlotOffset(p: Platform, num: nat, maxSize: nat, i: nat): nat
    requires 0 < p.ptrAlign && 0 < p.msgHdrAlign
  {
    IndexStart(p) + IndexBytes(p, num) + i * SlotBytes(p, maxSize)
  }

  function ExactSize(p: Platform, num: nat, maxSize: nat): nat
    requires 0 < p.ptrAlign && 0 < p.msgHdrAlign
  {
    SlotOffset(p, num, maxSize, num) + p.userOffset
  }

  // ----- What the code computes -----

  /** x modulo the word. */
  function Wrap(p: Platform, x: nat): (w: nat)
    requires 0 < p.word
    ensures w < p.word && w <= x
    ensures x < p.word ==> w == x
  {
    if x < p.word then x else Wrap(p, x - p.word)
  }

  function WrappedIndexBytes(p: Platform, num: nat): nat
    requires 0 < p.word && 0 < p.msgHdrAlign
  {
    Wrap(p, RoundUp(Wrap(p, num * p.ptrSize), p.msgHdrAlign))
  }

  function WrappedSlotBytes(p: Platform, maxSize: nat): nat
    requires 0 < p.word && 0 < p.msgHdrAlign
  {
    Wrap(p, Wrap(p, RoundUp(maxSize, p.msgHdrAlign)) + p.msgHdrSize)
  }

  function WrappedSlots(p: Platform, num: nat, maxSize: nat): nat
    requires 0 < p.word && 0 < p.msgHdrAlign
  {
    Wrap(p, num * WrappedSlotBytes(p, maxSize))
  }

  function WrappedSum(p: Platform, start: nat, index: nat, slots: nat): (size: nat)
    requires 0 < p.word
    ensures size < p.word
  {
    Wrap(p, Wrap(p, Wrap(p, start + index) + slots) + p.userOffset)
  }

  /** get_mem_size with every operation reduced modulo the word. */
  function GetMemSize(p: Platform, num: nat, maxSize: nat): (size: nat)
    requires 0 < p.word && 0 < p.ptrAlign && 0 < p.msgHdrAlign
    ensures size < p.word
  {
    WrappedSum(p, IndexStart(p), WrappedIndexBytes(p, num), WrappedSlots(p, num, maxSize))
  }

  lemma Factor(n: nat, x: nat)
    ensures n * x >= 0
    ensures 0 < n ==> x <= n * x
  {
  }

  /** get_mem_size is the size the layout needs exactly when that size is representable: otherwise the
      segment asked for is too small. */
  lemma SizeIsExactUnlessItWraps(p: Platform, num: nat, maxSize: nat)
    requires Sound(p)
    ensures GetMemSize(p, num, maxSize) == ExactSize(p, num, maxSize) <==> ExactSize(p, num, maxSize) < p.word
    ensures p.word <= ExactSize(p, num, maxSize) ==> GetMemSize(p, num, maxSize) < ExactSize(p, num, maxSize)
    ensures ExactSize(p, num, maxSize) < p.word ==> WrappedIndexBytes(p, num) == IndexBytes(p, num)
    ensures ExactSize(p, num, maxSize) < p.word && 0 < num ==> WrappedSlotBytes(p, maxSize) == SlotBytes(p, maxSize)
  {
    if ExactSize(p, num, maxSize) < p.word {
      var index, slot := IndexBytes(p, num), SlotBytes(p, maxSize);
      Factor(num, slot);
      assert num * p.ptrSize <= index < p.word;
      assert WrappedIndexBytes(p, num) == index;
      if 0 < num {
        assert slot <= num * slot < p.word;
        assert WrappedSlotBytes(p, maxSize) == slot;
      }
    }
  }

  // ----- What a wrapped size is -----

  ghost predicate Same(p: Platform, x: int, y: int) {
    Multiple(x - y, p.word)
  }

  lemma {:induction false} WrapModulo(p: Platform, x: nat)
    requires 0 < p.word
    ensures Same(p, x, Wrap(p, x))
    decreases x
  {
    if x < p.word {
      assert Times(0, 0, p.word);
    } else {
      WrapModulo(p, x - p.word);
      var q :| Times(x - p.word - Wrap(p, x), q, p.word);
      assert Times(x - Wrap(p, x), q + 1, p.word);
    }
  }

  lemma SameSum(p: Platform, x: int, y: int, x': int, y': int)
    requires Same(p, x, x') && Same(p, y, y')
    ensures Same(p, x + y, x' + y')
  {
    MultipleSum(x - x', y - y', p.word);
    assert x - x' + (y - y') == x + y - (x' + y');
  }

  lemma SameProduct(p: Platform, n: nat, x: int, x': int)
    requires Same(p, x, x')
    ensures Same(p, n * x, n * x')
  {
    MultipleProduct(n, x - x', p.word);
    assert n * (x - x') == n * x - n * x';
  }

  lemma Apart(q: int, q': int, a: nat)
    requires q < q'
    ensures q * a + a <= q' * a
  {
    Factor(q' - q, a);
    assert (q' - q) * a == q' * a - q * a;
  }

  /** Only one multiple of a lies in a stretch of length a. */
  lemma MultipleUnique(x: int, y: int, a: nat)
    requires 0 < a && Multiple(x, a) && Multiple(y, a) && x - a < y < x + a
    ensures x == y
  {
    var q :| Times(x, q, a);
    var q' :| Times(y, q', a);
    if q < q' {
      Apart(q, q', a);
    } else if q' < q {
      Apart(q', q, a);
    }
  }

  /** Rounding commutes with wrapping when the word is a multiple of the alignment. */
  lemma RoundUpSame(p: Platform, x: nat, a: nat)
    requires 0 < p.word && 0 < a && Multiple(p.word, a)
    ensures Same(p, RoundUp(Wrap(p, x), a), RoundUp(x, a))
  {
    var w := Wrap(p, x);
    WrapModulo(p, x);
    var q :| Times(x - w, q, p.word);
    MultipleProduct(q, p.word, a);
    MultipleSum(RoundUp(w, a), x - w, a);
    MultipleUnique(RoundUp(w, a) + (x - w), RoundUp(x, a), a);
    assert Times(w - x, -q, p.word);
  }

  lemma WrapSame(p: Platform, x: nat, y: int)
    requires 0 < p.word && Same(p, x, y)
    ensures Same(p, Wrap(p, x), y)
  {
    WrapModulo(p, x);
    var q :| Times(x - Wrap(p, x), q, p.word);
    var q' :| Times(x - y, q', p.word);
    assert Times(Wrap(p, x) - y, q' - q, p.word);
  }

  lemma SameRefl(p: Platform, x: int)
    ensures Same(p, x, x)
  {
    assert Times(x - x, 0, p.word);
  }

  lemma WrappedSlotBytesSame(p: Platform, maxSize: nat)
    requires 0 < p.word && 0 < p.msgHdrAlign
    ensures Same(p, WrappedSlotBytes(p, maxSize), SlotBytes(p, maxSize))
  {
    var rounded := RoundUp(maxSize, p.msgHdrAlign);
    SameRefl(p, rounded);
    SameRefl(p, p.msgHdrSize);
    WrapSame(p, rounded, rounded);
    SameSum(p, Wrap(p, rounded), p.msgHdrSize, rounded, p.msgHdrSize);
    WrapSame(p, Wrap(p, rounded) + p.msgHdrSize, SlotBytes(p, maxSize));
  }

  lemma SumSame(p: Platform, start: nat, index: nat, index': nat, slots: nat, slots': nat)
    requires 0 < p.word && Same(p, index, index') && Same(p, slots, slots')
    ensures var body := Wrap(p, Wrap(p, start + index) + slots);
            Same(p, Wrap(p, body + p.userOffset), start + index' + slots' + p.userOffset)
  {
    SameRefl(p, start);
    SameRefl(p, p.userOffset);
    SameSum(p, start, index, start, index');
    WrapSame(p, start + index, start + index');
    var head := Wrap(p, start + index);
    SameSum(p, head, slots, start + index', slots');
    WrapSame(p, head + slots, start + index' + slots');
    var body := Wrap(p, head + slots);
    SameSum(p, body, p.userOffset, start + index' + slots', p.userOffset);
    WrapSame(p, body + p.userOffset, start + index' + slots' + p.userOffset);
  }

  lemma WrappedIndexBytesSame(p: Platform, num: nat)
    requires 0 < p.word && 0 < p.msgHdrAlign && Multiple(p.word, p.msgHdrAlign)
    ensures Same(p, WrappedIndexBytes(p, num), IndexBytes(p, num))
  {
    var bytes := num * p.ptrSize;
    RoundUpSame(p, bytes, p.msgHdrAlign);
    WrapSame(p, RoundUp(Wrap(p, bytes), p.msgHdrAlign), RoundUp(bytes, p.msgHdrAlign));
  }

  lemma WrappedSlotsSame(p: Platform, num: nat, maxSize: nat)
    requires 0 < p.word && 0 < p.msgHdrAlign
    ensures Same(p, WrappedSlots(p, num, maxSize), num * SlotBytes(p, maxSize))
  {
    var slot := WrappedSlotBytes(p, maxSize);
    WrappedSlotBytesSame(p, maxSize);
    SameProduct(p, num, slot, SlotBytes(p, maxSize));
    Factor(num, slot);
    WrapSame(p, num * slot, num * SlotBytes(p, maxSize));
  }

  lemma WrappedSumIsExact(p: Platform, start: nat, index: nat, index': nat, slots: nat, slots': nat, exact: nat)
    requires 0 < p.word && Same(p, index, index') && Same(p, slots, slots')
    requires exact == start + index' + slots' + p.userOffset
    ensures WrappedSum(p, start, index, slots) == Wrap(p, exact)
  {
    SumSame(p, start, index, index', slots, slots');
    WrapUnique(p, WrappedSum(p, start, index, slots), exact);
  }

  /** Whatever wraps on the way, get_mem_size is the exact size modulo the word. */
  lemma SizeIsExactModuloWord(p: Platform, num: nat, maxSize: nat)
    requires Sound(p) && Multiple(p.word, p.msgHdrAlign)
    ensures GetMemSize(p, num, maxSize) == Wrap(p, ExactSize(p, num, maxSize))
  {
    var slots, exact := num * SlotBytes(p, maxSize), ExactSize(p, num, maxSize);
    Factor(num, SlotBytes(p, maxSize));
    WrappedIndexBytesSame(p, num);
    WrappedSlotsSame(p, num, maxSize);
    WrappedSumIsExact(p, IndexStart(p), WrappedIndexBytes(p, num), IndexBytes(p, num), WrappedSlots(p, num, maxSize), slots, exact);
  }

  lemma WrapUnique(p: Platform, w: nat, x: nat)
    requires w < p.word && Same(p, w, x)
    ensures w == Wrap(p, x)
  {
    WrapModulo(p, x);
    var q :| Times(w - x, q, p.word);
    var q' :| Times(x - Wrap(p, x), q', p.word);
    assert Times(w - Wrap(p, x), q + q', p.word) && Times(0, 0, p.word);
    MultipleUnique(w - Wrap(p, x), 0, p.word);
  }

  // ----- Disjoint, inside, aligned -----

  /** A stretch of bytes, counted from the start of the control block. */
  datatype Region = Region(start: nat, end: nat)

  ghost predicate Disjoint(r: Region, s: Region) {
    r.end <= s.start || s.end <= r.start
  }

  function HeaderRegion(p: Platform): Region {
    Region(0, p.hdrSize)
  }

  function CellRegion(p: Platform, i: nat): Region
    requires 0 < p.ptrAlign
  {
    Region(CellOffset(p, i), CellOffset(p, i) + p.ptrSize)
  }

  /** A message's header followed by room for the largest payload. */
  function SlotRegion(p: Platform, num: nat, maxSize: nat, i: nat): Region
    requires 0 < p.ptrAlign && 0 < p.msgHdrAlign
  {
    var start := SlotOffset(p, num, maxSize, i);
    Region(start, start + p.msgHdrSize + maxSize)
  }

  lemma Spaced(i: nat, j: nat, x: nat)
    requires i < j
    ensures i * x + x <= j * x
  {
    Factor(j - i, x);
    assert j * x == i * x + (j - i) * x;
  }

  /** Cell i lies between the control block and the first slot, and apart from every other cell. */
  lemma CellIsApart(p: Platform, num: nat, i: nat, j: nat)
    requires Sound(p) && i < num
    ensures p.hdrSize <= CellRegion(p, i).start
    ensures CellRegion(p, i).end <= IndexStart(p) + IndexBytes(p, num)
    ensures i < j ==> CellRegion(p, i).end <= CellRegion(p, j).start
  {
    Factor(i, p.ptrSize);
    Spaced(i, num, p.ptrSize);
    if i < j {
      Spaced(i, j, p.ptrSize);
    }
  }

  /** Slot i lies after the index, before the end of the layout, and apart from every other slot. */
  lemma SlotIsApart(p: Platform, num: nat, maxSize: nat, i: nat, j: nat)
    requires Sound(p) && i < num
    ensures IndexStart(p) + IndexBytes(p, num) <= SlotRegion(p, num, maxSize, i).start
    ensures SlotRegion(p, num, maxSize, i).end <= SlotOffset(p, num, maxSize, num)
    ensures i < j ==> SlotRegion(p, num, maxSize, i).end <= SlotRegion(p, num, maxSize, j).start
  {
    Factor(i, SlotBytes(p, maxSize));
    Spaced(i, num, SlotBytes(p, maxSize));
    if i < j {
      Spaced(i, j, SlotBytes(p, maxSize));
    }
  }

  /** Control block, index cells and message slots never overlap and all lie inside the segment that
      get_mem_size asks for, less the user offset, whenever the size does not wrap. */
  lemma LayoutIsSafe(p: Platform, num: nat, maxSize: nat, i: nat, j: nat)
    requires Sound(p) && i < num && j < num
    requires ExactSize(p, num, maxSize) < p.word
    ensures Disjoint(HeaderRegion(p), CellRegion(p, i))
    ensures Disjoint(HeaderRegion(p), SlotRegion(p, num, maxSize, i))
    ensures Disjoint(CellRegion(p, i), SlotRegion(p, num, maxSize, j))
    ensures i != j ==> Disjoint(CellRegion(p, i), CellRegion(p, j))
    ensures i != j ==> Disjoint(SlotRegion(p, num, maxSize, i), SlotRegion(p, num, maxSize, j))
    ensures SlotRegion(p, num, maxSize, i).end <= GetMemSize(p, num, maxSize) - p.userOffset
    ensures CellRegion(p, i).end <= GetMemSize(p, num, maxSize) - p.userOffset
  {
    SizeIsExactUnlessItWraps(p, num, maxSize);
    CellIsApart(p, num, i, j);
    CellIsApart(p, num, j, i);
    SlotIsApart(p, num, maxSize, i, j);
    SlotIsApart(p, num, maxSize, j, i);
  }

  lemma Successor(i: nat, x: nat)
    ensures (i + 1) * x == i * x + x
  {
  }

  lemma CellsTouch(p: Platform, i: nat)
    requires 0 < p.ptrAlign
    ensures CellRegion(p, i + 1).start == CellRegion(p, i).end
  {
    Successor(i, p.ptrSize);
  }

  lemma SlotsPacked(p: Platform, num: nat, maxSize: nat, i: nat)
    requires 0 < p.ptrAlign && 0 < p.msgHdrAlign
    ensures SlotRegion(p, num, maxSize, i + 1).start < SlotRegion(p, num, maxSize, i).end + p.msgHdrAlign
  {
    Successor(i, SlotBytes(p, maxSize));
  }

  /** The layout wastes nothing but alignment: index cells follow each other, and the index, the first slot and
      every further slot start within one alignment of the end of what comes before. */
  lemma LayoutIsPacked(p: Platform, num: nat, maxSize: nat)
    requires Sound(p)
    ensures CellRegion(p, 0).start < HeaderRegion(p).end + p.ptrAlign
    ensures forall i: nat :: CellRegion(p, i + 1).start == CellRegion(p, i).end
    ensures 0 < num ==> SlotRegion(p, num, maxSize, 0).start < CellRegion(p, num - 1).end + p.msgHdrAlign
    ensures forall i: nat :: SlotRegion(p, num, maxSize, i + 1).start < SlotRegion(p, num, maxSize, i).end + p.msgHdrAlign
  {
    forall i: nat ensures CellRegion(p, i + 1).start == CellRegion(p, i).end {
      CellsTouch(p, i);
    }
    forall i: nat
      ensures SlotRegion(p, num, maxSize, i + 1).start < SlotRegion(p, num, maxSize, i).end + p.msgHdrAlign
    {
      SlotsPacked(p, num, maxSize, i);
    }
    if 0 < num {
      Successor(num - 1, p.ptrSize);
    }
  }

  /** get_mem_size asks for the user offset and less than one alignment more than the regions take. */
  lemma SegmentIsPacked(p: Platform, num: nat, maxSize: nat)
    requires Sound(p) && ExactSize(p, num, maxSize) < p.word
    ensures GetMemSize(p, num, maxSize) - p.userOffset <
            if num == 0 then HeaderRegion(p).end + p.ptrAlign
            else SlotRegion(p, num, maxSize, num - 1).end + p.msgHdrAlign
  {
    SizeIsExactUnlessItWraps(p, num, maxSize);
    if num == 0 {
      assert Times(0, 0, p.msgHdrAlign);
      MultipleUnique(IndexBytes(p, 0), 0, p.msgHdrAlign);
    } else {
      SlotsPacked(p, num, maxSize, num - 1);
    }
  }

  /** Every message header of a segment at this address is aligned. */
  ghost predicate HeadersAligned(p: Platform, base: nat, num: nat, maxSize: nat)
    requires Sound(p)
  {
    forall i: nat :: i < num ==> Multiple(base + SlotOffset(p, num, maxSize, i), p.msgHdrAlign)
  }

  /** Index cells are aligned when the segment is; message headers are aligned exactly when the end of
      the rounded control block is, because the code rounds it for pointers, not for messages. */
  lemma SlotsAlignedExactly(p: Platform, base: nat, num: nat, maxSize: nat)
    requires Sound(p) && 0 < num
    ensures Multiple(base, p.ptrAlign) ==> forall i: nat :: Multiple(base + CellOffset(p, i), p.ptrAlign)
    ensures HeadersAligned(p, base, num, maxSize) <==> Multiple(base + IndexStart(p), p.msgHdrAlign)
  {
    forall i: nat ensures Multiple(base + CellOffset(p, i), p.ptrAlign) <==> Multiple(base, p.ptrAlign) {
      MultipleProduct(i, p.ptrSize, p.ptrAlign);
      MultipleSum(base + IndexStart(p), i * p.ptrSize, p.ptrAlign);
      MultipleSum(base, IndexStart(p), p.ptrAlign);
    }
    forall i: nat
      ensures Multiple(base + SlotOffset(p, num, maxSize, i), p.msgHdrAlign) <==> Multiple(base + IndexStart(p), p.msgHdrAlign)
    {
      var slot := SlotBytes(p, maxSize);
      MultipleSum(RoundUp(maxSize, p.msgHdrAlign), p.msgHdrSize, p.msgHdrAlign);
      MultipleProduct(i, slot, p.msgHdrAlign);
      MultipleSum(base + IndexStart(p) + IndexBytes(p, num), i * slot, p.msgHdrAlign);
      MultipleSum(base + IndexStart(p), IndexBytes(p, num), p.msgHdrAlign);
    }
    assert Multiple(base + SlotOffset(p, num, maxSize, 0), p.msgHdrAlign) <==> Multiple(base + IndexStart(p), p.msgHdrAlign);
  }

  /** The platforms on which the layout is aligned: every segment aligned for pointers has aligned message
      headers if and only if the pointer alignment is a multiple of the header's. */
  lemma AlignedPlatformsExactly(p: Platform, num: nat, maxSize: nat)
    requires Sound(p) && 0 < num
    ensures (forall base: nat :: Multiple(base, p.ptrAlign) ==> HeadersAligned(p, base, num, maxSize))
            <==> Multiple(p.ptrAlign, p.msgHdrAlign)
  {
    var start, a := IndexStart(p), p.ptrAlign;
    forall base: nat
      ensures HeadersAligned(p, base, num, maxSize) <==> Multiple(base + start, p.msgHdrAlign)
    {
      SlotsAlignedExactly(p, base, num, maxSize);
    }
    if Multiple(a, p.msgHdrAlign) {
      forall base: nat | Multiple(base, a) ensures Multiple(base + start, p.msgHdrAlign) {
        MultipleSum(base, start, a);
        var q :| Times(base + start, q, a);
        MultipleProduct(q, a, p.msgHdrAlign);
      }
    }
    if forall base: nat :: Multiple(base, a) ==> HeadersAligned(p, base, num, maxSize) {
      assert Times(0, 0, a) && Times(a, 1, a);
      assert HeadersAligned(p, 0, num, maxSize) && HeadersAligned(p, a, num, maxSize);
      MultipleSum(a, start, p.msgHdrAlign);
    }
  }

  /** Four-byte pointers beside an eight-byte aligned header: the first message lies at offset 20. */
  lemma HeadersCanBeMisaligned()
    ensures var p := Platform(1000, 12, 4, 4, 16, 8, 0);
            Sound(p) && Multiple(0, p.ptrAlign) && !HeadersAligned(p, 0, 1, 0)
  {
    var p := Platform(1000, 12, 4, 4, 16, 8, 0);
    assert Times(4, 1, 4) && Times(16, 2, 8) && Times(0, 0, 4);
    assert SlotOffset(p, 1, 0, 0) == 20;
    if q :| Times(20, q, 8) {
      assert false;
    }
  }

  /** The i-th address reached from start by adding step, with the wrap-around of the size type. */
  function Walk(p: Platform, start: nat, step: nat, i: nat): nat
    requires 0 < p.word
  {
    if i == 0 then start else Wrap(p, Walk(p, start, step, i - 1) + step)
  }

  lemma {:induction false} WalkIsExact(p: Platform, start: nat, step: nat, i: nat)
    requires 0 < p.word && start + i * step < p.word
    ensures Walk(p, start, step, i) == start + i * step
    decreases i
  {
    if i > 0 {
      assert i * step == (i - 1) * step + step;
      WalkIsExact(p, start, step, i - 1);
    }
  }

  /** The loop of initialize_memory: cell i of the index gets the i-th address. */
  method FillIndex(p: Platform, num: nat, start: nat, step: nat) returns (index: array<nat>)
    requires 0 < p.word
    ensures index.Length == num
    ensures forall i {:trigger index[i]} :: 0 <= i < num ==> index[i] == Walk(p, start, step, i)
  {
    var msgHdr := start;
    index := new nat[num];
    var i := 0;
    while i < num
      invariant i <= num
      invariant msgHdr == Walk(p, start, step, i)
      invariant forall k {:trigger index[k]} :: 0 <= k < i ==> index[k] == Walk(p, start, step, k)
    {
      index[i] := msgHdr;
      msgHdr := Wrap(p, msgHdr + step);
      i := i + 1;
    }
  }

  function FirstSlot(p: Platform, base: nat, num: nat): nat
    requires 0 < p.word && 0 < p.ptrAlign && 0 < p.msgHdrAlign
  {
    Wrap(p, Wrap(p, base + IndexStart(p)) + WrappedIndexBytes(p, num))
  }

  lemma SlotAddressIsExact(p: Platform, base: nat, num: nat, maxSize: nat, i: nat)
    requires Sound(p) && i < num && base + ExactSize(p, num, maxSize) < p.word
    ensures Walk(p, FirstSlot(p, base, num), WrappedSlotBytes(p, maxSize), i) == base + SlotOffset(p, num, maxSize, i)
  {
    SizeIsExactUnlessItWraps(p, num, maxSize);
    Spaced(i, num, SlotBytes(p, maxSize));
    assert FirstSlot(p, base, num) == base + IndexStart(p) + IndexBytes(p, num);
    WalkIsExact(p, base + IndexStart(p) + IndexBytes(p, num), SlotBytes(p, maxSize), i);
  }

  lemma {:induction false} WalkSame(p: Platform, start: nat, step: nat, start': nat, step': nat, i: nat)
    requires start < p.word && Same(p, start, start') && Same(p, step, step')
    ensures Walk(p, start, step, i) < p.word
    ensures Same(p, Walk(p, start, step, i), start' + i * step')
    decreases i
  {
    if i > 0 {
      var before := Walk(p, start, step, i - 1);
      WalkSame(p, start, step, start', step', i - 1);
      SameSum(p, before, step, start' + (i - 1) * step', step');
      Successor(i - 1, step');
      WrapSame(p, before + step, start' + i * step');
    }
  }

  lemma FirstSlotSame(p: Platform, base: nat, num: nat)
    requires Sound(p) && Multiple(p.word, p.msgHdrAlign)
    ensures FirstSlot(p, base, num) < p.word
    ensures Same(p, FirstSlot(p, base, num), base + IndexStart(p) + IndexBytes(p, num))
  {
    var index := base + IndexStart(p);
    SameRefl(p, index);
    WrapSame(p, index, index);
    WrappedIndexBytesSame(p, num);
    SameSum(p, Wrap(p, index), WrappedIndexBytes(p, num), index, IndexBytes(p, num));
    WrapSame(p, Wrap(p, index) + WrappedIndexBytes(p, num), index + IndexBytes(p, num));
  }

  /** Whatever wraps on the way, the running address of slot i is its place in the layout modulo the word. */
  lemma AddressIsExactModuloWord(p: Platform, base: nat, num: nat, maxSize: nat, i: nat)
    requires Sound(p) && Multiple(p.word, p.msgHdrAlign)
    ensures Walk(p, FirstSlot(p, base, num), WrappedSlotBytes(p, maxSize), i) == Wrap(p, base + SlotOffset(p, num, maxSize, i))
  {
    var first, slot := base + IndexStart(p) + IndexBytes(p, num), SlotBytes(p, maxSize);
    FirstSlotSame(p, base, num);
    WrappedSlotBytesSame(p, maxSize);
    WalkSame(p, FirstSlot(p, base, num), WrappedSlotBytes(p, maxSize), first, slot, i);
    WrapUnique(p, Walk(p, FirstSlot(p, base, num), WrappedSlotBytes(p, maxSize), i), base + SlotOffset(p, num, maxSize, i));
  }

  /** initialize_memory: makes cell i of the index point to message i, at its place in the layout whenever
      the segment lies in the address space and its size does not wrap. */
  method InitializeMemory(p: Platform, base: nat, num: nat, maxSize: nat) returns (index: array<nat>)
    requires Sound(p)
    ensures index.Length == num
    ensures forall i {:trigger index[i]} :: 0 <= i < num ==>
              index[i] == Walk(p, FirstSlot(p, base, num), WrappedSlotBytes(p, maxSize), i)
    ensures base + ExactSize(p, num, maxSize) < p.word ==>
              forall i :: 0 <= i < num ==> index[i] == base + SlotOffset(p, num, maxSize, i)
  {
    index := FillIndex(p, num, FirstSlot(p, base, num), WrappedSlotBytes(p, maxSize));
    if base + ExactSize(p, num, maxSize) < p.word {
      forall k | 0 <= k < num ensures index[k] == base + SlotOffset(p, num, maxSize, k) {
        SlotAddressIsExact(p, base, num, maxSize, k);
      }
    }
  }
}
