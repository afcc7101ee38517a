/** How a multipart upload is cut into parts: the 16-bit part count and the loop that computes the
    window of every part. */
module PartPlan {
  import opened Words

  /** The bytes [offset, offset + length) of the object. */
  datatype Window = Window(offset: nat, length: nat)

  /** The number of parts the object needs. */
  function Needed(size: nat, splitSize: nat): (n: nat)
    requires splitSize > 0
  {
    size / splitSize + if size % splitSize != 0 then 1 else 0
  }

  /** `static_cast<uint16_t>` of it. */
  function PartCount(size: nat, splitSize: nat): (n: nat)
    requires splitSize > 0
    ensures n < WORD16
  {
    Needed(size, splitSize) % WORD16
  }

  /** The windows are contiguous, non-empty, start at 0 and end at `size`. */
  ghost predicate Tiles(w: seq<Window>, size: nat) {
    w != [] && Contiguous(w, size)
  }

  lemma NeededBounds(size: nat, splitSize: nat)
    requires splitSize > 0
    ensures size <= splitSize * Needed(size, splitSize) < size + splitSize
  {
    var q, r := size / splitSize, size % splitSize;
    assert size == splitSize * q + r;
    assert splitSize * (q + 1) == splitSize * q + splitSize;
  }

  lemma MulMonotone(d: nat, a: nat, b: nat)
    requires a <= b
    ensures d * a <= d * b
  {
    MulCases(d, b - a);
    assert d * (b - a) == d * b - d * a;
  }

  /** Where part k + 1 starts. */
  function PartOffset(splitSize: nat, k: nat): nat {
    if k == 0 then 0 else PartOffset(splitSize, k - 1) + splitSize
  }

  lemma {:induction false} PartOffsetIsProduct(splitSize: nat, k: nat)
    ensures PartOffset(splitSize, k) == splitSize * k
  {
    if k > 0 {
      PartOffsetIsProduct(splitSize, k - 1);
      assert splitSize * k == splitSize * (k - 1) + splitSize;
    }
  }

  ghost predicate Contiguous(w: seq<Window>, end: nat) {
    && (forall k :: 0 <= k < |w| ==> w[k].length > 0)
    && (forall k :: 0 < k < |w| ==> w[k].offset == w[k - 1].offset + w[k - 1].length)
    && (if w == [] then end == 0 else w[0].offset == 0 && w[|w| - 1].offset + w[|w| - 1].length == end)
  }

  lemma ContiguousSnoc(w: seq<Window>, end: nat, length: nat)
    requires Contiguous(w, end) && length > 0
    ensures Contiguous(w + [Window(end, length)], end + length)
  {
  }

  /** What the loop has done when it is about to plan part `i`. */
  ghost predicate Planned(w: seq<Window>, size: nat, splitSize: nat, parts: nat, i: nat, offset: nat) {
    && 1 <= i <= parts + 1 && |w| == i - 1 && Contiguous(w, offset)
    && (i <= parts ==> offset == PartOffset(splitSize, i - 1) < size)
    && (i == parts + 1 && parts > 0 ==> offset == size)
    && (forall k :: 0 <= k < |w| && k < parts - 1 ==> w[k].length == splitSize)
    && (i == parts + 1 && parts > 0 ==> w[parts - 1].length == size - PartOffset(splitSize, parts - 1))
  }

  lemma PlanOne(w: seq<Window>, size: nat, splitSize: nat, parts: nat, i: nat, offset: nat)
    requires 0 < splitSize && Planned(w, size, splitSize, parts, i, offset) && i <= parts
    requires i < parts ==> PartOffset(splitSize, i) < size
    ensures var partSize := if i != parts then splitSize else size - offset;
            partSize > 0 && offset + partSize <= size
            && Planned(w + [Window(offset, partSize)], size, splitSize, parts, i + 1, offset + partSize)
  {
    ContiguousSnoc(w, offset, if i != parts then splitSize else size - offset);
  }

  lemma {:induction false} PartOffsetGrows(splitSize: nat, a: nat, b: nat)
    requires a <= b
    ensures PartOffset(splitSize, a) <= PartOffset(splitSize, b)
  {
    if a < b { PartOffsetGrows(splitSize, a, b - 1); }
  }

  /** The loop of `uploadMessages`, with its 16-bit index. */
  method PartLoop(size: nat, splitSize: nat, parts: nat) returns (windows: seq<Window>)
    requires 0 < splitSize && 0 < size < WORD && parts < WORD16 - 1
    requires parts > 0 ==> PartOffset(splitSize, parts - 1) < size
    ensures |windows| == parts
    ensures Tiles(windows, size) <==> parts > 0
    ensures forall k :: 0 <= k < parts - 1 ==> windows[k].length == splitSize
    ensures parts > 0 ==> windows[parts - 1].length == size - PartOffset(splitSize, parts - 1)
  {
    var offset: nat := 0;
    var i: nat := 1;
    windows := [];
    if parts > 0 { PartOffsetGrows(splitSize, 0, parts - 1); }
    while i <= parts
      invariant Planned(windows, size, splitSize, parts, i, offset)
      decreases parts + 1 - i
    {
      if i < parts { PartOffsetGrows(splitSize, i, parts - 1); }
      var partSize := if i != parts then splitSize else Sub64(size, offset);
      PlanOne(windows, size, splitSize, parts, i, offset);
      windows := windows + [Window(offset, partSize)];
      offset := Add64(offset, partSize);
      i := Inc16(i);
    }
  }

  /** The parts of an object: they tile it unless the 16-bit count wrapped to zero, and the last one
      outgrows `splitSize` exactly if the count overflowed.  A count of 65535 would never leave the
      loop (IndexLeavesLoop). */
  method SplitParts(size: nat, splitSize: nat) returns (windows: seq<Window>)
    requires 0 < splitSize && 0 < size < WORD
    requires PartCount(size, splitSize) < WORD16 - 1
    ensures |windows| == PartCount(size, splitSize)
    ensures Tiles(windows, size) <==> PartCount(size, splitSize) > 0
    ensures forall k :: 0 <= k < |windows| - 1 ==> windows[k].length == splitSize
    ensures |windows| > 0 ==> (windows[|windows| - 1].length <= splitSize <==> Needed(size, splitSize) < WORD16)
  {
    var parts := PartCount(size, splitSize);
    if parts > 0 { LastWindow(size, splitSize, parts); }
    windows := PartLoop(size, splitSize, parts);
  }

  /** The last part starts inside the object, and the rest fits it exactly if the count did not
      overflow. */
  lemma LastWindow(size: nat, splitSize: nat, parts: nat)
    requires 0 < splitSize && 0 < size < WORD && parts == PartCount(size, splitSize) > 0
    ensures PartOffset(splitSize, parts - 1) < size
    ensures size - PartOffset(splitSize, parts - 1) <= splitSize <==> Needed(size, splitSize) < WORD16
  {
    PartOffsetIsProduct(splitSize, parts - 1);
    var needed := Needed(size, splitSize);
    NeededBounds(size, splitSize);
    assert splitSize * (needed - 1) == splitSize * needed - splitSize;
    MulMonotone(splitSize, parts - 1, needed - 1);
    assert splitSize * parts == splitSize * (parts - 1) + splitSize;
    if needed >= WORD16 {
      MulMonotone(splitSize, parts, needed - 1);
    }
  }

  /** For every split size up to about 2^48 there are objects of less than 2^64 bytes with part counts that go wrong: one is left
      without parts, one becomes a single part that is too large, and for one the loop does not end (IndexLeavesLoop). */
  lemma CountsThatWrap(splitSize: nat)
    requires splitSize > 0
    ensures PartCount(WORD16 * splitSize, splitSize) == 0
    ensures splitSize > 1 ==> PartCount(WORD16 * splitSize + 1, splitSize) == 1
    ensures PartCount((WORD16 - 1) * splitSize, splitSize) == WORD16 - 1
    ensures splitSize < WORD / WORD16 ==> WORD16 * splitSize + 1 < WORD
  {
    ModUnique(splitSize, WORD16 * splitSize, WORD16, 0);
    ModUnique(splitSize, (WORD16 - 1) * splitSize, WORD16 - 1, 0);
    if splitSize > 1 { ModUnique(splitSize, WORD16 * splitSize + 1, WORD16, 1); }
  }

  /** An object of less than 2^64 bytes that is left without parts exists exactly for the split sizes of which 65535 leave
      room for one more byte. */
  lemma SomeObjectWraps(splitSize: nat)
    requires splitSize > 0
    ensures (exists size: nat :: 0 < size < WORD && PartCount(size, splitSize) == 0) <==> (WORD16 - 1) * splitSize + 1 < WORD
  {
    var least := (WORD16 - 1) * splitSize + 1;
    if splitSize == 1 { ModUnique(1, least, WORD16, 0); } else { ModUnique(splitSize, least, WORD16 - 1, 1); }
    assert PartCount(least, splitSize) == 0;
    if size: nat :| 0 < size < WORD && PartCount(size, splitSize) == 0 {
      WrappedIsLarge(size, splitSize);
    }
  }

  lemma WrappedIsLarge(size: nat, splitSize: nat)
    requires splitSize > 0 && size > 0 && PartCount(size, splitSize) == 0
    ensures size > (WORD16 - 1) * splitSize
  {
    var needed := Needed(size, splitSize);
    NeededBounds(size, splitSize);
    assert needed >= WORD16;
    MulMonotone(splitSize, WORD16, needed);
  }

  /** With the 16-bit index the loop `for (i = 1; i <= parts; i++)` reaches its end exactly for a
      count below 65535. */
  lemma IndexLeavesLoop(parts: nat)
    requires parts < WORD16
    ensures (exists k: nat :: IndexAfter(k) > parts) <==> parts < WORD16 - 1
  {
    if parts < WORD16 - 1 {
      assert IndexAfter(parts) > parts;
    }
  }

  /** The loop index after `k` increments. */
  function IndexAfter(k: nat): nat {
    (1 + k) % WORD16
  }
}
