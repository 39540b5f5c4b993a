/**
 * The block-bitmap hash index of a map dictionary
 * (dictionary/map_dictionary_definition.h).
 *
 * The hash table is cut into blocks of 128 slots. A block holds four 32-bit
 * masks, one bit per slot (1 = data present, 0 = empty), and a baseOffset,
 * the number of 1 bits in all earlier blocks. The dense offset of a present
 * slot's data is its block's baseOffset plus the number of 1 bits below the
 * slot in its own block. Slot i lives in block i / 128, mask word
 * (i % 128) / 32, bit i % 32 of that word (bit 0 the least significant).
 *
 * The tables are read-only blobs built offline, so everything here is a
 * function over values.
 */
module MapDictionary {

  newtype u32 = x: int | 0 <= x < 0x1_0000_0000

  // ---------------------------------------------------------------------
  // Bits of one 32-bit mask

  /** Bit k of m, bit 0 being the least significant. */
  predicate Bit(m: bv32, k: nat)
    requires k < 32
  {
    if k == 0 then m & 1 == 1 else Bit(m >> 1, k - 1)
  }

  /** The number of 1 bits among the n lowest bits of m, shifting m right one bit at a time. */
  function CountBits(m: bv32, n: nat): nat
    requires n <= 32
  {
    if n == 0 then 0 else (if m & 1 == 1 then 1 else 0) + CountBits(m >> 1, n - 1)
  }

  /** The population count of a whole mask. */
  function PopCount32(m: bv32): nat {
    CountBits(m, 32)
  }

  /** Counting one bit further adds bit n. */
  lemma {:induction false} CountBitsSnoc(m: bv32, n: nat)
    requires n < 32
    ensures CountBits(m, n + 1) == CountBits(m, n) + (if Bit(m, n) then 1 else 0)
  {
    if n > 0 {
      CountBitsSnoc(m >> 1, n - 1);
    }
  }

  // ---------------------------------------------------------------------
  // A block of 128 slots

  /** StenoHashMapEntryBlock: four presence masks and the count of 1 bits in earlier blocks. */
  datatype Block = Block(masks: seq<bv32>, baseOffset: u32) {

    predicate Shaped() {
      |masks| == 4
    }

    /** Slot s of this block holds data. */
    predicate Present(s: nat)
      requires Shaped() && s < 128
    {
      Bit(masks[s / 32], s % 32)
    }

    /** The 1 bits of masks[0 .. w-1]. */
    function WordsPopCount(w: nat): nat
      requires Shaped() && w <= 4
    {
      if w == 0 then 0 else WordsPopCount(w - 1) + PopCount32(masks[w - 1])
    }

    /** PopCount: the 1 bits of all four masks. */
    function PopCount(): nat
      requires Shaped()
    {
      WordsPopCount(4)
    }

    /**
     * The 1 bits below slot s: the whole masks before s's word, and the bits
     * of s's word below s's bit.
     */
    function PopCountBelow(s: nat): nat
      requires Shaped() && s < 128
    {
      var w, j := s / 32, s % 32;
      WordsPopCount(w) + CountBits(masks[w], j)
    }

    /** The reference count: the present slots of this block below slot s, one slot at a time. */
    function RankIn(s: nat): nat
      requires Shaped() && s <= 128
    {
      if s == 0 then 0 else RankIn(s - 1) + (if Present(s - 1) then 1 else 0)
    }
  }

  /** Within word w, the rank grows by the bits of that word. */
  lemma {:induction false} RankWithinWord(b: Block, w: nat, j: nat)
    requires b.Shaped() && w < 4 && j <= 32
    ensures b.RankIn(32 * w + j) == b.RankIn(32 * w) + CountBits(b.masks[w], j)
  {
    if j > 0 {
      RankWithinWord(b, w, j - 1);
      CountBitsSnoc(b.masks[w], j - 1);
      var s := 32 * w + j - 1;
      assert s / 32 == w && s % 32 == j - 1;
    }
  }

  /** The whole words before word w hold as many 1 bits as the slots before slot 32 w. */
  lemma {:induction false} WordsPopCountIsRank(b: Block, w: nat)
    requires b.Shaped() && w <= 4
    ensures b.WordsPopCount(w) == b.RankIn(32 * w)
  {
    if w > 0 {
      WordsPopCountIsRank(b, w - 1);
      RankWithinWord(b, w - 1, 32);
    }
  }

  /** PopCountBelow(s) counts the present slots below s, and PopCount all of them. */
  lemma PopCountBelowIsRank(b: Block, s: nat)
    requires b.Shaped() && s < 128
    ensures b.PopCountBelow(s) == b.RankIn(s)
    ensures b.PopCount() == b.RankIn(128)
  {
    var w, j := s / 32, s % 32;
    WordsPopCountIsRank(b, w);
    RankWithinWord(b, w, j);
    WordsPopCountIsRank(b, 4);
  }

  lemma {:induction false} RankInBound(b: Block, s: nat)
    requires b.Shaped() && s <= 128
    ensures b.RankIn(s) <= s
  {
    if s > 0 {
      RankInBound(b, s - 1);
    }
  }

  // ---------------------------------------------------------------------
  // The table

  /**
   * StenoMapDictionaryStrokesDefinition: the slot count, the blocks, and the
   * addresses of the data region and of the block array (which follows the
   * data, so it also ends the data region).
   */
  datatype StrokesDefinition = StrokesDefinition(
    hashMapSize: nat, dataAddress: nat, offsetsAddress: nat, offsets: seq<Block>)
  {
    /** The slots fill whole blocks, and every block has four masks. */
    predicate Shaped() {
      hashMapSize == 128 * |offsets| &&
      forall b :: 0 <= b < |offsets| ==> offsets[b].Shaped()
    }

    /** The 1 bits of the blocks before block b. */
    function CountBefore(b: nat): nat
      requires Shaped() && b <= |offsets|
    {
      if b == 0 then 0 else CountBefore(b - 1) + offsets[b - 1].PopCount()
    }

    /** The index invariant: every baseOffset is the tally of 1 bits in the earlier blocks. */
    predicate Valid() {
      Shaped() && forall b :: 0 <= b < |offsets| ==> offsets[b].baseOffset as int == CountBefore(b)
    }

    /** HasEntry: the slot's mask bit is set. */
    predicate HasEntry(i: nat)
      requires Shaped() && i < hashMapSize
    {
      offsets[i / 128].Present(i % 128)
    }

    /** GetOffset: the block's baseOffset plus the 1 bits below the slot in its block. */
    function GetOffset(i: nat): nat
      requires Shaped() && i < hashMapSize
    {
      var block := offsets[i / 128];
      block.baseOffset as nat + block.PopCountBelow(i % 128)
    }

    /** GetEntryCount: the last block's baseOffset plus its PopCount; 0 for a table of no blocks. */
    function GetEntryCount(): nat
      requires Shaped()
    {
      if |offsets| == 0 then 0
      else
        var last := offsets[|offsets| - 1];
        last.baseOffset as nat + last.PopCount()
    }

    /** ContainsData: the address lies in the data region, which runs up to the block array. */
    predicate ContainsData(p: int) {
      dataAddress <= p < offsetsAddress
    }

    /** The reference count: the present slots below slot i, one slot at a time. */
    function Rank(i: nat): nat
      requires Shaped() && i <= hashMapSize
    {
      if i == 0 then 0 else Rank(i - 1) + (if HasEntry(i - 1) then 1 else 0)
    }
  }

  // ---------------------------------------------------------------------
  // Properties of the index

  /** Moving one slot on either stays in the block or starts the next one. */
  lemma SlotStep(i: nat)
    requires i > 0
    ensures (i - 1) % 128 == 127 ==> i / 128 == (i - 1) / 128 + 1 && i % 128 == 0
    ensures (i - 1) % 128 != 127 ==> i / 128 == (i - 1) / 128 && i % 128 == (i - 1) % 128 + 1
  {
  }

  /** The rank formula carries over from slot i - 1 to slot i. */
  lemma RankStep(t: StrokesDefinition, i: nat)
    requires t.Shaped() && 0 < i <= t.hashMapSize
    requires t.Rank(i - 1) == t.CountBefore((i - 1) / 128) + t.offsets[(i - 1) / 128].RankIn((i - 1) % 128)
    ensures i < t.hashMapSize ==> t.Rank(i) == t.CountBefore(i / 128) + t.offsets[i / 128].RankIn(i % 128)
    ensures i == t.hashMapSize ==> t.Rank(i) == t.CountBefore(|t.offsets|)
  {
    var b, s := (i - 1) / 128, (i - 1) % 128;
    var blk := t.offsets[b];
    assert blk.Shaped();
    SlotStep(i);
    assert t.Rank(i) == t.Rank(i - 1) + (if blk.Present(s) then 1 else 0);
    assert blk.RankIn(s + 1) == blk.RankIn(s) + (if blk.Present(s) then 1 else 0);
    if s == 127 {
      PopCountBelowIsRank(blk, 0);
      assert t.CountBefore(b + 1) == t.CountBefore(b) + blk.PopCount();
    }
  }

  /**
   * The rank at slot i is the 1 bits of the blocks before i's block plus
   * the present slots below i in its own block.
   */
  lemma {:induction false} RankAt(t: StrokesDefinition, i: nat)
    requires t.Shaped() && i <= t.hashMapSize
    ensures i < t.hashMapSize ==> t.Rank(i) == t.CountBefore(i / 128) + t.offsets[i / 128].RankIn(i % 128)
    ensures i == t.hashMapSize ==> t.Rank(i) == t.CountBefore(|t.offsets|)
  {
    if i > 0 {
      RankAt(t, i - 1);
      RankStep(t, i);
    }
  }

  /** GetOffset(i) is the number of present slots before slot i. */
  lemma GetOffsetIsRank(t: StrokesDefinition, i: nat)
    requires t.Valid() && i < t.hashMapSize
    ensures t.GetOffset(i) == t.Rank(i)
  {
    var b, s := i / 128, i % 128;
    var blk := t.offsets[b];
    assert blk.Shaped();
    assert blk.baseOffset as int == t.CountBefore(b);
    RankAt(t, i);
    PopCountBelowIsRank(blk, s);
  }

  /** GetEntryCount is the number of present slots in the whole table. */
  lemma EntryCountIsTotal(t: StrokesDefinition)
    requires t.Valid()
    ensures t.GetEntryCount() == t.Rank(t.hashMapSize)
  {
    RankAt(t, t.hashMapSize);
    EntryCountIsCountBefore(t);
  }

  lemma EntryCountIsCountBefore(t: StrokesDefinition)
    requires t.Valid()
    ensures t.GetEntryCount() == t.CountBefore(|t.offsets|)
  {
    if |t.offsets| > 0 {
      var b := |t.offsets| - 1;
      assert t.offsets[b].baseOffset as int == t.CountBefore(b);
    }
  }

  /** The baseOffset recurrence: each block's baseOffset is the previous one plus that block's PopCount. */
  lemma BaseOffsetRecurrence(t: StrokesDefinition, b: nat)
    requires t.Valid() && b + 1 < |t.offsets|
    ensures t.offsets[b + 1].baseOffset as int == t.offsets[b].baseOffset as int + t.offsets[b].PopCount()
  {
  }

  /** The rank never decreases, and passes each present slot by one. */
  lemma {:induction false} RankMonotone(t: StrokesDefinition, i: nat, j: nat)
    requires t.Shaped() && i <= j <= t.hashMapSize
    ensures t.Rank(i) <= t.Rank(j)
    ensures i < j && t.HasEntry(i) ==> t.Rank(i) < t.Rank(j)
    decreases j - i
  {
    if i < j {
      RankMonotone(t, i, j - 1);
    }
  }

  /**
   * The dense offsets of present slots strictly increase with the slot
   * index, so no two present slots share one.
   */
  lemma OffsetsIncreasing(t: StrokesDefinition, i: nat, j: nat)
    requires t.Valid() && i < j < t.hashMapSize && t.HasEntry(i)
    ensures t.GetOffset(i) < t.GetOffset(j)
  {
    GetOffsetIsRank(t, i);
    GetOffsetIsRank(t, j);
    RankMonotone(t, i, j);
  }

  /** Distinct present slots have distinct offsets. */
  lemma OffsetsInjective(t: StrokesDefinition, i: nat, j: nat)
    requires t.Valid() && i < t.hashMapSize && j < t.hashMapSize
    requires t.HasEntry(i) && t.HasEntry(j) && i != j
    ensures t.GetOffset(i) != t.GetOffset(j)
  {
    if i < j {
      OffsetsIncreasing(t, i, j);
    } else {
      OffsetsIncreasing(t, j, i);
    }
  }

  /** A present slot's offset is a valid index into the entry data: below GetEntryCount. */
  lemma OffsetInRange(t: StrokesDefinition, i: nat)
    requires t.Valid() && i < t.hashMapSize && t.HasEntry(i)
    ensures t.GetOffset(i) < t.GetEntryCount()
  {
    GetOffsetIsRank(t, i);
    EntryCountIsTotal(t);
    RankMonotone(t, i, t.hashMapSize);
  }

  /**
   * The offsets are dense: every index below GetEntryCount is the offset of
   * exactly one present slot.
   */
  lemma {:induction false} OffsetsDense(t: StrokesDefinition, k: nat)
    requires t.Valid() && k < t.GetEntryCount()
    ensures exists i :: 0 <= i < t.hashMapSize && t.HasEntry(i) && t.GetOffset(i) == k
  {
    EntryCountIsTotal(t);
    var i := RankReaches(t, t.hashMapSize, k);
    GetOffsetIsRank(t, i);
  }

  /** Some present slot below n has exactly k present slots before it, for any k below Rank(n). */
  lemma {:induction false} RankReaches(t: StrokesDefinition, n: nat, k: nat) returns (i: nat)
    requires t.Shaped() && n <= t.hashMapSize && k < t.Rank(n)
    ensures i < n && t.HasEntry(i) && t.Rank(i) == k
  {
    if k < t.Rank(n - 1) {
      i := RankReaches(t, n - 1, k);
    } else {
      i := n - 1;
    }
  }

  /** A block never holds more than 128 entries. */
  lemma PopCountBound(b: Block)
    requires b.Shaped()
    ensures b.PopCount() <= 128
  {
    PopCountBelowIsRank(b, 0);
    RankInBound(b, 128);
  }

  // ---------------------------------------------------------------------
  // The collection header

  /** STENO_MAP_DICTIONARY_COLLECTION_MAGIC. */
  const CollectionMagic: bv32 := 0x3243534a

  /** The four bytes of x in memory order on a little-endian machine. */
  function LittleEndian(x: bv32): (bytes: seq<bv8>)
    ensures |bytes| == 4
  {
    [(x & 0xff) as bv8, ((x >> 8) & 0xff) as bv8, ((x >> 16) & 0xff) as bv8, ((x >> 24) & 0xff) as bv8]
  }

  /** The 32-bit value stored little-endian in four bytes. */
  function FromLittleEndian(bytes: seq<bv8>): bv32
    requires |bytes| == 4
  {
    (bytes[0] as bv32) | ((bytes[1] as bv32) << 8) | ((bytes[2] as bv32) << 16) | ((bytes[3] as bv32) << 24)
  }

  lemma LittleEndianRoundTrip(x: bv32)
    ensures FromLittleEndian(LittleEndian(x)) == x
  {
  }

  lemma ByteFields(b0: bv8, b1: bv8, b2: bv8, b3: bv8)
    ensures var y := (b0 as bv32) | ((b1 as bv32) << 8) | ((b2 as bv32) << 16) | ((b3 as bv32) << 24);
      (y & 0xff) as bv8 == b0 && ((y >> 8) & 0xff) as bv8 == b1 &&
      ((y >> 16) & 0xff) as bv8 == b2 && ((y >> 24) & 0xff) as bv8 == b3
  {
  }

  lemma FromLittleEndianRoundTrip(bytes: seq<bv8>)
    requires |bytes| == 4
    ensures LittleEndian(FromLittleEndian(bytes)) == bytes
  {
    ByteFields(bytes[0], bytes[1], bytes[2], bytes[3]);
  }

  /** The ASCII bytes of a string of 8-bit characters. */
  function Ascii(s: string): (bytes: seq<bv8>)
    requires forall k :: 0 <= k < |s| ==> s[k] as int < 256
    ensures |bytes| == |s|
  {
    if s == [] then [] else [s[0] as int as bv8] + Ascii(s[1..])
  }

  /** A header starts with the magic, read as a little-endian 32-bit field. */
  predicate HasCollectionMagic(header: seq<bv8>) {
    |header| >= 4 && FromLittleEndian(header[..4]) == CollectionMagic
  }

  /**
   * In memory the magic reads "JSC2" (not the "JSC1" its comment gives), so
   * a header is recognised exactly when it starts with those four letters.
   */
  lemma MagicIsJSC2(header: seq<bv8>)
    ensures LittleEndian(CollectionMagic) == Ascii("JSC2")
    ensures HasCollectionMagic(header) <==> |header| >= 4 && header[..4] == Ascii("JSC2")
  {
    assert Ascii("JSC2") == [0x4a, 0x53, 0x43, 0x32];
    if |header| >= 4 {
      FromLittleEndianRoundTrip(header[..4]);
    }
  }
}
