/**
 * The C datastore table of fastsimplexordatastore.c: sixteen slots, each
 * either empty or holding a store of numberofblocks * sizeofablock bytes,
 * and the operations on a slot -- allocate, deallocate, read and write raw
 * bytes, and XOR together the blocks that a bitstring selects.
 *
 * The store bytes live in an `array<bv8>` per slot and are changed in place;
 * the table itself is the sequence of slots.  The DWORD-aligned copy of the
 * store pointer (`datastore` next to `raw_datastore`) is one array here.
 */
module XorTable {
  import opened Outcomes
  import Polynomial

  /** STARTING_XORDATASTORE_TABLESIZE: the table never grows. */
  const TableSize := 16

  /** Byte-wise XOR of two strings of the same length. */
  function Xored(a: seq<bv8>, b: seq<bv8>): (r: seq<bv8>)
    requires |a| == |b|
    ensures |r| == |a|
  {
    seq(|a|, i requires 0 <= i < |a| => a[i] ^ b[i])
  }

  /** XORing the same string twice gives back the original. */
  lemma XoredInvolution(a: seq<bv8>, b: seq<bv8>)
    requires |a| == |b|
    ensures Xored(Xored(a, b), b) == a
  {
    assert forall i :: 0 <= i < |a| ==> Xored(Xored(a, b), b)[i] == a[i];
  }

  /** XOR with zeros is the identity. */
  lemma XoredZeros(a: seq<bv8>)
    ensures Xored(Polynomial.Zeros(|a|), a) == a
  {
    assert forall i :: 0 <= i < |a| ==> Xored(Polynomial.Zeros(|a|), a)[i] == a[i];
  }

  /** (a ^ c) ^ (b ^ c) == a ^ b, byte by byte. */
  lemma XoredCancel(a: seq<bv8>, b: seq<bv8>, c: seq<bv8>)
    requires |a| == |b| == |c|
    ensures Xored(Xored(a, c), Xored(b, c)) == Xored(a, b)
  {
    assert forall i :: 0 <= i < |a| ==> Xored(Xored(a, c), Xored(b, c))[i] == Xored(a, b)[i];
  }

  /** (a ^ c) ^ b == (a ^ b) ^ c, byte by byte. */
  lemma XoredSwap(a: seq<bv8>, b: seq<bv8>, c: seq<bv8>)
    requires |a| == |b| == |c|
    ensures Xored(Xored(a, c), b) == Xored(Xored(a, b), c)
  {
    assert forall i :: 0 <= i < |a| ==> Xored(Xored(a, c), b)[i] == Xored(Xored(a, b), c)[i];
  }

  /** a ^ (b ^ c) == (a ^ b) ^ c, byte by byte. */
  lemma XoredAssoc(a: seq<bv8>, b: seq<bv8>, c: seq<bv8>)
    requires |a| == |b| == |c|
    ensures Xored(a, Xored(b, c)) == Xored(Xored(a, b), c)
  {
    assert forall i :: 0 <= i < |a| ==> Xored(a, Xored(b, c))[i] == Xored(Xored(a, b), c)[i];
  }

  // ------------------------------------------------------------------
  // Bitstrings and blocks
  // ------------------------------------------------------------------

  /** The mask for bit j of a byte, counting from the most significant. */
  function Mask(j: nat): bv8
    requires j < 8
  {
    [128, 64, 32, 16, 8, 4, 2, 1][j]
  }

  /** Bit j of a byte, counting from the most significant. */
  predicate ByteBit(b: bv8, j: nat)
    requires j < 8
  {
    b & Mask(j) != 0
  }

  /** Bit k of a bitstring: byte k / 8, most significant bit first. */
  predicate Bit(bits: seq<bv8>, k: nat)
    requires k < 8 * |bits|
  {
    ByteBit(bits[k / 8], k % 8)
  }

  /** A bit of an XOR of two bitstrings is set iff exactly one of theirs is. */
  lemma BitOfXored(b1: seq<bv8>, b2: seq<bv8>, k: nat)
    requires |b1| == |b2| && k < 8 * |b1|
    ensures Bit(Xored(b1, b2), k) <==> Bit(b1, k) != Bit(b2, k)
  {
    hide ByteBit;
    assert Xored(b1, b2)[k / 8] == b1[k / 8] ^ b2[k / 8];
    ByteBitOfXor(b1[k / 8], b2[k / 8], k % 8);
  }

  lemma ByteBitOfXor(x: bv8, y: bv8, j: nat)
    requires j < 8
    ensures ByteBit(x ^ y, j) <==> ByteBit(x, j) != ByteBit(y, j)
  {
    var m := Mask(j);
    if j == 0 { assert m == 128; }
    else if j == 1 { assert m == 64; }
    else if j == 2 { assert m == 32; }
    else if j == 3 { assert m == 16; }
    else if j == 4 { assert m == 8; }
    else if j == 5 { assert m == 4; }
    else if j == 6 { assert m == 2; }
    else { assert m == 1; }
  }

  lemma MulStep(k: nat, size: nat)
    ensures (k + 1) * size == k * size + size
  {
  }

  lemma MulMono(k: nat, n: nat, size: nat)
    requires k <= n
    ensures k * size <= n * size
  {
  }

  /** The first n blocks of `size` bytes each, cut from the store in order. */
  function Blocks(store: seq<bv8>, size: nat, n: nat): (r: seq<seq<bv8>>)
    requires n * size <= |store|
    ensures |r| == n
    ensures Uniform(r, size)
    decreases n
  {
    if n == 0 then []
    else
      MulStep(n - 1, size);
      Blocks(store, size, n - 1) + [store[(n - 1) * size .. n * size]]
  }

  /** Every block has `size` bytes. */
  predicate Uniform(blocks: seq<seq<bv8>>, size: nat)
  {
    forall k :: 0 <= k < |blocks| ==> |blocks[k]| == size
  }

  /** Block k is the bytes k * size up to (k + 1) * size of the store. */
  lemma {:induction false} BlockAt(store: seq<bv8>, size: nat, n: nat, k: nat)
    requires n * size <= |store| && k < n
    ensures Offset(k, size) + size <= |store| && Offset(k + 1, size) == Offset(k, size) + size
    ensures Blocks(store, size, n)[k] == store[Offset(k, size) .. Offset(k, size) + size]
    decreases n
  {
    MulStep(k, size);
    MulMono(k + 1, n, size);
    if k < n - 1 {
      MulStep(n - 1, size);
      BlockAt(store, size, n - 1, k);
    }
  }

  /** acc XORed with every block k < m whose bit is set, block 0 first. */
  function XorOfSelected(blocks: seq<seq<bv8>>, bits: seq<bv8>, m: nat, acc: seq<bv8>): (r: seq<bv8>)
    requires Uniform(blocks, |acc|)
    requires m <= |blocks| && m <= 8 * |bits|
    ensures |r| == |acc|
    decreases m
  {
    if m == 0 then acc
    else
      var prev := XorOfSelected(blocks, bits, m - 1, acc);
      if Bit(bits, m - 1) then Xored(prev, blocks[m - 1]) else prev
  }

  /** How many bits of the bitstring select a block: at most one per block. */
  function Selectable(numberofblocks: nat, bits: seq<bv8>): (r: nat)
    ensures r <= numberofblocks && r <= 8 * |bits|
    ensures r == numberofblocks || r == 8 * |bits|
  {
    if numberofblocks < 8 * |bits| then numberofblocks else 8 * |bits|
  }

  /** A bitstring of `len` bytes with bit k alone set. */
  function OneHot(len: nat, k: nat): (r: seq<bv8>)
    requires k < 8 * len
    ensures |r| == len
    ensures forall j :: 0 <= j < 8 * len ==> (Bit(r, j) <==> j == k)
  {
    var r := Polynomial.Zeros(len)[k / 8 := Mask(k % 8)];
    assert forall j :: 0 <= j < 8 * len ==> (Bit(r, j) <==> j == k) by {
      forall j | 0 <= j < 8 * len
        ensures Bit(r, j) <==> j == k
      {
        hide ByteBit;
        ByteBitOfMask(k % 8, j % 8);
        ByteBitOfZero(j % 8);
        assert j == k <==> j / 8 == k / 8 && j % 8 == k % 8;
      }
    }
    r
  }

  /** Bit j of the mask for bit i is set iff i == j. */
  lemma ByteBitOfMask(i: nat, j: nat)
    requires i < 8 && j < 8
    ensures ByteBit(Mask(i), j) <==> i == j
  {
  }

  lemma ByteBitOfZero(j: nat)
    requires j < 8
    ensures !ByteBit(0, j)
  {
  }

  /**
   * Retrieval: a bitstring with the single bit k set, k a block of the
   * store, produces exactly block k.
   */
  lemma {:induction false} SingleBitSelectsBlock(blocks: seq<seq<bv8>>, size: nat, len: nat, k: nat, m: nat)
    requires Uniform(blocks, size)
    requires k < m <= |blocks| && m <= 8 * len
    ensures XorOfSelected(blocks, OneHot(len, k), m, Polynomial.Zeros(size)) == blocks[k]
    decreases m
  {
    hide XorOfSelected;
    if m - 1 == k {
      SelectedAtItsBit(blocks, size, len, k);
    } else {
      SingleBitSelectsBlock(blocks, size, len, k, m - 1);
      SelectStep(blocks, OneHot(len, k), m - 1, Polynomial.Zeros(size));
    }
  }

  /** The single set bit k adds block k to the still-zero accumulator. */
  lemma SelectedAtItsBit(blocks: seq<seq<bv8>>, size: nat, len: nat, k: nat)
    requires Uniform(blocks, size)
    requires k < |blocks| && k < 8 * len
    ensures XorOfSelected(blocks, OneHot(len, k), k + 1, Polynomial.Zeros(size)) == blocks[k]
  {
    var bits, zero := OneHot(len, k), Polynomial.Zeros(size);
    assert |blocks[k]| == size;
    hide *;
    NothingSelectedBelow(blocks, size, len, k, k);
    SelectStep(blocks, bits, k, zero);
    XoredZeros(blocks[k]);
  }

  /** Below the set bit nothing is selected: the accumulator stays zero. */
  lemma {:induction false} NothingSelectedBelow(blocks: seq<seq<bv8>>, size: nat, len: nat, k: nat, m: nat)
    requires Uniform(blocks, size)
    requires m <= k < |blocks| && k < 8 * len
    ensures XorOfSelected(blocks, OneHot(len, k), m, Polynomial.Zeros(size)) == Polynomial.Zeros(size)
    decreases m
  {
    if m > 0 {
      var bits, zero := OneHot(len, k), Polynomial.Zeros(size);
      assert !Bit(bits, m - 1);
      hide *;
      NothingSelectedBelow(blocks, size, len, k, m - 1);
      SelectStep(blocks, bits, m - 1, zero);
    }
  }

  /**
   * Linearity: the answer for the XOR of two bitstrings is the XOR of the
   * two answers.  This is what lets a client XOR the answers of two mirrors
   * whose bitstrings differ in one bit to obtain that bit's block.
   */
  lemma {:induction false} XorOfSelectedLinear(blocks: seq<seq<bv8>>, size: nat, b1: seq<bv8>, b2: seq<bv8>, m: nat)
    requires Uniform(blocks, size) && |b1| == |b2|
    requires m <= |blocks| && m <= 8 * |b1|
    ensures XorOfSelected(blocks, Xored(b1, b2), m, Polynomial.Zeros(size))
         == Xored(XorOfSelected(blocks, b1, m, Polynomial.Zeros(size)), XorOfSelected(blocks, b2, m, Polynomial.Zeros(size)))
    decreases m
  {
    var zero := Polynomial.Zeros(size);
    if m == 0 {
      assert forall i :: 0 <= i < size ==> Xored(zero, zero)[i] == zero[i];
    } else {
      var x := Xored(b1, b2);
      var p1 := XorOfSelected(blocks, b1, m - 1, zero);
      var p2 := XorOfSelected(blocks, b2, m - 1, zero);
      var q := XorOfSelected(blocks, x, m - 1, zero);
      var blk := blocks[m - 1];
      var r1 := XorOfSelected(blocks, b1, m, zero);
      var r2 := XorOfSelected(blocks, b2, m, zero);
      var r := XorOfSelected(blocks, x, m, zero);
      assert |blk| == |p1| == |p2| == |q| == size && |x| == |b1|;
      hide XorOfSelected, Xored;
      XorOfSelectedLinear(blocks, size, b1, b2, m - 1);
      assert q == Xored(p1, p2);
      BitOfXored(b1, b2, m - 1);
      SelectStep(blocks, b1, m - 1, zero);
      SelectStep(blocks, b2, m - 1, zero);
      SelectStep(blocks, x, m - 1, zero);
      if Bit(b1, m - 1) && Bit(b2, m - 1) {
        XoredCancel(p1, p2, blk);
        assert r == q && r1 == Xored(p1, blk) && r2 == Xored(p2, blk);
      } else if Bit(b1, m - 1) {
        XoredSwap(p1, p2, blk);
        assert r == Xored(q, blk) && r1 == Xored(p1, blk) && r2 == p2;
      } else if Bit(b2, m - 1) {
        XoredAssoc(p1, p2, blk);
        assert r == Xored(q, blk) && r1 == p1 && r2 == Xored(p2, blk);
      } else {
        assert r == q && r1 == p1 && r2 == p2;
      }
    }
  }

  /** Bits past m play no part: bitstrings that agree below m give one answer. */
  lemma {:induction false} SurplusBitsIgnored(blocks: seq<seq<bv8>>, b1: seq<bv8>, b2: seq<bv8>, m: nat, acc: seq<bv8>)
    requires Uniform(blocks, |acc|)
    requires m <= |blocks| && m <= 8 * |b1| && m <= 8 * |b2|
    requires forall k :: 0 <= k < m ==> (Bit(b1, k) <==> Bit(b2, k))
    ensures XorOfSelected(blocks, b1, m, acc) == XorOfSelected(blocks, b2, m, acc)
    decreases m
  {
    if m > 0 {
      SurplusBitsIgnored(blocks, b1, b2, m - 1, acc);
    }
  }

  /**
   * The blocks that the C worker XORs in: one for every set bit among all
   * 8 * |bits| bits, including those past the last block of the store.
   */
  function BlocksReadAsWritten(bits: seq<bv8>): (r: set<nat>)
    ensures forall k: nat :: k in r <==> k < 8 * |bits| && Bit(bits, k)
  {
    set k: nat | k < 8 * |bits| && Bit(bits, k)
  }

  /**
   * Whenever the block count is not a multiple of 8, a bitstring of the
   * length the wrapper demands can make the C worker read block n, which
   * lies past the n blocks of the store.
   */
  lemma SurplusBitReadsPastStore(n: nat)
    requires n % 8 != 0
    ensures exists bits: seq<bv8> :: |bits| == (n + 7) / 8 && n in BlocksReadAsWritten(bits)
  {
    var bits := OneHot((n + 7) / 8, n);
    assert n in BlocksReadAsWritten(bits);
  }

  /** The bytes of s with data written over them from offset on. */
  function Overwritten(s: seq<bv8>, offset: nat, data: seq<bv8>): (r: seq<bv8>)
    requires offset + |data| <= |s|
    ensures |r| == |s|
  {
    s[..offset] + data + s[offset + |data|..]
  }

  /** What was written reads back, and every other byte is as before. */
  lemma OverwrittenReadBack(s: seq<bv8>, offset: nat, data: seq<bv8>)
    requires offset + |data| <= |s|
    ensures Overwritten(s, offset, data)[offset .. offset + |data|] == data
    ensures forall j :: 0 <= j < |s| && !(offset <= j < offset + |data|) ==> Overwritten(s, offset, data)[j] == s[j]
  {
    var r := Overwritten(s, offset, data);
    assert forall j :: 0 <= j < |data| ==> r[offset + j] == data[j];
  }

  // ------------------------------------------------------------------
  // In-place XOR
  // ------------------------------------------------------------------

  /**
   * XOR_byteblocks: XOR the first count bytes of data into dest in place;
   * the rest of dest is untouched.  XOR_fullblocks does the same eight
   * bytes at a time.
   */
  method XorByteBlocks(dest: array<bv8>, data: seq<bv8>, count: int)
    requires 0 <= count <= |data| && count <= dest.Length
    modifies dest
    ensures dest[..] == XoredPrefix(old(dest[..]), data, count)
  {
    var i := 0;
    while i < count
      invariant 0 <= i <= count
      invariant forall j :: 0 <= j < i ==> dest[j] == old(dest[j]) ^ data[j]
      invariant forall j :: i <= j < dest.Length ==> dest[j] == old(dest[j])
    {
      dest[i] := dest[i] ^ data[i];
      i := i + 1;
    }
    assert forall j :: 0 <= j < dest.Length ==> dest[j] == XoredPrefix(old(dest[..]), data, count)[j];
  }

  /** The first count bytes of d XORed with those of data; the rest of d as is. */
  function XoredPrefix(d: seq<bv8>, data: seq<bv8>, count: nat): (r: seq<bv8>)
    requires count <= |d| && count <= |data|
    ensures |r| == |d|
  {
    Xored(d[..count], data[..count]) + d[count..]
  }

  /** When count covers both strings, XoredPrefix is the whole XOR. */
  lemma XoredPrefixWhole(d: seq<bv8>, data: seq<bv8>)
    requires |d| == |data|
    ensures XoredPrefix(d, data, |d|) == Xored(d, data)
  {
    assert d[..|d|] == d && data[..|d|] == data && d[|d|..] == [];
  }

  /**
   * The C do_xor given its three arguments: copy str1 into a fresh buffer
   * and XOR the first `length` bytes of str2 into it.
   */
  method DoXorC(str1: seq<bv8>, str2: seq<bv8>, length: int) returns (r: seq<bv8>)
    requires 0 <= length <= |str1| && length <= |str2|
    ensures r == Xored(str1[..length], str2[..length])
  {
    var buffer := new bv8[length](i requires 0 <= i < length => str1[i]);
    assert buffer[..] == str1[..length];
    XorByteBlocks(buffer, str2[..length], length);
    r := buffer[..];
    XoredPrefixWhole(str1[..length], str2[..length]);
  }

  // ------------------------------------------------------------------
  // The table
  // ------------------------------------------------------------------

  /** A used table entry: its shape and its store. */
  class Slot {
    const numberofblocks: nat
    const sizeofablock: nat
    const store: array<bv8>

    /** malloc followed by bzero: a store of zero bytes. */
    constructor(blocksize: nat, numblocks: nat)
      ensures numberofblocks == numblocks && sizeofablock == blocksize
      ensures fresh(store) && store[..] == Polynomial.Zeros(numblocks * blocksize)
    {
      numberofblocks := numblocks;
      sizeofablock := blocksize;
      var bytes := new bv8[numblocks * blocksize](_ => 0);
      assert bytes[..] == Polynomial.Zeros(numblocks * blocksize);
      store := bytes;
    }

    predicate Sized()
    {
      store.Length == numberofblocks * sizeofablock
    }
  }

  /**
   * BitstringXorWorker: walk the bitstring most significant bit first, one
   * block of the store per bit, XORing the selected blocks into result.
   * The store is passed as its bytes, which nothing changes during the walk.
   * The walk stops at the last block of the store (see SurplusBitReadsPastStore
   * for the C loop, which runs over every bit of the bitstring).
   */
  method BitstringXorWorker(store: seq<bv8>, numberofblocks: nat, sizeofablock: nat, bits: seq<bv8>, result: array<bv8>)
    requires |store| == numberofblocks * sizeofablock && result.Length == sizeofablock
    modifies result
    ensures result[..] == XorOfSelected(Blocks(store, sizeofablock, numberofblocks),
                                        bits, Selectable(numberofblocks, bits), old(result[..]))
  {
    var size := sizeofablock;
    ghost var init := result[..];
    var remaininglength := Selectable(numberofblocks, bits);
    ghost var count := remaininglength;
    var pos := 0;
    var offset := 0;
    var bit: bv8 := 128;
    ghost var k := 0;
    WalkStart(store, numberofblocks, size, bits, init);
    hide *;
    while remaininglength > 0
      invariant k <= count && remaininglength == count - k
      invariant Walked(store, numberofblocks, size, bits, init, k, pos, bit, offset, result[..])
    {
      WalkStep(store, numberofblocks, size, bits, init, k, pos, bit, offset, result[..]);
      XorBlockIfSelected(result, store[offset .. offset + size], Selected(bits[pos], bit));
      offset := offset + size;
      bit := bit / 2;
      remaininglength := remaininglength - 1;
      k := k + 1;
      if bit == 0 {
        bit := 128;
        pos := pos + 1;
      }
    }
    WalkDone(store, numberofblocks, size, bits, init, k, pos, bit, offset, result[..]);
  }

  /**
   * The worker's state after k bits: the cursor (byte pos, mask bit) is at
   * bit k, offset at block k, and acc holds the XOR of the selected blocks
   * below k into init.
   */
  ghost predicate Walked(store: seq<bv8>, n: nat, size: nat, bits: seq<bv8>, init: seq<bv8>,
                         k: nat, pos: int, bit: bv8, offset: int, acc: seq<bv8>)
  {
    && |store| == n * size && |init| == size
    && k <= Selectable(n, bits)
    && pos == k / 8 && bit == Mask(k % 8)
    && offset == Offset(k, size)
    && acc == XorOfSelected(Blocks(store, size, n), bits, k, init)
  }

  /** Before the first bit nothing is XORed in. */
  lemma WalkStart(store: seq<bv8>, n: nat, size: nat, bits: seq<bv8>, init: seq<bv8>)
    requires |store| == n * size && |init| == size
    ensures Walked(store, n, size, bits, init, 0, 0, 128, 0, init)
  {
    assert Mask(0) == 128 && Offset(0, size) == 0;
  }

  /**
   * One iteration of the worker: block k is XORed in when its bit is set,
   * and the cursor moves to bit k + 1, to the next byte after bit 7.
   */
  lemma WalkStep(store: seq<bv8>, n: nat, size: nat, bits: seq<bv8>, init: seq<bv8>,
                 k: nat, pos: int, bit: bv8, offset: int, acc: seq<bv8>)
    requires Walked(store, n, size, bits, init, k, pos, bit, offset, acc) && k < Selectable(n, bits)
    ensures 0 <= pos < |bits| && 0 <= offset && offset + size <= |store| && |acc| == size
    ensures var after := if Selected(bits[pos], bit) then Xored(acc, store[offset .. offset + size]) else acc;
            && (bit / 2 == 0 ==> Walked(store, n, size, bits, init, k + 1, pos + 1, 128, offset + size, after))
            && (bit / 2 != 0 ==> Walked(store, n, size, bits, init, k + 1, pos, bit / 2, offset + size, after))
  {
    var blocks := Blocks(store, size, n);
    BlockAt(store, size, n, k);
    BitAt(bits, k);
    SelectStep(blocks, bits, k, init);
    NextBit(bit, k);
  }

  /** After the last selectable bit the accumulator is the answer. */
  lemma WalkDone(store: seq<bv8>, n: nat, size: nat, bits: seq<bv8>, init: seq<bv8>,
                 k: nat, pos: int, bit: bv8, offset: int, acc: seq<bv8>)
    requires Walked(store, n, size, bits, init, k, pos, bit, offset, acc) && k == Selectable(n, bits)
    ensures acc == XorOfSelected(Blocks(store, size, n), bits, Selectable(n, bits), init)
  {
  }

  /** One step of the walk: XOR the block into result when its bit is set. */
  method XorBlockIfSelected(result: array<bv8>, block: seq<bv8>, selected: bool)
    requires |block| == result.Length
    modifies result
    ensures result[..] == if selected then Xored(old(result[..]), block) else old(result[..])
  {
    if selected {
      XorByteBlocks(result, block, |block|);
      XoredPrefixWhole(old(result[..]), block);
    }
  }

  /** The C test `bitstring[pos] & bit`: does byte b have the mask bit set? */
  predicate Selected(b: bv8, bit: bv8)
  {
    b & bit != 0
  }

  /** Halving the mask of bit k % 8 gives the mask of bit k + 1, or zero at a byte's end. */
  lemma NextBit(bit: bv8, k: nat)
    requires bit == Mask(k % 8)
    ensures bit / 2 == 0 <==> (k + 1) % 8 == 0
    ensures bit / 2 != 0 ==> bit / 2 == Mask((k + 1) % 8) && (k + 1) / 8 == k / 8
    ensures bit / 2 == 0 ==> (k + 1) / 8 == k / 8 + 1 && Mask((k + 1) % 8) == 128
  {
    var j := k % 8;
    assert (k + 1) % 8 == if j == 7 then 0 else j + 1;
    assert (k + 1) / 8 == if j == 7 then k / 8 + 1 else k / 8;
  }

  /** The byte offset of block k. */
  ghost function Offset(k: nat, size: nat): nat
  {
    k * size
  }

  /** One more block: XorOfSelected grows by block k exactly when bit k is set. */
  lemma SelectStep(blocks: seq<seq<bv8>>, bits: seq<bv8>, k: nat, acc: seq<bv8>)
    requires Uniform(blocks, |acc|) && k < |blocks| && k < 8 * |bits|
    ensures XorOfSelected(blocks, bits, k + 1, acc)
         == if Bit(bits, k) then Xored(XorOfSelected(blocks, bits, k, acc), blocks[k]) else XorOfSelected(blocks, bits, k, acc)
  {
  }

  /** Bit k of a bitstring is the mask test on its byte k / 8. */
  lemma BitAt(bits: seq<bv8>, k: nat)
    requires k < 8 * |bits|
    ensures Bit(bits, k) == Selected(bits[k / 8], Mask(k % 8))
  {
  }

  /** The sixteen-slot table; a null slot is an unused entry. */
  class Table {
    var inited: bool
    var slots: seq<Slot?>

    ghost predicate Valid()
      reads this
    {
      && |slots| == TableSize
      && (!inited ==> forall i :: 0 <= i < TableSize ==> slots[i] == null)
      && (forall i :: 0 <= i < TableSize && slots[i] != null ==> slots[i].Sized())
      && (forall i, j :: 0 <= i < TableSize && 0 <= j < TableSize && i != j && slots[i] != null && slots[j] != null ==>
            slots[i].store != slots[j].store)
    }

    /** The zero-initialised static table before the first allocation. */
    constructor()
      ensures Valid() && !inited
    {
      inited := false;
      slots := seq(TableSize, _ => null);
    }

    /** is_table_entry_used */
    predicate IsTableEntryUsed(i: int)
      requires 0 <= i < |slots|
      reads this
    {
      slots[i] != null
    }

    /** The bytes of the store in a used slot. */
    function Contents(ds: int): seq<bv8>
      requires Valid() && 0 <= ds < TableSize && slots[ds] != null
      reads this, slots[ds].store
    {
      slots[ds].store[..]
    }

    /**
     * Allocate: a block size that is not a multiple of 64 is refused;
     * otherwise the first unused slot gets a zeroed store and its index is
     * returned, or -1 when all sixteen are in use.  The first call also
     * empties the whole table.
     */
    method Allocate(blocksize: int, numblocks: int) returns (r: Result<int>)
      requires Valid()
      requires blocksize % 64 == 0 ==> 0 <= blocksize && 0 <= numblocks
      modifies this
      ensures Valid()
      ensures blocksize % 64 != 0 ==> r == Err(BlockSizeNotMultiple) && slots == old(slots) && inited == old(inited)
      ensures blocksize % 64 == 0 ==> r.Ok? && inited && -1 <= r.value < TableSize
      ensures r == Ok(-1) ==> slots == old(slots) && forall i :: 0 <= i < TableSize ==> slots[i] != null
      ensures r.Ok? && r.value != -1 ==>
        var ds := r.value;
        && old(slots)[ds] == null
        && (forall i :: 0 <= i < ds ==> old(slots)[i] != null)
        && slots == old(slots)[ds := slots[ds]]
        && fresh(slots[ds]) && fresh(slots[ds].store)
        && slots[ds].numberofblocks == numblocks && slots[ds].sizeofablock == blocksize
        && slots[ds].store[..] == Polynomial.Zeros(numblocks * blocksize)
    {
      if blocksize % 64 != 0 {
        return Err(BlockSizeNotMultiple);
      }
      if !inited {
        var i := 0;
        while i < TableSize
          invariant 0 <= i <= TableSize && |slots| == TableSize
          invariant slots == old(slots)
        {
          slots := slots[i := null];
          i := i + 1;
        }
        inited := true;
      }
      var i := 0;
      while i < TableSize
        invariant 0 <= i <= TableSize
        invariant slots == old(slots) && inited && Valid()
        invariant forall j :: 0 <= j < i ==> slots[j] != null
      {
        if !IsTableEntryUsed(i) {
          var slot := new Slot(blocksize, numblocks);
          slots := slots[i := slot];
          return Ok(i);
        }
        i := i + 1;
      }
      return Ok(-1);
    }

    /** deallocate: a used slot becomes unused; an unused one is left alone. */
    method Deallocate(ds: int)
      requires Valid() && 0 <= ds < TableSize
      modifies this
      ensures Valid() && inited == old(inited)
      ensures slots == old(slots)[ds := null]
    {
      if IsTableEntryUsed(ds) {
        slots := slots[ds := null];
      } else {
        assert slots == slots[ds := null];
      }
    }

    /**
     * Produce_Xor_From_Bitstring: the XOR of the selected blocks, starting
     * from a zeroed block-size buffer.
     */
    method ProduceXorFromBitstring(ds: int, bits: seq<bv8>) returns (r: Result<seq<bv8>>)
      requires Valid() && 0 <= ds < TableSize
      ensures slots[ds] == null ==> r == Err(UnusedDescriptor)
      ensures slots[ds] != null ==>
        var slot := slots[ds];
        r == Ok(XorOfSelected(Blocks(Contents(ds), slot.sizeofablock, slot.numberofblocks),
                              bits, Selectable(slot.numberofblocks, bits), Polynomial.Zeros(slot.sizeofablock)))
    {
      if !IsTableEntryUsed(ds) {
        return Err(UnusedDescriptor);
      }
      var slot := slots[ds];
      var result := new bv8[slot.sizeofablock](_ => 0);
      assert result[..] == Polynomial.Zeros(slot.sizeofablock);
      BitstringXorWorker(slot.store[..], slot.numberofblocks, slot.sizeofablock, bits, result);
      return Ok(result[..]);
    }

    /**
     * SetData: copy data into the store from offset on, if it fits; the
     * other slots' stores do not change.
     */
    method SetData(ds: int, offset: int, data: seq<bv8>) returns (r: Result<()>)
      requires Valid() && 0 <= ds < TableSize && 0 <= offset
      modifies if slots[ds] != null then {slots[ds].store} else {}
      ensures slots[ds] == null ==> r == Err(UnusedDescriptor)
      ensures slots[ds] != null && offset + |data| > slots[ds].numberofblocks * slots[ds].sizeofablock ==>
        r == Err(OutOfRange) && Contents(ds) == old(Contents(ds))
      ensures slots[ds] != null && offset + |data| <= slots[ds].numberofblocks * slots[ds].sizeofablock ==>
        r == Ok(()) && Contents(ds) == Overwritten(old(Contents(ds)), offset, data)
      ensures forall i :: 0 <= i < TableSize && i != ds && slots[i] != null ==>
        slots[i].store[..] == old(slots[i].store[..])
    {
      if !IsTableEntryUsed(ds) {
        return Err(UnusedDescriptor);
      }
      var slot := slots[ds];
      if offset + |data| > slot.numberofblocks * slot.sizeofablock {
        return Err(OutOfRange);
      }
      var store := slot.store;
      var i := 0;
      while i < |data|
        invariant 0 <= i <= |data|
        invariant forall j :: 0 <= j < store.Length && !(offset <= j < offset + i) ==> store[j] == old(store[j])
        invariant forall j :: 0 <= j < i ==> store[offset + j] == data[j]
      {
        store[offset + i] := data[i];
        i := i + 1;
      }
      assert forall j :: 0 <= j < store.Length ==> store[j] == Overwritten(old(store[..]), offset, data)[j];
      r := Ok(());
    }

    /** GetData: the quantity bytes from offset on, if they lie in the store. */
    method GetData(ds: int, offset: int, quantity: int) returns (r: Result<seq<bv8>>)
      requires Valid() && 0 <= ds < TableSize && 0 <= offset && 0 <= quantity
      ensures slots[ds] == null ==> r == Err(UnusedDescriptor)
      ensures slots[ds] != null && offset + quantity > slots[ds].numberofblocks * slots[ds].sizeofablock ==>
        r == Err(OutOfRange)
      ensures slots[ds] != null && offset + quantity <= slots[ds].numberofblocks * slots[ds].sizeofablock ==>
        r == Ok(Contents(ds)[offset .. offset + quantity])
    {
      if !IsTableEntryUsed(ds) {
        return Err(UnusedDescriptor);
      }
      var slot := slots[ds];
      if offset + quantity > slot.numberofblocks * slot.sizeofablock {
        return Err(OutOfRange);
      }
      return Ok(slot.store[offset .. offset + quantity]);
    }
  }
}
