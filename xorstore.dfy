/**
 * The Python wrapper around the C block store: argument checks in front of
 * the table operations, one XORDatastore object per table entry, and the
 * module-level do_xor.  A wrapper that finds the table full keeps the
 * descriptor -1; such an object is not Valid and its operations are not
 * modelled.
 */
module XorStore {
  import opened Outcomes
  import opened XorTable
  import Polynomial

  /**
   * do_xor as written: unequal lengths are refused, and equal lengths reach
   * the C do_xor with two arguments where it parses three (two strings and
   * a length), so the argument parser raises instead of XORing.
   */
  function DoXor(a: seq<bv8>, b: seq<bv8>): (r: Result<seq<bv8>>)
    ensures |a| != |b| ==> r == Err(XorLengthMismatch)
    ensures |a| == |b| ==> r == Err(ArgumentCount)
  {
    if |a| != |b| then Err(XorLengthMismatch) else Err(ArgumentCount)
  }

  /** As written, no pair of strings gets its XOR back: do_xor("ab", "cd") fails. */
  lemma DoXorNeverXors(a: seq<bv8>, b: seq<bv8>)
    ensures forall x :: DoXor(a, b) != Ok(x)
    ensures DoXor([0x61, 0x62], [0x63, 0x64]) == Err(ArgumentCount)
  {
  }

  /**
   * do_xor with the length passed on: unequal lengths are refused, equal
   * ones give the bytewise XOR computed by the C code.
   */
  method DoXorCorrected(a: seq<bv8>, b: seq<bv8>) returns (r: Result<seq<bv8>>)
    ensures |a| != |b| ==> r == Err(XorLengthMismatch)
    ensures |a| == |b| ==> r == Ok(Xored(a, b))
  {
    if |a| != |b| {
      return Err(XorLengthMismatch);
    }
    var x := DoXorC(a, b, |a|);
    assert a[..|a|] == a && b[..|a|] == b;
    return Ok(x);
  }

  /** The bitstring length the wrapper demands: ceil(numberofblocks / 8). */
  function BitstringBytes(numberofblocks: nat): (r: nat)
    ensures numberofblocks <= 8 * r < numberofblocks + 8
  {
    (numberofblocks + 7) / 8
  }

  /**
   * Retrieval from a store of n blocks: the bitstring with bit k alone set
   * yields bytes k * size up to (k + 1) * size of the store.
   */
  lemma RetrieveBlock(store: seq<bv8>, size: nat, n: nat, k: nat)
    requires n * size == |store| && k < n
    ensures k * size + size <= |store|
    ensures XorOfSelected(Blocks(store, size, n), OneHot(BitstringBytes(n), k), n, Polynomial.Zeros(size))
         == store[k * size .. k * size + size]
  {
    BlockAt(store, size, n, k);
    SingleBitSelectsBlock(Blocks(store, size, n), size, BitstringBytes(n), k, n);
  }

  /** A block written with set_data at its offset is what retrieval of it yields. */
  lemma WriteThenRetrieve(store: seq<bv8>, size: nat, n: nat, k: nat, data: seq<bv8>)
    requires n * size == |store| && k < n && |data| == size
    requires k * size + size <= |store|
    ensures XorOfSelected(Blocks(Overwritten(store, k * size, data), size, n), OneHot(BitstringBytes(n), k), n, Polynomial.Zeros(size))
         == data
  {
    RetrieveBlock(Overwritten(store, k * size, data), size, n, k);
    OverwrittenReadBack(store, k * size, data);
  }

  /**
   * Two mirrors holding the same store answer bitstrings b1 and b2; the
   * XOR of their answers is the answer for the XOR of the bitstrings, so
   * when those differ in bit k alone the client obtains block k.
   */
  lemma TwoMirrorsRetrieve(store: seq<bv8>, size: nat, n: nat, k: nat, b1: seq<bv8>, b2: seq<bv8>)
    requires n * size == |store| && k < n
    requires |b1| == |b2| == BitstringBytes(n) && Xored(b1, b2) == OneHot(BitstringBytes(n), k)
    ensures k * size + size <= |store|
    ensures Xored(XorOfSelected(Blocks(store, size, n), b1, n, Polynomial.Zeros(size)),
                  XorOfSelected(Blocks(store, size, n), b2, n, Polynomial.Zeros(size)))
         == store[k * size .. k * size + size]
  {
    XorOfSelectedLinear(Blocks(store, size, n), size, b1, b2, n);
    RetrieveBlock(store, size, n, k);
  }

  /** XORDatastore: a descriptor into the table and the shape it was made with. */
  class XORDatastore {
    const table: Table
    const numberofblocks: int
    const sizeofblocks: int
    const ds: int

    /** The descriptor names a used entry of the table with this object's shape. */
    ghost predicate Valid()
      reads table
    {
      && table.Valid()
      && 0 <= ds < TableSize
      && table.slots[ds] != null
      && table.slots[ds].numberofblocks == numberofblocks
      && table.slots[ds].sizeofablock == sizeofblocks
      && numberofblocks > 0 && sizeofblocks > 0 && sizeofblocks % 64 == 0
    }

    constructor(table: Table, numberofblocks: int, sizeofblocks: int, ds: int)
      ensures this.table == table && this.ds == ds
      ensures this.numberofblocks == numberofblocks && this.sizeofblocks == sizeofblocks
    {
      this.table := table;
      this.numberofblocks := numberofblocks;
      this.sizeofblocks := sizeofblocks;
      this.ds := ds;
    }

    /** The bytes of this datastore: numberofblocks blocks of sizeofblocks each. */
    function Contents(): (r: seq<bv8>)
      requires Valid()
      reads table, table.slots[ds].store
      ensures |r| == numberofblocks * sizeofblocks
    {
      table.Contents(ds)
    }

    /**
     * produce_xor_from_bitstring: a bitstring of the wrong length is
     * refused; otherwise the XOR of the blocks whose bits are set, the bits
     * past the last block playing no part.
     */
    method ProduceXorFromBitstring(bits: seq<bv8>) returns (r: Result<seq<bv8>>)
      requires Valid()
      ensures |bits| != BitstringBytes(numberofblocks) ==> r == Err(BitstringLength)
      ensures |bits| == BitstringBytes(numberofblocks) ==>
        r == Ok(XorOfSelected(Blocks(Contents(), sizeofblocks, numberofblocks), bits, numberofblocks,
                              Polynomial.Zeros(sizeofblocks)))
      ensures r.Ok? ==> |r.value| == sizeofblocks
    {
      if |bits| != BitstringBytes(numberofblocks) {
        return Err(BitstringLength);
      }
      r := table.ProduceXorFromBitstring(ds, bits);
    }

    /**
     * set_data: a negative offset, or data running past the end, is
     * refused with the store untouched; otherwise the data overwrites the
     * bytes from offset on.  No other entry of the table changes.
     */
    method SetData(offset: int, data: seq<bv8>) returns (r: Result<()>)
      requires Valid()
      modifies table.slots[ds].store
      ensures Valid()
      ensures offset < 0 ==> r == Err(NegativeOffset) && Contents() == old(Contents())
      ensures 0 <= offset && offset + |data| > numberofblocks * sizeofblocks ==>
        r == Err(OutOfRange) && Contents() == old(Contents())
      ensures 0 <= offset && offset + |data| <= numberofblocks * sizeofblocks ==>
        r == Ok(()) && Contents() == Overwritten(old(Contents()), offset, data)
      ensures forall i :: 0 <= i < TableSize && i != ds && table.slots[i] != null ==>
        table.slots[i].store[..] == old(table.slots[i].store[..])
    {
      if offset < 0 {
        return Err(NegativeOffset);
      }
      if offset + |data| > numberofblocks * sizeofblocks {
        return Err(OutOfRange);
      }
      r := table.SetData(ds, offset, data);
    }

    /**
     * get_data: a negative offset, a quantity that is not positive, or a
     * range past the end is refused; otherwise the quantity bytes from
     * offset on.
     */
    method GetData(offset: int, quantity: int) returns (r: Result<seq<bv8>>)
      requires Valid()
      ensures offset < 0 ==> r == Err(NegativeOffset)
      ensures 0 <= offset && quantity <= 0 ==> r == Err(NonPositiveQuantity)
      ensures 0 <= offset && 0 < quantity && offset + quantity > numberofblocks * sizeofblocks ==>
        r == Err(OutOfRange)
      ensures 0 <= offset && 0 < quantity && offset + quantity <= numberofblocks * sizeofblocks ==>
        r == Ok(Contents()[offset .. offset + quantity])
    {
      if offset < 0 {
        return Err(NegativeOffset);
      }
      if quantity <= 0 {
        return Err(NonPositiveQuantity);
      }
      if offset + quantity > numberofblocks * sizeofblocks {
        return Err(OutOfRange);
      }
      r := table.GetData(ds, offset, quantity);
    }

    /** __del__: the entry is returned to the table. */
    method Delete()
      requires table.Valid() && 0 <= ds < TableSize
      modifies table
      ensures table.Valid() && !Valid()
      ensures table.slots == old(table.slots)[ds := null]
    {
      table.Deallocate(ds);
    }
  }

  /**
   * XORDatastore(block_size, num_blocks): the sizes are checked in the
   * wrapper's order and the entry is allocated.  When all sixteen entries
   * are in use the object still comes into being, with descriptor -1.
   */
  method Create(table: Table, blockSize: int, numBlocks: int) returns (r: Result<XORDatastore>)
    requires table.Valid()
    modifies table
    ensures table.Valid()
    ensures blockSize <= 0 ==> r == Err(NonPositiveSize) && table.slots == old(table.slots)
    ensures 0 < blockSize && blockSize % 64 != 0 ==> r == Err(BlockSizeNotMultiple) && table.slots == old(table.slots)
    ensures 0 < blockSize && blockSize % 64 == 0 && numBlocks <= 0 ==> r == Err(NonPositiveSize) && table.slots == old(table.slots)
    ensures 0 < blockSize && blockSize % 64 == 0 && 0 < numBlocks ==>
      && r.Ok? && fresh(r.value)
      && r.value.table == table && r.value.numberofblocks == numBlocks && r.value.sizeofblocks == blockSize
      && (r.value.ds == -1 <==> forall i :: 0 <= i < TableSize ==> old(table.slots)[i] != null)
      && (r.value.ds == -1 ==> table.slots == old(table.slots))
      && (r.value.ds != -1 ==>
            && r.value.Valid()
            && r.value.Contents() == Polynomial.Zeros(numBlocks * blockSize)
            && old(table.slots)[r.value.ds] == null
            && (forall i :: 0 <= i < r.value.ds ==> old(table.slots)[i] != null)
            && table.slots == old(table.slots)[r.value.ds := table.slots[r.value.ds]])
  {
    if blockSize <= 0 {
      return Err(NonPositiveSize);
    }
    if blockSize % 64 != 0 {
      return Err(BlockSizeNotMultiple);
    }
    if numBlocks <= 0 {
      return Err(NonPositiveSize);
    }
    var allocation := table.Allocate(blockSize, numBlocks);
    var store := new XORDatastore(table, numBlocks, blockSize, allocation.value);
    return Ok(store);
  }
}
