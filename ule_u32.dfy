/**
 * An illustrative instance of the ULE contract: `u32` with the four-byte plain
 * wire type, on which every bit pattern is a value. It exercises the generic
 * contract on one concrete type; the wire types the library ships are not
 * modelled here.
 */
module UleU32Example {
  import opened Wrappers
  import opened Ule

  /** `u32`. */
  type U32 = x: int | 0 <= x < 0x1_0000_0000

  /** A four-byte wire type that accepts every bit pattern. */
  const PlainOldUle4: UleType := FixedWidth(4, b => true)

  /** The little-endian bytes of `x`, least significant first. */
  function ToLe(x: U32): (b: Bytes)
    ensures |b| == 4
  {
    [(x % 0x100) as Byte, (x / 0x100 % 0x100) as Byte, (x / 0x1_0000 % 0x100) as Byte, (x / 0x100_0000) as Byte]
  }

  /** The number whose little-endian bytes are `b`; chunks of another length never reach it. */
  function FromLe(b: Bytes): U32 {
    if |b| == 4 then b[0] as int + 0x100 * b[1] as int + 0x1_0000 * b[2] as int + 0x100_0000 * b[3] as int
    else 0
  }

  const U32AsUle: AsUle<U32> := AsUle(PlainOldUle4, ToLe, FromLe)

  lemma FromLeToLe(x: U32)
    ensures FromLe(ToLe(x)) == x
  {
    var b0, b1, b2, b3 := x % 0x100, x / 0x100 % 0x100, x / 0x1_0000 % 0x100, x / 0x100_0000;
    assert x / 0x100 == b1 + 0x100 * (x / 0x1_0000);
    assert x / 0x1_0000 == b2 + 0x100 * b3;
  }

  lemma ToLeFromLe(c: Bytes)
    requires |c| == 4
    ensures ToLe(FromLe(c)) == c
  {
    var x := FromLe(c);
    var b0, b1, b2, b3 := c[0] as int, c[1] as int, c[2] as int, c[3] as int;
    DivModUnique(x, 0x100, b1 + 0x100 * b2 + 0x1_0000 * b3, b0);
    DivModUnique(x / 0x100, 0x100, b2 + 0x100 * b3, b1);
    DivModUnique(x, 0x1_0000, b2 + 0x100 * b3, b0 + 0x100 * b1);
    DivModUnique(x / 0x1_0000, 0x100, b3, b2);
    DivModUnique(x, 0x100_0000, b3, b0 + 0x100 * b1 + 0x1_0000 * b2);
  }

  /** `u32` and its four little-endian bytes are in 1:1 correspondence. */
  lemma U32IsOneToOne()
    ensures IsOneToOne(U32AsUle)
  {
    forall x: U32 ensures FromLe(ToLe(x)) == x {
      FromLeToLe(x);
    }
    forall c | IsValue(PlainOldUle4, c) ensures ToLe(FromLe(c)) == c {
      ToLeFromLe(c);
    }
  }

  /** How a `u32` is laid out in memory: least significant byte first on little-endian targets, last on big-endian ones. */
  function NativeLayout(target: Endianness, x: U32): (b: Bytes)
    ensures |b| == 4
  {
    var le := ToLe(x);
    match target
    case Little => le
    case Big => [le[3], le[2], le[1], le[0]]
  }

  /** `u32` may be marked `EqULE`: on little-endian targets its memory is its wire value. */
  lemma U32IsEqUle()
    ensures IsEqUle(U32AsUle, NativeLayout)
  {
  }

  /** On a big-endian target the memory of a `u32` is not its wire value, which is why the fast path is off there. */
  lemma BigEndianLayoutDiffers()
    ensures NativeLayout(Big, 1) != ToLe(1)
  {
    assert NativeLayout(Big, 1)[0] == 0;
  }

  /** The bytes `01 00 00 00` parse as one wire value, which converts to 1 on any target. */
  lemma ParseOne()
    ensures ParseByteSlice(PlainOldUle4, [1, 0, 0, 0]) == Ok([[1, 0, 0, 0]])
    ensures FromLe([1, 0, 0, 0]) == 1
  {
    var b: Bytes := [1, 0, 0, 0];
    ChunksOfConcat(4, [b]);
    assert Concat([b]) == b;
  }

  /** Three bytes are not a slice of a four-byte wire type. */
  lemma ThreeBytesRejected()
    ensures ParseByteSlice(PlainOldUle4, [1, 0, 0]) == Err(LengthError(3, 4))
  {
  }

  /** With the `u32` mapping, the fast path gives the little-endian bytes of each element. */
  lemma U32FastPath(slice: seq<U32>)
    ensures SliceAsUnaligned(U32AsUle, NativeLayout, Little, slice).Some?
    ensures forall i :: 0 <= i < |slice| ==>
      SliceAsUnaligned(U32AsUle, NativeLayout, Little, slice).value[i] == ToLe(slice[i])
    ensures SliceAsUnaligned(U32AsUle, NativeLayout, Big, slice).None?
  {
    U32IsOneToOne();
    U32IsEqUle();
  }
}
