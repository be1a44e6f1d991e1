/**
 * Unaligned little-endian ("ULE") data: the contract under which a byte slice is
 * viewed as a slice of fixed-width wire values without copying, the 1:1 mapping
 * between a logical type and its wire type, and the little-endian fast path that
 * reinterprets a slice of logical values as a slice of wire values.
 *
 * The contract is stated for every fixed-width wire type at once: a wire type is
 * described by its width and by which width-sized byte patterns it accepts. A
 * wire value is its own bytes, so a pointer cast between `&[u8]` and `&[Self]`
 * is a reinterpretation of one byte sequence as a sequence of width-sized chunks.
 */
module Ule {
  import opened Wrappers

  /** One byte (`u8`). */
  newtype Byte = x: int | 0 <= x < 256

  type Bytes = seq<Byte>

  /** A fixed-width wire type: the byte width of one value, and the byte patterns of that width that are values. */
  datatype FixedWidth = FixedWidth(width: nat, valid: Bytes -> bool)

  /** An implementor of `ULE`. No wire type is zero-sized. */
  type UleType = t: FixedWidth | t.width > 0 witness FixedWidth(1, b => true)

  /** `c` is a value of `t`: a chunk of exactly `t.width` bytes that `t` accepts. */
  predicate IsValue(t: UleType, c: Bytes) {
    |c| == t.width && t.valid(c)
  }

  /** `s` is a `&[Self]` of `t`: every element is a value of `t`. */
  predicate AllValues(t: UleType, s: seq<Bytes>) {
    forall i :: 0 <= i < |s| ==> IsValue(t, s[i])
  }

  /** The memory behind a slice: its elements' bytes laid end to end. */
  function Concat(s: seq<Bytes>): Bytes {
    if s == [] then [] else s[0] + Concat(s[1..])
  }

  lemma {:induction false} ConcatLength(w: nat, s: seq<Bytes>)
    requires forall i :: 0 <= i < |s| ==> |s[i]| == w
    ensures |Concat(s)| == |s| * w
  {
    if s != [] {
      ConcatLength(w, s[1..]);
      assert |s| * w == w + (|s| - 1) * w;
    }
  }

  /** Euclidean division is unique: the quotient and remainder are determined by `n == q * w + r`. */
  lemma DivModUnique(n: int, w: int, q: int, r: int)
    requires w > 0 && n == q * w + r && 0 <= r < w
    ensures n / w == q && n % w == r
  {
    var d := q - n / w;
    assert n == (n / w) * w + n % w;
    assert d * w == n % w - r;
  }

  lemma MultipleOfWidth(k: nat, w: nat)
    requires w > 0
    ensures (k * w) % w == 0
  {
    DivModUnique(k * w, w, k, 0);
  }

  /** A multiple of `w` that is not zero is at least `w`, and stays a multiple once `w` is taken off. */
  lemma MultipleStep(n: nat, w: nat)
    requires w > 0 && n > 0 && n % w == 0
    ensures n >= w && (n - w) % w == 0
  {
    var q := n / w;
    DivModUnique(n, w, q, 0);
    assert q >= 1;
    DivModUnique(n - w, w, q - 1, 0);
  }

  /**
   * The cast from `&[u8]` to `&[Self]`: the bytes cut into consecutive chunks of
   * `w` bytes, covering exactly the same bytes.
   */
  function Chunks(w: nat, bytes: Bytes): (r: seq<Bytes>)
    requires w > 0 && |bytes| % w == 0
    ensures forall i :: 0 <= i < |r| ==> |r[i]| == w
    ensures Concat(r) == bytes
    decreases |bytes|
  {
    if |bytes| == 0 then []
    else
      MultipleStep(|bytes|, w);
      var rest := Chunks(w, bytes[w..]);
      assert Concat([bytes[..w]] + rest) == bytes[..w] + Concat(rest);
      [bytes[..w]] + rest
  }

  /** Cutting the concatenation of width-sized chunks gives back the chunks. */
  lemma {:induction false} ChunksOfConcat(w: nat, s: seq<Bytes>)
    requires w > 0
    requires forall i :: 0 <= i < |s| ==> |s[i]| == w
    ensures |Concat(s)| % w == 0
    ensures Chunks(w, Concat(s)) == s
  {
    ConcatLength(w, s);
    MultipleOfWidth(|s|, w);
    if s != [] {
      ChunksOfConcat(w, s[1..]);
      var b := Concat(s);
      assert b == s[0] + Concat(s[1..]);
      assert b[..w] == s[0];
      assert b[w..] == Concat(s[1..]);
    }
  }

  /** Element `i` of the cast sits at byte offset `i * w`. */
  lemma {:induction false} ChunkAt(w: nat, bytes: Bytes, i: nat)
    requires w > 0 && |bytes| % w == 0
    requires i < |Chunks(w, bytes)|
    ensures i * w + w <= |bytes|
    ensures Chunks(w, bytes)[i] == bytes[i * w .. i * w + w]
    decreases |bytes|
  {
    MultipleStep(|bytes|, w);
    var rest := bytes[w..];
    if i > 0 {
      ChunkAt(w, rest, i - 1);
      assert (i - 1) * w + w == i * w;
      assert rest[(i - 1) * w .. (i - 1) * w + w] == bytes[i * w .. i * w + w];
    }
  }

  /** Every element of the cast is the `w` bytes at its own offset, and the elements cover the bytes exactly. */
  lemma ChunksAreSlices(w: nat, bytes: Bytes)
    requires w > 0 && |bytes| % w == 0
    ensures |Chunks(w, bytes)| * w == |bytes|
    ensures forall i :: 0 <= i < |Chunks(w, bytes)| ==>
      i * w + w <= |bytes| && Chunks(w, bytes)[i] == bytes[i * w .. i * w + w]
  {
    ConcatLength(w, Chunks(w, bytes));
    forall i | 0 <= i < |Chunks(w, bytes)|
      ensures i * w + w <= |bytes| && Chunks(w, bytes)[i] == bytes[i * w .. i * w + w]
    {
      ChunkAt(w, bytes, i);
    }
  }

  /** The index of the first chunk that `t` rejects, if any. */
  function FirstInvalid(t: UleType, s: seq<Bytes>): (r: Option<nat>)
    ensures r.None? <==> forall i :: 0 <= i < |s| ==> t.valid(s[i])
    ensures r.Some? ==> r.value < |s| && !t.valid(s[r.value])
    ensures r.Some? ==> forall i :: 0 <= i < r.value ==> t.valid(s[i])
  {
    if s == [] then None
    else if !t.valid(s[0]) then Some(0)
    else match FirstInvalid(t, s[1..])
      case None => None
      case Some(k) => Some(k + 1)
  }

  /** Why a byte slice is not a slice of a wire type. */
  datatype UleError =
    | LengthError(len: nat, width: nat)  // the byte count is not a multiple of the width
    | InvalidElement(index: nat)          // the chunk at this index is not a value

  /**
   * `ULE::parse_byte_slice`: validate `bytes` and view them as a slice of `t`.
   * A length that is not a multiple of the width is rejected first; otherwise the
   * first rejected chunk is reported.
   */
  function ParseByteSlice(t: UleType, bytes: Bytes): (r: Result<seq<Bytes>, UleError>)
    ensures r.Ok? ==> AllValues(t, r.value) && Concat(r.value) == bytes
    ensures r.Ok? ==> |r.value| * t.width == |bytes|
    ensures r.Ok? ==> forall i :: 0 <= i < |r.value| ==>
      i * t.width + t.width <= |bytes| && r.value[i] == bytes[i * t.width .. i * t.width + t.width]
    ensures r == Err(LengthError(|bytes|, t.width)) <==> |bytes| % t.width != 0
    ensures |bytes| % t.width == 0 && r.Err? ==> r.error.InvalidElement?
    ensures r.Err? && r.error.InvalidElement? ==>
      && |bytes| % t.width == 0
      && r.error.index < |Chunks(t.width, bytes)|
      && !t.valid(Chunks(t.width, bytes)[r.error.index])
      && forall i :: 0 <= i < r.error.index ==> t.valid(Chunks(t.width, bytes)[i])
  {
    if |bytes| % t.width != 0 then Err(LengthError(|bytes|, t.width))
    else
      var chunks := Chunks(t.width, bytes);
      match FirstInvalid(t, chunks)
      case Some(i) => Err(InvalidElement(i))
      case None => ChunksAreSlices(t.width, bytes); Ok(chunks)
  }

  /** `bytes` is the memory of some slice of `t`. */
  ghost predicate IsByteImage(t: UleType, bytes: Bytes) {
    exists s :: AllValues(t, s) && Concat(s) == bytes
  }

  /** Parsing accepts exactly the byte strings that are the memory of a slice of `t`. */
  lemma ParseAcceptsExactlyImages(t: UleType, bytes: Bytes)
    ensures ParseByteSlice(t, bytes).Ok? <==> IsByteImage(t, bytes)
  {
    if ParseByteSlice(t, bytes).Ok? {
      assert AllValues(t, ParseByteSlice(t, bytes).value);
    }
    if IsByteImage(t, bytes) {
      var s :| AllValues(t, s) && Concat(s) == bytes;
      ChunksOfConcat(t.width, s);
    }
  }

  /**
   * `ULE::from_byte_slice_unchecked`: the same cast without validation. Callers
   * promise that `bytes` was accepted by `ParseByteSlice` and has not changed.
   */
  function FromByteSliceUnchecked(t: UleType, bytes: Bytes): (r: seq<Bytes>)
    requires ParseByteSlice(t, bytes).Ok?
    ensures r == ParseByteSlice(t, bytes).value
  {
    Chunks(t.width, bytes)
  }

  /**
   * `ULE::as_byte_slice`: the memory behind a slice of `t`. Its length is the
   * element count times the width, and parsing it gives the slice back.
   */
  function AsByteSlice(t: UleType, slice: seq<Bytes>): (r: Bytes)
    requires AllValues(t, slice)
    ensures |r| == |slice| * t.width
    ensures ParseByteSlice(t, r) == Ok(slice)
  {
    ChunksOfConcat(t.width, slice);
    ConcatLength(t.width, slice);
    Concat(slice)
  }

  /** Bytes produced by `AsByteSlice` may be handed to `FromByteSliceUnchecked`, which gives the slice back. */
  lemma UncheckedAfterAsByteSlice(t: UleType, slice: seq<Bytes>)
    requires AllValues(t, slice)
    ensures ParseByteSlice(t, AsByteSlice(t, slice)).Ok?
    ensures FromByteSliceUnchecked(t, AsByteSlice(t, slice)) == slice
  {
  }

  // ---------------------------------------------------------------------------
  // AsULE: a logical type with a 1:1 mapping to a wire type
  // ---------------------------------------------------------------------------

  /** `impl AsULE for T`: the wire type of `T` and the conversions each way. */
  datatype AsUle<!T> = AsUle(ule: UleType, asUnaligned: T -> Bytes, fromUnaligned: Bytes -> T)

  /** `as_unaligned` always produces a value of the wire type. */
  ghost predicate ProducesValues<T(!new)>(m: AsUle<T>) {
    forall x :: IsValue(m.ule, m.asUnaligned(x))
  }

  /**
   * The mapping is 1:1: every logical value survives the trip through its wire
   * value, and every wire value is the image of the logical value it converts to.
   */
  ghost predicate IsOneToOne<T(!new)>(m: AsUle<T>) {
    && ProducesValues(m)
    && (forall x :: m.fromUnaligned(m.asUnaligned(x)) == x)
    && (forall c :: IsValue(m.ule, c) ==> m.asUnaligned(m.fromUnaligned(c)) == c)
  }

  /** Element-wise `as_unaligned`: the conversion a caller falls back to without the fast path. */
  function ToUnalignedSlice<T>(m: AsUle<T>, xs: seq<T>): (r: seq<Bytes>)
    ensures |r| == |xs|
  {
    seq(|xs|, i requires 0 <= i < |xs| => m.asUnaligned(xs[i]))
  }

  /** Element-wise `from_unaligned`. */
  function FromUnalignedSlice<T>(m: AsUle<T>, s: seq<Bytes>): (r: seq<T>)
    ensures |r| == |s|
  {
    seq(|s|, i requires 0 <= i < |s| => m.fromUnaligned(s[i]))
  }

  /**
   * A logical slice written out through its wire type and read back: the bytes
   * hold `width` bytes per element, parsing them succeeds, and converting the
   * parsed values gives the original slice.
   */
  lemma LogicalSliceRoundTrip<T(!new)>(m: AsUle<T>, xs: seq<T>)
    requires IsOneToOne(m)
    ensures AllValues(m.ule, ToUnalignedSlice(m, xs))
    ensures |AsByteSlice(m.ule, ToUnalignedSlice(m, xs))| == |xs| * m.ule.width
    ensures ParseByteSlice(m.ule, AsByteSlice(m.ule, ToUnalignedSlice(m, xs))).Ok?
    ensures FromUnalignedSlice(m, ParseByteSlice(m.ule, AsByteSlice(m.ule, ToUnalignedSlice(m, xs))).value) == xs
  {
    var s := ToUnalignedSlice(m, xs);
    assert AllValues(m.ule, s) by {
      forall i | 0 <= i < |s| ensures IsValue(m.ule, s[i]) {
        assert s[i] == m.asUnaligned(xs[i]);
      }
    }
    var back := FromUnalignedSlice(m, ParseByteSlice(m.ule, AsByteSlice(m.ule, s)).value);
    assert back == FromUnalignedSlice(m, s);
    forall i | 0 <= i < |xs| ensures back[i] == xs[i] {
      assert s[i] == m.asUnaligned(xs[i]);
    }
  }

  /** Parsed wire values converted to logical values and back give the same bytes. */
  lemma WireSliceRoundTrip<T(!new)>(m: AsUle<T>, bytes: Bytes)
    requires IsOneToOne(m)
    requires ParseByteSlice(m.ule, bytes).Ok?
    ensures AllValues(m.ule, ToUnalignedSlice(m, FromUnalignedSlice(m, ParseByteSlice(m.ule, bytes).value)))
    ensures AsByteSlice(m.ule, ToUnalignedSlice(m, FromUnalignedSlice(m, ParseByteSlice(m.ule, bytes).value))) == bytes
  {
    var s := ParseByteSlice(m.ule, bytes).value;
    var again := ToUnalignedSlice(m, FromUnalignedSlice(m, s));
    forall i | 0 <= i < |s| ensures again[i] == s[i] {
      assert IsValue(m.ule, s[i]);
    }
    assert again == s;
  }

  // ---------------------------------------------------------------------------
  // EqULE and SliceAsULE: the little-endian fast path
  // ---------------------------------------------------------------------------

  /** The byte order of the target the code is built for (`cfg(target_endian)`). */
  datatype Endianness = Little | Big

  /** The memory a slice of `T` occupies on `target`, given the in-memory bytes of one value there. */
  function NativeBytes<T>(layout: (Endianness, T) -> Bytes, target: Endianness, xs: seq<T>): Bytes {
    Concat(seq(|xs|, i requires 0 <= i < |xs| => layout(target, xs[i])))
  }

  /**
   * `unsafe impl EqULE for T`: on a little-endian target the in-memory bytes of
   * every value of `T` are the bytes of its wire value.
   */
  ghost predicate IsEqUle<T(!new)>(m: AsUle<T>, layout: (Endianness, T) -> Bytes) {
    forall x :: layout(Little, x) == m.asUnaligned(x)
  }

  /**
   * `SliceAsULE::slice_as_unaligned` for an `EqULE` type: on a little-endian
   * target the slice's own memory is reinterpreted as a slice of wire values with
   * the same element count; on a big-endian target there is no fast path.
   */
  function SliceAsUnaligned<T(!new)>(m: AsUle<T>, layout: (Endianness, T) -> Bytes, target: Endianness, slice: seq<T>)
    : (r: Option<seq<Bytes>>)
    requires ProducesValues(m) && IsEqUle(m, layout)
    ensures r.Some? <==> target == Little
    ensures r.Some? ==> |r.value| == |slice|
    ensures r.Some? ==> forall i :: 0 <= i < |slice| ==> r.value[i] == m.asUnaligned(slice[i])
  {
    if target == Little then
      FastPathIsElementwise(m, layout, slice);
      Some(Chunks(m.ule.width, NativeBytes(layout, Little, slice)))
    else
      None
  }

  /** On a little-endian target, an `EqULE` slice's memory cut into wire-width chunks is the element-wise conversion. */
  lemma FastPathIsElementwise<T(!new)>(m: AsUle<T>, layout: (Endianness, T) -> Bytes, slice: seq<T>)
    requires ProducesValues(m) && IsEqUle(m, layout)
    ensures |NativeBytes(layout, Little, slice)| % m.ule.width == 0
    ensures Chunks(m.ule.width, NativeBytes(layout, Little, slice)) == ToUnalignedSlice(m, slice)
  {
    var native := seq(|slice|, i requires 0 <= i < |slice| => layout(Little, slice[i]));
    var wire := ToUnalignedSlice(m, slice);
    forall i | 0 <= i < |slice| ensures native[i] == wire[i] && |wire[i]| == m.ule.width {
      assert IsValue(m.ule, m.asUnaligned(slice[i]));
    }
    assert native == wire;
    ChunksOfConcat(m.ule.width, wire);
  }
}
