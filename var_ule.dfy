/**
 * Variable-width wire values (`VarULE`): an unsized value whose extent is the
 * whole byte slice it is parsed from, and the 1:1 mapping between an owned
 * logical type and such a value (`AsVarULE`).
 */
module VarUle {
  import opened Wrappers
  import Ule

  /** A variable-width wire type: which byte strings form exactly one value. */
  datatype VarUleType = VarUleType(valid: Ule.Bytes -> bool)

  /** `&Self` for an unsized wire type: a reference to the value that spans `bytes`. */
  datatype VarRef = VarRef(bytes: Ule.Bytes)

  /** `v` refers to a value of `t`. */
  predicate IsVarValue(t: VarUleType, v: VarRef) {
    t.valid(v.bytes)
  }

  /** The one way a byte slice can fail to be a value of a variable-width type. */
  datatype VarUleError = Malformed(bytes: Ule.Bytes)

  /**
   * `VarULE::parse_byte_slice`: the whole slice is one value of `t`, viewed in
   * place, or the slice is rejected.
   */
  function ParseByteSlice(t: VarUleType, bytes: Ule.Bytes): (r: Result<VarRef, VarUleError>)
    ensures r.Ok? <==> t.valid(bytes)
    ensures r.Ok? ==> IsVarValue(t, r.value) && r.value.bytes == bytes
    ensures r.Err? ==> r.error == Malformed(bytes)
  {
    if t.valid(bytes) then Ok(VarRef(bytes)) else Err(Malformed(bytes))
  }

  /**
   * `VarULE::from_byte_slice_unchecked`: the same view without validation. Callers
   * promise that `bytes` was accepted by `ParseByteSlice` and has not changed.
   */
  function FromByteSliceUnchecked(t: VarUleType, bytes: Ule.Bytes): (r: VarRef)
    requires ParseByteSlice(t, bytes).Ok?
    ensures r == ParseByteSlice(t, bytes).value
  {
    VarRef(bytes)
  }

  /** `VarULE::as_byte_slice`: the bytes backing a value; parsing them gives the same value back. */
  function AsByteSlice(t: VarUleType, v: VarRef): (r: Ule.Bytes)
    requires IsVarValue(t, v)
    ensures ParseByteSlice(t, r) == Ok(v)
    ensures FromByteSliceUnchecked(t, r) == v
  {
    v.bytes
  }

  /** `impl AsVarULE for T`: the variable-width wire type of `T` and the conversions each way. */
  datatype AsVarUle<!T> = AsVarUle(varUle: VarUleType, asUnaligned: T -> VarRef, fromUnaligned: VarRef -> T)

  /**
   * The mapping is 1:1: `as_unaligned` always refers to a value of the wire type,
   * every logical value survives the trip through it, and every wire value is the
   * image of the logical value it converts to.
   */
  ghost predicate IsOneToOne<T(!new)>(m: AsVarUle<T>) {
    && (forall x :: IsVarValue(m.varUle, m.asUnaligned(x)))
    && (forall x :: m.fromUnaligned(m.asUnaligned(x)) == x)
    && (forall v :: IsVarValue(m.varUle, v) ==> m.asUnaligned(m.fromUnaligned(v)) == v)
  }

  /**
   * A logical value written out as its wire bytes and read back: parsing the bytes
   * succeeds, and converting the parsed value gives the original.
   */
  lemma LogicalValueRoundTrip<T(!new)>(m: AsVarUle<T>, x: T)
    requires IsOneToOne(m)
    ensures IsVarValue(m.varUle, m.asUnaligned(x))
    ensures ParseByteSlice(m.varUle, AsByteSlice(m.varUle, m.asUnaligned(x))).Ok?
    ensures m.fromUnaligned(ParseByteSlice(m.varUle, AsByteSlice(m.varUle, m.asUnaligned(x))).value) == x
  {
  }

  /** Parsed bytes converted to a logical value and back give the same bytes. */
  lemma WireValueRoundTrip<T(!new)>(m: AsVarUle<T>, bytes: Ule.Bytes)
    requires IsOneToOne(m)
    requires ParseByteSlice(m.varUle, bytes).Ok?
    ensures m.asUnaligned(m.fromUnaligned(ParseByteSlice(m.varUle, bytes).value)).bytes == bytes
  {
  }
}
