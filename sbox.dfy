/** The S-box: a table of 256 byte values, where position `x` holds the output for
    input byte `x`. The analyses read it and never change it. */
module SBox {

  /** One table entry: an unsigned 8-bit value. */
  type Byte = x: int | 0 <= x < 256

  /** Bits per entry: `int(np.log2(n))` for a valid table, and the widths `n`
      and `m` of inputs and outputs in the Walsh analysis. */
  const Width: nat := 8

  /** Number of entries of a valid table (`2**Width`). */
  const Size: nat := 256

  /** The identity table, `entries[x] == x`. */
  predicate IsIdentity(s: seq<Byte>)
  {
    |s| == Size && forall x :: 0 <= x < |s| ==> s[x] == x
  }

  /** A table that maps every input to the same byte `c`. */
  predicate IsConstant(s: seq<Byte>, c: Byte)
  {
    |s| == Size && forall x :: 0 <= x < |s| ==> s[x] == c
  }
}
