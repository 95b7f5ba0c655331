/** The 32-bit cyclic redundancy check of lib/crc.c, a table and a loop unrolled four times, against
    the bit-serial shift register, and what it detects. */
module Crc {
  import opened Register

  // ---------- 32-bit values ----------

  /** A hexadecimal digit, the highest bit first. */
  datatype Nibble = Q(b3: bool, b2: bool, b1: bool, b0: bool)

  const X0 := Q(false, false, false, false)
  const X1 := Q(false, false, false, true)
  const X2 := Q(false, false, true, false)
  const X3 := Q(false, false, true, true)
  const X4 := Q(false, true, false, false)
  const X5 := Q(false, true, false, true)
  const X6 := Q(false, true, true, false)
  const X7 := Q(false, true, true, true)
  const X8 := Q(true, false, false, false)
  const X9 := Q(true, false, false, true)
  const XA := Q(true, false, true, false)
  const XB := Q(true, false, true, true)
  const XC := Q(true, true, false, false)
  const XD := Q(true, true, false, true)
  const XE := Q(true, true, true, false)
  const XF := Q(true, true, true, true)

  datatype Word = W(h7: Nibble, h6: Nibble, h5: Nibble, h4: Nibble,
                    h3: Nibble, h2: Nibble, h1: Nibble, h0: Nibble)

  datatype Byte = Byte(hi: Nibble, lo: Nibble)

  /** C's ^ on a digit. */
  function XorN(a: Nibble, b: Nibble): Nibble {
    Q(a.b3 != b.b3, a.b2 != b.b2, a.b1 != b.b1, a.b0 != b.b0)
  }

  /** The bits of a value in order of transmission: from the lowest-order one. */
  function OfNibble(q: Nibble): (r: Bits)
    ensures |r| == 4
  {
    [q.b0, q.b1, q.b2, q.b3]
  }

  function Two(a: Nibble, b: Nibble): (r: Bits)
    ensures |r| == 8
  {
    OfNibble(a) + OfNibble(b)
  }

  function OfByte(b: Byte): (r: Bits)
    ensures |r| == 8
  {
    Two(b.lo, b.hi)
  }

  function OfWord(w: Word): (r: Bits)
    ensures IsWord(r)
  {
    (Two(w.h0, w.h1) + Two(w.h2, w.h3)) + (Two(w.h4, w.h5) + Two(w.h6, w.h7))
  }

  function Message(z: seq<Byte>): (r: Bits)
    ensures |r| == 8 * |z|
  {
    if z == [] then [] else OfByte(z[0]) + Message(z[1..])
  }

  // ---------- the table and the loop ----------

  function Pick(q: Nibble,
                v0: Word, v1: Word, v2: Word, v3: Word, v4: Word, v5: Word, v6: Word, v7: Word,
                v8: Word, v9: Word, v10: Word, v11: Word, v12: Word, v13: Word, v14: Word, v15: Word): Word {
    if q.b3 then
      if q.b2 then if q.b1 then if q.b0 then v15 else v14 else if q.b0 then v13 else v12
      else if q.b1 then if q.b0 then v11 else v10 else if q.b0 then v9 else v8
    else
      if q.b2 then if q.b1 then if q.b0 then v7 else v6 else if q.b0 then v5 else v4
      else if q.b1 then if q.b0 then v3 else v2 else if q.b0 then v1 else v0
  }

  /** aicrc32tab, sixteen entries for each high digit of the index. */
  function Table(hi: Nibble, lo: Nibble): Word {
    if hi == X0 then Pick(lo,
      W(X0, X0, X0, X0, X0, X0, X0, X0), W(X7, X7, X0, X7, X3, X0, X9, X6),
      W(XE, XE, X0, XE, X6, X1, X2, XC), W(X9, X9, X0, X9, X5, X1, XB, XA),
      W(X0, X7, X6, XD, XC, X4, X1, X9), W(X7, X0, X6, XA, XF, X4, X8, XF),
      W(XE, X9, X6, X3, XA, X5, X3, X5), W(X9, XE, X6, X4, X9, X5, XA, X3),
      W(X0, XE, XD, XB, X8, X8, X3, X2), W(X7, X9, XD, XC, XB, X8, XA, X4),
      W(XE, X0, XD, X5, XE, X9, X1, XE), W(X9, X7, XD, X2, XD, X9, X8, X8),
      W(X0, X9, XB, X6, X4, XC, X2, XB), W(X7, XE, XB, X1, X7, XC, XB, XD),
      W(XE, X7, XB, X8, X2, XD, X0, X7), W(X9, X0, XB, XF, X1, XD, X9, X1))
    else if hi == X1 then Pick(lo,
      W(X1, XD, XB, X7, X1, X0, X6, X4), W(X6, XA, XB, X0, X2, X0, XF, X2),
      W(XF, X3, XB, X9, X7, X1, X4, X8), W(X8, X4, XB, XE, X4, X1, XD, XE),
      W(X1, XA, XD, XA, XD, X4, X7, XD), W(X6, XD, XD, XD, XE, X4, XE, XB),
      W(XF, X4, XD, X4, XB, X5, X5, X1), W(X8, X3, XD, X3, X8, X5, XC, X7),
      W(X1, X3, X6, XC, X9, X8, X5, X6), W(X6, X4, X6, XB, XA, X8, XC, X0),
      W(XF, XD, X6, X2, XF, X9, X7, XA), W(X8, XA, X6, X5, XC, X9, XE, XC),
      W(X1, X4, X0, X1, X5, XC, X4, XF), W(X6, X3, X0, X6, X6, XC, XD, X9),
      W(XF, XA, X0, XF, X3, XD, X6, X3), W(X8, XD, X0, X8, X0, XD, XF, X5))
    else if hi == X2 then Pick(lo,
      W(X3, XB, X6, XE, X2, X0, XC, X8), W(X4, XC, X6, X9, X1, X0, X5, XE),
      W(XD, X5, X6, X0, X4, X1, XE, X4), W(XA, X2, X6, X7, X7, X1, X7, X2),
      W(X3, XC, X0, X3, XE, X4, XD, X1), W(X4, XB, X0, X4, XD, X4, X4, X7),
      W(XD, X2, X0, XD, X8, X5, XF, XD), W(XA, X5, X0, XA, XB, X5, X6, XB),
      W(X3, X5, XB, X5, XA, X8, XF, XA), W(X4, X2, XB, X2, X9, X8, X6, XC),
      W(XD, XB, XB, XB, XC, X9, XD, X6), W(XA, XC, XB, XC, XF, X9, X4, X0),
      W(X3, X2, XD, X8, X6, XC, XE, X3), W(X4, X5, XD, XF, X5, XC, X7, X5),
      W(XD, XC, XD, X6, X0, XD, XC, XF), W(XA, XB, XD, X1, X3, XD, X5, X9))
    else if hi == X3 then Pick(lo,
      W(X2, X6, XD, X9, X3, X0, XA, XC), W(X5, X1, XD, XE, X0, X0, X3, XA),
      W(XC, X8, XD, X7, X5, X1, X8, X0), W(XB, XF, XD, X0, X6, X1, X1, X6),
      W(X2, X1, XB, X4, XF, X4, XB, X5), W(X5, X6, XB, X3, XC, X4, X2, X3),
      W(XC, XF, XB, XA, X9, X5, X9, X9), W(XB, X8, XB, XD, XA, X5, X0, XF),
      W(X2, X8, X0, X2, XB, X8, X9, XE), W(X5, XF, X0, X5, X8, X8, X0, X8),
      W(XC, X6, X0, XC, XD, X9, XB, X2), W(XB, X1, X0, XB, XE, X9, X2, X4),
      W(X2, XF, X6, XF, X7, XC, X8, X7), W(X5, X8, X6, X8, X4, XC, X1, X1),
      W(XC, X1, X6, X1, X1, XD, XA, XB), W(XB, X6, X6, X6, X2, XD, X3, XD))
    else if hi == X4 then Pick(lo,
      W(X7, X6, XD, XC, X4, X1, X9, X0), W(X0, X1, XD, XB, X7, X1, X0, X6),
      W(X9, X8, XD, X2, X2, X0, XB, XC), W(XE, XF, XD, X5, X1, X0, X2, XA),
      W(X7, X1, XB, X1, X8, X5, X8, X9), W(X0, X6, XB, X6, XB, X5, X1, XF),
      W(X9, XF, XB, XF, XE, X4, XA, X5), W(XE, X8, XB, X8, XD, X4, X3, X3),
      W(X7, X8, X0, X7, XC, X9, XA, X2), W(X0, XF, X0, X0, XF, X9, X3, X4),
      W(X9, X6, X0, X9, XA, X8, X8, XE), W(XE, X1, X0, XE, X9, X8, X1, X8),
      W(X7, XF, X6, XA, X0, XD, XB, XB), W(X0, X8, X6, XD, X3, XD, X2, XD),
      W(X9, X1, X6, X4, X6, XC, X9, X7), W(XE, X6, X6, X3, X5, XC, X0, X1))
    else if hi == X5 then Pick(lo,
      W(X6, XB, X6, XB, X5, X1, XF, X4), W(X1, XC, X6, XC, X6, X1, X6, X2),
      W(X8, X5, X6, X5, X3, X0, XD, X8), W(XF, X2, X6, X2, X0, X0, X4, XE),
      W(X6, XC, X0, X6, X9, X5, XE, XD), W(X1, XB, X0, X1, XA, X5, X7, XB),
      W(X8, X2, X0, X8, XF, X4, XC, X1), W(XF, X5, X0, XF, XC, X4, X5, X7),
      W(X6, X5, XB, X0, XD, X9, XC, X6), W(X1, X2, XB, X7, XE, X9, X5, X0),
      W(X8, XB, XB, XE, XB, X8, XE, XA), W(XF, XC, XB, X9, X8, X8, X7, XC),
      W(X6, X2, XD, XD, X1, XD, XD, XF), W(X1, X5, XD, XA, X2, XD, X4, X9),
      W(X8, XC, XD, X3, X7, XC, XF, X3), W(XF, XB, XD, X4, X4, XC, X6, X5))
    else if hi == X6 then Pick(lo,
      W(X4, XD, XB, X2, X6, X1, X5, X8), W(X3, XA, XB, X5, X5, X1, XC, XE),
      W(XA, X3, XB, XC, X0, X0, X7, X4), W(XD, X4, XB, XB, X3, X0, XE, X2),
      W(X4, XA, XD, XF, XA, X5, X4, X1), W(X3, XD, XD, X8, X9, X5, XD, X7),
      W(XA, X4, XD, X1, XC, X4, X6, XD), W(XD, X3, XD, X6, XF, X4, XF, XB),
      W(X4, X3, X6, X9, XE, X9, X6, XA), W(X3, X4, X6, XE, XD, X9, XF, XC),
      W(XA, XD, X6, X7, X8, X8, X4, X6), W(XD, XA, X6, X0, XB, X8, XD, X0),
      W(X4, X4, X0, X4, X2, XD, X7, X3), W(X3, X3, X0, X3, X1, XD, XE, X5),
      W(XA, XA, X0, XA, X4, XC, X5, XF), W(XD, XD, X0, XD, X7, XC, XC, X9))
    else if hi == X7 then Pick(lo,
      W(X5, X0, X0, X5, X7, X1, X3, XC), W(X2, X7, X0, X2, X4, X1, XA, XA),
      W(XB, XE, X0, XB, X1, X0, X1, X0), W(XC, X9, X0, XC, X2, X0, X8, X6),
      W(X5, X7, X6, X8, XB, X5, X2, X5), W(X2, X0, X6, XF, X8, X5, XB, X3),
      W(XB, X9, X6, X6, XD, X4, X0, X9), W(XC, XE, X6, X1, XE, X4, X9, XF),
      W(X5, XE, XD, XE, XF, X9, X0, XE), W(X2, X9, XD, X9, XC, X9, X9, X8),
      W(XB, X0, XD, X0, X9, X8, X2, X2), W(XC, X7, XD, X7, XA, X8, XB, X4),
      W(X5, X9, XB, X3, X3, XD, X1, X7), W(X2, XE, XB, X4, X0, XD, X8, X1),
      W(XB, X7, XB, XD, X5, XC, X3, XB), W(XC, X0, XB, XA, X6, XC, XA, XD))
    else if hi == X8 then Pick(lo,
      W(XE, XD, XB, X8, X8, X3, X2, X0), W(X9, XA, XB, XF, XB, X3, XB, X6),
      W(X0, X3, XB, X6, XE, X2, X0, XC), W(X7, X4, XB, X1, XD, X2, X9, XA),
      W(XE, XA, XD, X5, X4, X7, X3, X9), W(X9, XD, XD, X2, X7, X7, XA, XF),
      W(X0, X4, XD, XB, X2, X6, X1, X5), W(X7, X3, XD, XC, X1, X6, X8, X3),
      W(XE, X3, X6, X3, X0, XB, X1, X2), W(X9, X4, X6, X4, X3, XB, X8, X4),
      W(X0, XD, X6, XD, X6, XA, X3, XE), W(X7, XA, X6, XA, X5, XA, XA, X8),
      W(XE, X4, X0, XE, XC, XF, X0, XB), W(X9, X3, X0, X9, XF, XF, X9, XD),
      W(X0, XA, X0, X0, XA, XE, X2, X7), W(X7, XD, X0, X7, X9, XE, XB, X1))
    else if hi == X9 then Pick(lo,
      W(XF, X0, X0, XF, X9, X3, X4, X4), W(X8, X7, X0, X8, XA, X3, XD, X2),
      W(X1, XE, X0, X1, XF, X2, X6, X8), W(X6, X9, X0, X6, XC, X2, XF, XE),
      W(XF, X7, X6, X2, X5, X7, X5, XD), W(X8, X0, X6, X5, X6, X7, XC, XB),
      W(X1, X9, X6, XC, X3, X6, X7, X1), W(X6, XE, X6, XB, X0, X6, XE, X7),
      W(XF, XE, XD, X4, X1, XB, X7, X6), W(X8, X9, XD, X3, X2, XB, XE, X0),
      W(X1, X0, XD, XA, X7, XA, X5, XA), W(X6, X7, XD, XD, X4, XA, XC, XC),
      W(XF, X9, XB, X9, XD, XF, X6, XF), W(X8, XE, XB, XE, XE, XF, XF, X9),
      W(X1, X7, XB, X7, XB, XE, X4, X3), W(X6, X0, XB, X0, X8, XE, XD, X5))
    else if hi == XA then Pick(lo,
      W(XD, X6, XD, X6, XA, X3, XE, X8), W(XA, X1, XD, X1, X9, X3, X7, XE),
      W(X3, X8, XD, X8, XC, X2, XC, X4), W(X4, XF, XD, XF, XF, X2, X5, X2),
      W(XD, X1, XB, XB, X6, X7, XF, X1), W(XA, X6, XB, XC, X5, X7, X6, X7),
      W(X3, XF, XB, X5, X0, X6, XD, XD), W(X4, X8, XB, X2, X3, X6, X4, XB),
      W(XD, X8, X0, XD, X2, XB, XD, XA), W(XA, XF, X0, XA, X1, XB, X4, XC),
      W(X3, X6, X0, X3, X4, XA, XF, X6), W(X4, X1, X0, X4, X7, XA, X6, X0),
      W(XD, XF, X6, X0, XE, XF, XC, X3), W(XA, X8, X6, X7, XD, XF, X5, X5),
      W(X3, X1, X6, XE, X8, XE, XE, XF), W(X4, X6, X6, X9, XB, XE, X7, X9))
    else if hi == XB then Pick(lo,
      W(XC, XB, X6, X1, XB, X3, X8, XC), W(XB, XC, X6, X6, X8, X3, X1, XA),
      W(X2, X5, X6, XF, XD, X2, XA, X0), W(X5, X2, X6, X8, XE, X2, X3, X6),
      W(XC, XC, X0, XC, X7, X7, X9, X5), W(XB, XB, X0, XB, X4, X7, X0, X3),
      W(X2, X2, X0, X2, X1, X6, XB, X9), W(X5, X5, X0, X5, X2, X6, X2, XF),
      W(XC, X5, XB, XA, X3, XB, XB, XE), W(XB, X2, XB, XD, X0, XB, X2, X8),
      W(X2, XB, XB, X4, X5, XA, X9, X2), W(X5, XC, XB, X3, X6, XA, X0, X4),
      W(XC, X2, XD, X7, XF, XF, XA, X7), W(XB, X5, XD, X0, XC, XF, X3, X1),
      W(X2, XC, XD, X9, X9, XE, X8, XB), W(X5, XB, XD, XE, XA, XE, X1, XD))
    else if hi == XC then Pick(lo,
      W(X9, XB, X6, X4, XC, X2, XB, X0), W(XE, XC, X6, X3, XF, X2, X2, X6),
      W(X7, X5, X6, XA, XA, X3, X9, XC), W(X0, X2, X6, XD, X9, X3, X0, XA),
      W(X9, XC, X0, X9, X0, X6, XA, X9), W(XE, XB, X0, XE, X3, X6, X3, XF),
      W(X7, X2, X0, X7, X6, X7, X8, X5), W(X0, X5, X0, X0, X5, X7, X1, X3),
      W(X9, X5, XB, XF, X4, XA, X8, X2), W(XE, X2, XB, X8, X7, XA, X1, X4),
      W(X7, XB, XB, X1, X2, XB, XA, XE), W(X0, XC, XB, X6, X1, XB, X3, X8),
      W(X9, X2, XD, X2, X8, XE, X9, XB), W(XE, X5, XD, X5, XB, XE, X0, XD),
      W(X7, XC, XD, XC, XE, XF, XB, X7), W(X0, XB, XD, XB, XD, XF, X2, X1))
    else if hi == XD then Pick(lo,
      W(X8, X6, XD, X3, XD, X2, XD, X4), W(XF, X1, XD, X4, XE, X2, X4, X2),
      W(X6, X8, XD, XD, XB, X3, XF, X8), W(X1, XF, XD, XA, X8, X3, X6, XE),
      W(X8, X1, XB, XE, X1, X6, XC, XD), W(XF, X6, XB, X9, X2, X6, X5, XB),
      W(X6, XF, XB, X0, X7, X7, XE, X1), W(X1, X8, XB, X7, X4, X7, X7, X7),
      W(X8, X8, X0, X8, X5, XA, XE, X6), W(XF, XF, X0, XF, X6, XA, X7, X0),
      W(X6, X6, X0, X6, X3, XB, XC, XA), W(X1, X1, X0, X1, X0, XB, X5, XC),
      W(X8, XF, X6, X5, X9, XE, XF, XF), W(XF, X8, X6, X2, XA, XE, X6, X9),
      W(X6, X1, X6, XB, XF, XF, XD, X3), W(X1, X6, X6, XC, XC, XF, X4, X5))
    else if hi == XE then Pick(lo,
      W(XA, X0, X0, XA, XE, X2, X7, X8), W(XD, X7, X0, XD, XD, X2, XE, XE),
      W(X4, XE, X0, X4, X8, X3, X5, X4), W(X3, X9, X0, X3, XB, X3, XC, X2),
      W(XA, X7, X6, X7, X2, X6, X6, X1), W(XD, X0, X6, X0, X1, X6, XF, X7),
      W(X4, X9, X6, X9, X4, X7, X4, XD), W(X3, XE, X6, XE, X7, X7, XD, XB),
      W(XA, XE, XD, X1, X6, XA, X4, XA), W(XD, X9, XD, X6, X5, XA, XD, XC),
      W(X4, X0, XD, XF, X0, XB, X6, X6), W(X3, X7, XD, X8, X3, XB, XF, X0),
      W(XA, X9, XB, XC, XA, XE, X5, X3), W(XD, XE, XB, XB, X9, XE, XC, X5),
      W(X4, X7, XB, X2, XC, XF, X7, XF), W(X3, X0, XB, X5, XF, XF, XE, X9))
    else Pick(lo,
      W(XB, XD, XB, XD, XF, X2, X1, XC), W(XC, XA, XB, XA, XC, X2, X8, XA),
      W(X5, X3, XB, X3, X9, X3, X3, X0), W(X2, X4, XB, X4, XA, X3, XA, X6),
      W(XB, XA, XD, X0, X3, X6, X0, X5), W(XC, XD, XD, X7, X0, X6, X9, X3),
      W(X5, X4, XD, XE, X5, X7, X2, X9), W(X2, X3, XD, X9, X6, X7, XB, XF),
      W(XB, X3, X6, X6, X7, XA, X2, XE), W(XC, X4, X6, X1, X4, XA, XB, X8),
      W(X5, XD, X6, X8, X1, XB, X0, X2), W(X2, XA, X6, XF, X2, XB, X9, X4),
      W(XB, X4, X0, XB, XB, XE, X3, X7), W(XC, X3, X0, XC, X8, XE, XA, X1),
      W(X5, XA, X0, X5, XD, XF, X1, XB), W(X2, XD, X0, X2, XE, XF, X8, XD))
  }

  /** IUPDC32: the entry for the low byte of ick ^ b, added to the three high bytes of ick. */
  function Update(ick: Word, b: Byte): Word {
    Add(Table(XorN(ick.h1, b.hi), XorN(ick.h0, b.lo)), ick)
  }

  function Add(t: Word, ick: Word): Word {
    W(t.h7, t.h6, XorN(t.h5, ick.h7), XorN(t.h4, ick.h6),
      XorN(t.h3, ick.h5), XorN(t.h2, ick.h4), XorN(t.h1, ick.h3), XorN(t.h0, ick.h2))
  }

  /** One update for each character. */
  function Crc(z: seq<Byte>, ick: Word): Word
    decreases |z|
  {
    if z == [] then ick else Crc(z[1..], Update(ick, z[0]))
  }

  /** The loop of icrc: four characters at a time while more than four are left, then one. */
  method Icrc(z: seq<Byte>, init: Word) returns (ick: Word)
    ensures ick == Crc(z, init)
    ensures OfWord(ick) == Serial(Message(z), OfWord(init))
  {
    ick := init;
    var p, c := 0, |z|;
    while c > 4
      invariant p + c == |z| && c >= 0
      invariant Crc(z[p..], ick) == Crc(z, init)
    {
      var r, i := ick, p;
      ick := Update(ick, z[p]);
      ick := Update(ick, z[p + 1]);
      ick := Update(ick, z[p + 2]);
      ick := Update(ick, z[p + 3]);
      p, c := p + 4, c - 4;
      Four(z, i, r);
    }
    while c != 0
      invariant p + c == |z| && c >= 0
      invariant Crc(z[p..], ick) == Crc(z, init)
    {
      One(z, p, ick);
      ick := Update(ick, z[p]);
      p, c := p + 1, c - 1;
    }
    CrcIsSerial(z, init);
  }

  lemma Four(z: seq<Byte>, p: nat, ick: Word)
    requires p + 4 <= |z|
    ensures Crc(z[p..], ick)
            == Crc(z[p + 4..], Update(Update(Update(Update(ick, z[p]), z[p + 1]), z[p + 2]), z[p + 3]))
  {
    var a := Update(ick, z[p]);
    var b := Update(a, z[p + 1]);
    var c := Update(b, z[p + 2]);
    One(z, p, ick);
    One(z, p + 1, a);
    One(z, p + 2, b);
    One(z, p + 3, c);
  }

  lemma One(z: seq<Byte>, p: nat, ick: Word)
    requires p < |z|
    ensures Crc(z[p..], ick) == Crc(z[p + 1..], Update(ick, z[p]))
  {
    assert z[p..][1..] == z[p + 1..];
  }

  // ---------- the table against the shift register ----------

  function HalfN(a: Nibble, carry: bool): Nibble { Q(carry, a.b3, a.b2, a.b1) }

  function Half(u: Word): Word {
    W(HalfN(u.h7, false), HalfN(u.h6, u.h7.b0), HalfN(u.h5, u.h6.b0), HalfN(u.h4, u.h5.b0),
      HalfN(u.h3, u.h4.b0), HalfN(u.h2, u.h3.b0), HalfN(u.h1, u.h2.b0), HalfN(u.h0, u.h1.b0))
  }

  function XorW(u: Word, v: Word): Word {
    W(XorN(u.h7, v.h7), XorN(u.h6, v.h6), XorN(u.h5, v.h5), XorN(u.h4, v.h4),
      XorN(u.h3, v.h3), XorN(u.h2, v.h2), XorN(u.h1, v.h1), XorN(u.h0, v.h0))
  }

  const POLY_WORD := W(XE, XD, XB, X8, X8, X3, X2, X0)

  /** One shift/xor operation. */
  function Shift(u: Word): Word {
    if u.h0.b0 then XorW(Half(u), POLY_WORD) else Half(u)
  }

  function Shift8(r: Word): Word {
    Shift(Shift(Shift(Shift(Shift(Shift(Shift(Shift(r))))))))
  }

  predicate IsShifts(hi: Nibble, lo: Nibble) { Table(hi, lo) == Shift8(W(X0, X0, X0, X0, X0, X0, hi, lo)) }

  lemma Row0(lo: Nibble)
    ensures IsShifts(X0, lo)
  {
    if lo.b3 {
      if lo.b2 { assert IsShifts(X0, lo); } else { assert IsShifts(X0, lo); }
    } else {
      if lo.b2 { assert IsShifts(X0, lo); } else { assert IsShifts(X0, lo); }
    }
  }

  lemma Row1(lo: Nibble)
    ensures IsShifts(X1, lo)
  {
    if lo.b3 {
      if lo.b2 { assert IsShifts(X1, lo); } else { assert IsShifts(X1, lo); }
    } else {
      if lo.b2 { assert IsShifts(X1, lo); } else { assert IsShifts(X1, lo); }
    }
  }

  lemma Row2(lo: Nibble)
    ensures IsShifts(X2, lo)
  {
    if lo.b3 {
      if lo.b2 { assert IsShifts(X2, lo); } else { assert IsShifts(X2, lo); }
    } else {
      if lo.b2 { assert IsShifts(X2, lo); } else { assert IsShifts(X2, lo); }
    }
  }

  lemma Row3(lo: Nibble)
    ensures IsShifts(X3, lo)
  {
    if lo.b3 {
      if lo.b2 { assert IsShifts(X3, lo); } else { assert IsShifts(X3, lo); }
    } else {
      if lo.b2 { assert IsShifts(X3, lo); } else { assert IsShifts(X3, lo); }
    }
  }

  lemma Row4(lo: Nibble)
    ensures IsShifts(X4, lo)
  {
    if lo.b3 {
      if lo.b2 { assert IsShifts(X4, lo); } else { assert IsShifts(X4, lo); }
    } else {
      if lo.b2 { assert IsShifts(X4, lo); } else { assert IsShifts(X4, lo); }
    }
  }

  lemma Row5(lo: Nibble)
    ensures IsShifts(X5, lo)
  {
    if lo.b3 {
      if lo.b2 { assert IsShifts(X5, lo); } else { assert IsShifts(X5, lo); }
    } else {
      if lo.b2 { assert IsShifts(X5, lo); } else { assert IsShifts(X5, lo); }
    }
  }

  lemma Row6(lo: Nibble)
    ensures IsShifts(X6, lo)
  {
    if lo.b3 {
      if lo.b2 { assert IsShifts(X6, lo); } else { assert IsShifts(X6, lo); }
    } else {
      if lo.b2 { assert IsShifts(X6, lo); } else { assert IsShifts(X6, lo); }
    }
  }

  lemma Row7(lo: Nibble)
    ensures IsShifts(X7, lo)
  {
    if lo.b3 {
      if lo.b2 { assert IsShifts(X7, lo); } else { assert IsShifts(X7, lo); }
    } else {
      if lo.b2 { assert IsShifts(X7, lo); } else { assert IsShifts(X7, lo); }
    }
  }

  lemma Row8(lo: Nibble)
    ensures IsShifts(X8, lo)
  {
    if lo.b3 {
      if lo.b2 { assert IsShifts(X8, lo); } else { assert IsShifts(X8, lo); }
    } else {
      if lo.b2 { assert IsShifts(X8, lo); } else { assert IsShifts(X8, lo); }
    }
  }

  lemma Row9(lo: Nibble)
    ensures IsShifts(X9, lo)
  {
    if lo.b3 {
      if lo.b2 { assert IsShifts(X9, lo); } else { assert IsShifts(X9, lo); }
    } else {
      if lo.b2 { assert IsShifts(X9, lo); } else { assert IsShifts(X9, lo); }
    }
  }

  lemma RowA(lo: Nibble)
    ensures IsShifts(XA, lo)
  {
    if lo.b3 {
      if lo.b2 { assert IsShifts(XA, lo); } else { assert IsShifts(XA, lo); }
    } else {
      if lo.b2 { assert IsShifts(XA, lo); } else { assert IsShifts(XA, lo); }
    }
  }

  lemma RowB(lo: Nibble)
    ensures IsShifts(XB, lo)
  {
    if lo.b3 {
      if lo.b2 { assert IsShifts(XB, lo); } else { assert IsShifts(XB, lo); }
    } else {
      if lo.b2 { assert IsShifts(XB, lo); } else { assert IsShifts(XB, lo); }
    }
  }

  lemma RowC(lo: Nibble)
    ensures IsShifts(XC, lo)
  {
    if lo.b3 {
      if lo.b2 { assert IsShifts(XC, lo); } else { assert IsShifts(XC, lo); }
    } else {
      if lo.b2 { assert IsShifts(XC, lo); } else { assert IsShifts(XC, lo); }
    }
  }

  lemma RowD(lo: Nibble)
    ensures IsShifts(XD, lo)
  {
    if lo.b3 {
      if lo.b2 { assert IsShifts(XD, lo); } else { assert IsShifts(XD, lo); }
    } else {
      if lo.b2 { assert IsShifts(XD, lo); } else { assert IsShifts(XD, lo); }
    }
  }

  lemma RowE(lo: Nibble)
    ensures IsShifts(XE, lo)
  {
    if lo.b3 {
      if lo.b2 { assert IsShifts(XE, lo); } else { assert IsShifts(XE, lo); }
    } else {
      if lo.b2 { assert IsShifts(XE, lo); } else { assert IsShifts(XE, lo); }
    }
  }

  lemma RowF(lo: Nibble)
    ensures IsShifts(XF, lo)
  {
    if lo.b3 {
      if lo.b2 { assert IsShifts(XF, lo); } else { assert IsShifts(XF, lo); }
    } else {
      if lo.b2 { assert IsShifts(XF, lo); } else { assert IsShifts(XF, lo); }
    }
  }

  /** Each of the 256 entries of the table is eight shift/xor operations on its index. */
  lemma TableIsShifts(hi: Nibble, lo: Nibble)
    ensures Table(hi, lo) == Shift8(W(X0, X0, X0, X0, X0, X0, hi, lo))
  {
    if hi == X0 { Row0(lo); } else if hi == X1 { Row1(lo); } else if hi == X2 { Row2(lo); }
    else if hi == X3 { Row3(lo); } else if hi == X4 { Row4(lo); } else if hi == X5 { Row5(lo); }
    else if hi == X6 { Row6(lo); } else if hi == X7 { Row7(lo); } else if hi == X8 { Row8(lo); }
    else if hi == X9 { Row9(lo); } else if hi == XA { RowA(lo); } else if hi == XB { RowB(lo); }
    else if hi == XC { RowC(lo); } else if hi == XD { RowD(lo); } else if hi == XE { RowE(lo); }
    else { RowF(lo); }
  }

  lemma XorParts(a: Bits, b: Bits, c: Bits, d: Bits)
    requires |a| == |c| && |b| == |d|
    ensures Xor(a + b, c + d) == Xor(a, c) + Xor(b, d)
  {
  }

  lemma XorOfNibbles(a: Nibble, b: Nibble)
    ensures OfNibble(XorN(a, b)) == Xor(OfNibble(a), OfNibble(b))
  {
  }

  lemma XorOfTwo(a: Nibble, b: Nibble, c: Nibble, d: Nibble)
    ensures Two(XorN(a, c), XorN(b, d)) == Xor(Two(a, b), Two(c, d))
  {
    XorOfNibbles(a, c);
    XorOfNibbles(b, d);
    XorParts(OfNibble(a), OfNibble(b), OfNibble(c), OfNibble(d));
  }

  lemma XorOfWords(u: Word, v: Word)
    ensures OfWord(XorW(u, v)) == Xor(OfWord(u), OfWord(v))
  {
    XorOfTwo(u.h0, u.h1, v.h0, v.h1);
    XorOfTwo(u.h2, u.h3, v.h2, v.h3);
    XorOfTwo(u.h4, u.h5, v.h4, v.h5);
    XorOfTwo(u.h6, u.h7, v.h6, v.h7);
    XorParts(Two(u.h0, u.h1), Two(u.h2, u.h3), Two(v.h0, v.h1), Two(v.h2, v.h3));
    XorParts(Two(u.h4, u.h5), Two(u.h6, u.h7), Two(v.h4, v.h5), Two(v.h6, v.h7));
    XorParts(Two(u.h0, u.h1) + Two(u.h2, u.h3), Two(u.h4, u.h5) + Two(u.h6, u.h7),
             Two(v.h0, v.h1) + Two(v.h2, v.h3), Two(v.h4, v.h5) + Two(v.h6, v.h7));
  }

  /** What moving one place does to two adjacent parts of a value. */
  function Moved(a: Bits, carry: bool): (r: Bits)
    requires a != []
    ensures |r| == |a|
  {
    a[1..] + [carry]
  }

  lemma MovedParts(a: Bits, b: Bits, carry: bool)
    requires a != [] && b != []
    ensures Moved(a + b, carry) == Moved(a, b[0]) + Moved(b, carry)
  {
    assert (a + b)[1..] == a[1..] + b;
    assert [b[0]] + b[1..] == b;
  }

  lemma HalfOfNibble(a: Nibble, carry: bool)
    ensures OfNibble(HalfN(a, carry)) == Moved(OfNibble(a), carry)
  {
  }

  lemma HalfOfTwo(a: Nibble, b: Nibble, carry: bool)
    ensures Two(HalfN(a, b.b0), HalfN(b, carry)) == Moved(Two(a, b), carry)
    ensures Two(a, b)[0] == a.b0
  {
    HalfOfNibble(a, b.b0);
    HalfOfNibble(b, carry);
    MovedParts(OfNibble(a), OfNibble(b), carry);
  }

  lemma HalfOfWord(u: Word)
    ensures OfWord(Half(u)) == Moved(OfWord(u), false)
  {
    HalfOfTwo(u.h0, u.h1, u.h2.b0);
    HalfOfTwo(u.h2, u.h3, u.h4.b0);
    HalfOfTwo(u.h4, u.h5, u.h6.b0);
    HalfOfTwo(u.h6, u.h7, false);
    MovedParts(Two(u.h0, u.h1), Two(u.h2, u.h3), u.h4.b0);
    MovedParts(Two(u.h4, u.h5), Two(u.h6, u.h7), false);
    MovedParts(Two(u.h0, u.h1) + Two(u.h2, u.h3), Two(u.h4, u.h5) + Two(u.h6, u.h7), false);
  }

  lemma PolyBits()
    ensures OfWord(POLY_WORD) == POLY
  {
  }

  lemma ShiftFeeds(u: Word)
    ensures OfWord(Shift(u)) == Feed(OfWord(u), false)
  {
    HalfOfWord(u);
    PolyBits();
    XorOfWords(Half(u), POLY_WORD);
    assert OfWord(u)[0] == u.h0.b0;
  }

  lemma EightFeeds(r: Bits)
    requires IsWord(r)
    ensures Serial(Zeros(8), r)
            == Feed(Feed(Feed(Feed(Feed(Feed(Feed(Feed(r, false), false), false), false),
                                        false), false), false), false)
  {
    var z := Zeros(8);
    assert z[1..] == Zeros(7) && Zeros(7)[1..] == Zeros(6) && Zeros(6)[1..] == Zeros(5);
    assert Zeros(5)[1..] == Zeros(4) && Zeros(4)[1..] == Zeros(3) && Zeros(3)[1..] == Zeros(2);
    assert Zeros(2)[1..] == Zeros(1) && Zeros(1)[1..] == [];
    var s := Feed(Feed(Feed(Feed(r, false), false), false), false);
    assert Serial(z, r) == Serial(Zeros(4), s);
  }

  lemma Shift8Feeds(u: Word)
    ensures OfWord(Shift8(u)) == Serial(Zeros(8), OfWord(u))
  {
    var u1 := Shift(u); var u2 := Shift(u1); var u3 := Shift(u2); var u4 := Shift(u3);
    var u5 := Shift(u4); var u6 := Shift(u5); var u7 := Shift(u6);
    ShiftFeeds(u); ShiftFeeds(u1); ShiftFeeds(u2); ShiftFeeds(u3);
    ShiftFeeds(u4); ShiftFeeds(u5); ShiftFeeds(u6); ShiftFeeds(u7);
    EightFeeds(OfWord(u));
  }

  lemma LowWord(hi: Nibble, lo: Nibble)
    ensures OfWord(W(X0, X0, X0, X0, X0, X0, hi, lo)) == Two(lo, hi) + Zeros(24)
  {
    assert OfNibble(X0) == Zeros(4);
    assert Zeros(4) + Zeros(4) == Zeros(8);
    assert Two(X0, X0) == Zeros(8);
    assert (Two(lo, hi) + Zeros(8)) + (Zeros(8) + Zeros(8)) == Two(lo, hi) + Zeros(24);
  }

  lemma HighWord(ick: Word)
    ensures OfWord(W(X0, X0, ick.h7, ick.h6, ick.h5, ick.h4, ick.h3, ick.h2)) == OfWord(ick)[8..] + Zeros(8)
  {
    assert OfNibble(X0) == Zeros(4);
    assert Zeros(4) + Zeros(4) == Zeros(8);
    var a, b, c, d := Two(ick.h0, ick.h1), Two(ick.h2, ick.h3), Two(ick.h4, ick.h5), Two(ick.h6, ick.h7);
    assert ((a + b) + (c + d))[8..] == b + c + d;
    assert (b + c) + (d + Zeros(8)) == (b + c + d) + Zeros(8);
  }

  lemma AddIsXor(t: Word, ick: Word)
    ensures Add(t, ick) == XorW(t, W(X0, X0, ick.h7, ick.h6, ick.h5, ick.h4, ick.h3, ick.h2))
  {
  }

  /** One table step is the eight bits of the character. */
  lemma UpdateIsSerial(ick: Word, b: Byte)
    ensures OfWord(Update(ick, b)) == Serial(OfByte(b), OfWord(ick))
  {
    var hi, lo := XorN(ick.h1, b.hi), XorN(ick.h0, b.lo);
    var high := W(X0, X0, ick.h7, ick.h6, ick.h5, ick.h4, ick.h3, ick.h2);
    AddIsXor(Table(hi, lo), ick);
    XorOfWords(Table(hi, lo), high);
    TableIsShifts(hi, lo);
    Shift8Feeds(W(X0, X0, X0, X0, X0, X0, hi, lo));
    LowWord(hi, lo);
    HighWord(ick);
    XorOfTwo(ick.h0, ick.h1, b.lo, b.hi);
    assert OfWord(ick)[..8] == Two(ick.h0, ick.h1);
    EightAtOnce(OfByte(b), OfWord(ick));
  }

  /** The table form refines the bit-serial form on every message. */
  lemma {:induction false} CrcIsSerial(z: seq<Byte>, ick: Word)
    ensures OfWord(Crc(z, ick)) == Serial(Message(z), OfWord(ick))
    decreases |z|
  {
    if z != [] {
      UpdateIsSerial(ick, z[0]);
      CrcIsSerial(z[1..], Update(ick, z[0]));
      SerialAppend(OfByte(z[0]), Message(z[1..]), OfWord(ick));
    }
  }

  /** A message can be checked in pieces. */
  lemma {:induction false} CrcAppend(a: seq<Byte>, b: seq<Byte>, ick: Word)
    ensures Crc(a + b, ick) == Crc(b, Crc(a, ick))
    decreases |a|
  {
    if a == [] {
      assert a + b == b;
    } else {
      assert (a + b)[1..] == a[1..] + b;
      CrcAppend(a[1..], b, Update(ick, a[0]));
    }
  }

  // ---------- what it detects ----------

  lemma BytesOfBits(a: Byte, b: Byte)
    requires OfByte(a) == OfByte(b)
    ensures a == b
  {
    var s, t := OfByte(a), OfByte(b);
    assert s[0] == t[0] && s[1] == t[1] && s[2] == t[2] && s[3] == t[3];
    assert s[4] == t[4] && s[5] == t[5] && s[6] == t[6] && s[7] == t[7];
  }

  lemma {:induction false} MessageOfBits(a: seq<Byte>, b: seq<Byte>)
    requires |a| == |b| && Message(a) == Message(b)
    ensures a == b
  {
    if a != [] {
      assert OfByte(a[0]) == Message(a)[..8] && OfByte(b[0]) == Message(b)[..8];
      assert Message(a[1..]) == Message(a)[8..] && Message(b[1..]) == Message(b)[8..];
      BytesOfBits(a[0], b[0]);
      MessageOfBits(a[1..], b[1..]);
    }
  }

  /** Two messages of one length whose bits differ only within 32 consecutive ones have different
      CRCs from any start, unless they are the same message. */
  lemma BurstsAreDetected(a: seq<Byte>, b: seq<Byte>, ick: Word, from: nat, to: nat)
    requires |a| == |b| && from <= to <= 8 * |a| && to - from <= 32
    requires Message(a)[..from] == Message(b)[..from] && Message(a)[to..] == Message(b)[to..]
    ensures Crc(a, ick) == Crc(b, ick) <==> a == b
  {
    if Crc(a, ick) == Crc(b, ick) {
      CrcIsSerial(a, ick);
      CrcIsSerial(b, ick);
      BurstDetected(Message(a), Message(b), OfWord(ick), from, to);
      MessageOfBits(a, b);
    }
  }
}
