/** The message exchanged by every mode, with the machine widths of its sequence number. */
module Wire {
  const TWO_31: nat := 0x8000_0000
  const TWO_32: nat := 0x1_0000_0000
  const TWO_63: nat := 0x8000_0000_0000_0000
  const TWO_64: nat := 0x1_0000_0000_0000_0000

  type U32 = n: nat | n < TWO_32
  type U64 = n: nat | n < TWO_64

  /** A publisher's GID: opaque bytes, compared for equality. */
  datatype Gid = Gid(bytes: seq<bv8>)

  datatype Uks = Uks(seqNo: U64, stamp: nat, baggage: seq<bv8>)

  /** Storing a value in a 32-bit field keeps its low 32 bits. */
  function Low32(x: nat): (r: U32)
    ensures x < TWO_32 ==> r == x
  {
    x % 0x1_0000_0000
  }

  /** A 64-bit counter wraps around. */
  function Low64(x: nat): (r: U64)
    ensures x < TWO_64 ==> r == x
  {
    x % 0x1_0000_0000_0000_0000
  }

  /** static_cast<int64_t> of a 64-bit unsigned value. */
  function ToInt64(x: U64): (r: int)
    ensures r == x || r == x - 0x1_0000_0000_0000_0000
    ensures -0x8000_0000_0000_0000 <= r < 0x8000_0000_0000_0000
  {
    if x < TWO_63 then x else x - TWO_64
  }

  /** (next_seq_ << 1) | 1u in 32-bit arithmetic: the shifted-out top bit is lost. */
  function PingSeq(n: U32): (s: U64)
    ensures s < TWO_32 && s % 2 == 1
  {
    (2 * n) % TWO_32 + 1
  }

  /** seq & ~1u: the mask is 32 bits wide, so it also clears the upper half of the 64-bit seq. */
  function MaskLowBit(s: U64): (r: U64)
    ensures r < TWO_32 && r % 2 == 0 && (s - s % 2 - r) % 0x1_0000_0000 == 0
  {
    s % TWO_32 - s % 2
  }

  /** PongMode::handle: pings are echoed with the low bit cleared, anything else is ignored. */
  function Echo(m: Uks): Uks {
    m.(seqNo := MaskLowBit(m.seqNo))
  }

  /** The arithmetic of MaskLowBit and PingSeq is that of the bit operations. */
  lemma BitForms(s: bv64, n: bv32)
    ensures s & 0xFFFF_FFFE == s % 0x1_0000_0000 - s % 2
    ensures (n << 1) | 1 == 2 * n + 1
  {
  }

  /** The k-th ping since the start goes out with 2*(k mod 2^31) + 1 and comes back as 2*(k mod 2^31). */
  lemma EchoOfPing(k: nat)
    ensures PingSeq(k % TWO_32) == 2 * (k % TWO_31) + 1
    ensures MaskLowBit(PingSeq(k % TWO_32)) == 2 * (k % TWO_31)
  {
    var q := k / TWO_32;
    var r := k % TWO_32;
    assert k == TWO_32 * q + r;
    if r < TWO_31 {
      RemainderIs(k, 2 * q, r);
    } else {
      RemainderIs(k, 2 * q + 1, r - TWO_31);
    }
  }

  lemma MaskOdd(m: nat)
    requires m < TWO_31
    ensures MaskLowBit(2 * m + 1) == 2 * m
  {
  }

  lemma RemainderIs(k: nat, q: nat, r: nat)
    requires k == TWO_31 * q + r && r < TWO_31
    ensures k % TWO_31 == r
  {
  }
}
