/** Python's `struct.pack('L', n)` and `struct.unpack_from('L', buf)` for the
    native unsigned long of a 64-bit little-endian platform: eight bytes, least
    significant first. */
module Struct {
  import opened Common
  import opened Text

  /** An unsigned byte. */
  type byte = x: int | 0 <= x < 256

  /** Size in bytes of the native 'L' format. */
  const ULONG_SIZE: nat := 8

  function Pow256(k: nat): (r: nat)
    ensures r >= 1
  {
    if k == 0 then 1 else 256 * Pow256(k - 1)
  }

  /** 2^64: the first value that no longer fits in an unsigned long. */
  const ULONG_LIMIT: nat := Pow256(ULONG_SIZE)

  /** The number whose little-endian representation is `bs`. */
  function LittleEndian(bs: seq<byte>): (r: nat)
    ensures r < Pow256(|bs|)
  {
    if bs == [] then 0 else bs[0] + 256 * LittleEndian(bs[1..])
  }

  /** The `k` low-order bytes of `n`, least significant first. */
  function ToBytes(n: nat, k: nat): (bs: seq<byte>)
    ensures |bs| == k
  {
    if k == 0 then [] else [n % 256] + ToBytes(n / 256, k - 1)
  }

  /** Euclidean division is determined by its quotient and remainder. */
  lemma {:induction false} DivModUnique(n: int, d: int, q: int, r: int)
    requires d > 0 && 0 <= r < d && n == q * d + r
    ensures n / d == q && n % d == r
  {
    var q', r' := n / d, n % d;
    var k := q - q';
    assert k * d == q * d - q' * d;
    assert k * d == r' - r;
    if k >= 1 {
      MulAtLeast(k, d);
    } else if k <= -1 {
      MulAtLeast(-k, d);
    }
  }

  lemma {:induction false} MulAtLeast(k: int, d: int)
    requires k >= 1 && d > 0
    ensures k * d >= d
  {
    if k > 1 {
      MulAtLeast(k - 1, d);
      assert k * d == (k - 1) * d + d;
    }
  }

  /** Taking one byte off the bottom of a number commutes with reducing it. */
  lemma {:induction false} ModPow256Step(n: nat, k: nat)
    requires k > 0
    ensures n % Pow256(k) == n % 256 + 256 * ((n / 256) % Pow256(k - 1))
  {
    var p := Pow256(k - 1);
    var q, r := n / 256, n % 256;
    var q2, r2 := q / p, q % p;
    assert n == 256 * (p * q2 + r2) + r;
    assert n == q2 * (256 * p) + (256 * r2 + r);
    DivModUnique(n, 256 * p, q2, 256 * r2 + r);
  }

  lemma {:induction false} LittleEndianToBytes(n: nat, k: nat)
    ensures LittleEndian(ToBytes(n, k)) == n % Pow256(k)
  {
    if k > 0 {
      var bs := ToBytes(n, k);
      assert bs[1..] == ToBytes(n / 256, k - 1);
      LittleEndianToBytes(n / 256, k - 1);
      ModPow256Step(n, k);
    }
  }

  lemma {:induction false} ToBytesLittleEndian(bs: seq<byte>)
    ensures ToBytes(LittleEndian(bs), |bs|) == bs
  {
    if bs != [] {
      var n := LittleEndian(bs);
      DivModUnique(n, 256, LittleEndian(bs[1..]), bs[0]);
      ToBytesLittleEndian(bs[1..]);
    }
  }

  /** Splitting a byte string splits its value at the matching power of 256. */
  lemma {:induction false} LittleEndianSplit(bs: seq<byte>, k: nat)
    requires k <= |bs|
    ensures LittleEndian(bs) == LittleEndian(bs[..k]) + Pow256(k) * LittleEndian(bs[k..])
  {
    if k > 0 {
      LittleEndianSplit(bs[1..], k - 1);
      assert bs[1..][..k - 1] == bs[..k][1..];
      assert bs[1..][k - 1..] == bs[k..];
      var lo1, hi := LittleEndian(bs[..k][1..]), LittleEndian(bs[k..]);
      var p := Pow256(k - 1);
      ShiftByte(bs[0], lo1, p, hi);
    }
  }

  lemma {:induction false} ModOfShifted(lo: int, p: int, hi: int)
    requires 0 <= lo < p
    ensures (lo + p * hi) % p == lo
  {
    DivModUnique(lo + p * hi, p, hi, lo);
  }

  /** The arithmetic step of LittleEndianSplit, kept apart from the sequence reasoning. */
  lemma {:induction false} ShiftByte(b: int, lo1: int, p: int, hi: int)
    ensures b + 256 * (lo1 + p * hi) == (b + 256 * lo1) + (256 * p) * hi
  {
  }

  /** The first `k` bytes hold the value modulo 256^k. */
  lemma {:induction false} LittleEndianPrefix(bs: seq<byte>, k: nat)
    requires k <= |bs|
    ensures LittleEndian(bs[..k]) == LittleEndian(bs) % Pow256(k)
  {
    LittleEndianSplit(bs, k);
    ModOfShifted(LittleEndian(bs[..k]), Pow256(k), LittleEndian(bs[k..]));
  }

  /** Appending zero bytes (at the most significant end) keeps the value. */
  lemma {:induction false} LittleEndianZeroExtend(bs: seq<byte>, zeros: seq<byte>)
    requires forall i :: 0 <= i < |zeros| ==> zeros[i] == 0
    ensures LittleEndian(bs + zeros) == LittleEndian(bs)
  {
    if bs == [] {
      assert bs + zeros == zeros;
      AllZero(zeros);
    } else {
      assert (bs + zeros)[1..] == bs[1..] + zeros;
      LittleEndianZeroExtend(bs[1..], zeros);
    }
  }

  lemma {:induction false} AllZero(zeros: seq<byte>)
    requires forall i :: 0 <= i < |zeros| ==> zeros[i] == 0
    ensures LittleEndian(zeros) == 0
  {
    if zeros != [] {
      AllZero(zeros[1..]);
    }
  }

  /** `struct.pack('L', n)`: raises struct.error (here None) unless 0 <= n < 2^64. */
  function Pack(n: int): (r: Option<seq<byte>>)
    ensures r.Some? <==> 0 <= n < ULONG_LIMIT
    ensures r.Some? ==> |r.value| == ULONG_SIZE && LittleEndian(r.value) == n
  {
    if 0 <= n < ULONG_LIMIT then
      LittleEndianToBytes(n, ULONG_SIZE);
      DivModUnique(n, ULONG_LIMIT, 0, n);
      Some(ToBytes(n, ULONG_SIZE))
    else None
  }

  /** `struct.unpack_from('L', buf)[0]`: the first eight bytes as a number;
      raises struct.error (here None) when the buffer is shorter. Extra bytes are ignored. */
  function UnpackFrom(buf: seq<byte>): (r: Option<nat>)
    ensures r.Some? <==> |buf| >= ULONG_SIZE
    ensures r.Some? ==> r.value < ULONG_LIMIT && r.value == LittleEndian(buf) % ULONG_LIMIT
  {
    if |buf| < ULONG_SIZE then None
    else
      LittleEndianPrefix(buf, ULONG_SIZE);
      Some(LittleEndian(buf[..ULONG_SIZE]))
  }

  /** The codec's last step: extend the decoded bytes with zeros up to eight
      (`fromlist([0] * (8 - len))`, which adds nothing to a longer buffer),
      then unpack. Missing high-order bytes read as zero and bytes after the
      eighth are ignored; it never fails. */
  function ReadULong(decoded: seq<byte>): (r: nat)
    ensures r < ULONG_LIMIT
    ensures |decoded| <= ULONG_SIZE ==> r == LittleEndian(decoded)
    ensures |decoded| > ULONG_SIZE ==> r == LittleEndian(decoded[..ULONG_SIZE])
  {
    var extended := decoded + Times(0, ULONG_SIZE - |decoded|);
    ReadULongOf(decoded, extended);
    UnpackFrom(extended).value
  }

  lemma {:induction false} ReadULongOf(decoded: seq<byte>, extended: seq<byte>)
    requires extended == decoded + Times(0, ULONG_SIZE - |decoded|)
    ensures |extended| >= ULONG_SIZE
    ensures |decoded| <= ULONG_SIZE ==> LittleEndian(extended) % ULONG_LIMIT == LittleEndian(decoded)
    ensures |decoded| > ULONG_SIZE ==> LittleEndian(extended) % ULONG_LIMIT == LittleEndian(decoded[..ULONG_SIZE])
  {
    var zeros := Times(0, ULONG_SIZE - |decoded|);
    if |decoded| <= ULONG_SIZE {
      LittleEndianZeroExtend(decoded, zeros);
      PowMonotone(|decoded|, ULONG_SIZE);
      DivModUnique(LittleEndian(decoded), ULONG_LIMIT, 0, LittleEndian(decoded));
    } else {
      assert extended == decoded;
      LittleEndianPrefix(decoded, ULONG_SIZE);
    }
  }

  lemma {:induction false} PowMonotone(j: nat, k: nat)
    requires j <= k
    ensures Pow256(j) <= Pow256(k)
    decreases k
  {
    if j < k {
      PowMonotone(j, k - 1);
    }
  }

  /** Unpacking undoes packing. */
  lemma {:induction false} UnpackPack(n: int)
    requires 0 <= n < ULONG_LIMIT
    ensures UnpackFrom(Pack(n).value) == Some(n)
  {
    var bs := Pack(n).value;
    assert bs[..ULONG_SIZE] == bs;
  }

  /** Packing undoes unpacking of exactly eight bytes. */
  lemma {:induction false} PackUnpack(buf: seq<byte>)
    requires |buf| == ULONG_SIZE
    ensures Pack(UnpackFrom(buf).value) == Some(buf)
  {
    assert buf[..ULONG_SIZE] == buf;
    ToBytesLittleEndian(buf);
  }
}
