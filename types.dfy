/** Machine integers, orderings, public keys and little-endian byte decoding
    shared by every other module. */
module Types {

  const U16_LIMIT: nat := 0x1_0000
  const U32_LIMIT: nat := 0x1_0000_0000
  const U64_LIMIT: nat := 0x1_0000_0000_0000_0000
  const U128_LIMIT: nat := 0x1_0000_0000_0000_0000_0000_0000_0000_0000

  const U64_MAX: nat := U64_LIMIT - 1
  const U128_MAX: nat := U128_LIMIT - 1

  type u8 = x: int | 0 <= x < 0x100
  type u16 = x: int | 0 <= x < 0x1_0000
  type u32 = x: int | 0 <= x < 0x1_0000_0000
  type u64 = x: int | 0 <= x < 0x1_0000_0000_0000_0000
  type u128 = x: int | 0 <= x < 0x1_0000_0000_0000_0000_0000_0000_0000_0000

  /** Offset of a block in an account's dynamic region. */
  type DataIndex = u32

  /** The sentinel index that stands for "no block" (hypertree's NIL, u32::MAX). */
  const NIL: DataIndex := 0xFFFF_FFFF

  /** A 32-byte public key. Its `Ord` is the lexicographic order of the bytes. */
  type Pubkey = s: seq<u8> | |s| == 32 witness seq(32, i => 0)

  /** `std::cmp::Ordering`. */
  datatype Ordering = Less | Equal | Greater {
    function Reverse(): Ordering {
      match this
      case Less => Greater
      case Equal => Equal
      case Greater => Less
    }
  }

  /** `Ord::cmp` on integers. */
  function CompareInt(a: int, b: int): (r: Ordering)
    ensures r == Less <==> a < b
    ensures r == Equal <==> a == b
    ensures r == Greater <==> a > b
  {
    if a < b then Less else if a == b then Equal else Greater
  }

  function Min(a: int, b: int): (m: int)
    ensures m <= a && m <= b && (m == a || m == b)
  {
    if a <= b then a else b
  }

  /** Lexicographic comparison of two byte strings of equal length, the
      derived `Ord` of `[u8; N]` and of `Pubkey`. */
  function CompareBytes(a: seq<u8>, b: seq<u8>): Ordering
    requires |a| == |b|
    decreases |a|
  {
    if |a| == 0 then Equal
    else if a[0] < b[0] then Less
    else if a[0] > b[0] then Greater
    else CompareBytes(a[1..], b[1..])
  }

  /** Byte comparison says Equal exactly for equal strings. */
  lemma {:induction false} CompareBytesEqual(a: seq<u8>, b: seq<u8>)
    requires |a| == |b|
    ensures CompareBytes(a, b) == Equal <==> a == b
    decreases |a|
  {
    if |a| > 0 {
      CompareBytesEqual(a[1..], b[1..]);
      if a[0] == b[0] && a[1..] == b[1..] {
        assert a == [a[0]] + a[1..] && b == [b[0]] + b[1..];
      }
    }
  }

  /** Swapping the operands reverses the byte comparison. */
  lemma {:induction false} CompareBytesAntisymmetric(a: seq<u8>, b: seq<u8>)
    requires |a| == |b|
    ensures CompareBytes(b, a) == CompareBytes(a, b).Reverse()
    decreases |a|
  {
    if |a| > 0 && a[0] == b[0] {
      CompareBytesAntisymmetric(a[1..], b[1..]);
    }
  }

  /** The byte comparison is transitive, for Less and for Greater. */
  lemma {:induction false} CompareBytesTransitive(a: seq<u8>, b: seq<u8>, c: seq<u8>, o: Ordering)
    requires |a| == |b| == |c|
    requires o != Equal
    requires CompareBytes(a, b) == o && CompareBytes(b, c) == o
    ensures CompareBytes(a, c) == o
    decreases |a|
  {
    if |a| > 0 && a[0] == b[0] && b[0] == c[0] {
      CompareBytesTransitive(a[1..], b[1..], c[1..], o);
    }
  }

  /** 256 to the power n. */
  function Pow256(n: nat): (r: nat)
    ensures r >= 1
  {
    if n == 0 then 1 else 256 * Pow256(n - 1)
  }

  lemma Pow256Of8()
    ensures Pow256(8) == U64_LIMIT
  {
    calc {
      Pow256(8);
      256 * Pow256(7);
      256 * 256 * Pow256(6);
      256 * 256 * 256 * 256 * Pow256(4);
      256 * 256 * 256 * 256 * 256 * 256 * 256 * 256 * Pow256(0);
    }
  }

  /** The unsigned integer whose little-endian bytes are `b`. */
  function LeDecode(b: seq<u8>): (n: nat)
    ensures n < Pow256(|b|)
    decreases |b|
  {
    if |b| == 0 then 0
    else
      var rest := LeDecode(b[1..]);
      assert rest + 1 <= Pow256(|b| - 1);
      b[0] + 256 * rest
  }

  /** The `len` little-endian bytes of `n`. */
  function LeEncode(n: nat, len: nat): (b: seq<u8>)
    requires n < Pow256(len)
    ensures |b| == len
    decreases len
  {
    if len == 0 then [] else [n % 256] + LeEncode(n / 256, len - 1)
  }

  /** Decoding what was encoded gives back the number. */
  lemma {:induction false} LeDecodeEncode(n: nat, len: nat)
    requires n < Pow256(len)
    ensures LeDecode(LeEncode(n, len)) == n
    decreases len
  {
    if len > 0 {
      var b := LeEncode(n, len);
      assert b[1..] == LeEncode(n / 256, len - 1);
      LeDecodeEncode(n / 256, len - 1);
    }
  }

  /** Encoding what was decoded gives back the bytes. */
  lemma {:induction false} LeEncodeDecode(b: seq<u8>)
    ensures LeEncode(LeDecode(b), |b|) == b
    decreases |b|
  {
    if |b| > 0 {
      var n := LeDecode(b);
      assert n % 256 == b[0] && n / 256 == LeDecode(b[1..]);
      LeEncodeDecode(b[1..]);
    }
  }

  /** `u64::from_le_bytes`: eight little-endian bytes as a u64. */
  function U64FromLeBytes(b: seq<u8>): (n: u64)
    requires |b| == 8
    ensures n == LeDecode(b)
  {
    Pow256Of8();
    LeDecode(b)
  }

  /** Only all-zero bytes decode to 0. */
  lemma {:induction false} LeDecodeZero(b: seq<u8>)
    ensures LeDecode(b) == 0 <==> forall i :: 0 <= i < |b| ==> b[i] == 0
    decreases |b|
  {
    if |b| > 0 {
      LeDecodeZero(b[1..]);
      assert forall i :: 1 <= i < |b| ==> b[i] == b[1..][i - 1];
    }
  }
}
