/** Fixed-width unsigned integers and the little-endian encoding of `to_le_bytes`.

    Arithmetic that the source leaves unchecked is modelled as a release build runs it: it wraps. */
module Words {

  const U32_SIZE: nat := 0x1_0000_0000
  const U64_SIZE: nat := 0x1_0000_0000_0000_0000
  const U64_MAX: nat := U64_SIZE - 1

  type byte = x: int | 0 <= x < 256
  type u32 = x: int | 0 <= x < U32_SIZE
  type u64 = x: int | 0 <= x < U64_SIZE

  /** A `[u8; 32]`: a hash or a compressed public key. */
  type Bytes32 = s: seq<byte> | |s| == 32 witness seq(32, _ => 0)

  datatype Option<+T> = None | Some(value: T)

  function Min(x: nat, y: nat): nat { if x <= y then x else y }

  function Max(x: nat, y: nat): nat { if x >= y then x else y }

  function WrapAdd(x: u64, y: u64): u64 { (x + y) % U64_SIZE }

  function WrapSub(x: u64, y: u64): u64 { (x - y) % U64_SIZE }

  function SaturatingAdd(x: u64, y: u64): u64 { if x + y <= U64_MAX then x + y else U64_MAX }

  function SaturatingSub(x: u64, y: u64): u64 { if x <= y then 0 else x - y }

  /** The low `n` bytes of `x`, least significant first. */
  function LittleEndian(x: nat, n: nat): (s: seq<byte>)
    ensures |s| == n
    decreases n
  {
    if n == 0 then [] else [x % 256] + LittleEndian(x / 256, n - 1)
  }

  function FromLittleEndian(s: seq<byte>): nat {
    if s == [] then 0 else s[0] + 256 * FromLittleEndian(s[1..])
  }

  function Pow256(n: nat): nat {
    if n == 0 then 1 else 256 * Pow256(n - 1)
  }

  /** Decoding undoes encoding on every number that fits. */
  lemma {:induction false} LittleEndianRoundTrip(x: nat, n: nat)
    requires x < Pow256(n)
    ensures FromLittleEndian(LittleEndian(x, n)) == x
    decreases n
  {
    if n != 0 {
      LittleEndianRoundTrip(x / 256, n - 1);
      assert LittleEndian(x, n)[1..] == LittleEndian(x / 256, n - 1);
    }
  }

  lemma LittleEndianInjective(x: nat, y: nat, n: nat)
    requires x < Pow256(n) && y < Pow256(n)
    requires LittleEndian(x, n) == LittleEndian(y, n)
    ensures x == y
  {
    LittleEndianRoundTrip(x, n);
    LittleEndianRoundTrip(y, n);
  }

  lemma Pow256Widths()
    ensures Pow256(4) == U32_SIZE && Pow256(8) == U64_SIZE
  {
    assert Pow256(2) == 0x1_0000;
    assert Pow256(4) == 256 * (256 * Pow256(2));
    assert Pow256(6) == 256 * (256 * Pow256(4));
    assert Pow256(8) == 256 * (256 * Pow256(6));
  }
}
