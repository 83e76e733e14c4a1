/** Bytes, little-endian words, flat runs of fixed-width blocks, and the
    rounding of sizes to 16 bytes. */
module Bytes {

  type byte = b: int | 0 <= b < 256

  type u32 = n: int | 0 <= n < 0x1_0000_0000

  datatype Option<+T> = None | Some(value: T)

  // ---------------------------------------------------------------------
  // Little-endian 32-bit words

  function Le32(n: u32): (s: seq<byte>)
    ensures |s| == 4
  {
    [n % 256, n / 256 % 256, n / 65536 % 256, n / 16777216]
  }

  function FromLe32(s: seq<byte>): u32
    requires |s| == 4
  {
    s[0] as int + 256 * s[1] as int + 65536 * s[2] as int + 16777216 * s[3] as int
  }

  lemma Le32RoundTrip(n: u32)
    ensures FromLe32(Le32(n)) == n
  {
    assert n == n % 256 + 256 * (n / 256);
    assert n / 256 == n / 256 % 256 + 256 * (n / 65536);
    assert n / 65536 == n / 65536 % 256 + 256 * (n / 16777216);
  }

  // ---------------------------------------------------------------------
  // Rounding up to 16 bytes, in the machine's 32-bit unsigned arithmetic

  /** Bitwise and. */
  function And(a: nat, b: nat): nat {
    if a == 0 || b == 0 then 0
    else 2 * And(a / 2, b / 2) + if a % 2 == 1 && b % 2 == 1 then 1 else 0
  }

  /** A mask of k ones. */
  function Ones(k: nat): nat {
    if k == 0 then 0 else 2 * Ones(k - 1) + 1
  }

  lemma {:induction false} OnesKeep(x: nat, k: nat)
    requires x <= Ones(k)
    ensures And(x, Ones(k)) == x
  {
    if k > 0 {
      OnesKeep(x / 2, k - 1);
    }
  }

  const LOW_ONES: u32 := 15
  const HIGH_ONES: u32 := 0xFFFF_FFF0  // ~15

  lemma AndHalves(a: nat, b: nat)
    ensures And(a, b) == 2 * And(a / 2, b / 2) + if a % 2 == 1 && b % 2 == 1 then 1 else 0
  {
  }

  lemma IsRemainder(x: nat, q: nat, r: nat)
    requires x == 16 * q + r && r < 16
    ensures x % 16 == r
  {
  }

  /** What the two masks of the source compute on a 32-bit word. */
  lemma MasksAreRemainders(x: u32)
    ensures And(x, LOW_ONES) == x % 16
    ensures And(x, HIGH_ONES) == x - x % 16
  {
    LowMask(x);
    HighMask(x);
  }

  lemma LowMask(x: nat)
    ensures And(x, LOW_ONES) == x % 16
  {
    hide And;
    var a := x / 2;
    var b := a / 2;
    var c := b / 2;
    AndHalves(x, 15);
    AndHalves(a, 7);
    AndHalves(b, 3);
    AndHalves(c, 1);
    AndZero(c / 2);
    IsRemainder(x, c / 2, 8 * (c % 2) + 4 * (b % 2) + 2 * (a % 2) + x % 2);
  }

  lemma AndZero(x: nat)
    ensures And(x, 0) == 0
  {
  }

  lemma HighMask(x: u32)
    ensures And(x, HIGH_ONES) == x - x % 16
  {
    hide And, Ones;
    var a := x / 2;
    var b := a / 2;
    var c := b / 2;
    AndHalves(x, HIGH_ONES);
    AndHalves(a, 0x7FFF_FFF8);
    AndHalves(b, 0x3FFF_FFFC);
    AndHalves(c, 0x1FFF_FFFE);
    AllOnes();
    OnesKeep(c / 2, 28);
    IsRemainder(x, c / 2, 8 * (c % 2) + 4 * (b % 2) + 2 * (a % 2) + x % 2);
  }

  lemma AllOnes()
    ensures Ones(28) == 0xFFF_FFFF
  {
    assert Ones(14) == 0x3FFF;
  }

  lemma RoundsUp(size: u32)
    ensures var padded := And((size + 15) % 0x1_0000_0000, HIGH_ONES);
            && padded <= 0xFFFF_FFFF && padded % 16 == 0
            && (size < 0x1_0000_0000 - 15 ==> size <= padded < size + 16)
  {
    hide And;
    MasksAreRemainders((size + 15) % 0x1_0000_0000);
  }

  lemma FillsUp(payload: u32)
    ensures var pad := And((0x1_0000_0000 - payload) % 0x1_0000_0000, LOW_ONES);
            pad < 16 && (payload + pad) % 16 == 0
  {
    hide And;
    MasksAreRemainders((0x1_0000_0000 - payload) % 0x1_0000_0000);
  }

  /** `(size + 15) & ~15` */
  function Padded(size: u32): (padded: u32)
    ensures padded % 16 == 0
    ensures size < 0x1_0000_0000 - 15 ==> size <= padded < size + 16
  {
    RoundsUp(size);
    And((size + 15) % 0x1_0000_0000, HIGH_ONES)
  }

  /** `15 & -payload_len` */
  function PadLength(payload: u32): (pad: nat)
    ensures pad < 16 && (payload + pad) % 16 == 0
  {
    FillsUp(payload);
    And((0x1_0000_0000 - payload) % 0x1_0000_0000, LOW_ONES)
  }

  /** The two roundings agree: header, payload and the pad that is written
      add up to the size that is announced, a multiple of 16. */
  lemma PaddedIsHeaderPayloadPad(payload: u32)
    requires payload < 0x1_0000_0000 - 63
    ensures Padded(48 + payload) == 48 + payload + PadLength(payload)
    ensures Padded(48 + payload) % 16 == 0
  {
    hide And, Padded, PadLength;
  }
}
