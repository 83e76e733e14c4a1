/** What the bytes of a file spell: little-endian words as numbers, and magic
    strings as text. */
module Spelling {
  import opened Bytes
  import opened Oids

  /** The number spelled by the four bytes from pos on, least significant
      first. */
  function Word(s: seq<byte>, pos: nat): nat
    requires pos + 4 <= |s|
  {
    Value([s[pos + 3], s[pos + 2], s[pos + 1], s[pos]])
  }

  lemma ValueOfFour(a: byte, b: byte, c: byte, d: byte)
    ensures Value([a, b, c, d]) == 16777216 * a as int + 65536 * b as int + 256 * c as int + d as int
  {
    assert [a, b, c, d][..3] == [a, b, c] && [a, b, c][..2] == [a, b] && [a, b][..1] == [a] && [a][..0] == [];
    assert Value([a]) == a as int;
    assert Value([a, b]) == 256 * a as int + b as int;
    assert Value([a, b, c]) == 65536 * a as int + 256 * b as int + c as int;
  }

  /** Reading a word takes its bytes by their weights. */
  lemma FromLe32Spells(s: seq<byte>)
    requires |s| == 4
    ensures FromLe32(s) == Word(s, 0)
  {
    ValueOfFour(s[3], s[2], s[1], s[0]);
  }

  /** The bytes written for a number spell it. */
  lemma Le32Spells(n: u32)
    ensures Word(Le32(n), 0) == n
  {
    FromLe32Spells(Le32(n));
    Le32RoundTrip(n);
  }

  /** Only the bytes written for a number spell it. */
  lemma SpelledByLe32(s: seq<byte>)
    requires |s| == 4
    ensures s == Le32(FromLe32(s))
  {
    var n := FromLe32(s);
    Le32RoundTrip(n);
    FromLe32Injective(s, Le32(n));
  }

  lemma FromLe32Injective(s: seq<byte>, t: seq<byte>)
    requires |s| == |t| == 4 && FromLe32(s) == FromLe32(t)
    ensures s == t
  {
    LowByte(s[1] as int + 256 * s[2] as int + 65536 * s[3] as int, s[0]);
    LowByte(t[1] as int + 256 * t[2] as int + 65536 * t[3] as int, t[0]);
    LowByte(s[2] as int + 256 * s[3] as int, s[1]);
    LowByte(t[2] as int + 256 * t[3] as int, t[1]);
    LowByte(s[3] as int, s[2]);
    LowByte(t[3] as int, t[2]);
  }

  lemma LowByte(high: nat, low: byte)
    ensures (256 * high + low as int) % 256 == low as int && (256 * high + low as int) / 256 == high
  {
  }

  /** A word inside a longer string. */
  lemma WordWithin(s: seq<byte>, pos: nat)
    requires pos + 4 <= |s|
    ensures Word(s, pos) == FromLe32(s[pos..pos + 4])
  {
    FromLe32Spells(s[pos..pos + 4]);
  }

  function Ascii(s: string): seq<byte>
    requires forall i | 0 <= i < |s| :: s[i] < '\U{0080}'
  {
    seq(|s|, i requires 0 <= i < |s| => s[i] as int)
  }
}
