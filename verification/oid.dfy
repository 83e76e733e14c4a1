/** Object identifiers: the order `memcmp` gives them, the number they spell
    big-endian, and the in-place increment and decrement. */
module Oids {
  import opened Bytes

  // The source fixes 20 bytes; order and arithmetic hold for any length.
  type Oid = s: seq<byte> | |s| == 20 witness [0, 0, 0, 0, 0, 0, 0, 0, 0, 0, 0, 0, 0, 0, 0, 0, 0, 0, 0, 0]

  const ZERO_OID: Oid := [0, 0, 0, 0, 0, 0, 0, 0, 0, 0, 0, 0, 0, 0, 0, 0, 0, 0, 0, 0]

  function MemCmp(a: seq<byte>, b: seq<byte>): int
    requires |a| == |b|
  {
    if a == [] then 0
    else if a[0] != b[0] then a[0] as int - b[0] as int
    else MemCmp(a[1..], b[1..])
  }

  function Value(s: seq<byte>): nat {
    if s == [] then 0 else 256 * Value(s[..|s| - 1]) + s[|s| - 1]
  }

  function Pow256(n: nat): (p: nat)
    ensures p > 0
  {
    if n == 0 then 1 else 256 * Pow256(n - 1)
  }

  lemma {:induction false} ValueBelowPower(s: seq<byte>)
    ensures Value(s) < Pow256(|s|)
  {
    if s != [] {
      ValueBelowPower(s[..|s| - 1]);
    }
  }

  lemma {:induction false} MemCmpLast(a: seq<byte>, b: seq<byte>)
    requires |a| == |b| > 0
    ensures var front := MemCmp(a[..|a| - 1], b[..|b| - 1]);
            MemCmp(a, b) == if front != 0 then front else a[|a| - 1] as int - b[|b| - 1] as int
  {
    var n := |a|;
    if n > 1 && a[0] == b[0] {
      MemCmpLast(a[1..], b[1..]);
      assert a[1..][..n - 2] == a[..n - 1][1..];
      assert b[1..][..n - 2] == b[..n - 1][1..];
    }
  }

  /** `memcmp` order is numeric order, and equality is equality. */
  lemma {:induction false} MemCmpIsNumeric(a: seq<byte>, b: seq<byte>)
    requires |a| == |b|
    ensures MemCmp(a, b) < 0 <==> Value(a) < Value(b)
    ensures MemCmp(a, b) > 0 <==> Value(a) > Value(b)
    ensures MemCmp(a, b) == 0 <==> a == b
  {
    if a != [] {
      var n := |a|;
      MemCmpLast(a, b);
      MemCmpIsNumeric(a[..n - 1], b[..n - 1]);
      assert a == a[..n - 1] + [a[n - 1]];
      assert b == b[..n - 1] + [b[n - 1]];
    }
  }

  /** The first byte is monotone in the order: what the fan-out relies on. */
  lemma FirstByteMonotone(a: seq<byte>, b: seq<byte>)
    requires |a| == |b| > 0
    requires Value(a) <= Value(b)
    ensures a[0] <= b[0]
  {
    MemCmpIsNumeric(b, a);
  }

  // ---------------------------------------------------------------------
  // Increment and decrement with carry

  function Tweaked(s: seq<byte>, up: bool): (r: seq<byte>)
    ensures |r| == |s|
  {
    if s == [] then []
    else
      var init, last := s[..|s| - 1], s[|s| - 1];
      if up then
        if last == 255 then Tweaked(init, up) + [0] else init + [last + 1]
      else
        if last == 0 then Tweaked(init, up) + [255] else init + [last - 1]
  }

  /** Plus or minus one on the number, modulo 256 to the length. */
  lemma {:induction false} TweakedValue(s: seq<byte>, up: bool)
    ensures up ==> Value(Tweaked(s, up)) == if Value(s) + 1 == Pow256(|s|) then 0 else Value(s) + 1
    ensures !up ==> Value(Tweaked(s, up)) == if Value(s) == 0 then Pow256(|s|) - 1 else Value(s) - 1
  {
    if s != [] {
      var init, last := s[..|s| - 1], s[|s| - 1];
      TweakedValue(init, up);
      ValueBelowPower(init);
      var t := Tweaked(s, up);
      assert t[..|t| - 1] == if last == (if up then 255 else 0) then Tweaked(init, up) else init;
    }
  }

  lemma StepModulo(v: nat, p: nat)
    requires v < p
    ensures (v + 1) % p == if v + 1 == p then 0 else v + 1
    ensures (v - 1) % p == if v == 0 then p - 1 else v - 1
  {
    if v == 0 {
      assert -1 == -1 * p + (p - 1);
    }
  }

  lemma {:induction false} ValueInjective(a: seq<byte>, b: seq<byte>)
    requires |a| == |b| && Value(a) == Value(b)
    ensures a == b
  {
    MemCmpIsNumeric(a, b);
  }

  lemma TweaksCancel(s: seq<byte>, up: bool)
    ensures Tweaked(Tweaked(s, up), !up) == s
  {
    TweakedValue(s, up);
    TweakedValue(Tweaked(s, up), !up);
    ValueBelowPower(s);
    ValueInjective(Tweaked(Tweaked(s, up), !up), s);
  }

  ghost predicate AllBytes(s: seq<byte>, b: byte) {
    forall i | 0 <= i < |s| :: s[i] == b
  }

  /** The greatest number of a length is the one whose bytes are all 255, and
      zero the one whose bytes are all 0. */
  lemma {:induction false} Extremes(s: seq<byte>)
    ensures Value(s) + 1 == Pow256(|s|) <==> AllBytes(s, 255)
    ensures Value(s) == 0 <==> AllBytes(s, 0)
  {
    if s != [] {
      var init, last := s[..|s| - 1], s[|s| - 1];
      Extremes(init);
      ValueBelowPower(init);
      assert forall b: byte :: AllBytes(s, b) <==> AllBytes(init, b) && last == b;
    }
  }

  /** `++x > x` exactly when some byte of x is not 255, and `--x < x` exactly
      when some byte is not 0. */
  lemma TweakedOrder(s: seq<byte>)
    requires s != []
    ensures MemCmp(Tweaked(s, true), s) > 0 <==> !AllBytes(s, 255)
    ensures MemCmp(Tweaked(s, false), s) < 0 <==> !AllBytes(s, 0)
  {
    Extremes(s);
    TweakedValue(s, true);
    TweakedValue(s, false);
    ValueBelowPower(s);
    MemCmpIsNumeric(Tweaked(s, true), s);
    MemCmpIsNumeric(Tweaked(s, false), s);
  }

  /** One round of the source's loop: the byte at `pos` is settled, and the
      carry goes on exactly when it wrapped. */
  lemma TweakedOnce(before: seq<byte>, now: seq<byte>, pos: nat, tmp: byte, up: bool)
    requires pos < |before| && now == before[pos := tmp]
    requires tmp == (before[pos] as int + if up then 1 else -1) % 256
    ensures tmp == (if up then 0 else 255) ==>
              Tweaked(before[..pos + 1], up) + before[pos + 1..] == Tweaked(now[..pos], up) + now[pos..]
    ensures tmp != (if up then 0 else 255) ==>
              Tweaked(before[..pos + 1], up) + before[pos + 1..] == now
  {
    var head := before[..pos + 1];
    assert head[..pos] == before[..pos] == now[..pos];
    assert now[pos..] == [tmp] + before[pos + 1..];
    assert now == now[..pos] + now[pos..];
  }

  class MutableOid {
    const raw: array<byte>

    constructor (bytes: seq<byte>)
      requires bytes != []
      ensures fresh(raw) && raw[..] == bytes
    {
      raw := new byte[|bytes|](i requires 0 <= i < |bytes| => bytes[i]);
    }

    method Tweak(adjust: int, stop: byte)
      requires raw.Length > 0
      requires (adjust == 1 && stop == 0) || (adjust == -1 && stop == 255)
      modifies raw
      ensures raw[..] == Tweaked(old(raw[..]), adjust == 1)
    {
      ghost var was, up := raw[..], adjust == 1;
      var pos := raw.Length - 1;
      assert raw[..pos + 1] == was && raw[pos + 1..] == [];
      while true
        invariant 0 <= pos < raw.Length == |was|
        invariant raw[..pos + 1] == was[..pos + 1]
        invariant Tweaked(was, up) == Tweaked(raw[..pos + 1], up) + raw[pos + 1..]
        decreases pos
      {
        ghost var before := raw[..];
        var tmp := (raw[pos] + adjust) % 256;
        raw[pos] := tmp;
        TweakedOnce(before, raw[..], pos, tmp, up);
        assert raw[..pos] == before[..pos] == was[..pos];
        if tmp == stop {
          if pos == 0 {
            break;
          }
          pos := pos - 1;
        } else {
          break;
        }
      }
    }

    /** `operator++` */
    method Increment()
      requires raw.Length > 0
      modifies raw
      ensures Value(raw[..]) == (old(Value(raw[..])) + 1) % Pow256(raw.Length)
      ensures raw[..] == Tweaked(old(raw[..]), true)
    {
      TweakedValue(raw[..], true);
      ValueBelowPower(raw[..]);
      StepModulo(Value(raw[..]), Pow256(raw.Length));
      Tweak(1, 0);
    }

    /** `operator--` */
    method Decrement()
      requires raw.Length > 0
      modifies raw
      ensures Value(raw[..]) == (old(Value(raw[..])) - 1) % Pow256(raw.Length)
      ensures raw[..] == Tweaked(old(raw[..]), false)
    {
      TweakedValue(raw[..], false);
      ValueBelowPower(raw[..]);
      StepModulo(Value(raw[..]), Pow256(raw.Length));
      Tweak(-1, 255);
    }
  }
}
