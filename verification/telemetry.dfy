/** The depth telemetry frame (auv/auv.py, lines 210-231): the depth header
    with the whole metres in the bits from 4 upwards and one decimal digit in
    bits 0-3. */
module Telemetry {
  import opened Bits
  import opened Protocol

  /** Depth in metres from a pressure in millibar, clamped at the surface. */
  function DepthOf(pressure: real): (d: real)
    ensures d >= 0.0
    ensures d == 0.0 <==> pressure <= 1013.25
  {
    var depth := (pressure - 1013.25) / 1000.0 * 10.2;
    if depth < 0.0 then 0.0 else depth
  }

  /** A higher pressure never reads as a shallower depth. */
  lemma DepthMonotone(p1: real, p2: real)
    requires p1 <= p2
    ensures DepthOf(p1) <= DepthOf(p2)
  {
  }

  /** `DEPTH_ENCODE | (intPart << 4) | digit` on Python ints. */
  function DepthFrame(s: Scheme, intPart: nat, digit: nat): (f: nat)
    requires Depth in s.header
    ensures f >= Encode(s, Depth) && f >= Shl(intPart, 4) && f >= digit
    ensures f <= Encode(s, Depth) + Shl(intPart, 4) + digit
  {
    Or(Or(Encode(s, Depth), Shl(intPart, 4)), digit)
  }

  /** Below the header, the whole metres and the digit occupy disjoint bits,
      so the two `|` of the frame are additions. */
  lemma DepthFrameSum(s: Scheme, intPart: nat, digit: nat)
    requires Depth in s.header
    requires 4 <= s.shift
    requires intPart < Pow2(s.shift - 4)
    requires digit < 16
    ensures DepthFrame(s, intPart, digit)
         == (s.header[Depth] * Pow2(s.shift - 4) + intPart) * 16 + digit
    ensures Pow2(s.shift) == Pow2(s.shift - 4) * 16
  {
    var h := s.header[Depth];
    var low := Pow2(s.shift - 4);
    var high := Pow2(s.shift);
    Pow2Add(s.shift - 4, 4);
    Pow2Table();
    var e := Encode(s, Depth);
    assert intPart * 16 < high by {
      MulMonotone(intPart + 1, low, 16);
    }
    OrDisjoint(e, Shl(intPart, 4), s.shift);
    var upper := h * low + intPart;
    assert e + intPart * 16 == upper * 16 by {
      MulAssoc(h, low, 16);
    }
    DivModUnique(e + intPart * 16, 16, upper, 0);
    OrDisjoint(e + intPart * 16, digit, 4);
  }

  /** When the whole metres fit below the header and the digit fits in four
      bits, the depth frame's top bits are the depth header, both fields can be
      read back, and in a well-formed scheme it fits the frame width. */
  lemma DepthFrameLayout(s: Scheme, intPart: nat, digit: nat)
    requires Depth in s.header
    requires 4 <= s.shift
    requires intPart < Pow2(s.shift - 4)
    requires digit < 16
    ensures var f := DepthFrame(s, intPart, digit);
      && f == Encode(s, Depth) + intPart * 16 + digit
      && Shr(f, s.shift) == s.header[Depth]
      && (f / 16) % Pow2(s.shift - 4) == intPart
      && f % 16 == digit
      && (WellFormed(s) && Depth in s.encoded ==> f < Pow2(s.frameBits))
  {
    var h := s.header[Depth];
    var low := Pow2(s.shift - 4);
    var high := Pow2(s.shift);
    var upper := h * low + intPart;
    var f := DepthFrame(s, intPart, digit);
    DepthFrameSum(s, intPart, digit);
    assert f == h * high + (intPart * 16 + digit) by {
      MulAssoc(h, low, 16);
    }
    DivModUnique(f, 16, upper, digit);
    DivModUnique(upper, low, h, intPart);
    DivModUnique(f, high, h, intPart * 16 + digit);
    if WellFormed(s) && Depth in s.encoded {
      DepthFrameFits(s, f - h * high);
    }
  }

  /** A prefix that fits a frame of `room` units of `high` still fits once
      anything below `high` is added after it. */
  lemma PrefixFits(h: nat, high: nat, room: nat, rest: nat)
    requires high > 0 && h * high < room * high && rest < high
    ensures h * high + rest < room * high
  {
    if room <= h {
      MulMonotone(room, h, high);
    }
    MulMonotone(h + 1, room, high);
    MulSucc(h, high);
  }

  /** In a well-formed scheme, the depth header followed by any value below
      the shift still fits the frame. */
  lemma DepthFrameFits(s: Scheme, rest: nat)
    requires WellFormed(s) && Depth in s.encoded
    requires rest < Pow2(s.shift)
    ensures Encode(s, Depth) + rest < Pow2(s.frameBits)
  {
    var h := s.header[Depth];
    var high := Pow2(s.shift);
    var room := Pow2(s.frameBits - s.shift);
    Pow2Add(s.frameBits - s.shift, s.shift);
    assert Pow2(s.frameBits) == room * high;
    assert Encode(s, Depth) == h * high;
    assert h * high < room * high;
    PrefixFits(h, high, room, rest);
  }

  /** The auv.py instance: the frame starts 0b10111 from bit 11 up, is below
      2^16, and gives back both fields for fewer than 128 whole metres. */
  lemma AuvDepthFrame(intPart: nat, digit: nat)
    requires intPart < 128 && digit < 16
    ensures var f := DepthFrame(AuvScheme, intPart, digit);
      && f == 0xB800 + intPart * 16 + digit
      && f < 0x1_0000
      && f / 0x800 == 0x17
      && (f / 16) % 128 == intPart
      && f % 16 == digit
  {
    Pow2Table();
    AuvSchemeWellFormed();
    DepthFrameLayout(AuvScheme, intPart, digit);
  }
}
