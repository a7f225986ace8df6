/** The 3-byte frames the vehicle reads from the base station (auv/auv.py,
    lines 236-281). A frame is read as a big-endian unsigned integer and
    classified as a ping, a navigation command or a mission command. */
module Frame {
  import opened Bits

  /** The heartbeat the base station sends: all 24 bits set. */
  const PING: bv24 := 0xFF_FFFF
  /** Bit 17 flags a navigation command. */
  const NAV_BIT: bv24 := 0x02_0000
  /** The mask of the x field as written in the source; it leaves out bit 11. */
  const X_MASK: bv24 := 0x01_F600
  /** Bit 8 is the sign of the y field. */
  const SIGN_BIT: bv24 := 0x00_0100
  const Y_MASK: bv24 := 0x00_00FF
  const MISSION_MASK: bv24 := 0x3

  datatype Packet =
    | Ping
    | Navigate(x: int, y: int)
    | StartMission(id: int)

  /** `int.from_bytes(line, "big")` for a 3-byte line: the first byte is the
      most significant. */
  function Value(f: seq<bv8>): (v: bv24)
    requires |f| == 3
    ensures v >> 16 == f[0] as bv24
    ensures (v >> 8) & 0xFF == f[1] as bv24
    ensures v & 0xFF == f[2] as bv24
  {
    (f[0] as bv24 << 16) | (f[1] as bv24 << 8) | f[2] as bv24
  }

  /** The big-endian bytes of a 24-bit value, as the base station sends them. */
  function Bytes(v: bv24): (f: seq<bv8>)
    ensures |f| == 3
    ensures Value(f) == v
  {
    [(v >> 16) as bv8, ((v >> 8) & 0xFF) as bv8, (v & 0xFF) as bv8]
  }

  /** Reading bytes as a value and writing the value back gives the bytes. */
  lemma BytesOfValue(f: seq<bv8>)
    requires |f| == 3
    ensures Bytes(Value(f)) == f
  {
    var g := Bytes(Value(f));
    assert g[0] == f[0] && g[1] == f[1] && g[2] == f[2];
  }

  /** A byte as an integer, split at bit 2: the bits above, bit 2 itself and
      the two bits below. */
  lemma ByteSplit(b: bv8)
    ensures b as int == 8 * ((b >> 3) as int) + 4 * (((b >> 2) & 1) as int) + (b & 3) as int
    ensures (b & 0xFB) as int == 8 * ((b >> 3) as int) + (b & 3) as int
  {
  }

  /** Bit 2 of a byte, read with integer arithmetic. */
  lemma Bit2AsInt(b: bv8)
    ensures ((b as int) / 4) % 2 == ((b >> 2) & 1) as int
    ensures WithoutBit2(b as int) == (b & 0xFB) as int
  {
    var high, bit, low := (b >> 3) as int, ((b >> 2) & 1) as int, (b & 3) as int;
    ByteSplit(b);
    DivModUnique(b as int, 4, 2 * high + bit, low);
    DivModUnique(2 * high + bit, 2, high, bit);
  }

  /** The x field: the bits under X_MASK moved down by 9. The manoeuvre only
      asks whether it is zero, to decide whether to drive forward. */
  function XField(v: bv24): (x: int)
    ensures 0 <= x <= 251
    ensures (x / 4) % 2 == 0
  {
    var t := ((v & X_MASK) >> 9) as bv8;
    assert t & 4 == 0 && t <= 251;
    Bit2AsInt(t);
    t as int
  }

  /** The signed y field: bits 0-7, negated when bit 8 is set. The manoeuvre
      turns by its sign. */
  function YField(v: bv24): (y: int)
    ensures -255 <= y <= 255
    ensures y < 0 ==> v & SIGN_BIT != 0
    ensures v & SIGN_BIT != 0 ==> y <= 0
    ensures y == 0 <==> v & Y_MASK == 0
  {
    var magnitude := (v & Y_MASK) as int;
    if (v & SIGN_BIT) >> 8 == 1 then -magnitude else magnitude
  }

  /** Classification of one frame. The ping test comes first; every other
      frame is a navigation command when bit 17 is set and a mission command
      otherwise, so decoding never fails. The mission id is the low two bits
      of the last byte. */
  function Decode(f: seq<bv8>): (p: Packet)
    requires |f| == 3
    ensures p.Ping? <==> Value(f) == PING
    ensures p.Navigate? <==> Value(f) != PING && Value(f) & NAV_BIT != 0
    ensures p.StartMission? <==> Value(f) != PING && Value(f) & NAV_BIT == 0
    ensures p.Navigate? ==> 0 <= p.x <= 251 && (p.x / 4) % 2 == 0 && -255 <= p.y <= 255
    ensures p.StartMission? ==> 0 <= p.id <= 3 && p.id == (f[2] & 3) as int
  {
    var v := Value(f);
    if v == PING then Ping
    else if v & NAV_BIT > 0 then Navigate(XField(v), YField(v))
    else
      assert ((v & MISSION_MASK) as bv8) == f[2] & 3;
      StartMission(((v & MISSION_MASK) as bv8) as int)
  }

  /** The ping value also has the navigation bit set, so the order of the two
      tests decides how 0xFFFFFF is read. */
  lemma PingHasNavigationBit()
    ensures PING & NAV_BIT != 0
  {
  }

  /** x with bit 2 cleared: what the decoder gives back for an x field x. */
  function WithoutBit2(x: int): int
  {
    if (x / 4) % 2 == 1 then x - 4 else x
  }

  /** The sign bit of the y field. */
  function SignBits(negative: bool): bv24
  {
    if negative then SIGN_BIT else 0
  }

  /** The navigation frame the wire layout prescribes: bit 17 set, the x
      field in bits 9-16, the sign of the y field in bit 8 and its magnitude
      in bits 0-7. */
  function EncodeNavigate(x: bv8, magnitude: bv8, negative: bool): (f: seq<bv8>)
    ensures |f| == 3
    ensures Value(f) != PING
    ensures Value(f) & NAV_BIT != 0
  {
    Bytes(NavigateValue(x, magnitude, negative))
  }

  /** The 24-bit value of a navigation frame. */
  function NavigateValue(x: bv8, magnitude: bv8, negative: bool): bv24
  {
    NAV_BIT | (x as bv24 << 9) | SignBits(negative) | magnitude as bv24
  }

  /** A value with bit 17 set that is not the ping decodes field by field. */
  lemma DecodeNavigation(v: bv24)
    requires v != PING && v & NAV_BIT != 0
    ensures Decode(Bytes(v)) == Navigate(XField(v), YField(v))
  {
  }

  /** The x field of a navigation frame is x without bit 2. */
  lemma XOfNavigate(x: bv8, magnitude: bv8, negative: bool)
    ensures XField(NavigateValue(x, magnitude, negative)) == WithoutBit2(x as int)
  {
    var v := NavigateValue(x, magnitude, negative);
    assert ((v & X_MASK) >> 9) as bv8 == x & 0xFB;
    Bit2AsInt(x);
  }

  /** The y field of a navigation frame is the signed magnitude. */
  lemma YOfNavigate(x: bv8, magnitude: bv8, negative: bool)
    ensures YField(NavigateValue(x, magnitude, negative))
         == if negative then -(magnitude as int) else magnitude as int
  {
    var v := NavigateValue(x, magnitude, negative);
    assert v & Y_MASK == magnitude as bv24;
    assert (v & SIGN_BIT) >> 8 == 1 <==> negative;
  }

  /** A navigation frame decodes to its signed y field exactly, and to its
      x field with bit 2 dropped (the mask skips bit 11). */
  lemma NavigateRoundTrip(x: bv8, magnitude: bv8, negative: bool)
    ensures Decode(EncodeNavigate(x, magnitude, negative))
         == Navigate(WithoutBit2(x as int),
                     if negative then -(magnitude as int) else magnitude as int)
  {
    DecodeNavigation(NavigateValue(x, magnitude, negative));
    XOfNavigate(x, magnitude, negative);
    YOfNavigate(x, magnitude, negative);
  }

  /** Hence a command survives the trip exactly when bit 2 of x is clear. */
  lemma NavigateRoundTripExactly(x: bv8, magnitude: bv8, negative: bool)
    ensures Decode(EncodeNavigate(x, magnitude, negative))
         == Navigate(x as int, if negative then -(magnitude as int) else magnitude as int)
       <==> ((x as int) / 4) % 2 == 0
  {
    NavigateRoundTrip(x, magnitude, negative);
  }

  /** The mission-command frame for a mission id below 4. */
  function EncodeStartMission(id: bv8): (f: seq<bv8>)
    requires id < 4
    ensures |f| == 3
    ensures Value(f) & NAV_BIT == 0
  {
    Bytes(id as bv24)
  }

  lemma StartMissionRoundTrip(id: bv8)
    requires id < 4
    ensures Decode(EncodeStartMission(id)) == StartMission(id as int)
  {
    assert EncodeStartMission(id)[2] == id;
  }
}
