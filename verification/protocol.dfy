/** The two wire-format variants found in the vehicle's sources and the loop
    constants that go with them.

    - auv/auv.py: 5-bit headers and a zero WATER_DEPTH_DATA shifted left by
      11, a 2-byte depth frame, a 1-byte ping value 0xFF, a 3-second
      connection timeout and a mission budget of
      MAX_TIME / THREAD_SLEEP_DELAY / 7 iterations.
    - auv/constants.py: 3-bit headers shifted left by 21 into a 3-byte frame,
      a 3-byte ping 0xFFFFFF, a 6-second connection timeout and a budget of
      MAX_TIME / SEND_SLEEP_DELAY / 7. */
module Protocol {
  import opened Bits

  /** Packet kinds that have a header constant in one of the two variants. */
  datatype Kind =
    | Position | Heading | Voltage | Temp | MovementStat | MissionStat
    | Flooded | Depth | WaterDepth | Misc

  /** A header scheme. `header[k]` is the `*_DATA` constant of kind k; the
      kinds in `encoded` also have a `*_ENCODE = *_DATA << shift` constant and
      travel in frames `frameBits` wide. `ping` is the variant's heartbeat. */
  datatype Scheme = Scheme(
    shift: nat,
    frameBits: nat,
    ping: nat,
    header: map<Kind, nat>,
    encoded: set<Kind>)

  /** auv/auv.py: POSITION_DATA .. DEPTH_DATA (0b10000 .. 0b10111) and
      WATER_DEPTH_DATA = 0, only DEPTH_ENCODE defined, depth written as 2
      bytes, PING = 0xFF. */
  const AuvScheme := Scheme(
    11, 16, 0xFF,
    map[Position := 0x10, Heading := 0x11, Voltage := 0x12, Temp := 0x13,
        MovementStat := 0x14, MissionStat := 0x15, Flooded := 0x16, Depth := 0x17,
        WaterDepth := 0],
    {Depth})

  /** auv/constants.py: 3-bit POSITION/HEADING/MISC/DEPTH headers shifted by 21
      into 24-bit frames, the 5-bit TEMP_DATA with no TEMP_ENCODE, and
      PING = 0xFFFFFF. */
  const WireScheme := Scheme(
    21, 24, 0xFF_FFFF,
    map[Position := 0, Heading := 1, Misc := 2, Temp := 0x13, Depth := 3],
    {Position, Heading, Misc, Depth})

  /** `*_ENCODE`: the header moved up into the top bits of the frame. */
  function Encode(s: Scheme, k: Kind): (e: nat)
    requires k in s.header
    ensures e % Pow2(s.shift) == 0
    ensures Shr(e, s.shift) == s.header[k]
  {
    ShlShr(s.header[k], s.shift);
    Shl(s.header[k], s.shift)
  }

  /** What a header scheme has to satisfy for a receiver to tell its frames
      apart: distinct headers, every defined `*_ENCODE` fits the frame, and no
      defined header equals the header bits of the ping. */
  ghost predicate WellFormed(s: Scheme)
  {
    && s.encoded <= s.header.Keys
    && s.shift <= s.frameBits
    && s.ping < Pow2(s.frameBits)
    && HeadersDistinct(s.header)
    && (forall k :: k in s.encoded ==> Encode(s, k) < Pow2(s.frameBits))
    && (forall k :: k in s.encoded ==> s.header[k] != Shr(s.ping, s.shift))
  }

  /** In a well-formed scheme the encoded headers are pairwise distinct frame
      prefixes, none of them is the ping, and each fits the frame. */
  lemma EncodedHeadersSeparate(s: Scheme, k1: Kind, k2: Kind)
    requires WellFormed(s)
    requires k1 in s.encoded && k2 in s.encoded
    ensures k1 != k2 ==> Encode(s, k1) != Encode(s, k2)
    ensures Encode(s, k1) != s.ping
    ensures Encode(s, k1) < Pow2(s.frameBits)
  {
  }

  /** A header shifted by 11 or 21, as a plain product. */
  lemma EncodeValue(s: Scheme, k: Kind)
    requires k in s.header && (s.shift == 11 || s.shift == 21)
    ensures s.shift == 11 ==> Encode(s, k) == s.header[k] * 0x800
    ensures s.shift == 21 ==> Encode(s, k) == s.header[k] * 0x20_0000
  {
    Pow2Table();
  }

  /** No two kinds share a header. */
  predicate HeadersDistinct(header: map<Kind, nat>)
  {
    forall k1, k2 :: k1 in header && k2 in header && k1 != k2 ==> header[k1] != header[k2]
  }

  lemma AuvHeadersDistinct()
    ensures HeadersDistinct(AuvScheme.header)
  {
  }

  lemma WireHeadersDistinct()
    ensures HeadersDistinct(WireScheme.header)
  {
  }

  /** The six conditions of WellFormed, established one at a time. */
  lemma WellFormedIntro(s: Scheme)
    requires s.encoded <= s.header.Keys
    requires s.shift <= s.frameBits
    requires s.ping < Pow2(s.frameBits)
    requires HeadersDistinct(s.header)
    requires forall k :: k in s.encoded ==> Encode(s, k) < Pow2(s.frameBits)
    requires forall k :: k in s.encoded ==> s.header[k] != Shr(s.ping, s.shift)
    ensures WellFormed(s)
  {
  }

  /** Every auv.py header shifted by 11 fits two bytes. */
  lemma AuvHeadersFit()
    ensures forall k :: k in AuvScheme.header ==> Encode(AuvScheme, k) < Pow2(16)
  {
    Pow2Table();
    forall k | k in AuvScheme.header
      ensures Encode(AuvScheme, k) < Pow2(16)
    {
      EncodeValue(AuvScheme, k);
    }
  }

  lemma AuvSchemeWellFormed()
    ensures WellFormed(AuvScheme)
    ensures Encode(AuvScheme, Depth) == 0xB800
    ensures forall k :: k in AuvScheme.header ==> Encode(AuvScheme, k) < Pow2(16)
  {
    var s := AuvScheme;
    AuvHeadersDistinct();
    AuvHeadersFit();
    EncodeValue(s, Depth);
    assert Shr(s.ping, s.shift) == 0 by {
      Pow2Table();
      DivModUnique(0xFF, 0x800, 0, 0xFF);
    }
    assert s.ping < Pow2(s.frameBits) by {
      Pow2Table();
    }
    WellFormedIntro(s);
  }

  /** The four constants.py *_ENCODE values. */
  lemma WireEncodings()
    ensures Encode(WireScheme, Position) == 0
    ensures Encode(WireScheme, Heading) == 0x20_0000
    ensures Encode(WireScheme, Misc) == 0x40_0000
    ensures Encode(WireScheme, Depth) == 0x60_0000
  {
    EncodeValue(WireScheme, Position);
    EncodeValue(WireScheme, Heading);
    EncodeValue(WireScheme, Misc);
    EncodeValue(WireScheme, Depth);
  }

  /** The encoded constants.py headers fit three bytes and differ from the
      ping's header bits. */
  lemma WireEncodedFit()
    ensures forall k :: k in WireScheme.encoded ==>
              Encode(WireScheme, k) < Pow2(24) && WireScheme.header[k] != 7
  {
    Pow2Table();
    forall k | k in WireScheme.encoded
      ensures Encode(WireScheme, k) < Pow2(24) && WireScheme.header[k] != 7
    {
      EncodeValue(WireScheme, k);
    }
  }

  lemma WireSchemeWellFormed()
    ensures WellFormed(WireScheme)
    ensures Encode(WireScheme, Position) == 0
    ensures Encode(WireScheme, Heading) == 0x20_0000
    ensures Encode(WireScheme, Misc) == 0x40_0000
    ensures Encode(WireScheme, Depth) == 0x60_0000
    ensures Shr(WireScheme.ping, 21) == 7
  {
    var s := WireScheme;
    WireHeadersDistinct();
    WireEncodings();
    WireEncodedFit();
    assert Shr(s.ping, s.shift) == 7 by {
      Pow2Table();
      DivModUnique(0xFF_FFFF, 0x20_0000, 7, 0x1F_FFFF);
    }
    assert Pow2(s.frameBits) == 0x100_0000 by {
      Pow2Table();
    }
    WellFormedIntro(s);
  }

  /** TEMP_DATA is five bits wide, so shifting it by 21 would not fit a
      3-byte frame; constants.py defines no TEMP_ENCODE. */
  lemma WireTempDoesNotFit()
    ensures Temp !in WireScheme.encoded
    ensures Encode(WireScheme, Temp) >= Pow2(WireScheme.frameBits)
  {
    Pow2Table();
  }

  /** The loop constants of a variant: the heartbeat timeout in seconds and
      the mission budget MAX_TIME / <loop delay> / 7 as an exact fraction. */
  datatype Config = Config(scheme: Scheme, timeout: int, budget: real)

  /** A variant the control loop can run with: a well-formed scheme with an
      encoded depth header, room below it for the depth fields, and frames of
      at least two bytes. */
  ghost predicate Valid(c: Config)
  {
    && WellFormed(c.scheme)
    && Depth in c.scheme.encoded
    && 4 <= c.scheme.shift
    && 16 <= c.scheme.frameBits
  }

  lemma ConfigsValid()
    ensures Valid(AuvConfig)
    ensures Valid(WireConfig)
  {
    AuvSchemeWellFormed();
    WireSchemeWellFormed();
  }

  const MAX_TIME: real := 600.0
  const THREAD_SLEEP_DELAY: real := 0.05
  const SEND_SLEEP_DELAY: real := 1.0

  const AuvConfig := Config(AuvScheme, 3, MAX_TIME / THREAD_SLEEP_DELAY / 7.0)
  const WireConfig := Config(WireScheme, 6, MAX_TIME / SEND_SLEEP_DELAY / 7.0)

  /** The first integer iteration count strictly above the budget. */
  function FirstOver(budget: real): (k: int)
    ensures k as real > budget
    ensures (k - 1) as real <= budget
  {
    budget.Floor + 1
  }

  /** For a budget of at least 0, the first count over it is 1 exactly when
      the budget is below 1, and more than 1 otherwise. */
  lemma FirstOverOne(budget: real)
    requires budget >= 0.0
    ensures FirstOver(budget) >= 1
    ensures FirstOver(budget) == 1 <==> budget < 1.0
  {
  }

  /** auv/auv.py aborts a mission when the timer first reaches 1715;
      constants.py's budget would abort at 86. */
  lemma FirstOverBudgets()
    ensures FirstOver(AuvConfig.budget) == 1715
    ensures FirstOver(WireConfig.budget) == 86
  {
    assert AuvConfig.budget == 12000.0 / 7.0;
    assert 1714.0 <= AuvConfig.budget < 1715.0;
    assert WireConfig.budget == 600.0 / 7.0;
    assert 85.0 <= WireConfig.budget < 86.0;
  }
}
