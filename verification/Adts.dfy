/** RFC 3640 packets and ADTS frames (inc/AudioEngine23/AudioEngine23.hpp, classes Demuxer and Muxer;
    inc/AudioEngine23/AdtsHeader.h). */
module Adts {
  import opened ModArithmetic

  type Byte = x: int | 0 <= x < 256
  type Bytes = seq<Byte>

  datatype Error = OutOfInput | OutOfScratch | BadSync | BadLength
  datatype Result<+T> = Ok(value: T) | Err(error: Error)

  const ADTS_HEADER_LENGTH: nat := 7
  /** The scratch buffer of mux. */
  const SCRATCH: nat := 1000
  /** An access unit size is a 13-bit number. */
  const AU_LIMIT: nat := 0x2000

  /** `rate` is the sample rate, `stray` what the frequency index happens to hold for an unknown rate. */
  datatype Config = Config(rate: int, channels: nat, stray: Byte)

  /* ---- the ADTS header ---- */

  function FreqIdx(c: Config): Byte {
    match c.rate
    case 96000 => 0
    case 88200 => 1
    case 64000 => 2
    case 48000 => 3
    case 44100 => 4
    case 32000 => 5
    case 24000 => 6
    case 22050 => 7
    case 16000 => 8
    case 12000 => 9
    case 11025 => 10
    case 8000 => 11
    case 7350 => 12
    case _ => c.stray
  }

  /** The sampling frequencies of ISO/IEC 14496-3, by index. */
  const RATES: seq<int> := [96000, 88200, 64000, 48000, 44100, 32000, 24000, 22050, 16000, 12000, 11025, 8000, 7350]

  /** writeAdtsHeaders, with every byte cut to 8 bits as the casts do. */
  function Header(c: Config, dataLength: nat): (h: Bytes)
    ensures |h| == ADTS_HEADER_LENGTH
  {
    var channelCfg := c.channels % 256;
    var packetLength := dataLength + ADTS_HEADER_LENGTH;
    [ 0xFF,
      0xF1,
      (0x40 + FreqIdx(c) * 4 + channelCfg / 4) % 256,
      (channelCfg % 4 * 64 + packetLength / 0x800) % 256,
      packetLength % 0x800 / 8,
      packetLength % 8 * 32 + 0x1F,
      0xFC ]
  }

  function Frame(c: Config, au: Bytes): Bytes {
    Header(c, |au|) + au
  }

  predicate HasSync(f: Bytes) {
    |f| >= 2 && f[0] == 0xFF && f[1] / 16 == 0xF
  }

  /** The 13-bit frame length, as the bit fields of adts_header_t place it. */
  function ReadLength(f: Bytes): (n: nat)
    requires |f| >= 6
    ensures n < 0x2000
  {
    (f[3] as int) % 4 * 0x800 + (f[4] as int) * 8 + f[5] / 32
  }

  function ReadProfile(f: Bytes): nat
    requires |f| >= 3
  {
    f[2] / 64
  }

  function ReadFreqIdx(f: Bytes): nat
    requires |f| >= 3
  {
    f[2] / 4 % 16
  }

  function ReadChannels(f: Bytes): (n: nat)
    requires |f| >= 4
    ensures n < 8
  {
    (f[2] as int) % 2 * 4 + f[3] / 64
  }

  /** Whatever the length, the 13 bits read back are its low bits. */
  lemma LengthField(c: Config, n: nat)
    requires n < AU_LIMIT
    ensures ReadLength(Header(c, n)) == (n + ADTS_HEADER_LENGTH) % 0x2000 && HasSync(Header(c, n))
  {
    var p := n + ADTS_HEADER_LENGTH;
    assert (c.channels % 256 % 4 * 64 + p / 0x800) % 256 % 4 == p / 0x800 % 4;
    assert p % 0x800 / 8 * 8 + p % 8 == p % 0x800;
    assert p / 0x800 % 4 * 0x800 + p % 0x800 == p % 0x2000;
  }

  /** A frame states its own length exactly if its access unit has at most 8184 bytes. */
  lemma LengthReadBackIff(c: Config, au: Bytes)
    requires |au| < AU_LIMIT
    ensures ReadLength(Frame(c, au)) == |Frame(c, au)| <==> |au| <= 8184
  {
    LengthField(c, |au|);
    var f := Frame(c, au);
    assert f[3] == Header(c, |au|)[3] && f[4] == Header(c, |au|)[4] && f[5] == Header(c, |au|)[5];
  }

  /** A supported rate has the index the standard gives it. */
  lemma RateIndex(c: Config)
    requires c.rate in RATES
    ensures FreqIdx(c) < |RATES| && RATES[FreqIdx(c)] == c.rate
  {
  }

  /** Profile, rate and channel count read back exactly up to seven channels, whatever the length. */
  lemma ConfigReadBackIff(c: Config, n: nat)
    requires n < AU_LIMIT && c.rate in RATES
    ensures var h := Header(c, n);
            ReadProfile(h) == 1 && ReadFreqIdx(h) == FreqIdx(c) && ReadChannels(h) == c.channels <==> c.channels <= 7
  {
    RateIndex(c);
    if c.channels <= 7 {
      var h, channels, freq, high := Header(c, n), c.channels, FreqIdx(c), (n + ADTS_HEADER_LENGTH) / 0x800;
      assert channels % 256 == channels;
      HighByte(freq, channels);
      assert h[2] == (0x40 + freq * 4 + channels / 4) % 256;
      LowByte(channels, high);
      assert h[3] == (channels % 4 * 64 + high) % 256;
    }
  }

  /** What the fields of profile, rate and channels hold for every configuration: the channel count is cut to
      its low three bits, and from 16 channels on it runs over into the rate index and the profile. */
  lemma ConfigFields(c: Config, n: nat)
    requires n < AU_LIMIT
    ensures var h := Header(c, n);
            (h[2] as int) % 2 * 4 + h[3] / 64 == c.channels % 8
    ensures var h := Header(c, n);
            var profile, freqIdx := h[2] / 64, h[2] / 4 % 16;
            profile * 16 + freqIdx == (16 + FreqIdx(c) + c.channels % 256 / 16) % 64
  {
    var h := Header(c, n);
    ThirdByteFields(FreqIdx(c), c.channels % 256, h[2]);
    FourthByteFields(c.channels % 256 % 4, (n + ADTS_HEADER_LENGTH) / 0x800, h[3]);
    LowThreeBits(c.channels);
    ProfileAndIndex(h[2]);
  }

  lemma ProfileAndIndex(b: Byte)
    ensures b / 64 * 16 + b / 4 % 16 == b / 4
  {
  }

  lemma ThirdByteFields(freq: Byte, channels: nat, b: Byte)
    requires b == (0x40 + freq * 4 + channels / 4) % 256
    ensures b % 2 == channels % 8 / 4 && b / 4 == (16 + freq + channels / 16) % 64
  {
    var q, r := channels / 16, channels % 16;
    assert channels / 4 == q * 4 + r / 4;
    CutToByte(16 + freq + q, r / 4, b);
    ThirdBit(channels);
  }

  lemma ThirdBit(channels: nat)
    ensures channels % 16 / 4 % 2 == channels % 8 / 4
  {
    var q, r := channels / 16, channels % 16;
    UniqueMod(channels, 8, 2 * q + r / 8, r % 8);
  }

  lemma CutToByte(x: nat, low: nat, b: Byte)
    requires low < 4 && b == (4 * x + low) % 256
    ensures b % 2 == low % 2 && b / 4 == x % 64
  {
    var u, v := x / 64, x % 64;
    UniqueMod(4 * x + low, 256, u, 4 * v + low);
    EvenApart(2 * v, low);
  }

  lemma FourthByteFields(low: nat, high: nat, b: Byte)
    requires low < 4 && high < 5 && b == (low * 64 + high) % 256
    ensures b / 64 == low
  {
    assert b == low * 64 + high;
  }

  lemma LowThreeBits(x: nat)
    ensures x % 256 % 8 == x % 8 && x % 8 / 4 * 4 + x % 256 % 4 == x % 8
  {
    var q, r := x / 256, x % 256;
    UniqueMod(x, 8, 32 * q + r / 8, r % 8);
    UniqueMod(r, 4, r / 4, r % 4);
    UniqueMod(r, 4, 2 * (r / 8) + r % 8 / 4, r % 8 % 4);
  }

  /** The fields that do not depend on length, rate or channel count, at the places adts_header_t gives them:
      no checksum follows, the buffer fullness is that of a variable rate, and the frame is one raw data
      block.  Two more are zero except where a neighbour runs over into them: the private bit from eight
      channels on, the start of the copyright identification from 8185 bytes on. */
  lemma FixedFields(c: Config, n: nat)
    requires n < AU_LIMIT
    ensures var h := Header(c, n);
            var id, layer, protectionAbsent := h[1] / 8 % 2, h[1] / 2 % 4, h[1] % 2;
            id == 0 && layer == 0 && protectionAbsent == 1
    ensures var privateBit := Header(c, n)[2] / 2 % 2;
            privateBit == 0 <==> c.channels % 16 < 8
    ensures var h := Header(c, n);
            var original, home := h[3] / 32 % 2, h[3] / 16 % 2;
            var copyrightBit, copyrightStart := h[3] / 8 % 2, h[3] / 4 % 2;
            original == 0 && home == 0 && copyrightBit == 0 && (copyrightStart == 0 <==> n <= 8184)
    ensures var h := Header(c, n);
            var fullness, rawBlocks := (h[5] as int) % 32 * 64 + h[6] / 4, h[6] % 4;
            fullness == 0x7FF && rawBlocks == 0
  {
    PrivateBit(c, n);
    LengthNeighbours(c, n);
    LastBytes(n);
  }

  lemma LastBytes(n: nat)
    ensures var length := n + ADTS_HEADER_LENGTH;
            (length % 8 * 32 + 0x1F) % 32 == 31
  {
  }

  lemma PrivateBit(c: Config, n: nat)
    requires n < AU_LIMIT
    ensures Header(c, n)[2] / 2 % 2 == 0 <==> c.channels % 16 < 8
  {
    LowHalf(c.channels);
    ThirdByte(FreqIdx(c), c.channels % 256, Header(c, n)[2]);
  }

  lemma LowHalf(x: nat)
    ensures x % 256 % 16 == x % 16
  {
    var q, r := x / 256, x % 256;
    assert x == 16 * (16 * q) + r;
    SameRemainder(16 * q, r);
  }

  lemma SameRemainder(k: nat, m: nat)
    ensures (16 * k + m) % 16 == m % 16
  {
  }

  lemma ThirdByte(freq: Byte, channels: nat, b: Byte)
    requires b == (0x40 + freq * 4 + channels / 4) % 256
    ensures b / 2 % 2 == 0 <==> channels % 16 < 8
  {
    SecondBit(0x40 + freq * 4 + channels / 4, b);
    QuarterOf(freq, channels);
  }

  /** Cutting to a byte leaves the second bit alone. */
  lemma SecondBit(x: nat, b: Byte)
    requires b == x % 256
    ensures b / 2 % 2 == x / 2 % 2
  {
    var q, half := x / 256, b / 2;
    assert x / 2 == 2 * (64 * q) + half;
    EvenApart(64 * q, half);
  }

  lemma EvenApart(k: nat, m: nat)
    ensures (2 * k + m) % 2 == m % 2
  {
  }

  lemma QuarterOf(freq: Byte, channels: nat)
    ensures (0x40 + freq * 4 + channels / 4) / 2 % 2 == 0 <==> channels % 16 < 8
  {
    var q, r := channels / 16, channels % 16;
    assert channels / 4 == q * 4 + r / 4;
    assert (0x40 + freq * 4 + channels / 4) / 2 == 2 * (0x10 + freq + q) + r / 8;
    EvenApart(0x10 + freq + q, r / 8);
  }

  lemma LengthNeighbours(c: Config, n: nat)
    requires n < AU_LIMIT
    ensures var b := Header(c, n)[3];
            b / 32 % 2 == 0 && b / 16 % 2 == 0 && b / 8 % 2 == 0 && (b / 4 % 2 == 0 <==> n <= 8184)
  {
    var low, high, b := c.channels % 256 % 4, (n + ADTS_HEADER_LENGTH) / 0x800, Header(c, n)[3];
    LengthBits(low, high, b);
  }

  lemma LengthBits(low: nat, high: nat, b: Byte)
    requires low < 4 && high < 5 && b == (low * 64 + high) % 256
    ensures b / 32 % 2 == 0 && b / 16 % 2 == 0 && b / 8 % 2 == 0 && b / 4 % 2 == high / 4
  {
    assert b == low * 64 + high;
    assert b / 32 == low * 2 && b / 16 == low * 4 && b / 8 == low * 8;
    assert b / 4 == low * 16 + high / 4;
  }

  lemma HighByte(freq: Byte, channels: nat)
    requires freq < 16 && channels < 8
    ensures var h := (0x40 + freq * 4 + channels / 4) % 256;
            h / 64 == 1 && h / 4 % 16 == freq && h % 2 == channels / 4
  {
  }

  lemma LowByte(channels: nat, high: nat)
    requires channels < 8 && high < 64
    ensures (channels % 4 * 64 + high) % 256 / 64 == channels % 4
  {
  }

  /* ---- demux ---- */

  /** The number of access units as the program computes it: the high byte of the 16-bit length field
      (RFC 3640, section 3.2.1) weighs 2^16 instead of 2^8. */
  function AuCount(p: Bytes): nat
    requires |p| >= 2
  {
    ((p[0] as int) * 0x10000 + p[1]) / 16
  }

  /** The 13-bit size in an AU header (RFC 3640, section 3.3.6). */
  function AuSize(hi: Byte, lo: Byte): (n: nat)
    ensures n < AU_LIMIT
  {
    (hi as int) * 32 + lo / 8
  }

  /** The access units of the `left` headers from position i on, with data from position `index`. */
  function UnitsFrom(p: Bytes, i: nat, left: nat, index: nat): Result<seq<Bytes>>
    decreases left
  {
    if left == 0 then Ok([])
    else if i + 1 >= |p| then Err(OutOfInput)
    else
      var n := AuSize(p[i], p[i + 1]);
      if index + n > |p| then Err(OutOfInput) else
        Prepend([p[index..index + n]], UnitsFrom(p, i + 2, left - 1, index + n))
  }

  /** More in front of a result. */
  function Prepend(units: seq<Bytes>, r: Result<seq<Bytes>>): Result<seq<Bytes>> {
    match r
    case Ok(rest) => Ok(units + rest)
    case Err(e) => Err(e)
  }

  lemma PrependTwice(a: seq<Bytes>, b: seq<Bytes>, r: Result<seq<Bytes>>)
    ensures Prepend(a, Prepend(b, r)) == Prepend(a + b, r)
  {
    if r.Ok? {
      assert a + (b + r.value) == a + b + r.value;
    }
  }

  function Units(p: Bytes): Result<seq<Bytes>> {
    if |p| < 2 then Err(OutOfInput) else UnitsFrom(p, 2, AuCount(p), 2 + 2 * AuCount(p))
  }

  function FramesOf(c: Config, aus: seq<Bytes>): (r: seq<Bytes>)
    ensures |r| == |aus| && forall k :: 0 <= k < |r| ==> r[k] == Frame(c, aus[k])
  {
    seq(|aus|, k requires 0 <= k < |aus| => Frame(c, aus[k]))
  }

  function Demuxed(c: Config, p: Bytes): Result<seq<Bytes>> {
    match Units(p)
    case Ok(aus) => Ok(FramesOf(c, aus))
    case Err(e) => Err(e)
  }

  lemma StepOfDemux(p: Bytes, i: nat, left: nat, index: nat, units: seq<Bytes>)
    requires left > 0
    ensures Prepend(units, UnitsFrom(p, i, left, index)) ==
            if i + 1 >= |p| || index + AuSize(p[i], p[i + 1]) > |p| then Err(OutOfInput) else
              var n := AuSize(p[i], p[i + 1]);
              Prepend(units + [p[index..index + n]], UnitsFrom(p, i + 2, left - 1, index + n))
  {
    if i + 1 < |p| && index + AuSize(p[i], p[i + 1]) <= |p| {
      var n := AuSize(p[i], p[i + 1]);
      PrependTwice(units, [p[index..index + n]], UnitsFrom(p, i + 2, left - 1, index + n));
    }
  }

  /** Nothing in front, and nothing behind. */
  lemma PrependNothing(units: seq<Bytes>, r: Result<seq<Bytes>>)
    ensures Prepend(units, Ok([])) == Ok(units) && Prepend([], r) == r
  {
    assert units + [] == units;
    if r.Ok? {
      assert [] + r.value == r.value;
    }
  }

  lemma OneMoreFrame(c: Config, units: seq<Bytes>, au: Bytes)
    ensures FramesOf(c, units + [au]) == FramesOf(c, units) + [Frame(c, au)]
  {
  }

  class Demuxer {
    var config: Config

    constructor ()
      ensures config.rate == 0 && config.channels == 1
    {
      config := Config(0, 1, 0);
    }

    method Init(sampleRate: int, channels: nat)
      modifies this
      ensures config == old(config).(rate := sampleRate, channels := channels)
    {
      config := config.(rate := sampleRate, channels := channels);
    }

    method WriteAdtsHeaders(header: array<Byte>, dataLength: nat)
      requires header.Length == ADTS_HEADER_LENGTH
      modifies header
      ensures header[..] == Header(config, dataLength)
    {
      var channelCfg := config.channels % 256;
      var packetLength := dataLength + ADTS_HEADER_LENGTH;
      header[0] := 0xFF;
      header[1] := 0xF1;
      header[2] := (0x40 + FreqIdx(config) * 4 + channelCfg / 4) % 256;
      header[3] := (channelCfg % 4 * 64 + packetLength / 0x800) % 256;
      header[4] := packetLength % 0x800 / 8;
      header[5] := packetLength % 8 * 32 + 0x1F;
      header[6] := 0xFC;
    }

    /** One frame: the header, then the bytes copied one by one. */
    method MakeFrame(input: Bytes, index: nat, aacDataLen: nat) returns (aacData: Bytes)
      requires index + aacDataLen <= |input|
      ensures aacData == Frame(config, input[index..index + aacDataLen])
    {
      var adtsHeader := new Byte[ADTS_HEADER_LENGTH](_ => 0);
      WriteAdtsHeaders(adtsHeader, aacDataLen);
      aacData := [];
      for k := 0 to ADTS_HEADER_LENGTH
        invariant aacData == adtsHeader[..k]
      {
        aacData := aacData + [adtsHeader[k]];
      }
      assert adtsHeader[..7] == adtsHeader[..];
      for j := index to index + aacDataLen
        invariant aacData == Header(config, aacDataLen) + input[index..j]
      {
        aacData := aacData + [input[j]];
      }
    }

    /** Appends the frames to `output`; an error stands for a read behind the end of the input. */
    method Demux(input: Bytes, output: seq<Bytes>) returns (r: Result<seq<Bytes>>)
      ensures r == Prepend(output, Demuxed(config, input))
    {
      if |input| < 2 {
        return Err(OutOfInput);
      }
      var auCount := ((input[0] as int) * 0x10000 + input[1]) / 16;
      var index := 2 + auCount * 2;
      var frames := [];
      var i := 2;
      ghost var left, units := auCount, [];
      PrependNothing([], UnitsFrom(input, i, left, index));
      while i < 2 + 2 * auCount
        invariant 0 <= left <= auCount && i == 2 + 2 * (auCount - left) && 0 <= index
        invariant Units(input) == Prepend(units, UnitsFrom(input, i, left, index))
        invariant frames == FramesOf(config, units)
      {
        StepOfDemux(input, i, left, index, units);
        if i + 1 >= |input| {
          return Err(OutOfInput);
        }
        var aacDataLen := AuLength(input[i], input[i + 1]);
        if index + aacDataLen > |input| {
          return Err(OutOfInput);
        }
        var aacData := MakeFrame(input, index, aacDataLen);
        OneMoreFrame(config, units, input[index..index + aacDataLen]);
        frames := frames + [aacData];
        units := units + [input[index..index + aacDataLen]];
        index := index + aacDataLen;
        i := i + 2;
        left := left - 1;
      }
      PrependNothing(units, Ok([]));
      r := Ok(output + frames);
    }

    static method AuLength(hi: Byte, lo: Byte) returns (n: nat)
      ensures n == AuSize(hi, lo)
    {
      n := (hi as int) * 32 + (lo as int) / 8;
    }
  }

  /* ---- packets ---- */

  function Flatten(parts: seq<Bytes>): Bytes {
    if parts == [] then [] else parts[0] + Flatten(parts[1..])
  }

  /** AU headers: 13 bits of size, 3 bits of index. */
  function AuHeaders(aus: seq<Bytes>, idx: seq<nat>): (h: Bytes)
    requires |idx| == |aus| && (forall k :: 0 <= k < |aus| ==> |aus[k]| < AU_LIMIT && idx[k] < 8)
    ensures |h| == 2 * |aus|
  {
    if aus == [] then [] else [|aus[0]| / 32, |aus[0]| % 32 * 8 + idx[0]] + AuHeaders(aus[1..], idx[1..])
  }

  /** What a packet may hold: sizes of 13 bits, indices of 3, and a length in bits that fits its field. */
  ghost predicate Packable(aus: seq<Bytes>, idx: seq<nat>) {
    && |idx| == |aus| <= 4095
    && (forall k :: 0 <= k < |aus| ==> |aus[k]| < AU_LIMIT && idx[k] < 8)
  }

  /** The RFC 3640 packet: the total size of the AU headers in bits, the headers, the access units. */
  ghost function Packet(aus: seq<Bytes>, idx: seq<nat>): Bytes
    requires Packable(aus, idx)
  {
    [16 * |aus| / 256, 16 * |aus| % 256] + AuHeaders(aus, idx) + Flatten(aus)
  }

  lemma {:induction false} UnitsAligned(p: Bytes, i: nat, index: nat, aus: seq<Bytes>, idx: seq<nat>)
    requires |idx| == |aus| && (forall k :: 0 <= k < |aus| ==> |aus[k]| < AU_LIMIT && idx[k] < 8)
    requires i + 2 * |aus| <= index <= |p|
    requires p[i..i + 2 * |aus|] == AuHeaders(aus, idx) && p[index..] == Flatten(aus)
    ensures UnitsFrom(p, i, |aus|, index) == Ok(aus)
    decreases |aus|
  {
    if aus == [] {
    } else {
      var au := aus[0];
      assert aus == [au] + aus[1..];
      var headers := p[i..i + 2 * |aus|];
      assert p[i] == headers[0] && p[i + 1] == headers[1];
      assert AuSize(p[i], p[i + 1]) == |au|;
      assert p[index..][..|au|] == au && p[index..][|au|..] == Flatten(aus[1..]);
      assert p[index..index + |au|] == au && p[index + |au|..] == Flatten(aus[1..]);
      assert p[i + 2..i + 2 * |aus|] == headers[2..] == AuHeaders(aus[1..], idx[1..]);
      UnitsAligned(p, i + 2, index + |au|, aus[1..], idx[1..]);
    }
  }

  /** Up to 15 access units, demux returns one frame per unit, in order, each with its own header. */
  lemma DemuxOfPacket(c: Config, aus: seq<Bytes>, idx: seq<nat>)
    requires Packable(aus, idx) && |aus| <= 15
    ensures Demuxed(c, Packet(aus, idx)) == Ok(FramesOf(c, aus))
  {
    var p := Packet(aus, idx);
    var n := |aus|;
    assert p[0] == 0 && p[1] == 16 * n && AuCount(p) == n;
    assert p[2..2 + 2 * n] == AuHeaders(aus, idx) && p[2 + 2 * n..] == Flatten(aus);
    UnitsAligned(p, 2, 2 + 2 * n, aus, idx);
  }

  lemma {:induction false} UnitCount(p: Bytes, i: nat, left: nat, index: nat)
    ensures var r := UnitsFrom(p, i, left, index);
            r.Ok? ==> |r.value| == left && (i <= |p| ==> i + 2 * left <= |p|)
    decreases left
  {
    if left == 0 {
    } else if i + 1 < |p| && index + AuSize(p[i], p[i + 1]) <= |p| {
      UnitCount(p, i + 2, left - 1, index + AuSize(p[i], p[i + 1]));
    }
  }

  /** The frame count is right exactly for packets of at most 15 access units: from 16 on the high byte
      of the length field is not zero, and the program takes it for thousands of units. */
  lemma CountRightIff(c: Config, aus: seq<Bytes>, idx: seq<nat>)
    requires Packable(aus, idx)
    ensures (exists frames :: Demuxed(c, Packet(aus, idx)) == Ok(frames) && |frames| == |aus|) <==> |aus| <= 15
  {
    var p := Packet(aus, idx);
    if |aus| <= 15 {
      DemuxOfPacket(c, aus, idx);
    } else {
      assert p[0] == 16 * |aus| / 256 >= 1;
      assert AuCount(p) >= 4096;
      UnitCount(p, 2, AuCount(p), 2 + 2 * AuCount(p));
    }
  }

  /** What the program takes for the number of units: thousands for every sixteen. */
  lemma CountOf(aus: seq<Bytes>, idx: seq<nat>)
    requires Packable(aus, idx)
    ensures AuCount(Packet(aus, idx)) == |aus| / 16 * 4096 + |aus| % 16
  {
    var n := |aus|;
    assert 16 * n / 256 == n / 16 && 16 * n % 256 == 16 * (n % 16);
  }

  /** The units lie one after the other in the input. */
  lemma {:induction false} UnitsTile(p: Bytes, i: nat, left: nat, index: nat)
    requires index <= |p| && UnitsFrom(p, i, left, index).Ok?
    ensures var aus := UnitsFrom(p, i, left, index).value;
            && (forall k :: 0 <= k < |aus| ==> |aus[k]| < AU_LIMIT)
            && index + |Flatten(aus)| <= |p| && p[index..index + |Flatten(aus)|] == Flatten(aus)
    decreases left
  {
    if left == 0 {
    } else {
      var n := AuSize(p[i], p[i + 1]);
      UnitsTile(p, i + 2, left - 1, index + n);
      OneMoreUnit(p, index, n, UnitsFrom(p, i + 2, left - 1, index + n).value);
    }
  }

  lemma OneMoreUnit(p: Bytes, index: nat, n: nat, rest: seq<Bytes>)
    requires index + n + |Flatten(rest)| <= |p| && p[index + n..index + n + |Flatten(rest)|] == Flatten(rest)
    ensures var au := p[index..index + n];
            Flatten([au] + rest) == au + Flatten(rest) == p[index..index + n + |Flatten(rest)|]
  {
    var au, end := p[index..index + n], index + n + |Flatten(rest)|;
    assert ([au] + rest)[1..] == rest;
    assert p[index..end] == p[index..index + n] + p[index + n..end];
  }

  /** Conservation, for any input: the payloads of the frames are, one after the other, the bytes that
      follow the AU headers, and every frame is one of them behind its own header. */
  lemma DemuxConserves(c: Config, p: Bytes)
    requires |p| >= 2 && Demuxed(c, p).Ok?
    ensures var aus, start := Units(p).value, 2 + 2 * AuCount(p);
            && Demuxed(c, p) == Ok(FramesOf(c, aus)) && |aus| == AuCount(p)
            && start + |Flatten(aus)| <= |p| && p[start..start + |Flatten(aus)|] == Flatten(aus)
  {
    UnitCount(p, 2, AuCount(p), 2 + 2 * AuCount(p));
    UnitsTile(p, 2, AuCount(p), 2 + 2 * AuCount(p));
  }

  /* ---- frames delimit themselves ---- */

  /** Cuts a stream of frames at the lengths they state. */
  function CutFrames(s: Bytes): Result<seq<Bytes>>
    decreases |s|
  {
    if s == [] then Ok([])
    else if |s| < ADTS_HEADER_LENGTH then Err(OutOfInput)
    else if !HasSync(s) then Err(BadSync)
    else
      var n := ReadLength(s);
      if n < ADTS_HEADER_LENGTH then Err(BadLength)
      else if n > |s| then Err(OutOfInput)
      else match CutFrames(s[n..])
        case Ok(rest) => Ok([s[..n]] + rest)
        case Err(e) => Err(e)
  }

  /** The frames of access units up to 8184 bytes can be run together and told apart again. */
  lemma {:induction false} FramesDelimitThemselves(c: Config, aus: seq<Bytes>)
    requires forall k :: 0 <= k < |aus| ==> |aus[k]| <= 8184
    ensures CutFrames(Flatten(FramesOf(c, aus))) == Ok(FramesOf(c, aus))
    decreases |aus|
  {
    if aus == [] {
    } else {
      var f := Frame(c, aus[0]);
      assert FramesOf(c, aus)[1..] == FramesOf(c, aus[1..]);
      var s := Flatten(FramesOf(c, aus));
      assert s == f + Flatten(FramesOf(c, aus[1..]));
      LengthReadBackIff(c, aus[0]);
      LengthField(c, |aus[0]|);
      SameHeader(s, f);
      assert s[..|f|] == f && s[|f|..] == Flatten(FramesOf(c, aus[1..]));
      FramesDelimitThemselves(c, aus[1..]);
      assert [f] + FramesOf(c, aus[1..]) == FramesOf(c, aus);
    }
  }

  lemma SameHeader(s: Bytes, f: Bytes)
    requires |f| >= 7 && |s| >= |f| && s[..|f|] == f
    ensures HasSync(s) == HasSync(f) && ReadLength(s) == ReadLength(f)
  {
    assert forall k :: 0 <= k < 7 ==> s[k] == s[..|f|][k];
  }

  /* ---- mux ---- */

  /** The canonical packet of one access unit: header length 16, 13 bits of size, index 0. */
  function Single(au: Bytes): Bytes {
    [0x00, 0x10, |au| % 0x2000 / 32, |au| % 32 * 8] + au
  }

  /** The packet for one frame. Errors stand for what C++ leaves undefined: reads behind the frame, a
      copy behind the scratch buffer, and a payload that would end before it starts. */
  function Muxed(f: Bytes): Result<Bytes> {
    if |f| < 6 then Err(OutOfInput)
    else if !HasSync(f) then Err(BadSync)
    else
      var n := ReadLength(f);
      if n > |f| then Err(OutOfInput)
      else if n > SCRATCH then Err(OutOfScratch)
      else if n < ADTS_HEADER_LENGTH then Err(BadLength)
      else
        Ok(Single(f[ADTS_HEADER_LENGTH..n]))
  }

  class Muxer {
    constructor () {
    }

    /** Copies the whole frame, header included, and returns its stated length. */
    method RemoveAdtsHeaders(input: Bytes, output: array<Byte>) returns (r: Result<nat>)
      requires output.Length == SCRATCH
      modifies output
      ensures r.Ok? <==> |input| >= 6 && HasSync(input) && ReadLength(input) <= |input| && ReadLength(input) <= SCRATCH
      ensures r.Ok? ==> r.value == ReadLength(input) && output[..r.value] == input[..r.value]
      ensures r.Err? && |input| >= 6 ==>
                r.error == if !HasSync(input) then BadSync
                           else if ReadLength(input) > |input| then OutOfInput else OutOfScratch
      ensures |input| < 6 ==> r == Err(OutOfInput)
    {
      if |input| < 6 {
        return Err(OutOfInput);
      }
      if input[0] != 0xFF || input[1] / 16 != 0xF {
        return Err(BadSync);
      }
      var aacFrameSize := (input[3] as int) % 4 * 0x800 + (input[4] as int) * 8 + input[5] / 32;
      if aacFrameSize > |input| {
        return Err(OutOfInput);
      }
      if aacFrameSize > output.Length {
        return Err(OutOfScratch);
      }
      forall k | 0 <= k < aacFrameSize {
        output[k] := input[k];
      }
      r := Ok(aacFrameSize);
    }

    method Mux(input: Bytes) returns (r: Result<Bytes>)
      ensures r == Muxed(input)
    {
      var scratch := new Byte[SCRATCH](_ => 0);
      var size := RemoveAdtsHeaders(input, scratch);
      if size.Err? {
        return Err(size.error);
      }
      if size.value < ADTS_HEADER_LENGTH {
        return Err(BadLength);
      }
      var output := scratch[ADTS_HEADER_LENGTH..size.value];
      assert output == scratch[..size.value][ADTS_HEADER_LENGTH..];
      var high, low := |output| % 0x2000 / 32, |output| % 32 * 8;
      r := Ok([0x00, 0x10, high, low] + output);
    }
  }

  lemma PacketOfOne(au: Bytes)
    requires |au| < AU_LIMIT
    ensures Packable([au], [0]) && Packet([au], [0]) == Single(au)
  {
    assert |au| % 0x2000 == |au|;
    assert [au][1..] == [] && [0][1..] == [];
    assert AuHeaders([au], [0]) == [|au| / 32, |au| % 32 * 8] + AuHeaders([], []);
    assert Flatten([au]) == au + Flatten([]);
    assert Flatten([]) == [];
  }

  /** What mux does with a header that states the length modulo 2^13. */
  lemma MuxOfShort(h: Bytes, au: Bytes)
    requires |h| == ADTS_HEADER_LENGTH && HasSync(h) && |au| <= 8184
    requires ReadLength(h) == |au| + ADTS_HEADER_LENGTH
    ensures Muxed(h + au) == if |au| <= 993 then Ok(Single(au)) else Err(OutOfScratch)
  {
    SameHeader(h + au, h);
    if |au| <= 993 {
      assert (h + au)[7..|au| + 7] == au;
    }
  }

  lemma MuxOfLong(h: Bytes, au: Bytes)
    requires |h| == ADTS_HEADER_LENGTH && HasSync(h) && 8184 < |au| < AU_LIMIT
    requires ReadLength(h) == |au| + ADTS_HEADER_LENGTH - 0x2000
    ensures Muxed(h + au) == Err(BadLength)
  {
    SameHeader(h + au, h);
  }

  /** Of the frames that demux makes, mux accepts exactly those of at most 993 bytes of data, and turns
      them into the canonical packet of one access unit. */
  lemma MuxOfFrame(c: Config, au: Bytes)
    requires |au| < AU_LIMIT
    ensures Muxed(Frame(c, au)) == if |au| <= 993 then Ok(Single(au)) else
              if |au| <= 8184 then Err(OutOfScratch) else Err(BadLength)
  {
    LengthField(c, |au|);
    var h := Header(c, |au|);
    if |au| <= 8184 {
      MuxOfShort(h, au);
    } else {
      MuxOfLong(h, au);
    }
  }

  /** mux after demux is the identity on packets with one access unit of at most 993 bytes, except that
      it clears the three index bits. */
  lemma MuxAfterDemux(c: Config, au: Bytes, index: nat)
    requires |au| <= 993 && index < 8
    ensures Packable([au], [index]) && Packable([au], [0])
    ensures Demuxed(c, Packet([au], [index])) == Ok([Frame(c, au)])
    ensures Muxed(Frame(c, au)) == Ok(Packet([au], [0]))
  {
    DemuxOfPacket(c, [au], [index]);
    assert FramesOf(c, [au]) == [Frame(c, au)];
    MuxOfFrame(c, au);
    PacketOfOne(au);
  }

  lemma MuxMakesPacket(f: Bytes)
    requires Muxed(f).Ok?
    ensures |f| >= 6 && ADTS_HEADER_LENGTH <= ReadLength(f) <= |f|
    ensures var payload := f[ADTS_HEADER_LENGTH..ReadLength(f)];
            |payload| <= 993 && Muxed(f).value == Single(payload)
  {
  }

  /** demux after mux, for any frame that mux accepts, whoever made it: the same payload behind this
      demuxer's header. */
  lemma DemuxAfterMux(c: Config, f: Bytes)
    requires Muxed(f).Ok?
    ensures |f| >= 6 && ADTS_HEADER_LENGTH <= ReadLength(f) <= |f|
    ensures Demuxed(c, Muxed(f).value) == Ok([Frame(c, f[ADTS_HEADER_LENGTH..ReadLength(f)])])
  {
    MuxMakesPacket(f);
    var payload := f[ADTS_HEADER_LENGTH..ReadLength(f)];
    PacketOfOne(payload);
    DemuxOfPacket(c, [payload], [0]);
    assert FramesOf(c, [payload]) == [Frame(c, payload)];
  }

  /** demux after mux is the identity on this demuxer's own frames, wherever mux accepts them. */
  lemma DemuxAfterMuxOfOwn(c: Config, au: Bytes)
    requires |au| < AU_LIMIT && Muxed(Frame(c, au)).Ok?
    ensures Demuxed(c, Muxed(Frame(c, au)).value) == Ok([Frame(c, au)])
  {
    MuxOfFrame(c, au);
    PacketOfOne(au);
    MuxAfterDemux(c, au, 0);
  }
}
