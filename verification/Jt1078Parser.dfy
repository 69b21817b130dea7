/** The JT/T 1078-2016 packet of section 5.5.3, table 19: its fields, the bytes that carry
    them, and the whole-stream parser the incremental decoder is measured against. */
module Jt1078Parser {
  import opened Bytes
  import opened Framing

  const JT1078_MAX_LENGTH := 950
  const JT_1078_HEAD_MARK := 0x30316364
  const FIRST_SIZE := 16

  const DATA_TYPE_AUDIO := 3
  const DATA_TYPE_ROUTE := 4

  datatype Header = Header(
    m1: nat, pt7: nat, sequence: nat, sim: seq<byte>, channel: nat, dataType: nat, mark: nat,
    timestamp: nat, lastIFrame: nat, lastFrame: nat, bodyLen: nat)

  datatype Packet = Packet(header: Header, body: seq<byte>)

  datatype Half = Refused | Accepted(header: Header)

  predicate IsSupportCodingType(coding: nat) {
    coding == 6 || coding == 7 || coding == 8 || coding == 26 || coding == 91 || coding == 98
  }

  predicate IsVideo(dataType: nat) { dataType < DATA_TYPE_AUDIO }

  /** How many header bytes follow the first sixteen. */
  function SecondSize(dataType: nat): nat {
    if IsVideo(dataType) then 14 else if dataType == DATA_TYPE_AUDIO then 10 else 2
  }

  /** The first sixteen bytes at `i`: accepted with the frame mark, the fixed V/P/X/CC bits
      (10 0 0 0001), and a coding type, data type and subpackage mark the server knows. */
  function First(d: seq<byte>, i: nat): Half
    requires i + FIRST_SIZE <= |d|
  {
    if
      && Net(d, i, i + 4) == JT_1078_HEAD_MARK
      && d[i + 4] == 0x81
      && IsSupportCodingType(d[i + 5] % 128)
      && d[i + 15] / 16 <= DATA_TYPE_ROUTE
      && d[i + 15] % 16 <= 3
    then
      Accepted(Header(d[i + 5] / 128, d[i + 5] % 128, Net(d, i + 6, i + 8), d[i + 8..i + 14], d[i + 14],
                      d[i + 15] / 16, d[i + 15] % 16, 0, 0, 0, 0))
    else Refused
  }

  /** The rest of the header, at `j`. A timestamp is carried by video and audio, the two
      frame intervals by video only; absent fields stay zero. */
  function Second(h: Header, d: seq<byte>, j: nat): Header
    requires j + SecondSize(h.dataType) <= |d|
  {
    if IsVideo(h.dataType) then
      h.(timestamp := Net(d, j, j + 8), lastIFrame := Net(d, j + 8, j + 10), lastFrame := Net(d, j + 10, j + 12), bodyLen := Net(d, j + 12, j + 14))
    else if h.dataType == DATA_TYPE_AUDIO then
      h.(timestamp := Net(d, j, j + 8), bodyLen := Net(d, j + 8, j + 10))
    else
      h.(bodyLen := Net(d, j, j + 2))
  }

  /** The header without what the second half supplies. */
  ghost function Bare(h: Header): Header {
    h.(timestamp := 0, lastIFrame := 0, lastFrame := 0, bodyLen := 0)
  }

  /** One packet off the front of a stream. */
  function Parse(s: seq<byte>): Step<Packet> {
    if |s| < FIRST_SIZE then More
    else
      match First(s, 0)
      case Refused => Bad
      case Accepted(first) =>
        var n := FIRST_SIZE + SecondSize(first.dataType);
        if |s| < n then More
        else
          var h := Second(first, s, FIRST_SIZE);
          if h.bodyLen > JT1078_MAX_LENGTH then Bad
          else if |s| < n + h.bodyLen then More
          else Got(Packet(h, s[n..n + h.bodyLen]), n + h.bodyLen)
  }

  // ---- The same, byte by byte ----

  /** The first sixteen bytes of a packet the server takes: "01cd", version 2 with one source, the
      payload type of a codec it knows (G.711A, G.711U, G.726, ADPCM, transparent, H.264), a data
      type and a subpackage mark of the standard. */
  ghost predicate Acceptable(s: seq<byte>)
    requires |s| >= 16
  {
    && s[0] == 0x30 && s[1] == 0x31 && s[2] == 0x63 && s[3] == 0x64 && s[4] == 0x81
    && s[5] % 128 in {6, 7, 8, 26, 91, 98} && s[15] / 16 <= 4 && s[15] % 16 <= 3
  }

  /** Its fields. */
  ghost predicate FirstIs(h: Header, s: seq<byte>)
    requires |s| >= 16
  {
    && h.m1 == s[5] / 128 && h.pt7 == s[5] % 128 && h.sequence == Big2(s, 6) && h.sim == s[8..14]
    && h.channel == s[14] && h.dataType == s[15] / 16 && h.mark == s[15] % 16
  }

  /** How long the header is, by the data type in byte 15. */
  ghost function HeaderLength(s: seq<byte>): nat
    requires |s| >= 16
  {
    if s[15] / 16 <= 2 then 30 else if s[15] / 16 == 3 then 26 else 18
  }

  /** What stands behind the first sixteen bytes; the body length comes last. */
  ghost predicate SecondIs(h: Header, s: seq<byte>)
    requires |s| >= 16 && |s| >= HeaderLength(s)
  {
    && h.timestamp == (if s[15] / 16 <= 3 then Big8(s, 16) else 0)
    && h.lastIFrame == (if s[15] / 16 <= 2 then Big2(s, 24) else 0)
    && h.lastFrame == (if s[15] / 16 <= 2 then Big2(s, 26) else 0)
    && h.bodyLen == Big2(s, HeaderLength(s) - 2)
  }

  lemma MarkBytes(s: seq<byte>)
    requires |s| >= 16
    ensures Net(s, 0, 4) == 0x30316364 <==> s[0] == 0x30 && s[1] == 0x31 && s[2] == 0x63 && s[3] == 0x64
  {
    Net4(s, 0, s[0], s[1], s[2], s[3]);
  }

  lemma FirstMeans(s: seq<byte>)
    requires |s| >= 16
    ensures First(s, 0).Accepted? <==> Acceptable(s)
    ensures Acceptable(s) ==> FirstIs(First(s, 0).header, s) && First(s, 0).header == Bare(First(s, 0).header)
  {
    MarkBytes(s);
    NetIsBig2(s, 6);
  }

  lemma SecondMeans(h: Header, s: seq<byte>)
    requires |s| >= 16 && |s| >= HeaderLength(s) && FirstIs(h, s) && h == Bare(h) && s[15] / 16 <= 4
    ensures SecondSize(h.dataType) == HeaderLength(s) - 16
    ensures SecondIs(Second(h, s, 16), s) && FirstIs(Second(h, s, 16), s)
  {
    NetIsBig2(s, HeaderLength(s) - 2);
    if s[15] / 16 <= 3 {
      NetIsBig8(s, 16);
    }
    if s[15] / 16 <= 2 {
      NetIsBig2(s, 24);
      NetIsBig2(s, 26);
    }
  }

  /** What the parser makes of any stream, in the bytes it is made of: when it refuses, when it
      waits, and what it takes. */
  lemma ParseMeans(s: seq<byte>)
    ensures Parse(s) == Bad <==>
              |s| >= 16 && (!Acceptable(s) || (|s| >= HeaderLength(s) && Big2(s, HeaderLength(s) - 2) > 950))
    ensures Parse(s).Got? <==>
              && |s| >= 16 && Acceptable(s) && |s| >= HeaderLength(s)
              && Big2(s, HeaderLength(s) - 2) <= 950 && |s| >= HeaderLength(s) + Big2(s, HeaderLength(s) - 2)
    ensures Parse(s).Got? ==>
              var p, n := Parse(s).frame, HeaderLength(s);
              FirstIs(p.header, s) && SecondIs(p.header, s) && p.body == s[n..n + p.header.bodyLen] && Parse(s).used == n + p.header.bodyLen
  {
    if |s| >= 16 {
      FirstMeans(s);
      if Acceptable(s) && |s| >= HeaderLength(s) {
        SecondMeans(First(s, 0).header, s);
      }
    }
  }

  lemma FirstMoves(d: seq<byte>, i: nat, e: seq<byte>, j: nat)
    requires Same(d, i, e, j, FIRST_SIZE)
    ensures First(d, i) == First(e, j)
  {
    NetMoves(d, i, e, j, 4);
    NetMoves(d, i + 6, e, j + 6, 2);
    assert d[i + 4] == e[j + 4] && d[i + 5] == e[j + 5] && d[i + 14] == e[j + 14] && d[i + 15] == e[j + 15];
    assert d[i + 8..i + 14] == e[j + 8..j + 14];
  }

  lemma SecondMoves(h: Header, d: seq<byte>, i: nat, e: seq<byte>, j: nat)
    requires Same(d, i, e, j, SecondSize(h.dataType))
    ensures Second(h, d, i) == Second(h, e, j)
  {
    if h.dataType <= DATA_TYPE_AUDIO {
      NetMoves(d, i, e, j, 8);
      NetMoves(d, i + 8, e, j + 8, 2);
      if IsVideo(h.dataType) {
        NetMoves(d, i + 10, e, j + 10, 2);
        NetMoves(d, i + 12, e, j + 12, 2);
      }
    } else {
      NetMoves(d, i, e, j, 2);
    }
  }

  lemma SettledAt(s: seq<byte>, t: seq<byte>)
    ensures Settled(Parse, s, t)
  {
    var u := s + t;
    if |s| >= FIRST_SIZE {
      FirstMoves(s, 0, u, 0);
      if First(s, 0).Accepted? {
        var first := First(s, 0).header;
        var n := FIRST_SIZE + SecondSize(first.dataType);
        if |s| >= n {
          SecondMoves(first, s, FIRST_SIZE, u, FIRST_SIZE);
          var b := Second(first, s, FIRST_SIZE).bodyLen;
          if |s| >= n + b {
            assert u[n..n + b] == s[n..n + b];
          }
        }
      }
    }
  }

  lemma ParseIsIncremental()
    ensures Incremental(Parse)
  {
    forall s, t ensures Settled(Parse, s, t) {
      SettledAt(s, t);
    }
    forall s ensures Consumes(Parse, s) {
    }
  }

  /** The packets of a whole stream. */
  ghost function ReadAll(s: seq<byte>): Drained<Packet> {
    ParseIsIncremental();
    ParseAll(Parse, s)
  }

  // ---- The same parse, one stage at a time, with the first bytes already set aside ----

  lemma StageOne(d: seq<byte>, i: nat, s: seq<byte>)
    requires i <= |d| && s == d[i..]
    ensures |s| < FIRST_SIZE ==> Parse(s) == More
    ensures |s| >= FIRST_SIZE && First(d, i) == Refused ==> Parse(s) == Bad
    ensures |s| >= FIRST_SIZE ==>
              First(d[i..i + FIRST_SIZE], 0) == First(d, i) && s == d[i..i + FIRST_SIZE] + d[i + FIRST_SIZE..]
  {
    if |s| >= FIRST_SIZE {
      FirstMoves(d, i, s, 0);
      FirstMoves(d, i, d[i..i + FIRST_SIZE], 0);
    }
  }

  lemma Laid(taken: seq<byte>, d: seq<byte>, j: nat, k: nat, both: seq<byte>, s: seq<byte>)
    requires j + k <= |d| && both == taken + d[j..j + k] && s == taken + d[j..]
    ensures Same(taken, 0, both, 0, |taken|) && Same(d, j, s, |taken|, k) && Same(d, j, both, |taken|, k)
    ensures s == both + d[j + k..]
  {
  }

  lemma StageTwo(first: Header, taken: seq<byte>, d: seq<byte>, j: nat, s: seq<byte>)
    requires |taken| == FIRST_SIZE && First(taken, 0) == Accepted(first)
    requires j <= |d| && s == taken + d[j..]
    ensures var k := SecondSize(first.dataType);
            && (j + k > |d| ==> Parse(s) == More)
            && (j + k <= |d| ==>
                  var h := Second(first, d, j);
                  var both := taken + d[j..j + k];
                  && (h.bodyLen > JT1078_MAX_LENGTH ==> Parse(s) == Bad)
                  && First(both, 0) == Accepted(first) && Second(first, both, FIRST_SIZE) == h
                  && Bare(h) == first && s == both + d[j + k..])
  {
    var k := SecondSize(first.dataType);
    assert Same(taken, 0, s, 0, FIRST_SIZE);
    FirstMoves(taken, 0, s, 0);
    assert Bare(first) == first;
    if j + k <= |d| {
      var both := taken + d[j..j + k];
      Laid(taken, d, j, k, both, s);
      FirstMoves(taken, 0, both, 0);
      SecondMoves(first, d, j, s, FIRST_SIZE);
      SecondMoves(first, d, j, both, FIRST_SIZE);
    }
  }

  lemma StageThree(h: Header, taken: seq<byte>, d: seq<byte>, j: nat, s: seq<byte>)
    requires |taken| == FIRST_SIZE + SecondSize(h.dataType) && First(taken, 0) == Accepted(Bare(h))
    requires Second(Bare(h), taken, FIRST_SIZE) == h && h.bodyLen <= JT1078_MAX_LENGTH
    requires j <= |d| && s == taken + d[j..]
    ensures j + h.bodyLen > |d| ==> Parse(s) == More
    ensures j + h.bodyLen <= |d| ==>
              && Parse(s) == Got(Packet(h, d[j..j + h.bodyLen]), |taken| + h.bodyLen)
              && s[|taken| + h.bodyLen..] == d[j + h.bodyLen..]
  {
    FirstMoves(taken, 0, s, 0);
    SecondMoves(Bare(h), taken, FIRST_SIZE, s, FIRST_SIZE);
    if j + h.bodyLen <= |d| {
      assert s[|taken|..|taken| + h.bodyLen] == d[j..j + h.bodyLen];
    }
  }

  // ---- Writing a packet by table 19 ----

  /** What a packet may hold: field widths, the accepted codes, absent fields zero, and a
      body length that matches. */
  ghost predicate WellFormed(p: Packet) {
    FirstFits(p.header) && SecondFits(p.header) && p.header.bodyLen == |p.body| <= JT1078_MAX_LENGTH
  }

  ghost predicate FirstFits(h: Header) {
    && h.m1 < 2 && IsSupportCodingType(h.pt7) && h.sequence < 0x1_0000 && |h.sim| == 6 && h.channel < 256
    && h.dataType <= DATA_TYPE_ROUTE && h.mark <= 3
  }

  ghost predicate SecondFits(h: Header) {
    && h.timestamp < 0x1_0000_0000_0000_0000 && (h.dataType > DATA_TYPE_AUDIO ==> h.timestamp == 0)
    && h.lastIFrame < 0x1_0000 && h.lastFrame < 0x1_0000 && h.bodyLen < 0x1_0000
    && (!IsVideo(h.dataType) ==> h.lastIFrame == 0 && h.lastFrame == 0)
  }

  ghost function SerializeFirst(h: Header): (s: seq<byte>)
    requires FirstFits(h)
    ensures |s| == FIRST_SIZE
  {
    ToBig(JT_1078_HEAD_MARK, 4) + [0x81, h.m1 * 128 + h.pt7] + ToBig(h.sequence, 2)
    + h.sim + [h.channel, h.dataType * 16 + h.mark]
  }

  ghost function SerializeSecond(h: Header): (s: seq<byte>)
    ensures |s| == SecondSize(h.dataType)
  {
    if IsVideo(h.dataType) then
      ToBig(h.timestamp, 8) + ToBig(h.lastIFrame, 2) + ToBig(h.lastFrame, 2) + ToBig(h.bodyLen, 2)
    else if h.dataType == DATA_TYPE_AUDIO then
      ToBig(h.timestamp, 8) + ToBig(h.bodyLen, 2)
    else
      ToBig(h.bodyLen, 2)
  }

  ghost function Serialize(p: Packet): seq<byte>
    requires WellFormed(p)
  {
    SerializeFirst(p.header) + SerializeSecond(p.header) + p.body
  }

  lemma FirstBackFits(d: seq<byte>)
    requires |d| >= FIRST_SIZE && First(d, 0).Accepted?
    ensures var h := First(d, 0).header; FirstFits(h) && h == Bare(h)
  {
    Widths();
    ToBigOfNet(d, 6, 2);
  }

  lemma FirstBack(d: seq<byte>)
    requires |d| >= FIRST_SIZE && First(d, 0).Accepted?
    ensures var h := First(d, 0).header;
            FirstFits(h) && h == Bare(h) && SerializeFirst(h) == d[..16]
  {
    FirstBackFits(d);
    ToBigOfNet(d, 0, 4);
    ToBigOfNet(d, 6, 2);
    FirstJoins(d, First(d, 0).header);
  }

  lemma FirstJoins(d: seq<byte>, h: Header)
    requires |d| >= FIRST_SIZE && FirstFits(h)
    requires ToBig(JT_1078_HEAD_MARK, 4) == d[0..4] && d[4] == 0x81 && h.m1 * 128 + h.pt7 == d[5]
    requires ToBig(h.sequence, 2) == d[6..8] && h.sim == d[8..14] && h.channel == d[14] && h.dataType * 16 + h.mark == d[15]
    ensures SerializeFirst(h) == d[..16]
  {
    Sixteen(d);
  }

  lemma Sixteen(d: seq<byte>)
    requires |d| >= 16
    ensures d[..16] == d[0..4] + [d[4], d[5]] + d[6..8] + d[8..14] + [d[14], d[15]]
  {
  }

  lemma Pieces(d: seq<byte>, j: nat)
    requires j + 14 <= |d|
    ensures d[j..j + 14] == d[j..j + 8] + d[j + 8..j + 10] + d[j + 10..j + 12] + d[j + 12..j + 14]
  {
  }

  lemma SecondFitsBack(h: Header, d: seq<byte>, j: nat)
    requires j + SecondSize(h.dataType) <= |d| && h == Bare(h)
    ensures SecondFits(Second(h, d, j))
  {
    NetFits(d, j);
    NetFits(d, j + 8);
    NetFits(d, j + 10);
    NetFits(d, j + 12);
  }

  lemma VideoBack(h: Header, d: seq<byte>, j: nat)
    requires j + 14 <= |d| && IsVideo(h.dataType)
    ensures SerializeSecond(Second(h, d, j)) == d[j..j + 14]
  {
    ToBigOfNet(d, j, 8);
    ToBigOfNet(d, j + 8, 2);
    ToBigOfNet(d, j + 10, 2);
    ToBigOfNet(d, j + 12, 2);
    Pieces(d, j);
  }

  lemma AudioBack(h: Header, d: seq<byte>, j: nat)
    requires j + 10 <= |d| && h.dataType == DATA_TYPE_AUDIO
    ensures SerializeSecond(Second(h, d, j)) == d[j..j + 10]
  {
    ToBigOfNet(d, j, 8);
    ToBigOfNet(d, j + 8, 2);
    assert d[j..j + 10] == d[j..j + 8] + d[j + 8..j + 10];
  }

  lemma SecondBack(h: Header, d: seq<byte>, j: nat)
    requires j + SecondSize(h.dataType) <= |d| && h == Bare(h)
    ensures SecondFits(Second(h, d, j))
    ensures SerializeSecond(Second(h, d, j)) == d[j..j + SecondSize(h.dataType)]
  {
    SecondFitsBack(h, d, j);
    if IsVideo(h.dataType) {
      VideoBack(h, d, j);
    } else if h.dataType == DATA_TYPE_AUDIO {
      AudioBack(h, d, j);
    } else {
      ToBigOfNet(d, j, 2);
    }
  }

  /** Writing an emitted packet back by table 19 gives exactly the bytes it consumed. */
  lemma SerializeOfParse(s: seq<byte>)
    requires Parse(s).Got?
    ensures WellFormed(Parse(s).frame)
    ensures Serialize(Parse(s).frame) == s[..Parse(s).used]
  {
    FirstBack(s);
    var first := First(s, 0).header;
    SecondBack(first, s, FIRST_SIZE);
    Rejoin(first, Second(first, s, FIRST_SIZE), s, FIRST_SIZE + SecondSize(first.dataType));
  }

  lemma FirstOfBare(h: Header)
    requires FirstFits(Bare(h))
    ensures FirstFits(h) && SerializeFirst(h) == SerializeFirst(Bare(h))
  {
  }

  lemma Rejoin(first: Header, h: Header, s: seq<byte>, n: nat)
    requires FirstFits(first) && first == Bare(first) && SecondFits(h) && Bare(h) == first
    requires n == 16 + SecondSize(h.dataType) && n + h.bodyLen <= |s| && h.bodyLen <= JT1078_MAX_LENGTH
    requires SerializeFirst(first) == s[..16] && SerializeSecond(h) == s[16..n]
    ensures var p := Packet(h, s[n..n + h.bodyLen]); WellFormed(p) && Serialize(p) == s[..n + h.bodyLen]
  {
    FirstOfBare(h);
    assert s[..n] == s[..16] + s[16..n];
    assert s[..n + h.bodyLen] == s[..n] + s[n..n + h.bodyLen];
  }

  lemma FirstForward(h: Header, s: seq<byte>)
    requires FirstFits(h) && |s| >= FIRST_SIZE && s[..16] == SerializeFirst(h)
    ensures First(s, 0) == Accepted(Bare(h))
  {
    Widths();
    var f := SerializeFirst(h);
    SixParts(ToBig(JT_1078_HEAD_MARK, 4), 0x81, h.m1 * 128 + h.pt7, ToBig(h.sequence, 2), h.sim, h.channel, h.dataType * 16 + h.mark, f);
    NetOfToBig(JT_1078_HEAD_MARK, 4, f, 0);
    NetOfToBig(h.sequence, 2, f, 6);
    FirstOf(h, f);
    assert Same(s, 0, f, 0, 16) by {
      assert forall k :: 0 <= k < 16 ==> s[k] == s[..16][k];
    }
    FirstMoves(s, 0, f, 0);
  }

  lemma FirstOf(h: Header, f: seq<byte>)
    requires FirstFits(h) && |f| == 16 && Net(f, 0, 4) == JT_1078_HEAD_MARK && Net(f, 6, 8) == h.sequence
    requires f[4] == 0x81 && f[5] == h.m1 * 128 + h.pt7 && f[8..14] == h.sim && f[14] == h.channel
    requires f[15] == h.dataType * 16 + h.mark
    ensures First(f, 0) == Accepted(Bare(h))
  {
  }

  lemma SixParts(a: seq<byte>, b: byte, c: byte, d: seq<byte>, e: seq<byte>, g: byte, h: byte, f: seq<byte>)
    requires |a| == 4 && |d| == 2 && |e| == 6 && f == a + [b, c] + d + e + [g, h]
    ensures |f| == 16 && f[0..4] == a && f[4] == b && f[5] == c && f[6..8] == d && f[8..14] == e && f[14] == g && f[15] == h
  {
  }

  /** Each field of the second half reads back from where it was written. */
  lemma SecondForward(h: Header, s: seq<byte>, j: nat)
    requires SecondFits(h)
    requires j + SecondSize(h.dataType) <= |s| && s[j..j + SecondSize(h.dataType)] == SerializeSecond(h)
    ensures Second(Bare(h), s, j) == h
  {
    Widths();
    var f := SerializeSecond(h);
    assert forall k :: 0 <= k < |f| ==> f[k] == s[j + k];
    if IsVideo(h.dataType) {
      assert f[0..8] == ToBig(h.timestamp, 8);
      NetOfToBig(h.timestamp, 8, f, 0);
      assert f[8..10] == ToBig(h.lastIFrame, 2);
      NetOfToBig(h.lastIFrame, 2, f, 8);
      assert f[10..12] == ToBig(h.lastFrame, 2);
      NetOfToBig(h.lastFrame, 2, f, 10);
      assert f[12..14] == ToBig(h.bodyLen, 2);
      NetOfToBig(h.bodyLen, 2, f, 12);
    } else if h.dataType == DATA_TYPE_AUDIO {
      assert f[0..8] == ToBig(h.timestamp, 8);
      NetOfToBig(h.timestamp, 8, f, 0);
      assert f[8..10] == ToBig(h.bodyLen, 2);
      NetOfToBig(h.bodyLen, 2, f, 8);
    } else {
      assert f[0..2] == ToBig(h.bodyLen, 2);
      NetOfToBig(h.bodyLen, 2, f, 0);
    }
    SecondMoves(Bare(h), f, 0, s, j);
  }

  /** Every packet the standard can carry, followed by anything, is read back whole. */
  lemma ParseOfSerialize(p: Packet, rest: seq<byte>)
    requires WellFormed(p)
    ensures Parse(Serialize(p) + rest) == Got(p, |Serialize(p)|)
  {
    var s := Serialize(p) + rest;
    var h := p.header;
    var n := FIRST_SIZE + SecondSize(h.dataType);
    assert s[..16] == SerializeFirst(h);
    FirstForward(h, s);
    assert s[16..n] == SerializeSecond(h);
    SecondForward(h, s, FIRST_SIZE);
    assert s[n..n + |p.body|] == p.body;
  }
}
