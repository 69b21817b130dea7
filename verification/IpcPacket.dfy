/** The private framing between the servers (core/ipc_packet/IpcPacket.h): a packed header of
    four 32-bit words in host order, then the data. */
module IpcPacket {
  import opened Bytes
  import opened Framing

  const HEAD_SIZE := 16
  const INVALID_PKT_SEQ_ID := 0xffff_ffff

  datatype Packet = Packet(seqId: nat, pktType: nat, data: seq<byte>)

  /** One word of a header, as the host loads it. */
  function Word(s: seq<byte>, i: nat): nat
    requires i + 4 <= |s|
  {
    Host(s, i, i + 4)
  }

  /** One packet off the front of a stream. */
  function Parse(s: seq<byte>): Step<Packet> {
    if |s| < HEAD_SIZE then More
    else if Word(s, 0) != HEAD_SIZE then Bad
    else
      var n := HEAD_SIZE + Word(s, 4);
      if |s| < n then More
      else Got(Packet(Word(s, 8), Word(s, 12), s[HEAD_SIZE..n]), n)
  }

  ghost predicate WellFormed(p: Packet) {
    p.seqId < 0x1_0000_0000 && p.pktType < 0x1_0000_0000 && |p.data| < 0x1_0000_0000
  }

  function Image(p: Packet): seq<byte> {
    ToLittle(HEAD_SIZE, 4) + ToLittle(|p.data|, 4) + ToLittle(p.seqId, 4) + ToLittle(p.pktType, 4) + p.data
  }

  /** What the parser makes of any stream, in its bytes: four words, the length of the header
      first, then those of the data, the number and the type. */
  lemma ParseMeans(s: seq<byte>)
    ensures Parse(s) == Bad <==> |s| >= 16 && Little4(s, 0) != 16
    ensures Parse(s).Got? <==> |s| >= 16 && Little4(s, 0) == 16 && |s| >= 16 + Little4(s, 4)
    ensures Parse(s).Got? ==>
              var n := 16 + Little4(s, 4);
              Parse(s) == Got(Packet(Little4(s, 8), Little4(s, 12), s[16..n]), n)
  {
    if |s| >= 16 {
      HostIsLittle4(s, 0);
      HostIsLittle4(s, 4);
      HostIsLittle4(s, 8);
      HostIsLittle4(s, 12);
    }
  }

  lemma HeadMoves(d: seq<byte>, i: nat, e: seq<byte>, j: nat)
    requires Same(d, i, e, j, HEAD_SIZE)
    ensures Word(d, i) == Word(e, j) && Word(d, i + 4) == Word(e, j + 4)
    ensures Word(d, i + 8) == Word(e, j + 8) && Word(d, i + 12) == Word(e, j + 12)
  {
    HostMoves(d, i, e, j, 4);
    HostMoves(d, i + 4, e, j + 4, 4);
    HostMoves(d, i + 8, e, j + 8, 4);
    HostMoves(d, i + 12, e, j + 12, 4);
  }

  lemma SettledAt(s: seq<byte>, t: seq<byte>)
    ensures Settled(Parse, s, t)
  {
    var u := s + t;
    if |s| >= HEAD_SIZE {
      HeadMoves(s, 0, u, 0);
      var n := HEAD_SIZE + Word(s, 4);
      if |s| >= n {
        assert u[HEAD_SIZE..n] == s[HEAD_SIZE..n];
      }
    }
  }

  lemma ParseIsIncremental()
    ensures Incremental(Parse)
  {
    forall s, t ensures Settled(Parse, s, t) {
      SettledAt(s, t);
    }
    forall s ensures Consumes(Parse, s) {
    }
  }

  /** The packets of a whole stream. */
  ghost function ReadAll(s: seq<byte>): Drained<Packet> {
    ParseIsIncremental();
    ParseAll(Parse, s)
  }

  /** The packets of a stream drained piece after piece. */
  ghost function ReadPieces(held: seq<byte>, pieces: seq<seq<byte>>): Drained<Packet> {
    ParseIsIncremental();
    ParsePieces(Parse, held, pieces)
  }

  /** A packet, followed by anything, is read back whole. */
  lemma ParseOfImage(p: Packet, rest: seq<byte>)
    requires WellFormed(p)
    ensures Parse(Image(p) + rest) == Got(p, |Image(p)|)
  {
    var s := Image(p) + rest;
    Widths();
    assert s[0..4] == ToLittle(HEAD_SIZE, 4);
    HostOfToLittle(HEAD_SIZE, 4, s, 0);
    assert s[4..8] == ToLittle(|p.data|, 4);
    HostOfToLittle(|p.data|, 4, s, 4);
    assert s[8..12] == ToLittle(p.seqId, 4);
    HostOfToLittle(p.seqId, 4, s, 8);
    assert s[12..16] == ToLittle(p.pktType, 4);
    HostOfToLittle(p.pktType, 4, s, 12);
    assert s[HEAD_SIZE..HEAD_SIZE + |p.data|] == p.data;
  }

  /** So its image is those words and the data. */
  lemma ImageBytes(p: Packet)
    requires WellFormed(p)
    ensures var s := Image(p);
            && |s| == 16 + |p.data| && s[16..] == p.data
            && Little4(s, 0) == 16 && Little4(s, 4) == |p.data| && Little4(s, 8) == p.seqId && Little4(s, 12) == p.pktType
  {
    ParseOfImage(p, []);
    assert Image(p) + [] == Image(p);
    ParseMeans(Image(p));
  }

  lemma ParsedIsWellFormed(s: seq<byte>)
    requires Parse(s).Got?
    ensures WellFormed(Parse(s).frame)
  {
    Widths();
    ToLittleOfHost(s, 4, 4);
    ToLittleOfHost(s, 8, 4);
    ToLittleOfHost(s, 12, 4);
  }

  lemma FourWords(s: seq<byte>, n: nat)
    requires 16 <= n <= |s|
    ensures s[..n] == s[0..4] + s[4..8] + s[8..12] + s[12..16] + s[16..n]
  {
  }

  /** The bytes a packet was read from are its image. */
  lemma ImageOfParse(s: seq<byte>)
    requires Parse(s).Got?
    ensures WellFormed(Parse(s).frame) && Image(Parse(s).frame) == s[..Parse(s).used]
  {
    ParsedIsWellFormed(s);
    ToLittleOfHost(s, 0, 4);
    ToLittleOfHost(s, 4, 4);
    ToLittleOfHost(s, 8, 4);
    ToLittleOfHost(s, 12, 4);
    FourWords(s, Parse(s).used);
  }

  /** Packets laid end to end are read back in order, with nothing left over. */
  lemma {:induction false} ReadAllImages(packets: seq<Packet>)
    requires forall p :: p in packets ==> WellFormed(p)
    ensures ReadAll(Flatten(Images(packets))) == Drained(packets, [], false)
  {
    ParseIsIncremental();
    forall i | 0 <= i < |packets| ensures Parse(Images(packets)[i]) == Got(packets[i], |Images(packets)[i]|) {
      ParseOfImage(packets[i], []);
      assert Image(packets[i]) + [] == Image(packets[i]);
    }
    ReadBack(Parse, packets, Images(packets));
  }

  function Images(packets: seq<Packet>): (s: seq<seq<byte>>)
    ensures |s| == |packets|
    ensures forall i :: 0 <= i < |packets| ==> s[i] == Image(packets[i])
  {
    seq(|packets|, i requires 0 <= i < |packets| => Image(packets[i]))
  }

  lemma ImagesSnoc(packets: seq<Packet>, p: Packet)
    ensures Images(packets + [p]) == Images(packets) + [Image(p)]
  {
  }

  // ---- How much a packet may announce ----

  /** No packet that starts in `s` announces more than `bound` bytes of data. */
  ghost predicate AnnouncesAtMost(s: seq<byte>, bound: nat)
    decreases |s|
  {
    |s| >= HEAD_SIZE ==>
      && Word(s, 4) <= bound
      && (Parse(s).Got? ==> AnnouncesAtMost(s[Parse(s).used..], bound))
  }

  lemma {:induction false} AnnouncedLater(s: seq<byte>, t: seq<byte>, bound: nat)
    requires AnnouncesAtMost(s + t, bound) && !ReadAll(s).bad
    ensures AnnouncesAtMost(ReadAll(s).rest + t, bound)
    decreases |s|
  {
    ParseIsIncremental();
    if Parse(s).Got? {
      var n := Parse(s).used;
      SettledAt(s, t);
      assert (s + t)[n..] == s[n..] + t;
      AnnouncedLater(s[n..], t, bound);
    }
  }

  lemma {:induction false} AnnouncedBefore(s: seq<byte>, t: seq<byte>, bound: nat)
    requires AnnouncesAtMost(s + t, bound)
    ensures AnnouncesAtMost(s, bound)
    decreases |s|
  {
    if |s| >= HEAD_SIZE {
      HeadMoves(s, 0, s + t, 0);
      if Parse(s).Got? {
        var n := Parse(s).used;
        SettledAt(s, t);
        assert (s + t)[n..] == s[n..] + t;
        AnnouncedBefore(s[n..], t, bound);
      }
    }
  }

  /** What waits after a drain announces no more than the stream does, and is less than one
      such frame. */
  lemma RestIsShort(s: seq<byte>, bound: nat)
    requires AnnouncesAtMost(s, bound) && !ReadAll(s).bad
    ensures AnnouncesAtMost(ReadAll(s).rest, bound) && |ReadAll(s).rest| < HEAD_SIZE + bound
  {
    assert s + [] == s;
    AnnouncedLater(s, [], bound);
    var rest := ReadAll(s).rest;
    assert rest + [] == rest;
    ParseIsIncremental();
    RestWantsMore(Parse, s);
  }

  lemma {:induction false} ImagesAnnounce(packets: seq<Packet>, bound: nat)
    requires forall p :: p in packets ==> WellFormed(p) && |p.data| <= bound
    ensures AnnouncesAtMost(Flatten(Images(packets)), bound)
  {
    if packets != [] {
      var p, tail := packets[0], Flatten(Images(packets[1..]));
      assert Images(packets)[1..] == Images(packets[1..]);
      var s := Flatten(Images(packets));
      assert s == Image(p) + tail;
      ParseOfImage(p, tail);
      assert s[|Image(p)|..] == tail;
      ImagesAnnounce(packets[1..], bound);
    }
  }

  /** Packets laid end to end and cut anywhere are read back in order as far as they are whole;
      nothing is refused. */
  lemma ReadCut(packets: seq<Packet>, s: seq<byte>, bound: nat)
    requires forall p :: p in packets ==> WellFormed(p) && |p.data| <= bound
    requires s <= Flatten(Images(packets))
    ensures ReadAll(s).frames <= packets && !ReadAll(s).bad && AnnouncesAtMost(s, bound)
  {
    var all := Flatten(Images(packets));
    var t := all[|s|..];
    assert s + t == all;
    ReadAllImages(packets);
    ImagesAnnounce(packets, bound);
    AnnouncedBefore(s, t, bound);
    ParseIsIncremental();
    DrainEarly(Parse, s, t);
  }
}
