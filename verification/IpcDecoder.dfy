/** The length-prefixed decoder (core/ipc_packet/IpcPktDecoder.cpp) and the read loop the
    servers' clients and viewers run over it (jt1078_client/Jt1078Client.cpp). */
module IpcDecoder {
  import opened Buffers
  import opened Bytes
  import opened Framing
  import opened IpcPacket

  datatype ReadStatus = ReadHeader | ReadBody
  datatype Error = NoError | NeedMoreData | BufferFull | InvalidHeader

  /** The capacity of the packet buffer after a header announcing `length` bytes. */
  function Resized(capacity: nat, length: nat): nat {
    if length > capacity then Max(capacity, Min(length, capacity * 2)) else capacity
  }

  const PACKET_CAPACITY := 1024

  /** The longest body a fresh packet buffer has room for. */
  const MAX_BODY := 1007

  /** Head, body and terminator lie within the packet buffer. */
  predicate HasRoom(capacity: nat, length: nat) {
    HEAD_SIZE + length + 1 <= capacity
  }

  /** The resize never makes room for a packet that had none. */
  lemma RoomForPacket(capacity: nat, length: nat)
    ensures HasRoom(Resized(capacity, length), length) <==> HasRoom(capacity, length)
  {
  }

  /** From its first size, 1024, the buffer grows to the length announced, and to 2048 at most. */
  lemma ResizedMeans(length: nat)
    ensures Resized(1024, length) == if length <= 1024 then 1024 else if length <= 2048 then length else 2048
  {
  }

  /** One of these packets was written past the end of a packet buffer of the first size. */
  ghost predicate TooLong(packets: seq<Packet>) {
    exists p :: p in packets && |p.data| > MAX_BODY
  }

  /** These sixteen bytes are a header that says this. */
  ghost predicate IsHead(head: seq<byte>, length: nat, seqId: nat, pktType: nat) {
    && |head| == HEAD_SIZE && Word(head, 0) == HEAD_SIZE
    && length == Word(head, 4) && seqId == Word(head, 8) && pktType == Word(head, 12)
  }

  class Decoder {
    const buffer: Buffer
    var status: ReadStatus
    var howmuch: nat
    var headLength: nat
    var dataLength: nat
    var seqId: nat
    var pktType: nat
    var data: seq<byte>
    var packetCapacity: nat
    // The header bytes of the unfinished packet.
    ghost var taken: seq<byte>
    // A body has been written past the end of the packet buffer; from then on nothing is known.
    ghost var overrun: bool

    ghost predicate Valid()
      reads this, buffer
    {
      && buffer.Valid() && packetCapacity >= PACKET_CAPACITY
      && (!overrun ==> packetCapacity == if status.ReadHeader? then PACKET_CAPACITY else Resized(PACKET_CAPACITY, dataLength))
      && match status
         case ReadHeader => taken == [] && howmuch == HEAD_SIZE
         case ReadBody => howmuch == dataLength && IsHead(taken, dataLength, seqId, pktType)
    }

    /** Between calls a body that is still awaited is not empty. */
    ghost predicate Ready()
      reads this, buffer
    {
      Valid() && (status.ReadBody? ==> howmuch > 0)
    }

    /** Fewer bytes wait than the current stage needs. */
    ghost predicate Starved()
      requires Valid()
      reads this, buffer
    {
      |buffer.View()| < howmuch
    }

    /** All received bytes that belong to no emitted packet yet. */
    ghost function Residue(): seq<byte>
      requires Valid()
      reads this, buffer
    {
      taken + buffer.View()
    }

    constructor ()
      ensures Ready() && Starved() && fresh(buffer) && Residue() == []
      ensures !overrun
    {
      buffer := new Buffer(MAX_BUFFER_SIZE / 4);
      status, howmuch := ReadHeader, HEAD_SIZE;
      headLength, dataLength, seqId, pktType, data := HEAD_SIZE, 0, INVALID_PKT_SEQ_ID, 0, [];
      packetCapacity, taken, overrun := PACKET_CAPACITY, [], false;
    }

    /** One call does exactly what the reference parser does to the residue, until a packet
        with more than 1007 bytes of data is completed: that one is written past the end of the
        packet buffer. Nothing of a refused header is consumed, so a refusal repeats. */
    method Decode() returns (error: Error)
      requires Ready()
      modifies this, buffer`readIndex
      ensures Ready() && error in {NoError, NeedMoreData, InvalidHeader}
      ensures error == NoError ==> |buffer.View()| < |old(buffer.View())|
      ensures error == NeedMoreData ==> Starved()
      ensures old(overrun) ==> overrun
      ensures !old(overrun) ==>
                match Parse(old(Residue()))
                case More => !overrun && error == NeedMoreData && Residue() == old(Residue())
                case Bad => !overrun && error == InvalidHeader && Residue() == old(Residue())
                case Got(p, n) =>
                  && error == NoError && (overrun <==> |p.data| > MAX_BODY)
                  && (!overrun ==> Residue() == old(Residue())[n..] && Packet(seqId, pktType, data) == p)
    {
      error := NoError;
      if status == ReadHeader {
        HeaderAt(buffer.data, buffer.readIndex, Residue());
        error := HeaderStage();
        if error != NoError {
          return;
        }
      }
      BodyAt(taken, howmuch, seqId, pktType, buffer.data, buffer.readIndex, Residue());
      error := BodyStage();
    }

    method HeaderStage() returns (error: Error)
      requires Valid() && status.ReadHeader?
      modifies this, buffer`readIndex
      ensures Valid() && overrun == old(overrun)
      ensures var d, i := buffer.data, old(buffer.readIndex);
              if i + HEAD_SIZE > |d| then error == NeedMoreData && status.ReadHeader? && buffer.readIndex == i
              else if Word(d, i) != HEAD_SIZE then error == InvalidHeader && status.ReadHeader? && buffer.readIndex == i
              else error == NoError && status.ReadBody? && buffer.readIndex == i + HEAD_SIZE && taken == d[i..i + HEAD_SIZE]
    {
      headLength, dataLength, seqId, pktType := HEAD_SIZE, 0, INVALID_PKT_SEQ_ID, 0;
      error := ParseHeader();
      if error == NoError {
        status, howmuch := ReadBody, dataLength;
      }
    }

    method BodyStage() returns (error: Error)
      requires Valid() && status.ReadBody?
      modifies this, buffer`readIndex
      ensures Valid() && seqId == old(seqId) && pktType == old(pktType)
      ensures var d, i, n := buffer.data, old(buffer.readIndex), old(howmuch);
              if i + n > |d| then
                && error == NeedMoreData && Starved() && status.ReadBody?
                && Residue() == old(Residue()) && overrun == old(overrun)
              else
                && error == NoError && status.ReadHeader? && buffer.readIndex == i + n
                && (old(overrun) ==> overrun) && (!old(overrun) ==> (overrun <==> n > MAX_BODY))
                && (!overrun ==> data == d[i..i + n])
    {
      RoomForPacket(PACKET_CAPACITY, howmuch);
      error := ParseBody();
      if error == NoError {
        status, howmuch, taken := ReadHeader, HEAD_SIZE, [];
      }
    }

    method ParseHeader() returns (error: Error)
      requires Valid() && status.ReadHeader?
      modifies this`headLength, this`dataLength, this`seqId, this`pktType, this`packetCapacity, this`taken, buffer`readIndex
      ensures buffer.Valid() && packetCapacity >= old(packetCapacity)
      ensures var i, d := old(buffer.readIndex), buffer.data;
              if i + HEAD_SIZE > |d| || Word(d, i) != HEAD_SIZE then
                && error == (if i + HEAD_SIZE > |d| then NeedMoreData else InvalidHeader)
                && taken == [] && buffer.readIndex == i && packetCapacity == old(packetCapacity)
              else
                && error == NoError && taken == d[i..i + HEAD_SIZE] && buffer.readIndex == i + HEAD_SIZE
                && dataLength == Word(d, i + 4) && seqId == Word(d, i + 8) && pktType == Word(d, i + 12)
                && packetCapacity == Resized(old(packetCapacity), dataLength) && IsHead(taken, dataLength, seqId, pktType)
    {
      HeadAt(buffer.data, buffer.readIndex);
      var readable := buffer.ReadableBytes();
      if readable < howmuch {
        return NeedMoreData;
      }
      var i := buffer.readIndex;
      if Word(buffer.data, i) != HEAD_SIZE {
        return InvalidHeader;
      }
      var announced := Word(buffer.data, i + 4);
      if announced > packetCapacity {
        var newCapacity := Min(announced, packetCapacity * 2);
        packetCapacity := Max(packetCapacity, newCapacity);
      }
      headLength, dataLength := HEAD_SIZE, announced;
      seqId, pktType := Word(buffer.data, i + 8), Word(buffer.data, i + 12);
      taken := buffer.data[i..i + HEAD_SIZE];
      buffer.Skip(howmuch);
      return NoError;
    }

    /** The body and its terminator go behind the head in the packet buffer. */
    method ParseBody() returns (error: Error)
      requires Valid() && status.ReadBody?
      modifies this`data, this`overrun, buffer`readIndex
      ensures buffer.Valid()
      ensures var i := old(buffer.readIndex);
              if i + howmuch > |buffer.data| then error == NeedMoreData && buffer.readIndex == i && overrun == old(overrun)
              else
                && error == NoError && buffer.readIndex == i + howmuch
                && overrun == (old(overrun) || !HasRoom(packetCapacity, howmuch))
                && (!overrun ==> data == buffer.data[i..i + howmuch])
    {
      var readable := buffer.ReadableBytes();
      if readable < howmuch {
        return NeedMoreData;
      }
      if HasRoom(packetCapacity, howmuch) {
        data := buffer.data[buffer.readIndex..buffer.readIndex + howmuch];
      } else {
        data := *;
        overrun := true;
      }
      buffer.Skip(howmuch);
      return NoError;
    }
  }

  lemma HeadAt(d: seq<byte>, i: nat)
    ensures i + HEAD_SIZE <= |d| && Word(d, i) == HEAD_SIZE ==>
              IsHead(d[i..i + HEAD_SIZE], Word(d, i + 4), Word(d, i + 8), Word(d, i + 12))
  {
    if i + HEAD_SIZE <= |d| {
      HeadMoves(d, i, d[i..i + HEAD_SIZE], 0);
    }
  }

  lemma HeaderAt(d: seq<byte>, i: nat, s: seq<byte>)
    requires i <= |d| && s == [] + d[i..]
    ensures i + HEAD_SIZE > |d| ==> Parse(s) == More
    ensures i + HEAD_SIZE <= |d| && Word(d, i) != HEAD_SIZE ==> Parse(s) == Bad
    ensures i + HEAD_SIZE <= |d| ==> s == d[i..i + HEAD_SIZE] + d[i + HEAD_SIZE..]
  {
    if i + HEAD_SIZE <= |d| {
      HeadMoves(d, i, s, 0);
    }
  }

  lemma BodyAt(taken: seq<byte>, n: nat, seqId: nat, pktType: nat, d: seq<byte>, j: nat, s: seq<byte>)
    requires IsHead(taken, n, seqId, pktType) && j <= |d| && s == taken + d[j..]
    ensures j + n > |d| ==> Parse(s) == More
    ensures j + n <= |d| ==>
              Parse(s) == Got(Packet(seqId, pktType, d[j..j + n]), HEAD_SIZE + n) && s[HEAD_SIZE + n..] == d[j + n..]
  {
    HeadMoves(taken, 0, s, 0);
    if j + n <= |d| {
      assert s[HEAD_SIZE..HEAD_SIZE + n] == d[j..j + n];
    }
  }

  // ---- The drain loop ----

  /** Out of `s` these packets are taken, none too long, and `held` is still to be read; or one
      of its packets was too long. */
  ghost predicate Draining(s: seq<byte>, packets: seq<Packet>, held: seq<byte>, overrun: bool) {
    ParseIsIncremental();
    if overrun then TooLong(ReadAll(s).frames)
    else DrainSoFar(Parse, s, packets, held) && !TooLong(packets)
  }

  lemma DrainBegins(s: seq<byte>)
    ensures Draining(s, [], s, false)
  {
  }

  /** One turn of the loop. */
  lemma DrainTurn(s: seq<byte>, packets: seq<Packet>, held: seq<byte>)
    requires Draining(s, packets, held, false)
    ensures match Parse(held)
            case Got(p, n) =>
              n <= |held| && Draining(s, packets + [p], held[n..], |p.data| > MAX_BODY)
            case _ => ReadAll(s) == Drained(packets, held, Parse(held).Bad?)
  {
    ParseIsIncremental();
    DrainStep(Parse, s, packets, held);
    if Parse(held).Got? {
      var p := Parse(held).frame;
      var more := ReadAll(held[Parse(held).used..]).frames;
      assert ReadAll(s).frames == packets + [p] + more;
      assert p in packets + [p] + more;
    }
  }

  // ---- What the reads leave of a stream ----

  /** How many of these bytes lie in the read buffer: a header that is whole has left it. */
  function Waiting(held: seq<byte>): nat {
    if |held| < HEAD_SIZE then |held| else |held| - HEAD_SIZE
  }

  /** A read that does not fit the read buffer is lost. */
  function Accepted(held: seq<byte>, chunk: seq<byte>): seq<byte> {
    if Waiting(held) + |chunk| <= MAX_BUFFER_SIZE then chunk else []
  }

  /** What is left of these reads when `held` waits. */
  ghost function Kept(held: seq<byte>, chunks: seq<seq<byte>>): (kept: seq<seq<byte>>)
    ensures |kept| == |chunks|
    decreases |chunks|
  {
    if chunks == [] then []
    else
      var c := Accepted(held, chunks[0]);
      [c] + Kept(ReadAll(held + c).rest, chunks[1..])
  }

  ghost predicate UsualSizes(chunks: seq<seq<byte>>) {
    forall c :: c in chunks ==> |c| <= MAX_SIZE_ONCE_READ
  }

  lemma {:induction false} ShortFrames(s: seq<byte>)
    requires AnnouncesAtMost(s, MAX_BODY)
    ensures !TooLong(ReadAll(s).frames)
    decreases |s|
  {
    ParseIsIncremental();
    if Parse(s).Got? {
      ShortFrames(s[Parse(s).used..]);
    }
  }

  /** The bound passes from one read to the next. */
  lemma AheadIsShort(held: seq<byte>, chunk: seq<byte>, later: seq<byte>)
    requires AnnouncesAtMost(held + (chunk + later), MAX_BODY) && !ReadAll(held + chunk).bad
    ensures AnnouncesAtMost(ReadAll(held + chunk).rest + later, MAX_BODY)
    ensures |ReadAll(held + chunk).rest| < HEAD_SIZE + MAX_BODY
  {
    assert held + (chunk + later) == held + chunk + later;
    AnnouncedBefore(held + chunk, later, MAX_BODY);
    AnnouncedLater(held + chunk, later, MAX_BODY);
    RestIsShort(held + chunk, MAX_BODY);
  }

  /** While frames announce at most 1007 bytes and reads have the usual size, none is lost up to
      a refusal, and afterwards none matters. */
  lemma {:induction false} NothingLost(held: seq<byte>, chunks: seq<seq<byte>>)
    requires UsualSizes(chunks) && AnnouncesAtMost(held + Flatten(chunks), MAX_BODY)
    requires |held| < HEAD_SIZE + MAX_BODY
    ensures ReadPieces(held, Kept(held, chunks)) == ReadPieces(held, chunks)
    decreases |chunks|
  {
    ParseIsIncremental();
    if chunks != [] {
      assert chunks[0] in chunks && Accepted(held, chunks[0]) == chunks[0];
      var s := held + chunks[0];
      assert Kept(held, chunks) == [chunks[0]] + Kept(ReadAll(s).rest, chunks[1..]);
      if !ReadAll(s).bad {
        AheadIsShort(held, chunks[0], Flatten(chunks[1..]));
        NothingLost(ReadAll(s).rest, chunks[1..]);
      }
    }
  }

  /** Then what is read is the stream itself. */
  lemma KeptWhole(chunks: seq<seq<byte>>)
    requires UsualSizes(chunks) && AnnouncesAtMost(Flatten(chunks), MAX_BODY)
    ensures ReadAll(Flatten(Kept([], chunks))).frames == ReadAll(Flatten(chunks)).frames
    ensures ReadAll(Flatten(Kept([], chunks))).bad == ReadAll(Flatten(chunks)).bad
    ensures !TooLong(ReadAll(Flatten(chunks)).frames)
  {
    ParseIsIncremental();
    assert [] + Flatten(chunks) == Flatten(chunks) && [] + Flatten(Kept([], chunks)) == Flatten(Kept([], chunks));
    NothingLost([], chunks);
    PiecesDoNotMatter(Parse, [], chunks);
    PiecesDoNotMatter(Parse, [], Kept([], chunks));
    ShortFrames(Flatten(chunks));
  }

  /** A packet of `n` bytes, alone on a connection, is too long exactly from 1008 bytes on. */
  lemma OnePacket(p: Packet)
    requires WellFormed(p) && |Image(p)| <= MAX_BUFFER_SIZE
    ensures TooLong(ReadAll(Flatten(Kept([], [Image(p)]))).frames) <==> |p.data| >= 1008
  {
    assert Kept([], [Image(p)]) == [Image(p)] == Images([p]);
    ReadAllImages([p]);
  }

  // ---- Reading on from one read to the next ----

  /** After `i` reads these packets are out, none too long, and `held` waits; or a refusal has
      ended the reading; or one packet was too long. */
  ghost predicate Serving(chunks: seq<seq<byte>>, i: nat, packets: seq<Packet>, held: seq<byte>, refused: bool, overrun: bool) {
    ParseIsIncremental();
    var kept := Kept([], chunks);
    && i <= |chunks|
    && if overrun then TooLong(ReadPieces([], kept).frames)
       else
         && !TooLong(packets) && ReadSoFar(Parse, kept, i, packets, held, refused)
         && (!refused ==> kept[i..] == Kept(held, chunks[i..]))
  }

  lemma ServeStart(chunks: seq<seq<byte>>)
    ensures Serving(chunks, 0, [], [], false, false)
  {
    ParseIsIncremental();
    ReadStart(Parse, Kept([], chunks));
    assert chunks[0..] == chunks && Kept([], chunks)[0..] == Kept([], chunks);
  }

  lemma TooLongAmong(some: seq<Packet>, before: seq<Packet>, after: seq<Packet>)
    ensures TooLong(before + some + after) <==> TooLong(before) || TooLong(some) || TooLong(after)
  {
    var all := before + some + after;
    assert forall p :: p in all <==> p in before || p in some || p in after;
  }

  /** One turn of the loop. */
  lemma ServeTurn(chunks: seq<seq<byte>>, i: nat, packets: seq<Packet>, held: seq<byte>, first: Drained<Packet>)
    requires i < |chunks| && Serving(chunks, i, packets, held, false, false)
    requires first == ReadAll(held + Accepted(held, chunks[i]))
    ensures Serving(chunks, i + 1, packets + first.frames, first.rest, first.bad, TooLong(first.frames))
  {
    ParseIsIncremental();
    var kept := Kept([], chunks);
    assert chunks[i..][0] == chunks[i] && chunks[i..][1..] == chunks[i + 1..];
    assert kept[i] == kept[i..][0] && kept[i + 1..] == kept[i..][1..];
    ReadOn(Parse, kept, i, packets, held, first);
    TooLongAmong(first.frames, packets, []);
    assert packets + first.frames + [] == packets + first.frames;
    if TooLong(first.frames) && !first.bad {
      TooLongAmong(first.frames, packets, ParsePieces(Parse, first.rest, kept[i + 1..]).frames);
    }
  }

  lemma ServeDone(chunks: seq<seq<byte>>, i: nat, packets: seq<Packet>, held: seq<byte>, refused: bool, overrun: bool)
    requires Serving(chunks, i, packets, held, refused, overrun) && (overrun || refused || i == |chunks|)
    ensures var all := ReadAll(Flatten(Kept([], chunks)));
            (overrun <==> TooLong(all.frames)) && (!overrun ==> packets == all.frames && refused == all.bad)
  {
    ParseIsIncremental();
    var kept := Kept([], chunks);
    PiecesDoNotMatter(Parse, [], kept);
    assert [] + Flatten(kept) == Flatten(kept);
    if !overrun {
      ReadDone(Parse, kept, i, packets, held, refused);
    }
  }

  /** The read side of one connection. */
  class Reader {
    const decoder: Decoder

    ghost predicate Valid()
      reads this, decoder, decoder.buffer
    {
      decoder.Ready() && decoder.Starved()
    }

    constructor ()
      ensures Valid() && fresh(decoder) && fresh(decoder.buffer) && decoder.Residue() == [] && !decoder.overrun
    {
      decoder := new Decoder();
    }

    /** Between reads a whole header has left the read buffer, and nothing else. */
    lemma ViewIsWaiting()
      requires Valid()
      ensures |decoder.buffer.View()| == Waiting(decoder.Residue())
    {
    }

    /** What waits is less than one frame; while frames announce at most 1007 bytes a read of
        the usual size always fits. */
    lemma ReadFits()
      requires Valid() && AnnouncesAtMost(decoder.Residue(), 1007)
      ensures |decoder.buffer.View()| < 1007 && |decoder.buffer.View()| + MAX_SIZE_ONCE_READ <= MAX_BUFFER_SIZE
    {
      if decoder.status.ReadBody? {
        HeadMoves(decoder.taken, 0, decoder.Residue(), 0);
      }
    }

    /** One read event. The result of the push is not looked at: a read that does not fit is
        lost, and any other is drained as the reference parser would, until a packet too long
        for the packet buffer is completed. */
    method OnMessage(chunk: seq<byte>) returns (packets: seq<Packet>, error: Error)
      requires Valid()
      modifies decoder, decoder.buffer
      ensures decoder.Ready() && error in {NeedMoreData, InvalidHeader} && (error == NeedMoreData ==> Valid())
      ensures old(decoder.overrun) ==> decoder.overrun
      ensures var all := ReadAll(old(decoder.Residue()) + Accepted(old(decoder.Residue()), chunk));
              !old(decoder.overrun) ==>
                && (decoder.overrun <==> TooLong(all.frames))
                && (!decoder.overrun ==>
                      && packets == all.frames && decoder.Residue() == all.rest
                      && error == (if all.bad then InvalidHeader else NeedMoreData))
    {
      packets := [];
      ghost var held := decoder.Residue();
      ViewIsWaiting();
      var pushed := decoder.buffer.Push(chunk);
      ghost var s := decoder.Residue();
      assert s == held + Accepted(held, chunk);
      held := s;
      DrainBegins(s);
      while true
        invariant decoder.Ready() && (old(decoder.overrun) ==> decoder.overrun)
        invariant !decoder.overrun ==> held == decoder.Residue()
        invariant !old(decoder.overrun) ==> Draining(s, packets, held, decoder.overrun)
        decreases |decoder.buffer.View()|
      {
        if !decoder.overrun { DrainTurn(s, packets, held); }
        error := decoder.Decode();
        if error != NoError {
          break;
        }
        packets := packets + [Packet(decoder.seqId, decoder.pktType, decoder.data)];
        held := if Parse(held).Got? && Parse(held).used <= |held| then held[Parse(held).used..] else held;
      }
    }

    /** A connection read after read until a refusal. A packet is written past the end of the
        packet buffer if and only if one with more than 1007 bytes of data is completed; up to
        there the packets are those of the reads that were kept. When no frame announces more,
        nothing is ever lost either, and however the bytes are cut the packets are those of the
        uncut stream. */
    method Serve(chunks: seq<seq<byte>>) returns (packets: seq<Packet>, refused: bool)
      requires Valid() && decoder.Residue() == [] && !decoder.overrun
      modifies decoder, decoder.buffer
      ensures var all := ReadAll(Flatten(Kept([], chunks)));
              && (decoder.overrun <==> TooLong(all.frames))
              && (!decoder.overrun ==> packets == all.frames && refused == all.bad)
      ensures UsualSizes(chunks) && AnnouncesAtMost(Flatten(chunks), 1007) ==>
                var all := ReadAll(Flatten(chunks));
                !decoder.overrun && packets == all.frames && refused == all.bad
    {
      packets, refused := [], false;
      ghost var held: seq<byte> := [];
      ServeStart(chunks);
      var i := 0;
      while i < |chunks| && !refused
        invariant 0 <= i <= |chunks|
        invariant !refused ==> Valid() && (!decoder.overrun ==> held == decoder.Residue())
        invariant Serving(chunks, i, packets, held, refused, decoder.overrun)
      {
        ghost var first := ReadAll(held + Accepted(held, chunks[i]));
        if !decoder.overrun { ServeTurn(chunks, i, packets, held, first); }
        var some, error := OnMessage(chunks[i]);
        refused := error == InvalidHeader;
        packets, held := packets + some, first.rest;
        i := i + 1;
      }
      ServeDone(chunks, i, packets, held, refused, decoder.overrun);
      if UsualSizes(chunks) && AnnouncesAtMost(Flatten(chunks), 1007) { KeptWhole(chunks); }
    }
  }
}
