/** The three-stage JT1078 decoder (jt1078/jt1078_server/Jt1078Decoder.cpp) and the drain loop
    of a car session (jt1078/jt1078_server/CarSession.cpp). */
module Jt1078Decoder {
  import opened Buffers
  import opened Bytes
  import opened Framing
  import opened Jt1078Parser

  const READ_SIZE_FOR_HEADER_FIRST := 16
  const READ_MIN_SIZE_FOR_HEADER_SECOND := 2
  const READ_VIDEO_SIZE_FOR_HEADER_SECOND := 14
  const READ_AUDIO_SIZE_FOR_HEADER_SECOND := 10

  datatype ReadStatus = ReadHeaderStep1 | ReadHeaderStep2 | ReadBody
  datatype Error = NoError | NeedMoreData | BufferFull | InvalidHeader

  const EMPTY := Header(0, 0, 0, [], 0, 0, 0, 0, 0, 0, 0)

  class Decoder {
    const buffer: Buffer
    var status: ReadStatus
    var howmuch: nat
    var header: Header
    var body: seq<byte>
    // The bytes of the unfinished packet that have left the buffer.
    ghost var taken: seq<byte>

    ghost predicate Valid()
      reads this, buffer
    {
      && buffer.Valid()
      && match status
         case ReadHeaderStep1 => taken == [] && howmuch == READ_SIZE_FOR_HEADER_FIRST
         case ReadHeaderStep2 =>
           && |taken| == FIRST_SIZE && First(taken, 0) == Accepted(header)
           && howmuch == READ_MIN_SIZE_FOR_HEADER_SECOND
         case ReadBody =>
           && |taken| == FIRST_SIZE + SecondSize(header.dataType) && First(taken, 0) == Accepted(Bare(header))
           && Second(Bare(header), taken, FIRST_SIZE) == header
           && howmuch == header.bodyLen <= JT1078_MAX_LENGTH
    }

    /** Between calls a body that is still awaited is not empty. */
    ghost predicate Ready()
      reads this, buffer
    {
      Valid() && (status.ReadBody? ==> howmuch > 0)
    }

    /** Fewer bytes wait than the current stage needs. */
    ghost predicate Starved()
      requires Valid()
      reads this, buffer
    {
      |buffer.View()| <
      match status
      case ReadHeaderStep1 => FIRST_SIZE
      case ReadHeaderStep2 => SecondSize(header.dataType)
      case ReadBody => header.bodyLen
    }

    lemma StarvedWantsMore()
      requires Valid() && Starved()
      ensures Parse(Residue()) == More
    {
      match status
      case ReadHeaderStep1 => StageOne(buffer.data, buffer.readIndex, Residue());
      case ReadHeaderStep2 => StageTwo(header, taken, buffer.data, buffer.readIndex, Residue());
      case ReadBody => StageThree(header, taken, buffer.data, buffer.readIndex, Residue());
    }

    /** All received bytes that belong to no emitted packet yet. */
    ghost function Residue(): seq<byte>
      requires Valid()
      reads this, buffer
    {
      taken + buffer.View()
    }

    constructor ()
      ensures Ready() && fresh(buffer) && Residue() == []
      ensures buffer.capacity == MAX_BUFFER_SIZE / 4 && buffer.moves == 0
    {
      buffer := new Buffer(MAX_BUFFER_SIZE / 4);
      status, howmuch := ReadHeaderStep1, READ_SIZE_FOR_HEADER_FIRST;
      header, body, taken := EMPTY, [], [];
    }

    /** One call of the state machine does exactly what the reference parser does to the
        residue: take its first packet, ask for more without losing a byte, or refuse. */
    method Decode() returns (error: Error)
      requires Ready()
      modifies this, buffer`readIndex
      ensures buffer.Valid()
      ensures match Parse(old(Residue()))
              case More => error == NeedMoreData && Ready() && Starved() && Residue() == old(Residue())
              case Bad => error == InvalidHeader
              case Got(p, n) =>
                && error == NoError && Ready() && Residue() == old(Residue())[n..]
                && Packet(header, body) == p
                && |buffer.View()| < |old(buffer.View())|
    {
      ghost var s := Residue();
      error := NoError;
      while error == NoError
        invariant error == NoError && Valid() && Residue() == s
        invariant |buffer.View()| <= |old(buffer.View())|
        invariant old(Ready()) && status.ReadBody? ==> howmuch > 0 || |buffer.View()| < |old(buffer.View())|
        decreases if status.ReadBody? then 0 else if status.ReadHeaderStep2? then 1 else 2
      {
        if status == ReadHeaderStep1 {
          error := FirstStage();
          if error != NoError {
            return;
          }
        } else if status == ReadHeaderStep2 {
          error := SecondStage();
          if error != NoError {
            return;
          }
        } else {
          error := BodyStage();
          break;
        }
      }
    }

    method FirstStage() returns (error: Error)
      requires Valid() && status.ReadHeaderStep1?
      modifies this, buffer`readIndex
      ensures buffer.Valid()
      ensures match error
              case NoError => Valid() && status.ReadHeaderStep2? && Residue() == old(Residue()) && |buffer.View()| < |old(buffer.View())|
              case NeedMoreData => Ready() && Starved() && Residue() == old(Residue()) && Parse(old(Residue())) == More
              case _ => error == InvalidHeader && Parse(old(Residue())) == Bad
    {
      header, body := EMPTY, [];
      assert Residue() == buffer.View();
      StageOne(buffer.data, buffer.readIndex, Residue());
      error := ParseHeaderStep1();
      if error == NoError {
        status, howmuch := ReadHeaderStep2, READ_MIN_SIZE_FOR_HEADER_SECOND;
      }
    }

    method SecondStage() returns (error: Error)
      requires Valid() && status.ReadHeaderStep2?
      modifies this, buffer`readIndex
      ensures buffer.Valid()
      ensures match error
              case NoError => Valid() && status.ReadBody? && Residue() == old(Residue()) && |buffer.View()| < |old(buffer.View())|
              case NeedMoreData => Ready() && Starved() && Residue() == old(Residue()) && Parse(old(Residue())) == More
              case _ => error == InvalidHeader && Parse(old(Residue())) == Bad
    {
      StageTwo(header, taken, buffer.data, buffer.readIndex, Residue());
      error := ParseHeaderStep2();
      if error == NoError {
        status, howmuch := ReadBody, header.bodyLen;
      }
    }

    method BodyStage() returns (error: Error)
      requires Valid() && status.ReadBody?
      modifies this, buffer`readIndex
      ensures buffer.Valid()
      ensures match Parse(old(Residue()))
              case More => error == NeedMoreData && Ready() && Starved() && Residue() == old(Residue())
              case Got(p, n) =>
                && error == NoError && Ready() && Residue() == old(Residue())[n..] && Packet(header, body) == p
                && |buffer.View()| == |old(buffer.View())| - old(howmuch)
              case _ => false
    {
      StageThree(header, taken, buffer.data, buffer.readIndex, Residue());
      error := ParseBody();
      if error == NoError {
        status, howmuch, taken := ReadHeaderStep1, READ_SIZE_FOR_HEADER_FIRST, [];
      }
    }

    method ParseHeaderStep1() returns (error: Error)
      requires Valid() && status.ReadHeaderStep1? && header == EMPTY
      modifies this`header, this`taken, buffer`readIndex
      ensures buffer.Valid()
      ensures var i := old(buffer.readIndex);
              if i + FIRST_SIZE > |buffer.data| then error == NeedMoreData && taken == old(taken) && buffer.readIndex == i
              else if First(buffer.data, i) == Refused then error == InvalidHeader
              else
                && error == NoError && First(buffer.data, i) == Accepted(header)
                && taken == buffer.data[i..i + FIRST_SIZE] && buffer.readIndex == i + FIRST_SIZE
    {
      var readable := buffer.ReadableBytes();
      if readable < howmuch {
        return NeedMoreData;
      }
      ghost var i, d := buffer.readIndex, buffer.data;
      var fixed := ReadFixedPart();
      if !fixed {
        return InvalidHeader;
      }
      var m1, pt7 := ReadHalves(1);
      header := header.(m1 := m1, pt7 := pt7);
      if !IsSupportCodingType(header.pt7) {
        return InvalidHeader;
      }
      var sequence, sim, channel := ReadNames();
      header := header.(sequence := sequence, sim := sim, channel := channel);
      var dataType, mark := ReadHalves(4);
      header := header.(dataType := dataType);
      if header.dataType != 0 && header.dataType != 1 && header.dataType != 2 && header.dataType != 3 && header.dataType != 4 {
        return InvalidHeader;
      }
      header := header.(mark := mark);
      if header.mark != 0 && header.mark != 1 && header.mark != 2 && header.mark != 3 {
        return InvalidHeader;
      }
      taken := d[i..i + FIRST_SIZE];
      assert header == Header(d[i + 5] / 128, d[i + 5] % 128, Net(d, i + 6, i + 8), d[i + 8..i + 14], d[i + 14],
                              d[i + 15] / 16, d[i + 15] % 16, 0, 0, 0, 0);
      return NoError;
    }

    /** The frame mark and the byte of fixed bits. */
    method ReadFixedPart() returns (ok: bool)
      requires buffer.Valid() && buffer.readIndex + 5 <= |buffer.data|
      modifies buffer`readIndex
      ensures buffer.Valid()
      ensures var i := old(buffer.readIndex);
              && ok == (Net(buffer.data, i, i + 4) == JT_1078_HEAD_MARK && buffer.data[i + 4] == 0x81)
              && (ok ==> buffer.readIndex == i + 5)
    {
      ghost var i, d := buffer.readIndex, buffer.data;
      var headMark := buffer.ReadInt32();
      assert headMark == Net(d, i, i + 4);
      if headMark != JT_1078_HEAD_MARK {
        return false;
      }
      var bits := buffer.ReadInt8();
      assert bits == d[i + 4];
      FixedBits(bits);
      if bits / 64 % 4 != 2 {
        return false;
      }
      if bits / 32 % 2 != 0 {
        return false;
      }
      if bits / 16 % 2 != 0 {
        return false;
      }
      if bits % 16 != 1 {
        return false;
      }
      return true;
    }

    /** Sequence number, SIM number and logic channel. */
    method ReadNames() returns (sequence: nat, sim: seq<byte>, channel: byte)
      requires buffer.Valid() && buffer.readIndex + 9 <= |buffer.data|
      modifies buffer`readIndex
      ensures buffer.Valid() && buffer.readIndex == old(buffer.readIndex) + 9
      ensures var i, d := old(buffer.readIndex), buffer.data;
              sequence == Net(d, i, i + 2) && sim == d[i + 2..i + 8] && channel == d[i + 8]
    {
      sequence := buffer.ReadInt16();
      sim := buffer.ReadBuffer(6);
      channel := buffer.ReadInt8();
    }

    /** A byte of two fields, the first of one bit or of four. */
    method ReadHalves(width: nat) returns (top: nat, rest: nat)
      requires buffer.Valid() && buffer.readIndex < |buffer.data| && (width == 1 || width == 4)
      modifies buffer`readIndex
      ensures buffer.Valid() && buffer.readIndex == old(buffer.readIndex) + 1
      ensures var bits := buffer.data[old(buffer.readIndex)] as int;
              if width == 1 then top == bits / 128 && rest == bits % 128 else top == bits / 16 && rest == bits % 16
    {
      var bits := buffer.ReadInt8();
      TopBits(bits);
      if width == 1 {
        top, rest := bits / 128 % 2, bits % 128;
      } else {
        top, rest := bits / 16 % 16, bits % 16;
      }
    }

    /** The four bit-field tests together accept one byte. */
    static lemma FixedBits(bits: byte)
      ensures bits == 0x81 <==> bits / 64 % 4 == 2 && bits / 32 % 2 == 0 && bits / 16 % 2 == 0 && bits % 16 == 1
    {
    }

    static lemma TopBits(bits: byte)
      ensures bits / 128 % 2 == bits / 128 && bits / 16 % 16 == bits / 16
    {
    }

    method ReadIntervals() returns (lastIFrame: nat, lastFrame: nat)
      requires buffer.Valid() && buffer.readIndex + 4 <= |buffer.data|
      modifies buffer`readIndex
      ensures buffer.Valid() && buffer.readIndex == old(buffer.readIndex) + 4
      ensures var i, d := old(buffer.readIndex), buffer.data;
              lastIFrame == Net(d, i, i + 2) && lastFrame == Net(d, i + 2, i + 4)
    {
      lastIFrame := buffer.ReadInt16();
      lastFrame := buffer.ReadInt16();
    }

    /** The fields a header of this type has in its second half. */
    method ReadSecond(first: Header, isVideo: bool) returns (h: Header)
      requires buffer.Valid() && buffer.readIndex + SecondSize(first.dataType) <= |buffer.data|
      requires isVideo == IsVideo(first.dataType)
      modifies buffer`readIndex
      ensures buffer.Valid() && buffer.readIndex == old(buffer.readIndex) + SecondSize(first.dataType)
      ensures h == Second(first, buffer.data, old(buffer.readIndex))
    {
      h := first;
      if isVideo || h.dataType == DATA_TYPE_AUDIO {
        var timestamp := buffer.ReadInt64();
        h := h.(timestamp := timestamp);
      }
      if isVideo {
        var lastIFrame, lastFrame := ReadIntervals();
        h := h.(lastIFrame := lastIFrame, lastFrame := lastFrame);
      }
      var bodyLen := buffer.ReadInt16();
      h := h.(bodyLen := bodyLen);
    }

    method ParseHeaderStep2() returns (error: Error)
      requires Valid() && status.ReadHeaderStep2?
      modifies this`header, this`taken, buffer`readIndex
      ensures buffer.Valid()
      ensures var j := old(buffer.readIndex);
              var first := old(header);
              var n := SecondSize(first.dataType);
              if j + n > |buffer.data| then
                error == NeedMoreData && taken == old(taken) && header == first && buffer.readIndex == j
              else if Second(first, buffer.data, j).bodyLen > JT1078_MAX_LENGTH then error == InvalidHeader
              else
                && error == NoError && header == Second(first, buffer.data, j)
                && taken == old(taken) + buffer.data[j..j + n] && buffer.readIndex == j + n
    {
      ghost var j := buffer.readIndex;
      var readable := buffer.ReadableBytes();
      if readable < howmuch {
        return NeedMoreData;
      }
      var isVideo := false;
      if header.dataType == 0 || header.dataType == 1 || header.dataType == 2 {
        if readable < READ_VIDEO_SIZE_FOR_HEADER_SECOND {
          return NeedMoreData;
        }
        isVideo := true;
      } else if header.dataType == DATA_TYPE_AUDIO {
        if readable < READ_AUDIO_SIZE_FOR_HEADER_SECOND {
          return NeedMoreData;
        }
      }
      var second := ReadSecond(header, isVideo);
      header := second;
      taken := taken + buffer.data[j..buffer.readIndex];
      if header.bodyLen > JT1078_MAX_LENGTH {
        return InvalidHeader;
      }
      return NoError;
    }

    method ParseBody() returns (error: Error)
      requires Valid() && status.ReadBody?
      modifies this`body, buffer`readIndex
      ensures buffer.Valid()
      ensures var i := old(buffer.readIndex);
              if i + howmuch > |buffer.data| then error == NeedMoreData && buffer.readIndex == i
              else error == NoError && body == buffer.data[i..i + howmuch] && buffer.readIndex == i + howmuch
    {
      var readable := buffer.ReadableBytes();
      if readable < howmuch {
        return NeedMoreData;
      }
      body := buffer.ReadBuffer(howmuch);
      return NoError;
    }
  }
}
