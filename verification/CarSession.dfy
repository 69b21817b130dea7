/** A car's connection (jt1078/jt1078_server/CarSession.cpp): push what was read, then drain. */
module CarSessions {
  import opened Buffers
  import opened Bytes
  import opened Framing
  import opened Jt1078Decoder
  import opened Jt1078Parser
  import D = DeviceId

  const INVALID_DEVICE_ID := 0

  /** The id a session has after packets that name these ids: the first of them that is not the
      invalid one. */
  function SessionId(ids: seq<nat>): nat {
    if ids == [] then INVALID_DEVICE_ID
    else if ids[0] != INVALID_DEVICE_ID then ids[0]
    else SessionId(ids[1..])
  }

  /** One more packet changes the id only while it is the invalid one. */
  lemma {:induction false} IdIsSetOnce(ids: seq<nat>, id: nat)
    ensures SessionId(ids + [id]) == if SessionId(ids) == INVALID_DEVICE_ID then id else SessionId(ids)
  {
    if ids == [] {
      assert (ids + [id])[1..] == [];
    } else {
      assert (ids + [id])[1..] == ids[1..] + [id];
      IdIsSetOnce(ids[1..], id);
    }
  }

  /** Out of `s` these packets are taken and `held` is still to be read. */
  ghost predicate Draining(s: seq<byte>, packets: seq<Packet>, held: seq<byte>) {
    ParseIsIncremental();
    DrainSoFar(Parse, s, packets, held)
  }

  lemma DrainBegins(s: seq<byte>)
    ensures Draining(s, [], s)
  {
  }

  /** One turn of the drain loop. */
  lemma DrainTurn(s: seq<byte>, packets: seq<Packet>, held: seq<byte>)
    requires Draining(s, packets, held)
    ensures match Parse(held)
            case Got(p, n) => n <= |held| && Draining(s, packets + [p], held[n..])
            case _ => ReadAll(s) == Drained(packets, held, Parse(held).Bad?)
  {
    ParseIsIncremental();
    DrainStep(Parse, s, packets, held);
  }

  class CarSession {
    const decoder: Decoder
    var deviceId: nat
    var strDeviceId: string

    /** The id is that of the packets named so far, and the text is one it is printed from. */
    ghost predicate Identified(ids: seq<nat>)
      reads this`deviceId, this`strDeviceId
    {
      && deviceId == SessionId(ids)
      && (strDeviceId != "" ==> deviceId == D.Parse(strDeviceId))
      && (deviceId != INVALID_DEVICE_ID ==> strDeviceId != "")
    }

    /** A packet names the car; only an unnamed session takes the name. */
    method UpdateDeviceIdIfEmpty(sim: seq<byte>, channel: byte, ghost ids: seq<nat>)
      requires |sim| == 6 && Identified(ids)
      modifies this`deviceId, this`strDeviceId
      ensures Identified(ids + [D.Parse(D.GenerateDeviceIdStr(sim, channel))])
      ensures old(deviceId) != INVALID_DEVICE_ID ==> strDeviceId == old(strDeviceId)
    {
      IdIsSetOnce(ids, D.Parse(D.GenerateDeviceIdStr(sim, channel)));
      if deviceId == INVALID_DEVICE_ID || strDeviceId == "" {
        D.HexIsCanonical(sim + [channel]);
        strDeviceId := D.GenerateDeviceIdStr(sim, channel);
        deviceId := D.Parse(strDeviceId);
      }
    }

    ghost predicate Valid()
      reads this, decoder, decoder.buffer
    {
      decoder.Ready() && decoder.Starved()
    }

    constructor ()
      ensures Valid() && fresh(decoder) && fresh(decoder.buffer) && decoder.Residue() == [] && Identified([])
    {
      deviceId, strDeviceId := INVALID_DEVICE_ID, "";
      decoder := new Decoder();
    }

    /** What waits between two reads is no whole packet, and in the read buffer less than one
        body, so a read of the usual size is never refused. */
    lemma ResidueIsShort()
      requires Valid()
      ensures Parse(decoder.Residue()) == More
      ensures |decoder.buffer.View()| < JT1078_MAX_LENGTH
      ensures |decoder.buffer.View()| + MAX_SIZE_ONCE_READ <= MAX_BUFFER_SIZE
    {
      decoder.StarvedWantsMore();
    }

    /** One read event. The packets handed on are those of the reference parser over all the
        bytes that wait; the session survives exactly when none of them is refused, and then
        nothing that could be read is left. */
    method ParseBuffer(chunk: seq<byte>) returns (packets: seq<Packet>, error: Error)
      requires Valid()
      modifies decoder, decoder.buffer
      ensures |chunk| <= MAX_SIZE_ONCE_READ ==> error != BufferFull
      ensures error == BufferFull ==> packets == [] && Valid() && decoder.Residue() == old(decoder.Residue())
      ensures error != BufferFull ==>
                var all := ReadAll(old(decoder.Residue()) + chunk);
                && packets == all.frames
                && error == (if all.bad then InvalidHeader else NeedMoreData)
                && (!all.bad ==> Valid() && decoder.Residue() == all.rest && Parse(all.rest) == More)
    {
      ResidueIsShort();
      packets := [];
      ghost var held := decoder.Residue();
      var ok := decoder.buffer.Push(chunk);
      if !ok {
        return [], BufferFull;
      }
      ghost var s := held + chunk;
      held := decoder.Residue();
      assert held == s;
      DrainBegins(s);
      while true
        invariant decoder.Ready() && held == decoder.Residue()
        invariant Draining(s, packets, held)
        decreases |decoder.buffer.View()|
      {
        DrainTurn(s, packets, held);
        error := decoder.Decode();
        if error != NoError {
          break;
        }
        packets := packets + [Packet(decoder.header, decoder.body)];
        held := held[Parse(held).used..];
      }
    }

    /** The whole life of a connection, one read after another until a refusal: however the
        car's bytes are cut, the server sees the packets of the uncut stream. */
    method Serve(chunks: seq<seq<byte>>) returns (packets: seq<Packet>, refused: bool)
      requires Valid() && decoder.Residue() == []
      requires forall c :: c in chunks ==> |c| <= MAX_SIZE_ONCE_READ
      modifies decoder, decoder.buffer
      ensures var all := ReadAll(Flatten(chunks));
              packets == all.frames && refused == all.bad
    {
      ParseIsIncremental();
      packets, refused := [], false;
      ghost var held: seq<byte> := [];
      ReadStart(Parse, chunks);
      var i := 0;
      while i < |chunks| && !refused
        invariant 0 <= i <= |chunks|
        invariant !refused ==> Valid() && held == decoder.Residue()
        invariant ReadSoFar(Parse, chunks, i, packets, held, refused)
      {
        ghost var first := ReadAll(held + chunks[i]);
        ReadOn(Parse, chunks, i, packets, held, first);
        var some, error := ParseBuffer(chunks[i]);
        refused := error == InvalidHeader;
        packets, held := packets + some, first.rest;
        i := i + 1;
      }
      ReadDone(Parse, chunks, i, packets, held, refused);
    }
  }
}
