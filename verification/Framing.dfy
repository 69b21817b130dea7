/** Reading a stream of frames from a byte stream that arrives in arbitrary pieces.
    Both wire formats are instances: a frame parser looks at the bytes on hand and
    either wants more, refuses them, or takes one frame off the front. */
module Framing {
  import opened Bytes

  datatype Step<T> = More | Bad | Got(frame: T, used: nat)

  /** What a drain loop leaves: the frames taken, the bytes left over, and whether it
      stopped at a refusal. */
  datatype Drained<T> = Drained(frames: seq<T>, rest: seq<byte>, bad: bool)

  ghost predicate Consumes<T(!new)>(parse: seq<byte> -> Step<T>, s: seq<byte>) {
    parse(s).Got? ==> 0 < parse(s).used <= |s|
  }

  ghost predicate Settled<T(!new)>(parse: seq<byte> -> Step<T>, s: seq<byte>, t: seq<byte>) {
    !parse(s).More? ==> parse(s + t) == parse(s)
  }

  /** A parser that consumes what it takes and never revises an answer when more bytes
      follow. */
  ghost predicate Incremental<T(!new)>(parse: seq<byte> -> Step<T>) {
    && (forall s :: Consumes(parse, s))
    && (forall s, t :: Settled(parse, s, t))
  }

  /** The reference: read the whole stream at once. */
  ghost function ParseAll<T(!new)>(parse: seq<byte> -> Step<T>, s: seq<byte>): Drained<T>
    requires Incremental(parse)
    decreases |s|
  {
    assert Consumes(parse, s);
    match parse(s)
    case More => Drained([], s, false)
    case Bad => Drained([], s, true)
    case Got(f, n) =>
      var tail := ParseAll(parse, s[n..]);
      Drained([f] + tail.frames, tail.rest, tail.bad)
  }

  /** The stream as it is really read: one drain per piece, over what the last one left,
      stopping for good at a refusal. */
  ghost function ParsePieces<T(!new)>(parse: seq<byte> -> Step<T>, held: seq<byte>, pieces: seq<seq<byte>>): Drained<T>
    requires Incremental(parse)
    decreases |pieces|
  {
    if pieces == [] then Drained([], held, false)
    else
      var first := ParseAll(parse, held + pieces[0]);
      if first.bad then first
      else
        var tail := ParsePieces(parse, first.rest, pieces[1..]);
        Drained(first.frames + tail.frames, tail.rest, tail.bad)
  }

  /** What is left over after a drain holds no whole frame. */
  lemma {:induction false} RestWantsMore<T(!new)>(parse: seq<byte> -> Step<T>, s: seq<byte>)
    requires Incremental(parse)
    ensures var d := ParseAll(parse, s);
            if d.bad then parse(d.rest).Bad? else parse(d.rest).More?
    decreases |s|
  {
    assert Consumes(parse, s);
    if parse(s).Got? {
      RestWantsMore(parse, s[parse(s).used..]);
    }
  }

  /** Draining early never changes what is read. */
  lemma {:induction false} DrainEarly<T(!new)>(parse: seq<byte> -> Step<T>, s: seq<byte>, t: seq<byte>)
    requires Incremental(parse)
    ensures var a := ParseAll(parse, s);
            var whole := ParseAll(parse, s + t);
            if a.bad then whole.bad && whole.frames == a.frames
            else
              var b := ParseAll(parse, a.rest + t);
              whole == Drained(a.frames + b.frames, b.rest, b.bad)
    decreases |s|
  {
    assert Consumes(parse, s) && Settled(parse, s, t);
    match parse(s)
    case More =>
    case Bad =>
    case Got(f, n) =>
      assert (s + t)[n..] == s[n..] + t;
      DrainEarly(parse, s[n..], t);
  }

  /** Chunking independence: however the stream is cut, the frames and the first refusal
      are those of the whole stream; without a refusal so are the bytes left over. */
  lemma {:induction false} PiecesDoNotMatter<T(!new)>(parse: seq<byte> -> Step<T>, held: seq<byte>, pieces: seq<seq<byte>>)
    requires Incremental(parse)
    requires parse(held).More?
    ensures var whole := ParseAll(parse, held + Flatten(pieces));
            var cut := ParsePieces(parse, held, pieces);
            && cut.frames == whole.frames
            && cut.bad == whole.bad
            && (!whole.bad ==> cut.rest == whole.rest)
    decreases |pieces|
  {
    if pieces == [] {
      assert held + Flatten(pieces) == held;
    } else {
      var s := held + pieces[0];
      assert held + Flatten(pieces) == s + Flatten(pieces[1..]);
      DrainEarly(parse, s, Flatten(pieces[1..]));
      RestWantsMore(parse, s);
      var first := ParseAll(parse, s);
      if !first.bad {
        PiecesDoNotMatter(parse, first.rest, pieces[1..]);
      }
    }
  }

  // ---- Draining frame after frame, for loops that do it ----

  /** Out of `s` these frames are taken and `held` is still to be read. */
  ghost predicate DrainSoFar<T(!new)>(parse: seq<byte> -> Step<T>, s: seq<byte>, frames: seq<T>, held: seq<byte>)
    requires Incremental(parse)
  {
    var rest := ParseAll(parse, held);
    ParseAll(parse, s) == Drained(frames + rest.frames, rest.rest, rest.bad)
  }

  lemma DrainStep<T(!new)>(parse: seq<byte> -> Step<T>, s: seq<byte>, frames: seq<T>, held: seq<byte>)
    requires Incremental(parse) && DrainSoFar(parse, s, frames, held)
    ensures Consumes(parse, held)
    ensures if parse(held).Got? then DrainSoFar(parse, s, frames + [parse(held).frame], held[parse(held).used..])
            else ParseAll(parse, s) == Drained(frames, held, parse(held).Bad?)
  {
    assert Consumes(parse, held);
    if parse(held).Got? {
      var rest := ParseAll(parse, held[parse(held).used..]);
      assert frames + ([parse(held).frame] + rest.frames) == frames + [parse(held).frame] + rest.frames;
    }
  }

  // ---- Reading piece after piece, for loops that do it ----

  /** After `i` pieces: these frames are out, `held` waits, and nothing was refused; or a
      refusal has ended the reading with exactly these frames out. */
  ghost predicate ReadSoFar<T(!new)>(parse: seq<byte> -> Step<T>, pieces: seq<seq<byte>>, i: nat, frames: seq<T>, held: seq<byte>, refused: bool)
    requires Incremental(parse) && i <= |pieces|
  {
    var all := ParsePieces(parse, [], pieces);
    if refused then frames == all.frames && all.bad
    else
      var rest := ParsePieces(parse, held, pieces[i..]);
      all == Drained(frames + rest.frames, rest.rest, rest.bad)
  }

  lemma ReadStart<T(!new)>(parse: seq<byte> -> Step<T>, pieces: seq<seq<byte>>)
    requires Incremental(parse)
    ensures ReadSoFar(parse, pieces, 0, [], [], false)
  {
    assert pieces[0..] == pieces;
  }

  lemma ReadOn<T(!new)>(parse: seq<byte> -> Step<T>, pieces: seq<seq<byte>>, i: nat, frames: seq<T>, held: seq<byte>, first: Drained<T>)
    requires Incremental(parse) && i < |pieces|
    requires ReadSoFar(parse, pieces, i, frames, held, false)
    requires first == ParseAll(parse, held + pieces[i])
    ensures ReadSoFar(parse, pieces, i + 1, frames + first.frames, first.rest, first.bad)
  {
    assert pieces[i..][0] == pieces[i] && pieces[i..][1..] == pieces[i + 1..];
    var tail := ParsePieces(parse, first.rest, pieces[i + 1..]);
    assert frames + (first.frames + tail.frames) == frames + first.frames + tail.frames;
  }

  lemma ReadDone<T(!new)>(parse: seq<byte> -> Step<T>, pieces: seq<seq<byte>>, i: nat, frames: seq<T>, held: seq<byte>, refused: bool)
    requires Incremental(parse) && parse([]).More? && i <= |pieces|
    requires ReadSoFar(parse, pieces, i, frames, held, refused) && (refused || i == |pieces|)
    ensures var all := ParseAll(parse, Flatten(pieces));
            frames == all.frames && refused == all.bad && (!refused ==> held == all.rest)
  {
    PiecesDoNotMatter(parse, [], pieces);
    assert [] + Flatten(pieces) == Flatten(pieces);
  }

  /** A cut-off stream yields a prefix of the frames. */
  lemma PrefixOfStream<T(!new)>(parse: seq<byte> -> Step<T>, s: seq<byte>, t: seq<byte>)
    requires Incremental(parse)
    ensures ParseAll(parse, s).frames <= ParseAll(parse, s + t).frames
  {
    DrainEarly(parse, s, t);
  }

  /** A stream that is never refused is not refused when cut off, nor is what follows. */
  lemma SoundSoFar<T(!new)>(parse: seq<byte> -> Step<T>, a: seq<byte>, b: seq<byte>, c: seq<byte>)
    requires Incremental(parse) && !ParseAll(parse, a + b + c).bad
    ensures var before := ParseAll(parse, a);
            var more := ParseAll(parse, before.rest + b);
            && !before.bad && !more.bad
            && ParseAll(parse, a + b) == Drained(before.frames + more.frames, more.rest, false)
            && before.frames + more.frames <= ParseAll(parse, a + b + c).frames
  {
    DrainEarly(parse, a + b, c);
    DrainEarly(parse, a, b);
  }

  /** If the first so-many, some more, and possibly others still make up a prefix, then those
      more are the next ones. */
  lemma NextOnes<T>(ps: seq<T>, seen: nat, more: seq<T>, all: seq<T>)
    requires seen <= |ps| && ps[..seen] + more <= all <= ps
    ensures seen + |more| <= |ps|
    ensures more == ps[seen..seen + |more|] && ps[..seen] + more == ps[..seen + |more|]
  {
    var upto := seen + |more|;
    assert (ps[..seen] + more)[..upto] == all[..upto] == ps[..upto];
    assert more == (ps[..seen] + more)[seen..];
  }

  lemma Pieces(s: seq<byte>, i: nat, n: nat)
    requires i + n <= |s|
    ensures s[..i + n] == s[..i] + s[i..i + n] && s == s[..i] + s[i..i + n] + s[i + n..]
  {
  }

  /** Of a stream that reads as a prefix of these frames, the first `i` bytes gave the first
      `seen`; then the `n` bytes behind them give the next. */
  lemma NextOfStream<T(!new)>(parse: seq<byte> -> Step<T>, ps: seq<T>, s: seq<byte>, i: nat, n: nat, seen: nat)
    requires Incremental(parse) && seen <= |ps| && i + n <= |s|
    requires ParseAll(parse, s).frames <= ps && !ParseAll(parse, s).bad
    requires ParseAll(parse, s[..i]).frames == ps[..seen]
    ensures var more := ParseAll(parse, ParseAll(parse, s[..i]).rest + s[i..i + n]);
            !more.bad && seen + |more.frames| <= |ps| && more.frames == ps[seen..seen + |more.frames|]
  {
    Pieces(s, i, n);
    SoundSoFar(parse, s[..i], s[i..i + n], s[i + n..]);
    NextOnes(ps, seen, ParseAll(parse, ParseAll(parse, s[..i]).rest + s[i..i + n]).frames, ParseAll(parse, s).frames);
  }

  /** And together they give all of those, with the same bytes left over. */
  lemma RestOfStream<T(!new)>(parse: seq<byte> -> Step<T>, ps: seq<T>, s: seq<byte>, i: nat, n: nat, seen: nat)
    requires Incremental(parse) && seen <= |ps| && i + n <= |s|
    requires ParseAll(parse, s).frames <= ps && !ParseAll(parse, s).bad
    requires ParseAll(parse, s[..i]).frames == ps[..seen]
    ensures var more := ParseAll(parse, ParseAll(parse, s[..i]).rest + s[i..i + n]);
            seen + |more.frames| <= |ps| && ParseAll(parse, s[..i + n]) == Drained(ps[..seen + |more.frames|], more.rest, false)
  {
    Pieces(s, i, n);
    SoundSoFar(parse, s[..i], s[i..i + n], s[i + n..]);
    NextOnes(ps, seen, ParseAll(parse, ParseAll(parse, s[..i]).rest + s[i..i + n]).frames, ParseAll(parse, s).frames);
  }

  /** Frames laid end to end are read back in order, with nothing left over. */
  lemma {:induction false} ReadBack<T(!new)>(parse: seq<byte> -> Step<T>, frames: seq<T>, images: seq<seq<byte>>)
    requires Incremental(parse)
    requires parse([]).More?
    requires |frames| == |images|
    requires forall i :: 0 <= i < |frames| ==> parse(images[i]) == Got(frames[i], |images[i]|)
    ensures ParseAll(parse, Flatten(images)) == Drained(frames, [], false)
  {
    if frames != [] {
      ReadBack(parse, frames[1..], images[1..]);
      var s := Flatten(images);
      assert s == images[0] + Flatten(images[1..]);
      assert Settled(parse, images[0], Flatten(images[1..]));
      assert s[|images[0]|..] == Flatten(images[1..]);
    }
  }
}
