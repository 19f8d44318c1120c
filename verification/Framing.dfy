/**
 * The incremental frame decoder of the MessagePack transport: bytes arrive in
 * arbitrary pieces, and after every read all complete frames are taken off
 * the front of the buffer.
 */
module Framing {
  import opened Common

  /** What a parser says about the front of a buffer. */
  datatype Parsed<+T> = Frame(value: T, len: nat) | Incomplete | Invalid

  /** A verdict other than Incomplete is not changed by more input, and a frame is not empty. */
  ghost predicate StableAt<T>(p: Bytes -> Parsed<T>, b: Bytes, more: Bytes) {
    && (p(b).Frame? ==> 0 < p(b).len <= |b|)
    && (!p(b).Incomplete? ==> p(b + more) == p(b))
  }

  ghost predicate Stable<T>(p: Bytes -> Parsed<T>) {
    p([]).Incomplete? && forall b, more :: StableAt(p, b, more)
  }

  /** A frame's value and the bytes it was read from. */
  datatype Decoded<+T> = Decoded(value: T, bytes: Bytes)

  /** The result of draining a buffer: the frames, what is left, and whether the next frame is malformed. */
  datatype Drained<+T> = Drained(frames: seq<Decoded<T>>, rest: Bytes, bad: bool)

  function Prepend<T>(f: Decoded<T>, d: Drained<T>): Drained<T> {
    d.(frames := [f] + d.frames)
  }

  /** First `d`, then `e` on what `d` left. */
  function Then<T>(d: Drained<T>, e: Drained<T>): Drained<T> {
    e.(frames := d.frames + e.frames)
  }

  function Drain<T>(p: Bytes -> Parsed<T>, b: Bytes): Drained<T>
    requires Stable(p)
    decreases |b|
  {
    match p(b)
    case Incomplete => Drained([], b, false)
    case Invalid => Drained([], b, true)
    case Frame(v, len) =>
      assert StableAt(p, b, []);
      Prepend(Decoded(v, b[..len]), Drain(p, b[len..]))
  }

  /** Reading `chunks` one after the other; a malformed frame ends the connection. */
  function Feed<T>(p: Bytes -> Parsed<T>, buf: Bytes, chunks: seq<Bytes>): Drained<T>
    requires Stable(p)
    decreases |chunks|
  {
    if chunks == [] then Drained([], buf, false)
    else
      var d := Drain(p, buf + chunks[0]);
      if d.bad then d else Then(d, Feed(p, d.rest, chunks[1..]))
  }

  function FrameBytes<T>(frames: seq<Decoded<T>>): Bytes {
    if frames == [] then [] else frames[0].bytes + FrameBytes(frames[1..])
  }

  lemma DrainFrame<T>(p: Bytes -> Parsed<T>, b: Bytes)
    requires Stable(p) && p(b).Frame?
    ensures 0 < p(b).len <= |b|
    ensures Drain(p, b) == Prepend(Decoded(p(b).value, b[..p(b).len]), Drain(p, b[p(b).len..]))
  {
    assert StableAt(p, b, []);
  }

  /** No byte is lost, duplicated or reordered. */
  lemma {:induction false} DrainConserves<T>(p: Bytes -> Parsed<T>, b: Bytes)
    requires Stable(p)
    ensures FrameBytes(Drain(p, b).frames) + Drain(p, b).rest == b
    decreases |b|
  {
    match p(b)
    case Frame(v, len) =>
      hide Drain;
      DrainFrame(p, b);
      DrainConserves(p, b[len..]);
      var d := Drain(p, b[len..]);
      FrameBytesPrepend(Decoded(v, b[..len]), d.frames);
      assert b == b[..len] + (FrameBytes(d.frames) + d.rest);
    case _ =>
  }

  /** Draining goes on until the next frame is incomplete or malformed. */
  lemma {:induction false} DrainStops<T>(p: Bytes -> Parsed<T>, b: Bytes)
    requires Stable(p)
    ensures if Drain(p, b).bad then p(Drain(p, b).rest).Invalid? else p(Drain(p, b).rest).Incomplete?
    decreases |b|
  {
    match p(b)
    case Frame(v, len) =>
      hide Drain;
      DrainFrame(p, b);
      DrainStops(p, b[len..]);
    case _ =>
  }

  lemma FrameBytesPrepend<T>(f: Decoded<T>, fs: seq<Decoded<T>>)
    ensures FrameBytes([f] + fs) == f.bytes + FrameBytes(fs)
  {
    assert ([f] + fs)[1..] == fs;
  }

  lemma PrependThen<T>(f: Decoded<T>, d: Drained<T>, e: Drained<T>)
    ensures Then(Prepend(f, d), e) == Prepend(f, Then(d, e))
  {
    assert [f] + (d.frames + e.frames) == ([f] + d.frames) + e.frames;
  }

  /** Draining, then draining what was left together with later input, is draining everything at once. */
  lemma {:induction false} DrainAppend<T>(p: Bytes -> Parsed<T>, b: Bytes, c: Bytes)
    requires Stable(p)
    ensures var d := Drain(p, b);
            Drain(p, b + c) ==
              if d.bad then Drained(d.frames, d.rest + c, true) else Then(d, Drain(p, d.rest + c))
    decreases |b|
  {
    assert StableAt(p, b, c);
    match p(b)
    case Frame(v, len) =>
      CutInside(b, c, len);
      DrainAppend(p, b[len..], c);
      var d := Drain(p, b[len..]);
      PrependThen(Decoded(v, b[..len]), d, Drain(p, d.rest + c));
    case Incomplete =>
      assert [] + Drain(p, b + c).frames == Drain(p, b + c).frames;
    case Invalid =>
  }

  /**
   * Fragmentation independence: however the input is split into reads, the
   * same frames come out, and the connection fails in the one case if and
   * only if it fails in the other.
   */
  lemma {:induction false} FragmentationIndependence<T>(p: Bytes -> Parsed<T>, chunks: seq<Bytes>)
    requires Stable(p)
    ensures var fed := Feed(p, [], chunks); var whole := Drain(p, Flatten(chunks));
            && fed.frames == whole.frames
            && fed.bad == whole.bad
            && (!whole.bad ==> fed.rest == whole.rest)
  {
    FeedIsDrain(p, [], chunks);
    assert [] + Flatten(chunks) == Flatten(chunks);
  }

  lemma {:induction false} FeedIsDrain<T>(p: Bytes -> Parsed<T>, buf: Bytes, chunks: seq<Bytes>)
    requires Stable(p) && p(buf).Incomplete?
    ensures var fed := Feed(p, buf, chunks); var whole := Drain(p, buf + Flatten(chunks));
            && fed.frames == whole.frames
            && fed.bad == whole.bad
            && (!whole.bad ==> fed.rest == whole.rest)
    decreases |chunks|
  {
    if chunks == [] {
      assert buf + Flatten(chunks) == buf;
    } else {
      var d := Drain(p, buf + chunks[0]);
      assert buf + Flatten(chunks) == (buf + chunks[0]) + Flatten(chunks[1..]);
      DrainAppend(p, buf + chunks[0], Flatten(chunks[1..]));
      if !d.bad {
        DrainStops(p, buf + chunks[0]);
        FeedIsDrain(p, d.rest, chunks[1..]);
      }
    }
  }

  datatype Outcome<+T> = Got(frame: Decoded<T>) | NeedMore | Failed

  /** The codec together with the buffer it advances. */
  class Decoder {
    var buf: Bytes

    constructor ()
      ensures buf == []
    {
      buf := [];
    }

    /** Takes one frame off the front of the buffer, if there is one. */
    method Decode<T>(p: Bytes -> Parsed<T>) returns (r: Outcome<T>)
      requires Stable(p)
      modifies this
      ensures match r
              case Got(frame) =>
                && old(buf) == frame.bytes + buf && |frame.bytes| > 0
                && Drain(p, old(buf)) == Prepend(frame, Drain(p, buf))
              case NeedMore => Drain(p, old(buf)) == Drained([], old(buf), false) && buf == old(buf)
              case Failed => Drain(p, old(buf)) == Drained([], old(buf), true) && buf == old(buf)
    {
      match p(buf)
      case Incomplete => r := NeedMore;
      case Invalid => r := Failed;
      case Frame(v, len) =>
        DrainFrame(p, buf);
        hide Drain;
        r := Got(Decoded(v, buf[..len]));
        buf := buf[len..];
    }

    /** One read: the new bytes are appended, then frames are taken until none is complete. */
    method ReadBurst<T>(p: Bytes -> Parsed<T>, chunk: Bytes) returns (frames: seq<Decoded<T>>, failed: bool)
      requires Stable(p)
      modifies this
      ensures Drain(p, old(buf) + chunk) == Drained(frames, buf, failed)
    {
      hide Drain;
      buf := buf + chunk;
      ghost var whole := Drain(p, buf);
      frames, failed := [], false;
      ghost var rest := whole;
      var more := true;
      while more
        invariant rest == Drain(p, buf) && whole == Drained(frames + rest.frames, rest.rest, rest.bad)
        invariant more ==> !failed
        invariant !more ==> rest == Drained([], buf, failed)
        decreases more, |buf|
      {
        ghost var before := rest;
        var r := Decode(p);
        rest := Drain(p, buf);
        match r
        case Got(frame) =>
          assert frames + before.frames == (frames + [frame]) + rest.frames;
          frames := frames + [frame];
        case NeedMore => more := false;
        case Failed => more, failed := false, true;
      }
    }
  }
}
