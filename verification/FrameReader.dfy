/**
 Reassembly of framed messages from a byte stream (include/frame_reader.hpp), with the header
 of include/gateway_protocol.hpp: a little-endian 16-bit body length, a type byte and a 32-bit
 sequence number. What comes out does not depend on how the stream was cut into feeds.
 */
module Frames {
  import opened Types

  type Byte = b: int | 0 <= b < 256

  const HEADER: nat := 7

  /** Header and body length of the frame at the front. */
  function FrameLength(buf: seq<Byte>): (n: nat)
    requires |buf| >= HEADER
    ensures n >= HEADER
  {
    HEADER + buf[0] as int + 256 * (buf[1] as int)
  }

  predicate HasFrame(buf: seq<Byte>) {
    |buf| >= HEADER && |buf| >= FrameLength(buf)
  }

  datatype Parsed = Parsed(frames: seq<seq<Byte>>, rest: seq<Byte>)

  /** The whole stream parsed in one go. */
  function Parse(bytes: seq<Byte>): Parsed
    decreases |bytes|
  {
    if !HasFrame(bytes) then Parsed([], bytes)
    else
      var n := FrameLength(bytes);
      var p := Parse(bytes[n..]);
      Parsed([bytes[..n]] + p.frames, p.rest)
  }

  function Flatten(frames: seq<seq<Byte>>): seq<Byte> {
    if frames == [] then [] else frames[0] + Flatten(frames[1..])
  }

  class FrameReader {
    var buffer: seq<Byte>

    constructor ()
      ensures buffer == []
    {
      buffer := [];
    }

    method Feed(data: seq<Byte>)
      modifies this
      ensures buffer == old(buffer) + data
    {
      buffer := buffer + data;
    }

    /** Cuts one complete frame off the front, if there is one. */
    method NextFrame() returns (frame: Option<seq<Byte>>)
      modifies this
      ensures frame.Some? <==> HasFrame(old(buffer))
      ensures frame.Some? <==>
                && |old(buffer)| >= 7
                && |old(buffer)| >= 7 + old(buffer)[0] as int + 256 * (old(buffer)[1] as int)
      ensures frame.Some? ==>
                && old(buffer) == frame.value + buffer
                && |frame.value| == 7 + old(buffer)[0] as int + 256 * (old(buffer)[1] as int)
      ensures frame.None? ==> buffer == old(buffer)
    {
      if |buffer| < HEADER {
        return None;
      }
      var total := FrameLength(buffer);
      if |buffer| < total {
        return None;
      }
      frame := Some(buffer[..total]);
      buffer := buffer[total..];
    }
  }

  // ---------- runs of feeds and polls ----------

  datatype Op = Feed(data: seq<Byte>) | Poll

  /** Buffer, everything emitted, and everything fed. */
  datatype Reader = Reader(buffer: seq<Byte>, emitted: seq<seq<Byte>>, fed: seq<Byte>)

  function Step(r: Reader, op: Op): Reader {
    match op
    case Feed(data) => Reader(r.buffer + data, r.emitted, r.fed + data)
    case Poll =>
      if !HasFrame(r.buffer) then r
      else
        var n := FrameLength(r.buffer);
        Reader(r.buffer[n..], r.emitted + [r.buffer[..n]], r.fed)
  }

  function Exec(ops: seq<Op>): Reader {
    if ops == [] then Reader([], [], []) else Step(Exec(ops[..|ops| - 1]), ops[|ops| - 1])
  }

  /** A running reader driven by feeds and polls: its buffer and what it hands out are those of the abstract run. */
  method Drive(ops: seq<Op>) returns (reader: FrameReader, emitted: seq<seq<Byte>>)
    ensures reader.buffer == Exec(ops).buffer && emitted == Exec(ops).emitted
    ensures Flatten(emitted) + reader.buffer == Exec(ops).fed && emitted <= Parse(Exec(ops).fed).frames
  {
    reader := new FrameReader();
    emitted := [];
    var i := 0;
    while i < |ops|
      invariant 0 <= i <= |ops| && fresh(reader)
      invariant reader.buffer == Exec(ops[..i]).buffer && emitted == Exec(ops[..i]).emitted
    {
      assert ops[..i + 1][..i] == ops[..i] && ops[..i + 1][i] == ops[i];
      if ops[i].Feed? {
        reader.Feed(ops[i].data);
      } else {
        var frame := reader.NextFrame();
        if frame.Some? {
          emitted := emitted + [frame.value];
        }
      }
      i := i + 1;
    }
    assert ops[..i] == ops;
    ChunkingIndependent(ops);
  }

  /** Cutting exactly these frames off the front of `bytes` leaves `rest`. */
  ghost predicate Peels(bytes: seq<Byte>, frames: seq<seq<Byte>>, rest: seq<Byte>) {
    if frames == [] then bytes == rest
    else
      && HasFrame(bytes)
      && bytes[..FrameLength(bytes)] == frames[0]
      && Peels(bytes[FrameLength(bytes)..], frames[1..], rest)
  }

  /** A frame at the front is there whatever arrives later. */
  lemma {:induction false} PeelsLonger(bytes: seq<Byte>, frames: seq<seq<Byte>>, rest: seq<Byte>, data: seq<Byte>)
    requires Peels(bytes, frames, rest)
    ensures Peels(bytes + data, frames, rest + data)
    decreases |frames|
  {
    if frames == [] {
    } else {
      var n := FrameLength(bytes);
      PeelsLonger(bytes[n..], frames[1..], rest, data);
      assert (bytes + data)[..n] == bytes[..n] && (bytes + data)[n..] == bytes[n..] + data;
    }
  }

  lemma {:induction false} PeelsMore(bytes: seq<Byte>, frames: seq<seq<Byte>>, rest: seq<Byte>)
    requires Peels(bytes, frames, rest) && HasFrame(rest)
    ensures Peels(bytes, frames + [rest[..FrameLength(rest)]], rest[FrameLength(rest)..])
    decreases |frames|
  {
    var more := frames + [rest[..FrameLength(rest)]];
    if frames == [] {
      assert more[1..] == [];
    } else {
      PeelsMore(bytes[FrameLength(bytes)..], frames[1..], rest);
      assert more[1..] == frames[1..] + [rest[..FrameLength(rest)]];
    }
  }

  /** What was peeled off and what is left make up the bytes. */
  lemma {:induction false} PeelsFlatten(bytes: seq<Byte>, frames: seq<seq<Byte>>, rest: seq<Byte>)
    requires Peels(bytes, frames, rest)
    ensures Flatten(frames) + rest == bytes
    decreases |frames|
  {
    if frames == [] {
    } else {
      var n := FrameLength(bytes);
      PeelsFlatten(bytes[n..], frames[1..], rest);
      Associate(frames[0], Flatten(frames[1..]), rest);
      assert bytes == bytes[..n] + bytes[n..];
    }
  }

  /** Peeling is the beginning of parsing. */
  lemma {:induction false} PeelsParse(bytes: seq<Byte>, frames: seq<seq<Byte>>, rest: seq<Byte>)
    requires Peels(bytes, frames, rest)
    ensures Parse(bytes) == Parsed(frames + Parse(rest).frames, Parse(rest).rest)
    decreases |frames|
  {
    if frames == [] {
      assert frames + Parse(rest).frames == Parse(rest).frames;
    } else {
      PeelsParse(bytes[FrameLength(bytes)..], frames[1..], rest);
      assert frames + Parse(rest).frames == [frames[0]] + (frames[1..] + Parse(rest).frames);
    }
  }

  lemma {:induction false} ExecPeels(ops: seq<Op>)
    ensures Peels(Exec(ops).fed, Exec(ops).emitted, Exec(ops).buffer)
  {
    if ops == [] {
    } else {
      var r, op := Exec(ops[..|ops| - 1]), ops[|ops| - 1];
      ExecPeels(ops[..|ops| - 1]);
      match op
      case Feed(data) => PeelsLonger(r.fed, r.emitted, r.buffer, data);
      case Poll =>
        if HasFrame(r.buffer) {
          PeelsMore(r.fed, r.emitted, r.buffer);
        }
    }
  }

  /**
   For any cutting of the stream into feeds and any interleaving of polls, no byte is lost or
   reordered and what was emitted is a prefix of the one-shot parse of everything fed.
   */
  lemma {:induction false} ChunkingIndependent(ops: seq<Op>)
    ensures var r := Exec(ops);
            && Flatten(r.emitted) + r.buffer == r.fed
            && r.emitted <= Parse(r.fed).frames
  {
    ExecPeels(ops);
    PeelsFlatten(Exec(ops).fed, Exec(ops).emitted, Exec(ops).buffer);
    PeelsParse(Exec(ops).fed, Exec(ops).emitted, Exec(ops).buffer);
  }

  /** Two readers fed the same bytes in different cuts agree once both are drained. */
  lemma {:induction false} DrainedAgree(ops: seq<Op>, ops': seq<Op>)
    requires Exec(ops).fed == Exec(ops').fed
    requires !HasFrame(Exec(ops).buffer) && !HasFrame(Exec(ops').buffer)
    ensures Exec(ops).emitted == Exec(ops').emitted && Exec(ops).buffer == Exec(ops').buffer
  {
    DrainedIsParse(ops);
    DrainedIsParse(ops');
  }

  lemma {:induction false} DrainedIsParse(ops: seq<Op>)
    requires !HasFrame(Exec(ops).buffer)
    ensures Parsed(Exec(ops).emitted, Exec(ops).buffer) == Parse(Exec(ops).fed)
  {
    ExecPeels(ops);
    PeelsParse(Exec(ops).fed, Exec(ops).emitted, Exec(ops).buffer);
  }

  // ---------- the sender's frames ----------

  datatype Message = Message(kind: Byte, seqNum: nat, body: seq<Byte>)

  predicate Sendable(m: Message) {
    m.seqNum < TWO_32 && |m.body| < 0x1_0000
  }

  /** Header and body: length, type and sequence number take bytes 0-1, 2 and 3-6, low bytes first. */
  function Encode(m: Message): (f: seq<Byte>)
    requires Sendable(m)
    ensures |f| == HEADER + |m.body| && f[0] as int + 256 * (f[1] as int) == |m.body|
    ensures f[2] == m.kind && f[HEADER..] == m.body
    ensures f[3] as int + 0x100 * (f[4] as int) + 0x1_0000 * (f[5] as int) + 0x100_0000 * (f[6] as int) == m.seqNum
  {
    var a := m.seqNum / 256;
    var b := a / 256;
    [|m.body| % 256, |m.body| / 256, m.kind, m.seqNum % 256, a % 256, b % 256, b / 256] + m.body
  }

  function EncodeAll(ms: seq<Message>): (fs: seq<seq<Byte>>)
    requires forall i :: 0 <= i < |ms| ==> Sendable(ms[i])
    ensures |fs| == |ms| && forall i :: 0 <= i < |ms| ==> fs[i] == Encode(ms[i])
  {
    seq(|ms|, i requires 0 <= i < |ms| => Encode(ms[i]))
  }

  lemma {:induction false} ParseEncoded(ms: seq<Message>)
    requires forall i :: 0 <= i < |ms| ==> Sendable(ms[i])
    ensures Parse(Flatten(EncodeAll(ms))) == Parsed(EncodeAll(ms), [])
  {
    var fs := EncodeAll(ms);
    if ms == [] {
    } else {
      ParseEncoded(ms[1..]);
      assert fs[1..] == EncodeAll(ms[1..]);
      var bytes, n := Flatten(fs), |fs[0]|;
      assert bytes == fs[0] + Flatten(fs[1..]);
      assert bytes[0] == fs[0][0] && bytes[1] == fs[0][1];
      assert FrameLength(bytes) == n;
      assert bytes[..n] == fs[0] && bytes[n..] == Flatten(fs[1..]);
      assert [fs[0]] + fs[1..] == fs;
    }
  }

  /** What the receiver reads off a frame. */
  function MessageOf(f: seq<Byte>): Message
    requires |f| >= HEADER
  {
    Message(f[2], f[3] as int + 256 * (f[4] as int + 256 * (f[5] as int + 256 * (f[6] as int))), f[HEADER..])
  }

  /** A stream of encoded messages, however cut, comes out as exactly those messages with nothing left over. */
  lemma {:induction false} RoundTrip(ms: seq<Message>, ops: seq<Op>)
    requires forall i :: 0 <= i < |ms| ==> Sendable(ms[i])
    requires Exec(ops).fed == Flatten(EncodeAll(ms)) && !HasFrame(Exec(ops).buffer)
    ensures Exec(ops).emitted == EncodeAll(ms) && Exec(ops).buffer == []
    ensures forall i :: 0 <= i < |ms| ==> |Exec(ops).emitted[i]| >= HEADER && MessageOf(Exec(ops).emitted[i]) == ms[i]
  {
    DrainedIsParse(ops);
    ParseEncoded(ms);
  }

  /** Distinct messages have distinct frames, so the receiver can tell them apart. */
  lemma {:induction false} EncodeInjective(m: Message, m': Message)
    requires Sendable(m) && Sendable(m') && Encode(m) == Encode(m')
    ensures m == m'
  {
    assert MessageOf(Encode(m)) == m && MessageOf(Encode(m')) == m';
  }
}
