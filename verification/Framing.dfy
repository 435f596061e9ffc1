/**
 Frames on a byte stream: the payload's length in four bytes, low byte first, and
 the payload.
 Whole streams read back as the frames written, and a stream cut short anywhere
 yields exactly the frames that arrived whole.
 */
module Framing {
  import opened Bytes
  import opened Wrappers
  import opened Postcard
  import opened Wire

  const MAX_FRAME: nat := 0x10_0000

  datatype FrameError = OverCap(length: nat) | CutShort | BadPayload

  // ----- one frame -----

  function Encode(f: Frame): Result<seq<byte>, FrameError> {
    var payload := PutFrame(f);
    if |payload| > MAX_FRAME then Err(OverCap(|payload|)) else Ok(Packet(f))
  }

  function Packet(f: Frame): seq<byte> {
    LittleEndian(|PutFrame(f)|, 4) + PutFrame(f)
  }

  /** Bytes after the frame, if there are any, are ignored. */
  function Decode(payload: seq<byte>): Result<Frame, FrameError> {
    match ReadFrameBytes(payload)
    case Got(f, _) => Ok(f)
    case Malformed => Err(BadPayload)
  }

  /** What was written for `f` reads back as `f`, leaving what follows it. */
  ghost predicate ReadsBack(f: Frame, rest: seq<byte>) {
    ReadFields(Tag(f), PutFields(f) + rest) == Got(f, rest)
  }

  lemma ReadsHello(f: Frame, rest: seq<byte>)
    requires f.Hello? && |PutFields(f)| < TWO_64
    ensures ReadsBack(f, rest)
  {
    var Hello(nickname) := f;
    ReadsText(nickname, rest);
  }

  lemma ReadsChat(f: Frame, rest: seq<byte>)
    requires f.Chat? && |PutFields(f)| < TWO_64
    ensures ReadsBack(f, rest)
  {
    var Chat(id, body, replyTo) := f;
    var a, b, c := PutId(id), PutText(body), PutReplyTo(replyTo);
    Associate(a, b + c, rest);
    Associate(b, c, rest);
    ReadsId(id, b + (c + rest));
    ReadsText(body, c + rest);
    ReadsReplyTo(replyTo, rest);
  }

  lemma ReadsEdit(f: Frame, rest: seq<byte>)
    requires f.Edit? && |PutFields(f)| < TWO_64
    ensures ReadsBack(f, rest)
  {
    var Edit(id, target, body) := f;
    var a, b, c := PutId(id), PutId(target), PutText(body);
    Associate(a, b + c, rest);
    Associate(b, c, rest);
    ReadsId(id, b + (c + rest));
    ReadsId(target, c + rest);
    ReadsText(body, rest);
  }

  lemma ReadsDelete(f: Frame, rest: seq<byte>)
    requires f.Delete? && |PutFields(f)| < TWO_64
    ensures ReadsBack(f, rest)
  {
    var Delete(id, target) := f;
    var a, b := PutId(id), PutId(target);
    Associate(a, b, rest);
    ReadsId(id, b + rest);
    ReadsId(target, rest);
  }

  lemma ReadsReact(f: Frame, rest: seq<byte>)
    requires f.React? && |PutFields(f)| < TWO_64
    ensures ReadsBack(f, rest)
  {
    var React(id, target, emoji, on) := f;
    var a, b, c, d := PutId(id), PutId(target), PutText(emoji), PutFlag(on);
    assert PutFields(f) + rest == a + (b + (c + (d + rest))) by {
      Associate(a, b + (c + d), rest);
      Associate(b, c + d, rest);
      Associate(c, d, rest);
    }
    ReadsId(id, b + (c + (d + rest)));
    ReadsId(target, c + (d + rest));
    ReadsText(emoji, d + rest);
    ReadsFlag(on, rest);
  }

  lemma ReadsFile(f: Frame, rest: seq<byte>)
    requires f.File? && |PutFields(f)| < TWO_64
    ensures ReadsBack(f, rest)
  {
    var File(id, name, size, hash) := f;
    var a, b, c := PutId(id), PutText(name), Varint(size);
    Associate(a, b + (c + hash), rest);
    Associate(b, c + hash, rest);
    Associate(c, hash, rest);
    ReadsId(id, b + (c + (hash + rest)));
    ReadsText(name, c + (hash + rest));
    ReadsU64(size, hash + rest);
    ReadsBytes(hash, rest);
  }

  lemma ReadsRoomUpdated(f: Frame, rest: seq<byte>)
    requires f.RoomUpdated? && |PutFields(f)| < TWO_64
    ensures ReadsBack(f, rest)
  {
    var RoomUpdated(room, log) := f;
    Associate(room, PutLog(log), rest);
    ReadsBytes(room, PutLog(log) + rest);
    ReadsLog(log, rest);
  }

  lemma {:induction false} ReadsFrame(f: Frame, rest: seq<byte>)
    requires |PutFrame(f)| < TWO_64
    ensures ReadFrameBytes(PutFrame(f) + rest) == Got(f, rest)
  {
    Associate([Tag(f)], PutFields(f), rest);
    ReadsTag(Tag(f), PutFields(f) + rest);
    match f
    case Hello(_) => ReadsHello(f, rest);
    case Chat(_, _, _) => ReadsChat(f, rest);
    case Edit(_, _, _) => ReadsEdit(f, rest);
    case Delete(_, _) => ReadsDelete(f, rest);
    case React(_, _, _, _) => ReadsReact(f, rest);
    case InRoom(room, op) =>
      var a := PutFrame(op);
      Associate(room, a, rest);
      ReadsBytes(room, a + rest);
      ReadsFrame(op, rest);
    case File(_, _, _, _) => ReadsFile(f, rest);
    case RoomUpdated(_, _) => ReadsRoomUpdated(f, rest);
  }

  /** Every frame small enough to send decodes to itself, however deeply it is wrapped. */
  lemma FrameRoundTrip(f: Frame)
    requires |PutFrame(f)| <= MAX_FRAME
    ensures Decode(PutFrame(f)) == Ok(f)
  {
    ReadsFrame(f, []);
    assert PutFrame(f) + [] == PutFrame(f);
  }

  // ----- streams -----

  /** `read_frame` on what is left of a stream: its answer, and what is left after it. */
  function NextFrame(stream: seq<byte>): (Result<Option<Frame>, FrameError>, seq<byte>) {
    if |stream| < 4 then (Ok(None), []) else
    var length := FromLittleEndian(stream[..4]);
    var rest := stream[4..];
    if length > MAX_FRAME then (Err(OverCap(length)), rest)
    else if |rest| < length then (Err(CutShort), [])
    else
      match Decode(rest[..length])
      case Ok(f) => (Ok(Some(f)), rest[length..])
      case Err(e) => (Err(e), rest[length..])
  }

  /** A length over a mebibyte is an error as soon as it is read, however much follows; so is sending one. */
  lemma OverCapIsRefused(length: nat, rest: seq<byte>, f: Frame)
    requires 0x10_0000 < length < 0x1_0000_0000
    ensures NextFrame(LittleEndian(length, 4) + rest) == (Err(OverCap(length)), rest)
    ensures |PutFrame(f)| > 0x10_0000 ==> Encode(f) == Err(OverCap(|PutFrame(f)|))
  {
    var stream := LittleEndian(length, 4) + rest;
    assert stream[..4] == LittleEndian(length, 4) && stream[4..] == rest;
    assert Pow256(4) == 0x1_0000_0000;
    LittleEndianRoundTrip(length, 4);
  }

  /** A whole payload that is no frame is an error, and the stream goes on after it. */
  lemma BadPayloadIsSkipped(payload: seq<byte>, rest: seq<byte>)
    requires |payload| <= 0x10_0000 && ReadFrameBytes(payload).Malformed?
    ensures NextFrame(LittleEndian(|payload|, 4) + (payload + rest)) == (Err(BadPayload), rest)
  {
    var stream := LittleEndian(|payload|, 4) + (payload + rest);
    assert stream[..4] == LittleEndian(|payload|, 4) && stream[4..] == payload + rest;
    assert Pow256(4) == 0x1_0000_0000;
    LittleEndianRoundTrip(|payload|, 4);
    assert (payload + rest)[..|payload|] == payload && (payload + rest)[|payload|..] == rest;
  }

  class Stream {
    var left: seq<byte>

    constructor (bytes: seq<byte>)
      ensures left == bytes
    {
      left := bytes;
    }

    /** `read_exact`: all of the bytes asked for, or none and the stream is at its end. */
    method ReadExact(n: nat) returns (r: Option<seq<byte>>)
      modifies this
      ensures if |old(left)| < n then r == None && left == []
              else r == Some(old(left)[..n]) && left == old(left)[n..]
    {
      if |left| < n {
        left := [];
        return None;
      }
      r := Some(left[..n]);
      left := left[n..];
    }

    method ReadFrame() returns (r: Result<Option<Frame>, FrameError>)
      modifies this
      ensures (r, left) == NextFrame(old(left))
    {
      var prefix := ReadExact(4);
      if prefix.None? {
        return Ok(None);
      }
      var length := FromLittleEndian(prefix.value);
      if length > MAX_FRAME {
        return Err(OverCap(length));
      }
      var payload := ReadExact(length);
      if payload.None? {
        return Err(CutShort);
      }
      match Decode(payload.value) {
        case Ok(f) => return Ok(Some(f));
        case Err(e) => return Err(e);
      }
    }
  }

  datatype Ending = EndOfStream | Failed(error: FrameError)

  /** Reading until the stream ends or fails. */
  function ReadAll(stream: seq<byte>): (seq<Frame>, Ending)
    decreases |stream|
  {
    match NextFrame(stream)
    case (Ok(None), _) => ([], EndOfStream)
    case (Err(e), _) => ([], Failed(e))
    case (Ok(Some(f)), rest) =>
      var (frames, ending) := ReadAll(rest);
      ([f] + frames, ending)
  }

  predicate Sendable(f: Frame) {
    |PutFrame(f)| <= MAX_FRAME
  }

  function Written(frames: seq<Frame>): seq<byte> {
    if frames == [] then [] else Packet(frames[0]) + Written(frames[1..])
  }

  lemma ReadsOneFrame(f: Frame, rest: seq<byte>)
    requires Encode(f) == Ok(Packet(f))
    ensures NextFrame(Packet(f) + rest) == (Ok(Some(f)), rest)
  {
    var payload := PutFrame(f);
    var prefix := LittleEndian(|payload|, 4);
    var stream := Packet(f) + rest;
    Associate(prefix, payload, rest);
    assert stream[..4] == prefix && stream[4..] == payload + rest;
    assert Pow256(4) == 0x1_0000_0000;
    LittleEndianRoundTrip(|payload|, 4);
    assert (payload + rest)[..|payload|] == payload && (payload + rest)[|payload|..] == rest;
    FrameRoundTrip(f);
  }

  lemma ReadAllStep(f: Frame, rest: seq<byte>)
    requires Sendable(f)
    ensures ReadAll(Packet(f) + rest) == ([f] + ReadAll(rest).0, ReadAll(rest).1)
  {
    ReadsOneFrame(f, rest);
  }

  /** Whole frames read as themselves, whatever reading the rest of the stream comes to. */
  lemma {:induction false} ReadAllThen(frames: seq<Frame>, tail: seq<byte>, ending: Ending)
    requires forall i :: 0 <= i < |frames| ==> Sendable(frames[i])
    requires ReadAll(tail) == ([], ending)
    ensures ReadAll(Written(frames) + tail) == (frames, ending)
    decreases |frames|
  {
    if frames == [] {
      assert Written(frames) + tail == tail;
    } else {
      var first, others := Packet(frames[0]), Written(frames[1..]);
      ReadAllThen(frames[1..], tail, ending);
      ReadAllStep(frames[0], others + tail);
      Associate(first, others, tail);
      assert frames == [frames[0]] + frames[1..];
    }
  }

  /** Any list of frames within the cap reads back as that list, then a clean end. */
  lemma {:induction false} StreamRoundTrip(frames: seq<Frame>)
    requires forall i :: 0 <= i < |frames| ==> Sendable(frames[i])
    ensures ReadAll(Written(frames)) == (frames, EndOfStream)
  {
    ReadAllThen(frames, [], EndOfStream);
    assert Written(frames) + [] == Written(frames);
  }

  /** How many of the frames arrive whole in the first `k` bytes. */
  function WholeFrames(frames: seq<Frame>, k: nat): (n: nat)
    ensures n <= |frames|
  {
    if frames == [] then 0 else
    var size := |Packet(frames[0])|;
    if k < size then 0 else 1 + WholeFrames(frames[1..], k - size)
  }

  /** A cut stream is its whole frames and then part of the next one. */
  lemma {:induction false} CutShape(frames: seq<Frame>, k: nat) returns (tail: seq<byte>)
    requires k <= |Written(frames)|
    ensures var n := WholeFrames(frames, k);
            Written(frames)[..k] == Written(frames[..n]) + tail
            && (if n == |frames| then tail == [] else tail < Packet(frames[n]))
    decreases |frames|
  {
    var n := WholeFrames(frames, k);
    if frames == [] {
      tail := [];
    } else if n == 0 {
      tail := Packet(frames[0])[..k];
      assert Written(frames[..0]) == [];
      assert Written(frames)[..k] == tail;
    } else {
      var first, others := Packet(frames[0]), Written(frames[1..]);
      tail := CutShape(frames[1..], k - |first|);
      assert (first + others)[..k] == first + others[..k - |first|];
      assert frames[..n][1..] == frames[1..][..n - 1];
      Associate(first, Written(frames[1..][..n - 1]), tail);
    }
  }

  lemma CutFrame(f: Frame, stream: seq<byte>)
    requires Sendable(f) && stream < Packet(f)
    ensures ReadAll(stream) == ([], if |stream| < 4 then EndOfStream else Failed(CutShort))
  {
    var payload := PutFrame(f);
    if |stream| >= 4 {
      assert stream[..4] == LittleEndian(|payload|, 4);
      assert Pow256(4) == 0x1_0000_0000;
      LittleEndianRoundTrip(|payload|, 4);
    }
  }

  /**
   A stream cut after `k` bytes yields exactly the frames that arrived whole.
   It ends cleanly if the cut fell inside a length prefix or between frames,
   and as cut short if it fell inside a payload.
   */
  lemma TruncatedStream(frames: seq<Frame>, k: nat)
    requires forall i :: 0 <= i < |frames| ==> Sendable(frames[i])
    requires k <= |Written(frames)|
    ensures var n := WholeFrames(frames, k);
            var arrived := |Written(frames[..n])|;
            arrived <= k
            && ReadAll(Written(frames)[..k]) ==
               (frames[..n], if k - arrived < 4 then EndOfStream else Failed(CutShort))
  {
    var n := WholeFrames(frames, k);
    var tail := CutShape(frames, k);
    if n < |frames| {
      CutFrame(frames[n], tail);
    }
    ReadAllThen(frames[..n], tail, if |tail| < 4 then EndOfStream else Failed(CutShort));
  }
}
