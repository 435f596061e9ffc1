/**
 Message identity, the frames that carry it, and their byte encoding. Frames are
 Postcard: a varint tag for the variant, then its fields in order.
 */
module Wire {
  import opened Bytes
  import opened Wrappers
  import opened Postcard
  import opened RoomLog

  datatype MessageId = MessageId(sender: Key, seqNo: u64, tsMs: u64)

  datatype Frame =
    | Hello(nickname: Text)
    | Chat(id: MessageId, body: Text, replyTo: Option<MessageId>)
    | Edit(id: MessageId, target: MessageId, newBody: Text)
    | Delete(id: MessageId, target: MessageId)
    | React(id: MessageId, target: MessageId, emoji: Text, on: bool)
    | InRoom(room: RoomId, op: Frame)
    | File(id: MessageId, name: Text, size: u64, hash: Key)
    | RoomUpdated(room: RoomId, log: seq<RoomEntry>)
  {
    /** What a frame is filed under; a greeting or a log is not filed at all. */
    function Id(): Option<MessageId> {
      match this
      case Hello(_) => None
      case RoomUpdated(_, _) => None
      case InRoom(_, op) => op.Id()
      case _ => Some(id)
    }

    /** Where a frame from `peer` is filed: with its room if it names one. */
    function Conversation(peer: Key): Key {
      if InRoom? then room else peer
    }

    /** Strips one room wrapper. */
    function UnwrapRoom(): Frame {
      if InRoom? then op else this
    }
  }

  /** Stripping the wrapper the store does not want leaves the id it is keyed by. */
  lemma UnwrapKeepsId(f: Frame)
    ensures f.UnwrapRoom().Id() == f.Id()
  {
  }

  // ----- writing -----

  function PutText(t: Text): (r: seq<byte>)
    ensures |r| > |t|
  {
    Varint(|t|) + t
  }

  function PutId(id: MessageId): (r: seq<byte>)
    ensures |r| > 0
  {
    id.sender + (Varint(id.seqNo) + Varint(id.tsMs))
  }

  function PutFlag(on: bool): seq<byte> {
    [if on then 1 else 0]
  }

  function PutReplyTo(r: Option<MessageId>): seq<byte> {
    match r
    case None => [0]
    case Some(id) => [1] + PutId(id)
  }

  function PutEntry(e: RoomEntry): (r: seq<byte>)
    ensures |r| > 0
  {
    e.prev + (e.author + (Varint(e.tsMs) + (PutOp(e.op) + PutText(e.signature))))
  }

  function PutEntries(log: seq<RoomEntry>): (r: seq<byte>)
    ensures |r| >= |log|
  {
    if log == [] then [] else PutEntry(log[0]) + PutEntries(log[1..])
  }

  function PutLog(log: seq<RoomEntry>): (r: seq<byte>)
    ensures |r| > |log|
  {
    Varint(|log|) + PutEntries(log)
  }

  function Tag(f: Frame): byte {
    match f
    case Hello(_) => 0
    case Chat(_, _, _) => 1
    case Edit(_, _, _) => 2
    case Delete(_, _) => 3
    case React(_, _, _, _) => 4
    case InRoom(_, _) => 5
    case File(_, _, _, _) => 6
    case RoomUpdated(_, _) => 7
  }

  function PutFields(f: Frame): seq<byte>
    decreases f, 0
  {
    match f
    case Hello(nickname) => PutText(nickname)
    case Chat(id, body, replyTo) => PutId(id) + (PutText(body) + PutReplyTo(replyTo))
    case Edit(id, target, body) => PutId(id) + (PutId(target) + PutText(body))
    case Delete(id, target) => PutId(id) + PutId(target)
    case React(id, target, emoji, on) => PutId(id) + (PutId(target) + (PutText(emoji) + PutFlag(on)))
    case InRoom(room, op) => room + PutFrame(op)
    case File(id, name, size, hash) => PutId(id) + (PutText(name) + (Varint(size) + hash))
    case RoomUpdated(room, log) => room + PutLog(log)
  }

  /** `postcard::to_stdvec`. */
  function PutFrame(f: Frame): (r: seq<byte>)
    ensures |r| > 0
    decreases f, 1
  {
    [Tag(f)] + PutFields(f)
  }

  /** What one frame of each kind comes to, byte for byte. */
  lemma FrameBytes(k: Key, r: Key)
    ensures var id := MessageId(k, 7, 300);
            var putId := k + ([7] + [172, 2]);
            PutFrame(Hello([104, 105])) == [0, 2, 104, 105]
            && PutFrame(Chat(id, [104, 105], None)) == [1] + (putId + ([2, 104, 105] + [0]))
            && PutFrame(Chat(id, [], Some(id))) == [1] + (putId + ([0] + ([1] + putId)))
            && PutFrame(Edit(id, id, [33])) == [2] + (putId + (putId + [1, 33]))
            && PutFrame(Delete(id, id)) == [3] + (putId + putId)
            && PutFrame(React(id, id, [33], true)) == [4] + (putId + (putId + ([1, 33] + [1])))
            && PutFrame(InRoom(r, Hello([]))) == [5] + (r + [0, 0])
            && PutFrame(File(id, [97], 300, r)) == [6] + (putId + ([1, 97] + ([172, 2] + r)))
  {
    BytesOf300();
    var id := MessageId(k, 7, 300);
    assert PutId(id) == k + ([7] + [172, 2]);
    assert PutText([104, 105]) == [2, 104, 105] && PutText([33]) == [1, 33] && PutText([97]) == [1, 97];
    assert PutFrame(Hello([])) == [0, 0];
  }

  lemma BytesOf300()
    ensures Varint(300) == [172, 2] && Varint(7) == [7]
  {
    assert Varint(2) == [2];
  }

  /** And a log of one entry. */
  lemma LogBytes(k: Key, author: Key, r: Key)
    ensures PutFrame(RoomUpdated(r, [RoomEntry(k, author, 300, Leave, [9, 9])]))
         == [7] + (r + ([1] + (k + (author + ([172, 2] + ([3] + [2, 9, 9]))))))
  {
    BytesOf300();
    var e := RoomEntry(k, author, 300, Leave, [9, 9]);
    assert PutText([9, 9]) == [2, 9, 9];
    assert [e][1..] == [] && PutEntries([e]) == PutEntry(e) + [];
    assert PutEntry(e) + [] == PutEntry(e);
  }

  // ----- reading -----

  function ReadU32(b: seq<byte>): (r: Parsed<nat>)
    ensures r.Got? ==> |r.rest| < |b|
  {
    ReadVarint(b, 5, 15)
  }

  function ReadU64(b: seq<byte>): (r: Parsed<u64>)
    ensures r.Got? ==> |r.rest| < |b|
  {
    var r := ReadVarint(b, 10, 1);
    if r.Malformed? then Malformed else
    assert r.value < TWO_64 by {
      assert VarintBound(10, 1) == TWO_64;
      ReadVarintBounded(b, 10, 1);
    }
    Got(r.value, r.rest)
  }

  function ReadBytes(b: seq<byte>, n: nat): (r: Parsed<seq<byte>>)
    ensures r.Got? ==> |r.value| == n && |r.rest| <= |b|
  {
    if |b| < n then Malformed else Got(b[..n], b[n..])
  }

  function ReadKey(b: seq<byte>): (r: Parsed<Key>)
    ensures r.Got? ==> |r.rest| <= |b|
  {
    ReadBytes(b, 32)
  }

  function ReadText(b: seq<byte>): (r: Parsed<Text>)
    ensures r.Got? ==> |r.rest| <= |b|
  {
    var (n, rest) :- ReadU64(b);
    ReadBytes(rest, n)
  }

  function ReadId(b: seq<byte>): (r: Parsed<MessageId>)
    ensures r.Got? ==> |r.rest| <= |b|
  {
    var (sender, b1) :- ReadKey(b);
    var (seqNo, b2) :- ReadU64(b1);
    var (tsMs, b3) :- ReadU64(b2);
    Got(MessageId(sender, seqNo, tsMs), b3)
  }

  /** A `bool`, or the tag of an `Option`. */
  function ReadFlag(b: seq<byte>): (r: Parsed<bool>)
    ensures r.Got? ==> |r.rest| <= |b|
  {
    if b == [] || b[0] > 1 then Malformed else Got(b[0] == 1, b[1..])
  }

  function ReadReplyTo(b: seq<byte>): (r: Parsed<Option<MessageId>>)
    ensures r.Got? ==> |r.rest| <= |b|
  {
    var (some, b1) :- ReadFlag(b);
    if !some then Got(None, b1) else
    var (id, b2) :- ReadId(b1);
    Got(Some(id), b2)
  }

  function ReadOp(b: seq<byte>): (r: Parsed<RoomOp>)
    ensures r.Got? ==> |r.rest| <= |b|
  {
    var (tag, b1) :- ReadU32(b);
    if tag == 0 then
      var (name, b2) :- ReadText(b1);
      Got(Create(name), b2)
    else if tag == 1 then
      var (member, b2) :- ReadKey(b1);
      Got(Invite(member), b2)
    else if tag == 2 then
      var (member, b2) :- ReadKey(b1);
      Got(Kick(member), b2)
    else if tag == 3 then Got(Leave, b1)
    else Malformed
  }

  function ReadEntry(b: seq<byte>): Parsed<RoomEntry> {
    var (prev, b1) :- ReadKey(b);
    var (author, b2) :- ReadKey(b1);
    var (tsMs, b3) :- ReadU64(b2);
    var (op, b4) :- ReadOp(b3);
    var (signature, b5) :- ReadText(b4);
    Got(RoomEntry(prev, author, tsMs, op, signature), b5)
  }

  function ReadEntries(b: seq<byte>, n: nat): Parsed<seq<RoomEntry>>
    decreases n
  {
    if n == 0 then Got([], b) else
    var (first, b1) :- ReadEntry(b);
    var (others, b2) :- ReadEntries(b1, n - 1);
    Got([first] + others, b2)
  }

  function ReadLog(b: seq<byte>): Parsed<seq<RoomEntry>> {
    var (n, rest) :- ReadU64(b);
    ReadEntries(rest, n)
  }

  function ReadFrameBytes(b: seq<byte>): Parsed<Frame>
    decreases |b|, 0
  {
    var (tag, b1) :- ReadU32(b);
    ReadFields(tag, b1)
  }

  function ReadFields(tag: nat, b1: seq<byte>): Parsed<Frame>
    decreases |b1|, 1
  {
    match tag
    case 0 =>
      var (nickname, b2) :- ReadText(b1);
      Got(Hello(nickname), b2)
    case 1 =>
      var (id, b2) :- ReadId(b1);
      var (body, b3) :- ReadText(b2);
      var (replyTo, b4) :- ReadReplyTo(b3);
      Got(Chat(id, body, replyTo), b4)
    case 2 =>
      var (id, b2) :- ReadId(b1);
      var (target, b3) :- ReadId(b2);
      var (body, b4) :- ReadText(b3);
      Got(Edit(id, target, body), b4)
    case 3 =>
      var (id, b2) :- ReadId(b1);
      var (target, b3) :- ReadId(b2);
      Got(Delete(id, target), b3)
    case 4 =>
      var (id, b2) :- ReadId(b1);
      var (target, b3) :- ReadId(b2);
      var (emoji, b4) :- ReadText(b3);
      var (on, b5) :- ReadFlag(b4);
      Got(React(id, target, emoji, on), b5)
    case 5 =>
      var (room, b2) :- ReadKey(b1);
      var (op, b3) :- ReadFrameBytes(b2);
      Got(InRoom(room, op), b3)
    case 6 =>
      var (id, b2) :- ReadId(b1);
      var (name, b3) :- ReadText(b2);
      var (size, b4) :- ReadU64(b3);
      var (hash, b5) :- ReadKey(b4);
      Got(File(id, name, size, hash), b5)
    case 7 =>
      var (room, b2) :- ReadKey(b1);
      var (log, b3) :- ReadLog(b2);
      Got(RoomUpdated(room, log), b3)
    case _ => Malformed
  }

  // ----- what was written reads back -----

  lemma ReadsU64(n: u64, rest: seq<byte>)
    ensures ReadU64(Varint(n) + rest) == Got(n, rest)
  {
    assert VarintBound(10, 1) == TWO_64;
    VarintRoundTrip(n, 10, 1, rest);
  }

  lemma ReadsTag(tag: byte, rest: seq<byte>)
    requires tag < 8
    ensures ReadU32([tag] + rest) == Got(tag, rest)
  {
    assert ([tag] + rest)[1..] == rest;
  }

  lemma ReadsBytes(s: seq<byte>, rest: seq<byte>)
    ensures ReadBytes(s + rest, |s|) == Got(s, rest)
  {
    assert (s + rest)[..|s|] == s && (s + rest)[|s|..] == rest;
  }

  lemma ReadsText(t: Text, rest: seq<byte>)
    requires |t| < TWO_64
    ensures ReadText(PutText(t) + rest) == Got(t, rest)
  {
    Associate(Varint(|t|), t, rest);
    ReadsU64(|t|, t + rest);
    ReadsBytes(t, rest);
  }

  lemma ReadsId(id: MessageId, rest: seq<byte>)
    ensures ReadId(PutId(id) + rest) == Got(id, rest)
  {
    var s, t := Varint(id.seqNo), Varint(id.tsMs);
    Associate(id.sender, s + t, rest);
    Associate(s, t, rest);
    ReadsBytes(id.sender, s + (t + rest));
    ReadsU64(id.seqNo, t + rest);
    ReadsU64(id.tsMs, rest);
  }

  lemma ReadsFlag(on: bool, rest: seq<byte>)
    ensures ReadFlag(PutFlag(on) + rest) == Got(on, rest)
  {
    assert (PutFlag(on) + rest)[1..] == rest;
  }

  lemma ReadsReplyTo(r: Option<MessageId>, rest: seq<byte>)
    ensures ReadReplyTo(PutReplyTo(r) + rest) == Got(r, rest)
  {
    match r
    case None => ReadsFlag(false, rest);
    case Some(id) =>
      Associate([1], PutId(id), rest);
      ReadsFlag(true, PutId(id) + rest);
      ReadsId(id, rest);
  }

  lemma ReadsOp(op: RoomOp, rest: seq<byte>)
    requires |PutOp(op)| < TWO_64
    ensures ReadOp(PutOp(op) + rest) == Got(op, rest)
  {
    match op
    case Create(name) =>
      Associate([0], PutText(name), rest);
      ReadsTag(0, PutText(name) + rest);
      ReadsText(name, rest);
    case Invite(member) =>
      Associate([1], member, rest);
      ReadsTag(1, member + rest);
      ReadsBytes(member, rest);
    case Kick(member) =>
      Associate([2], member, rest);
      ReadsTag(2, member + rest);
      ReadsBytes(member, rest);
    case Leave =>
      ReadsTag(3, rest);
  }

  lemma ReadsEntry(e: RoomEntry, rest: seq<byte>)
    requires |PutEntry(e)| < TWO_64
    ensures ReadEntry(PutEntry(e) + rest) == Got(e, rest)
  {
    var ts, op, sig := Varint(e.tsMs), PutOp(e.op), PutText(e.signature);
    Associate(e.prev, e.author + (ts + (op + sig)), rest);
    Associate(e.author, ts + (op + sig), rest);
    Associate(ts, op + sig, rest);
    Associate(op, sig, rest);
    ReadsBytes(e.prev, e.author + (ts + (op + (sig + rest))));
    ReadsBytes(e.author, ts + (op + (sig + rest)));
    ReadsU64(e.tsMs, op + (sig + rest));
    ReadsOp(e.op, sig + rest);
    ReadsText(e.signature, rest);
  }

  lemma {:induction false} ReadsEntries(log: seq<RoomEntry>, rest: seq<byte>)
    requires |PutEntries(log)| < TWO_64
    ensures ReadEntries(PutEntries(log) + rest, |log|) == Got(log, rest)
  {
    if log == [] {
      assert PutEntries(log) + rest == rest;
    } else {
      var others := PutEntries(log[1..]);
      Associate(PutEntry(log[0]), others, rest);
      ReadsEntry(log[0], others + rest);
      ReadsEntries(log[1..], rest);
      assert log == [log[0]] + log[1..];
    }
  }

  lemma ReadsLog(log: seq<RoomEntry>, rest: seq<byte>)
    requires |PutLog(log)| < TWO_64
    ensures ReadLog(PutLog(log) + rest) == Got(log, rest)
  {
    var entries := PutEntries(log);
    Associate(Varint(|log|), entries, rest);
    ReadsU64(|log|, entries + rest);
    ReadsEntries(log, rest);
  }
}
