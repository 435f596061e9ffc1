/**
 What a conversation's op log says, independently of how it is folded: which
 ops settle a message's body, its deletion and its reactions.
 */
module Fold {
  import opened Bytes
  import opened Wrappers
  import opened Wire

  /** One conversation's rows, by primary key. */
  type Ops = map<MessageId, Frame>

  datatype Attachment = Attachment(name: Text, size: u64, hash: Key, path: Option<Text>)

  /** The number of reactors behind an emoji; `mine` if the owner of this machine is among them. */
  datatype Tally = Tally(emoji: Text, count: nat, mine: bool)

  datatype Message = Message(
    id: MessageId,
    body: Text,
    outbound: bool,
    deleted: bool,
    replyTo: Option<MessageId>,
    reactions: seq<Tally>,
    attachment: Option<Attachment>)

  // ----- names for files -----

  function HexDigit(n: nat): byte
    requires n < 16
  {
    if n < 10 then '0' as int + n else 'a' as int + (n - 10)
  }

  function Hex(b: seq<byte>): (r: Text)
    ensures |r| == 2 * |b|
  {
    if b == [] then [] else [HexDigit(b[0] / 16), HexDigit(b[0] % 16)] + Hex(b[1..])
  }

  function Decimal(n: nat): (r: Text)
    ensures |r| > 0
  {
    if n < 10 then ['0' as int + n] else Decimal(n / 10) + ['0' as int + n % 10]
  }

  /** The short form of an id: four bytes of the sender and the sequence number. */
  function Display(id: MessageId): Text {
    Hex(id.sender[..4]) + (Ascii("-") + Decimal(id.seqNo))
  }

  function FileKey(id: MessageId): Text {
    Ascii("file:") + Display(id)
  }

  /** The form a user sees and pastes: eight hex digits, a dash, the number. */
  lemma DisplayReads(id: MessageId)
    requires id.sender[..4] == [9, 9, 0x1a, 0xff] && id.seqNo == 42
    ensures Display(id) == Ascii("09091aff-42") && FileKey(id) == Ascii("file:09091aff-42")
  {
    var b: seq<byte> := [9, 9, 0x1a, 0xff];
    assert b[1..] == [9, 0x1a, 0xff] && b[1..][1..] == [0x1a, 0xff] && b[1..][1..][1..] == [0xff];
    assert Hex([0xff]) == [102, 102];
    assert Hex([0x1a, 0xff]) == [49, 97] + Hex([0xff]) by {
      assert [0x1a, 0xff][1..] == [0xff];
    }
    assert Hex(b) == [48, 57, 48, 57, 49, 97, 102, 102];
    assert Decimal(42) == [52, 50];
    assert Display(id) == [48, 57, 48, 57, 49, 97, 102, 102, 45, 52, 50];
  }

  // ----- order -----

  /** `ORDER BY ts_ms, seq`, over the signed columns. Equal pairs are left unordered. */
  predicate Before(a: MessageId, b: MessageId) {
    var ta, tb := AsI64(a.tsMs), AsI64(b.tsMs);
    ta < tb || (ta == tb && AsI64(a.seqNo) < AsI64(b.seqNo))
  }

  /** Within the range a clock and a counter keep to: by time, and by number within one millisecond. */
  lemma BeforeIsOlder(a: MessageId, b: MessageId)
    requires a.tsMs < TWO_63 && b.tsMs < TWO_63 && a.seqNo < TWO_63 && b.seqNo < TWO_63
    ensures Before(a, b) <==> a.tsMs < b.tsMs || (a.tsMs == b.tsMs && a.seqNo < b.seqNo)
  {
  }

  predicate Tied(a: MessageId, b: MessageId) {
    a.tsMs == b.tsMs && a.seqNo == b.seqNo
  }

  /** Only ops of different senders can tie: one sender's ops are always ordered. */
  lemma TieOrOrder(a: MessageId, b: MessageId)
    ensures Tied(a, b) || Before(a, b) || Before(b, a)
    ensures a.sender == b.sender && a != b ==> !Tied(a, b)
  {
  }

  // ----- messages -----

  predicate IsMessage(f: Frame) {
    f.Chat? || f.File?
  }

  function OriginalBody(f: Frame): Text
    requires IsMessage(f)
  {
    if f.Chat? then f.body else f.name
  }

  function ReplyOf(f: Frame): Option<MessageId>
    requires IsMessage(f)
  {
    if f.Chat? then f.replyTo else None
  }

  function Lookup(settings: map<Text, Text>, key: Text): Option<Text> {
    if key in settings then Some(settings[key]) else None
  }

  function AttachmentOf(settings: map<Text, Text>, id: MessageId, f: Frame): Option<Attachment> {
    if f.File? then Some(Attachment(f.name, f.size, f.hash, Lookup(settings, FileKey(id)))) else None
  }

  /** `e` settles how `id` reads: its own author's edit or delete, sorted after it. */
  predicate IsMark(ops: Ops, id: MessageId, e: MessageId) {
    e in ops && (ops[e].Edit? || ops[e].Delete?) && ops[e].target == id && e.sender == id.sender && Before(id, e)
  }

  ghost predicate IsLastMark(ops: Ops, id: MessageId, e: MessageId) {
    IsMark(ops, id, e) && forall o :: IsMark(ops, id, o) ==> o == e || Before(o, e)
  }

  /** The last mark's text, empty if it is a delete; the original if there is no mark. */
  ghost predicate BodyIs(ops: Ops, id: MessageId, body: Text)
    requires id in ops && IsMessage(ops[id])
  {
    if exists e :: IsMark(ops, id, e) then
      exists e :: IsLastMark(ops, id, e) && body == if ops[e].Edit? then ops[e].newBody else []
    else body == OriginalBody(ops[id])
  }

  ghost predicate IsDeleted(ops: Ops, id: MessageId) {
    exists e :: IsMark(ops, id, e) && ops[e].Delete?
  }

  // ----- reactions -----

  /** One reactor's switch for one emoji on one message. */
  datatype Slot = Slot(target: MessageId, emoji: Text, reactor: Key)

  predicate IsReact(ops: Ops, s: Slot, e: MessageId) {
    e in ops && ops[e].React? && ops[e].target == s.target && ops[e].emoji == s.emoji && e.sender == s.reactor
  }

  ghost predicate IsLastReact(ops: Ops, s: Slot, e: MessageId) {
    IsReact(ops, s, e) && forall o :: IsReact(ops, s, o) ==> o == e || Before(o, e)
  }

  /** Everyone whose last word on this emoji and message is "on". */
  ghost function Reactors(ops: Ops, id: MessageId, emoji: Text): set<Key> {
    set e | e in ops && IsLastReact(ops, Slot(id, emoji, e.sender), e) && ops[e].on :: e.sender
  }

  predicate StrictlySorted(ts: seq<Tally>) {
    forall i, j :: 0 <= i < j < |ts| ==> Less(ts[i].emoji, ts[j].emoji)
  }

  ghost predicate TalliesAre(ops: Ops, me: Key, id: MessageId, ts: seq<Tally>) {
    && StrictlySorted(ts)
    && (forall t :: t in ts ==>
          var who := Reactors(ops, id, t.emoji);
          t.count == |who| && t.count > 0 && (t.mine <==> me in who))
    && (forall emoji :: Reactors(ops, id, emoji) != {} ==> exists t :: t in ts && t.emoji == emoji)
  }

  // ----- the conversation -----

  ghost predicate RendersCore(ops: Ops, me: Key, settings: map<Text, Text>, m: Message) {
    && m.id in ops && IsMessage(ops[m.id])
    && BodyIs(ops, m.id, m.body)
    && (m.deleted <==> IsDeleted(ops, m.id))
    && (m.outbound <==> m.id.sender == me)
    && m.replyTo == ReplyOf(ops[m.id])
    && m.attachment == AttachmentOf(settings, m.id, ops[m.id])
  }

  /** `m` is how the ops say its message stands. */
  ghost predicate Renders(ops: Ops, me: Key, settings: map<Text, Text>, m: Message) {
    RendersCore(ops, me, settings, m) && TalliesAre(ops, me, m.id, m.reactions)
  }

  ghost predicate InOrder(ms: seq<Message>) {
    && (forall i, j :: 0 <= i < j < |ms| ==> ms[i].id != ms[j].id)
    && (forall i, j :: 0 <= i < j < |ms| ==> !Before(ms[j].id, ms[i].id))
  }

  /** `ms` is the whole conversation: every message of it once, in order, each as it stands. */
  ghost predicate IsHistory(ops: Ops, me: Key, settings: map<Text, Text>, ms: seq<Message>) {
    && InOrder(ms)
    && (forall m :: m in ms ==> Renders(ops, me, settings, m))
    && (forall id :: id in ops && IsMessage(ops[id]) ==> exists m :: m in ms && m.id == id)
  }
}
