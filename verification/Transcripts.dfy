/**
 The four signed byte layouts. Each is injective in its fields, and no layout
 of one kind can be read as another.
 */
module Transcripts {
  import opened Bytes
  import opened Postcard
  import opened RoomLog

  type Nonce = n: seq<byte> | |n| == 24 witness Zeros(24)

  const PREKEY_CONTEXT := Ascii("wicara prekey signature v1")
  const ENVELOPE_CONTEXT := Ascii("wicara envelope signature v1")
  const MAILBOX_CONTEXT := Ascii("wicara mailbox auth v1")

  function PrekeyTranscript(owner: Key, prekey: Key, createdMs: u64): seq<byte> {
    PREKEY_CONTEXT + (owner + (prekey + U64Bytes(createdMs)))
  }

  function Binding(sender: Key, recipient: Key, ephemeral: Key, prekey: Key): (b: seq<byte>)
    ensures |b| == 128
  {
    sender + (recipient + (ephemeral + prekey))
  }

  function EnvelopeTranscript(binding: seq<byte>, nonce: Nonce, ciphertext: seq<byte>): seq<byte> {
    ENVELOPE_CONTEXT + (binding + (nonce + ciphertext))
  }

  function MailboxTranscript(endpoint: Key, tsMs: u64): seq<byte> {
    MAILBOX_CONTEXT + (endpoint + U64Bytes(tsMs))
  }

  // ----- where each field lies -----

  /** `field` stands in `bytes` from `at` on. */
  predicate LiesAt(bytes: seq<byte>, at: nat, field: seq<byte>) {
    at + |field| <= |bytes| && bytes[at..at + |field|] == field
  }

  lemma PrekeyLayout(owner: Key, prekey: Key, createdMs: u64)
    ensures var t := PrekeyTranscript(owner, prekey, createdMs);
            LiesAt(t, 0, Ascii("wicara prekey signature v1")) && LiesAt(t, 26, owner) && LiesAt(t, 58, prekey)
            && LiesAt(t, 90, U64Bytes(createdMs)) && |t| == 98
  {
  }

  lemma EnvelopeLayout(sender: Key, recipient: Key, ephemeral: Key, prekey: Key, nonce: Nonce, ciphertext: seq<byte>)
    ensures var t := EnvelopeTranscript(Binding(sender, recipient, ephemeral, prekey), nonce, ciphertext);
            LiesAt(t, 0, Ascii("wicara envelope signature v1")) && LiesAt(t, 28, sender) && LiesAt(t, 60, recipient)
            && LiesAt(t, 92, ephemeral) && LiesAt(t, 124, prekey) && LiesAt(t, 156, nonce)
            && LiesAt(t, 180, ciphertext) && |t| == 180 + |ciphertext|
  {
    var b := Binding(sender, recipient, ephemeral, prekey);
    assert b[..32] == sender && b[32..64] == recipient && b[64..96] == ephemeral && b[96..] == prekey;
    var t := EnvelopeTranscript(b, nonce, ciphertext);
    assert t[28..156] == b;
    assert t[28..60] == t[28..156][..32] && t[60..92] == t[28..156][32..64];
    assert t[92..124] == t[28..156][64..96] && t[124..156] == t[28..156][96..];
  }

  lemma MailboxLayout(endpoint: Key, tsMs: u64)
    ensures var t := MailboxTranscript(endpoint, tsMs);
            LiesAt(t, 0, Ascii("wicara mailbox auth v1")) && LiesAt(t, 22, endpoint)
            && LiesAt(t, 54, U64Bytes(tsMs)) && |t| == 62
  {
  }

  /** An entry's transcript ends with its op, tag first; the hash is taken over that and the signature. */
  lemma EntryLayout(e: RoomEntry)
    ensures var t := EntryTranscript(e);
            LiesAt(t, 0, Ascii("wicara room entry v1")) && LiesAt(t, 20, e.prev) && LiesAt(t, 52, e.author)
            && LiesAt(t, 84, U64Bytes(e.tsMs)) && t[92..] == PutOp(e.op)
            && Preimage(e)[..|t|] == t && Preimage(e)[|t|..] == e.signature
    ensures match e.op
            case Create(name) => PutOp(e.op)[0] == 0 && PutOp(e.op)[1..] == Varint(|name|) + name
            case Invite(member) => PutOp(e.op) == [1] + member
            case Kick(member) => PutOp(e.op) == [2] + member
            case Leave => PutOp(e.op) == [3]
  {
  }

  // ----- injectivity -----

  lemma PrekeyTranscriptInjective(o1: Key, p1: Key, t1: u64, o2: Key, p2: Key, t2: u64)
    requires PrekeyTranscript(o1, p1, t1) == PrekeyTranscript(o2, p2, t2)
    ensures o1 == o2 && p1 == p2 && t1 == t2
  {
    SplitEqual(PREKEY_CONTEXT, o1 + (p1 + U64Bytes(t1)), PREKEY_CONTEXT, o2 + (p2 + U64Bytes(t2)));
    SplitEqual(o1, p1 + U64Bytes(t1), o2, p2 + U64Bytes(t2));
    SplitEqual(p1, U64Bytes(t1), p2, U64Bytes(t2));
    U64BytesInjective(t1, t2);
  }

  lemma BindingInjective(s1: Key, r1: Key, e1: Key, p1: Key, s2: Key, r2: Key, e2: Key, p2: Key)
    requires Binding(s1, r1, e1, p1) == Binding(s2, r2, e2, p2)
    ensures s1 == s2 && r1 == r2 && e1 == e2 && p1 == p2
  {
    SplitEqual(s1, r1 + (e1 + p1), s2, r2 + (e2 + p2));
    SplitEqual(r1, e1 + p1, r2, e2 + p2);
    SplitEqual(e1, p1, e2, p2);
  }

  /** The ciphertext carries no length: it is whatever follows the fixed-width fields. */
  lemma EnvelopeTranscriptInjective(
      s1: Key, r1: Key, e1: Key, p1: Key, n1: Nonce, c1: seq<byte>,
      s2: Key, r2: Key, e2: Key, p2: Key, n2: Nonce, c2: seq<byte>)
    requires EnvelopeTranscript(Binding(s1, r1, e1, p1), n1, c1)
          == EnvelopeTranscript(Binding(s2, r2, e2, p2), n2, c2)
    ensures s1 == s2 && r1 == r2 && e1 == e2 && p1 == p2 && n1 == n2 && c1 == c2
  {
    var b1, b2 := Binding(s1, r1, e1, p1), Binding(s2, r2, e2, p2);
    SplitEqual(ENVELOPE_CONTEXT, b1 + (n1 + c1), ENVELOPE_CONTEXT, b2 + (n2 + c2));
    SplitEqual(b1, n1 + c1, b2, n2 + c2);
    SplitEqual(n1, c1, n2, c2);
    BindingInjective(s1, r1, e1, p1, s2, r2, e2, p2);
  }

  lemma MailboxTranscriptInjective(e1: Key, t1: u64, e2: Key, t2: u64)
    requires MailboxTranscript(e1, t1) == MailboxTranscript(e2, t2)
    ensures e1 == e2 && t1 == t2
  {
    SplitEqual(MAILBOX_CONTEXT, e1 + U64Bytes(t1), MAILBOX_CONTEXT, e2 + U64Bytes(t2));
    SplitEqual(e1, U64Bytes(t1), e2, U64Bytes(t2));
    U64BytesInjective(t1, t2);
  }

  /** An op ends itself, so what follows it cannot shift its boundary. */
  lemma OpPrefixFree(o1: RoomOp, x: seq<byte>, o2: RoomOp, y: seq<byte>)
    requires PutOp(o1) + x == PutOp(o2) + y
    ensures o1 == o2 && x == y
  {
    assert PutOp(o1)[0] == (PutOp(o1) + x)[0] == (PutOp(o2) + y)[0] == PutOp(o2)[0];
    match o1 {
      case Create(name1) =>
        var name2 := o2.name;
        var t1, t2 := Varint(|name1|) + name1, Varint(|name2|) + name2;
        Associate([0], t1, x);
        Associate([0], t2, y);
        SplitEqual([0], t1 + x, [0], t2 + y);
        Associate(Varint(|name1|), name1, x);
        Associate(Varint(|name2|), name2, y);
        VarintPrefixFree(|name1|, name1 + x, |name2|, name2 + y);
        SplitEqual(name1, x, name2, y);
      case Invite(m) =>
        SplitEqual(PutOp(o1), x, PutOp(o2), y);
        SplitEqual([1], m, [1], o2.member);
      case Kick(m) =>
        SplitEqual(PutOp(o1), x, PutOp(o2), y);
        SplitEqual([2], m, [2], o2.member);
      case Leave =>
        SplitEqual(PutOp(o1), x, PutOp(o2), y);
    }
  }

  /** The room transcript followed by anything: the fields and what follows are both fixed. */
  lemma EntryTranscriptPrefixFree(
      p1: Key, a1: Key, t1: u64, o1: RoomOp, x: seq<byte>,
      p2: Key, a2: Key, t2: u64, o2: RoomOp, y: seq<byte>)
    requires Transcript(p1, a1, t1, o1) + x == Transcript(p2, a2, t2, o2) + y
    ensures p1 == p2 && a1 == a2 && t1 == t2 && o1 == o2 && x == y
  {
    TranscriptThen(p1, a1, t1, o1, x);
    TranscriptThen(p2, a2, t2, o2, y);
    var i1, i2 := U64Bytes(t1) + (PutOp(o1) + x), U64Bytes(t2) + (PutOp(o2) + y);
    SplitEqual(ENTRY_CONTEXT, p1 + (a1 + i1), ENTRY_CONTEXT, p2 + (a2 + i2));
    SplitEqual(p1, a1 + i1, p2, a2 + i2);
    SplitEqual(a1, i1, a2, i2);
    SplitEqual(U64Bytes(t1), PutOp(o1) + x, U64Bytes(t2), PutOp(o2) + y);
    U64BytesInjective(t1, t2);
    OpPrefixFree(o1, x, o2, y);
  }

  lemma TranscriptThen(prev: Key, author: Key, tsMs: u64, op: RoomOp, x: seq<byte>)
    ensures Transcript(prev, author, tsMs, op) + x
         == ENTRY_CONTEXT + (prev + (author + (U64Bytes(tsMs) + (PutOp(op) + x))))
  {
    var t := U64Bytes(tsMs) + PutOp(op);
    Associate(ENTRY_CONTEXT, prev + (author + t), x);
    Associate(prev, author + t, x);
    Associate(author, t, x);
    Associate(U64Bytes(tsMs), PutOp(op), x);
  }

  /**
   The hash preimage runs the transcript into the signature with no delimiter.
   It is injective on entries all the same, whatever the signatures' lengths.
   */
  lemma PreimageInjective(e1: RoomEntry, e2: RoomEntry)
    requires Preimage(e1) == Preimage(e2)
    ensures e1 == e2
  {
    EntryTranscriptPrefixFree(
      e1.prev, e1.author, e1.tsMs, e1.op, e1.signature,
      e2.prev, e2.author, e2.tsMs, e2.op, e2.signature);
  }

  // ----- domain separation -----

  datatype Signed =
    | Prekey(owner: Key, prekey: Key, createdMs: u64)
    | Letter(sender: Key, recipient: Key, ephemeral: Key, sealedTo: Key, nonce: Nonce, ciphertext: seq<byte>)
    | Mailbox(endpoint: Key, tsMs: u64)
    | Entry(prev: Key, author: Key, entryTsMs: u64, op: RoomOp)

  function SignedBytes(s: Signed): seq<byte> {
    match s
    case Prekey(owner, prekey, createdMs) => PrekeyTranscript(owner, prekey, createdMs)
    case Letter(sender, recipient, ephemeral, sealedTo, nonce, ciphertext) =>
      EnvelopeTranscript(Binding(sender, recipient, ephemeral, sealedTo), nonce, ciphertext)
    case Mailbox(endpoint, tsMs) => MailboxTranscript(endpoint, tsMs)
    case Entry(prev, author, tsMs, op) => Transcript(prev, author, tsMs, op)
  }

  /** The eighth byte of the context names the kind. */
  lemma KindByte(s: Signed)
    ensures |SignedBytes(s)| > 7
    ensures SignedBytes(s)[7] ==
            (match s case Prekey(_, _, _) => 'p' case Letter(_, _, _, _, _, _) => 'e'
                     case Mailbox(_, _) => 'm' case Entry(_, _, _, _) => 'r') as int
  {
    assert SignedBytes(s)[..20][7] == SignedBytes(s)[7];
  }

  /**
   Everything an identity key ever signs: equal bytes mean the same kind of
   statement with the same fields, so a signature cannot be moved from one
   statement to another.
   */
  lemma SignedBytesInjective(s1: Signed, s2: Signed)
    requires SignedBytes(s1) == SignedBytes(s2)
    ensures s1 == s2
  {
    KindByte(s1);
    KindByte(s2);
    match s1 {
      case Prekey(o, p, t) =>
        PrekeyTranscriptInjective(o, p, t, s2.owner, s2.prekey, s2.createdMs);
      case Letter(s, r, e, p, n, c) =>
        EnvelopeTranscriptInjective(
          s, r, e, p, n, c, s2.sender, s2.recipient, s2.ephemeral, s2.sealedTo, s2.nonce, s2.ciphertext);
      case Mailbox(e, t) =>
        MailboxTranscriptInjective(e, t, s2.endpoint, s2.tsMs);
      case Entry(p, a, t, o) =>
        EntryTranscriptPrefixFree(p, a, t, o, [], s2.prev, s2.author, s2.entryTsMs, s2.op, []);
    }
  }
}
