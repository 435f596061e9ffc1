/**
 What the fold guarantees between replicas and between authors: the table and
 the conversation depend only on which ops arrived, and no author's ops can
 touch another author's words.
 */
module Convergence {
  import opened Bytes
  import opened Wrappers
  import opened Wire
  import opened Fold
  import opened MessageStore

  // ----- the table -----

  function RecordAll(t: Table, arrivals: seq<Arrival>): Table
    decreases |arrivals|
  {
    if arrivals == [] then t else RecordAll(RecordOp(t, arrivals[0]), arrivals[1..])
  }

  predicate Carries(a: Arrival, id: MessageId) {
    a.frame.Id() == Some(id)
  }

  /** No id is carried by two different ops. */
  ghost predicate OnePayload(arrivals: seq<Arrival>) {
    forall a, b, id :: a in arrivals && b in arrivals && Carries(a, id) && Carries(b, id) ==> a == b
  }

  ghost predicate SameArrivals(s: seq<Arrival>, t: seq<Arrival>) {
    forall a :: a in s <==> a in t
  }

  lemma {:induction false} OldRowsStay(t: Table, arrivals: seq<Arrival>, id: MessageId)
    requires id in t
    ensures id in RecordAll(t, arrivals) && RecordAll(t, arrivals)[id] == t[id]
    decreases |arrivals|
  {
    if arrivals != [] {
      OldRowsStay(RecordOp(t, arrivals[0]), arrivals[1..], id);
    }
  }

  /** The table holds exactly the ops that arrived, however often and in whatever order. */
  lemma {:induction false} RecordAllHolds(t: Table, arrivals: seq<Arrival>, id: MessageId)
    requires id !in t && OnePayload(arrivals)
    ensures id in RecordAll(t, arrivals) <==> exists a :: a in arrivals && Carries(a, id)
    ensures forall a :: a in arrivals && Carries(a, id) ==>
              id in RecordAll(t, arrivals) && RecordAll(t, arrivals)[id] == StoredOp(a.peer, a.frame)
    decreases |arrivals|
  {
    if arrivals != [] {
      var next := RecordOp(t, arrivals[0]);
      assert forall a :: a in arrivals <==> a == arrivals[0] || a in arrivals[1..];
      if Carries(arrivals[0], id) {
        OldRowsStay(next, arrivals[1..], id);
      } else {
        RecordAllHolds(next, arrivals[1..], id);
      }
    }
  }

  lemma SameArrivalsSameTable(s: seq<Arrival>, t: seq<Arrival>)
    requires SameArrivals(s, t) && OnePayload(s)
    ensures RecordAll(map[], s) == RecordAll(map[], t)
  {
    var x, y := RecordAll(map[], s), RecordAll(map[], t);
    forall id: MessageId
      ensures id in x <==> id in y
      ensures id in x && id in y ==> x[id] == y[id]
    {
      RecordAllHolds(map[], s, id);
      RecordAllHolds(map[], t, id);
    }
    assert x.Keys == y.Keys;
  }

  /** Every order and every duplication of the same arrivals leaves the same table. */
  ghost predicate OrderFree(arrivals: seq<Arrival>) {
    forall other :: SameArrivals(arrivals, other) ==> RecordAll(map[], other) == RecordAll(map[], arrivals)
  }

  /** Order and duplication never matter exactly when no id carries two payloads. */
  lemma TablesConvergeIffOnePayload(arrivals: seq<Arrival>)
    ensures OrderFree(arrivals) <==> OnePayload(arrivals)
  {
    if OnePayload(arrivals) {
      forall other | SameArrivals(arrivals, other)
        ensures RecordAll(map[], other) == RecordAll(map[], arrivals)
      {
        SameArrivalsSameTable(arrivals, other);
      }
    } else {
      var a, b, id :| a in arrivals && b in arrivals && Carries(a, id) && Carries(b, id) && a != b;
      TwoPayloadsDiverge(arrivals, a, b, id);
    }
  }

  lemma TwoPayloadsDiverge(arrivals: seq<Arrival>, a: Arrival, b: Arrival, id: MessageId)
    requires a in arrivals && b in arrivals && Carries(a, id) && Carries(b, id) && a != b
    ensures !OrderFree(arrivals)
  {
    FirstPayloadWins(arrivals, a, id);
    FirstPayloadWins(arrivals, b, id);
    var s, t := [a] + arrivals, [b] + arrivals;
    assert SameArrivals(arrivals, s) && SameArrivals(arrivals, t);
    assert RecordAll(map[], s) != RecordAll(map[], t);
  }

  lemma FirstPayloadWins(arrivals: seq<Arrival>, a: Arrival, id: MessageId)
    requires Carries(a, id)
    ensures var t := RecordAll(map[], [a] + arrivals); id in t && t[id] == StoredOp(a.peer, a.frame)
  {
    assert ([a] + arrivals)[1..] == arrivals;
    OldRowsStay(RecordOp(map[], a), arrivals, id);
  }

  // ----- the conversation -----

  predicate SameTallies(s: seq<Tally>, t: seq<Tally>) {
    |s| == |t| && forall i :: 0 <= i < |s| ==> s[i].emoji == t[i].emoji && s[i].count == t[i].count
  }

  predicate SameFile(a: Option<Attachment>, b: Option<Attachment>) {
    && (a.Some? <==> b.Some?)
    && (a.Some? ==> a.value.name == b.value.name && a.value.size == b.value.size && a.value.hash == b.value.hash)
  }

  /** The same message on two machines: they may differ in its side, in whose the reactions are and in paths. */
  predicate SameMessage(a: Message, b: Message) {
    && a.id == b.id && a.body == b.body && a.deleted == b.deleted && a.replyTo == b.replyTo
    && SameTallies(a.reactions, b.reactions)
    && SameFile(a.attachment, b.attachment)
  }

  lemma {:induction false} SortedUnique(s: seq<Text>, t: seq<Text>)
    requires forall i, j :: 0 <= i < j < |s| ==> Less(s[i], s[j])
    requires forall i, j :: 0 <= i < j < |t| ==> Less(t[i], t[j])
    requires forall x :: x in s <==> x in t
    ensures s == t
  {
    assert t != [] ==> t[0] in t;
    if s != [] {
      assert s[0] in t;
      assert t[0] in s;
      var i :| 0 <= i < |t| && t[i] == s[0];
      var j :| 0 <= j < |s| && s[j] == t[0];
      if i > 0 && j > 0 {
        LessTransitive(s[0], s[j], t[i]);
        LessIrreflexive(s[0]);
      }
      LessIrreflexive(s[0]);
      assert s[0] == t[0];
      forall x
        ensures x in s[1..] <==> x in t[1..]
      {
        if x in s[1..] {
          var k :| 0 < k < |s| && s[k] == x;
          assert x in t && x != s[0];
          assert t == [t[0]] + t[1..];
        }
        if x in t[1..] {
          var k :| 0 < k < |t| && t[k] == x;
          assert x in s && x != t[0];
          assert s == [s[0]] + s[1..];
        }
      }
      SortedUnique(s[1..], t[1..]);
      assert s == [s[0]] + s[1..] && t == [t[0]] + t[1..];
    }
  }

  function Emojis(ts: seq<Tally>): seq<Text> {
    seq(|ts|, i requires 0 <= i < |ts| => ts[i].emoji)
  }

  lemma EmojisAre(ops: Ops, me: Key, id: MessageId, ts: seq<Tally>, e: Text)
    requires TalliesAre(ops, me, id, ts)
    ensures e in Emojis(ts) <==> Reactors(ops, id, e) != {}
  {
    if e in Emojis(ts) {
      var i :| 0 <= i < |ts| && ts[i].emoji == e;
      assert ts[i] in ts;
    }
    if Reactors(ops, id, e) != {} {
      var t :| t in ts && t.emoji == e;
      var i :| 0 <= i < |ts| && ts[i] == t;
      assert Emojis(ts)[i] == e;
    }
  }

  /** The tallies are fixed by the ops: same emojis in the same places with the same counts. */
  lemma TalliesDetermined(ops: Ops, me1: Key, me2: Key, id: MessageId, s: seq<Tally>, t: seq<Tally>)
    requires TalliesAre(ops, me1, id, s) && TalliesAre(ops, me2, id, t)
    ensures |s| == |t|
    ensures forall i :: 0 <= i < |s| ==> s[i].emoji == t[i].emoji && s[i].count == t[i].count
    ensures me1 == me2 ==> s == t
  {
    forall e: Text
      ensures e in Emojis(s) <==> e in Emojis(t)
    {
      EmojisAre(ops, me1, id, s, e);
      EmojisAre(ops, me2, id, t, e);
    }
    SortedUnique(Emojis(s), Emojis(t));
    assert |s| == |Emojis(s)| == |Emojis(t)| == |t|;
    forall i | 0 <= i < |s|
      ensures s[i].emoji == t[i].emoji && s[i].count == t[i].count
      ensures me1 == me2 ==> s[i] == t[i]
    {
      assert s[i].emoji == Emojis(s)[i] == Emojis(t)[i] == t[i].emoji;
      assert s[i] in s && t[i] in t;
    }
  }

  lemma BodyDetermined(ops: Ops, id: MessageId, b1: Text, b2: Text)
    requires id in ops && IsMessage(ops[id]) && BodyIs(ops, id, b1) && BodyIs(ops, id, b2)
    ensures b1 == b2
  {
    if exists e :: IsMark(ops, id, e) {
      var e1 :| IsLastMark(ops, id, e1) && b1 == if ops[e1].Edit? then ops[e1].newBody else [];
      var e2 :| IsLastMark(ops, id, e2) && b2 == if ops[e2].Edit? then ops[e2].newBody else [];
      assert e1 == e2;
    }
  }

  /** How a message stands is a function of the ops; only its local side is a function of the machine. */
  lemma RenderingDetermined(
      ops: Ops, me1: Key, settings1: map<Text, Text>, me2: Key, settings2: map<Text, Text>, m1: Message, m2: Message)
    requires Renders(ops, me1, settings1, m1) && Renders(ops, me2, settings2, m2) && m1.id == m2.id
    ensures SameMessage(m1, m2)
    ensures me1 == me2 && settings1 == settings2 ==> m1 == m2
  {
    BodyDetermined(ops, m1.id, m1.body, m2.body);
    TalliesDetermined(ops, me1, me2, m1.id, m1.reactions, m2.reactions);
  }

  /** The same messages, and every pair that is not tied in the same order. */
  ghost predicate SameConversation(h1: seq<Message>, h2: seq<Message>) {
    && |h1| == |h2|
    && (forall m1 :: m1 in h1 ==> exists m2 :: m2 in h2 && SameMessage(m1, m2))
    && (forall i, j, p, q ::
          (0 <= i < j < |h1| && 0 <= p < |h2| && 0 <= q < |h2|
           && h2[p].id == h1[i].id && h2[q].id == h1[j].id && !Tied(h1[i].id, h1[j].id))
          ==> p < q)
  }

  /** Two folds of the same ops show the same messages, and order alike every pair that is not tied. */
  lemma HistoriesAgree(
      ops: Ops, me1: Key, settings1: map<Text, Text>, me2: Key, settings2: map<Text, Text>,
      h1: seq<Message>, h2: seq<Message>)
    requires IsHistory(ops, me1, settings1, h1) && IsHistory(ops, me2, settings2, h2)
    ensures SameConversation(h1, h2)
  {
    HistoryCounts(ops, me1, settings1, h1);
    HistoryCounts(ops, me2, settings2, h2);
    forall m1 | m1 in h1
      ensures exists m2 :: m2 in h2 && SameMessage(m1, m2)
    {
      var m2 :| m2 in h2 && m2.id == m1.id;
      RenderingDetermined(ops, me1, settings1, me2, settings2, m1, m2);
    }
    forall i, j, p, q | 0 <= i < j < |h1| && 0 <= p < |h2| && 0 <= q < |h2|
        && h2[p].id == h1[i].id && h2[q].id == h1[j].id && !Tied(h1[i].id, h1[j].id)
      ensures p < q
    {
      TieOrOrder(h1[i].id, h1[j].id);
    }
  }

  ghost predicate NoTies(ops: Ops) {
    forall a, b :: a in ops && b in ops && IsMessage(ops[a]) && IsMessage(ops[b]) && Tied(a, b) ==> a == b
  }

  lemma UntiedIsStrict(ops: Ops, me: Key, settings: map<Text, Text>, h: seq<Message>)
    requires IsHistory(ops, me, settings, h) && NoTies(ops)
    ensures forall i, j :: 0 <= i < j < |h| ==> Before(h[i].id, h[j].id)
  {
    forall i, j | 0 <= i < j < |h|
      ensures Before(h[i].id, h[j].id)
    {
      assert Renders(ops, me, settings, h[i]) && Renders(ops, me, settings, h[j]);
      TieOrOrder(h[i].id, h[j].id);
    }
  }

  lemma ShownByBoth(ops: Ops, me: Key, settings: map<Text, Text>, h1: seq<Message>, h2: seq<Message>, m: Message)
    requires IsHistory(ops, me, settings, h1) && IsHistory(ops, me, settings, h2) && m in h1
    ensures m in h2
  {
    assert Renders(ops, me, settings, m);
    var m2 :| m2 in h2 && m2.id == m.id;
    RenderingDetermined(ops, me, settings, me, settings, m, m2);
  }

  /** With no ties the two folds are the same list. */
  lemma UntiedHistoriesEqual(ops: Ops, me: Key, settings: map<Text, Text>, h1: seq<Message>, h2: seq<Message>)
    requires IsHistory(ops, me, settings, h1) && IsHistory(ops, me, settings, h2) && NoTies(ops)
    ensures h1 == h2
  {
    forall m
      ensures m in h1 <==> m in h2
    {
      if m in h1 {
        ShownByBoth(ops, me, settings, h1, h2, m);
      }
      if m in h2 {
        ShownByBoth(ops, me, settings, h2, h1, m);
      }
    }
    UntiedIsStrict(ops, me, settings, h1);
    UntiedIsStrict(ops, me, settings, h2);
    OrderedUnique(h1, h2);
  }

  lemma {:induction false} OrderedUnique(s: seq<Message>, t: seq<Message>)
    requires forall i, j :: 0 <= i < j < |s| ==> Before(s[i].id, s[j].id)
    requires forall i, j :: 0 <= i < j < |t| ==> Before(t[i].id, t[j].id)
    requires forall m :: m in s <==> m in t
    ensures s == t
  {
    assert t != [] ==> t[0] in t;
    if s != [] {
      assert s[0] in t;
      assert t[0] in s;
      var i :| 0 <= i < |t| && t[i] == s[0];
      var j :| 0 <= j < |s| && s[j] == t[0];
      assert i == 0;
      forall m
        ensures m in s[1..] <==> m in t[1..]
      {
        assert s == [s[0]] + s[1..] && t == [t[0]] + t[1..];
        if m in s[1..] {
          var k :| 0 < k < |s| && s[k] == m;
          assert m in t && m != s[0];
        }
        if m in t[1..] {
          var k :| 0 < k < |t| && t[k] == m;
          assert m in s && m != t[0];
        }
      }
      OrderedUnique(s[1..], t[1..]);
      assert s == [s[0]] + s[1..] && t == [t[0]] + t[1..];
    }
  }

  /** Two machines got the same ops for one conversation, each filing it under its own name for it. */
  ghost predicate SameConversationArrived(s: seq<Arrival>, peer1: Key, t: seq<Arrival>, peer2: Key) {
    forall f :: Arrival(peer1, f) in s <==> Arrival(peer2, f) in t
  }

  /** An op recorded under a conversation is one that arrived for it. */
  lemma ConversationHolds(s: seq<Arrival>, peer: Key, id: MessageId)
    requires OnePayload(s)
    ensures var ops := Conversation(RecordAll(map[], s), peer);
            (id in ops ==> ops[id].Id() == Some(id) && Arrival(peer, ops[id]) in s)
            && (forall f :: Arrival(peer, f) in s && f.Id() == Some(id) ==> id in ops && ops[id] == f)
  {
    RecordAllHolds(map[], s, id);
    var table := RecordAll(map[], s);
    forall f | Arrival(peer, f) in s && f.Id() == Some(id)
      ensures id in table && table[id] == StoredOp(peer, f)
    {
      assert Carries(Arrival(peer, f), id);
    }
    if id in table {
      var a :| a in s && Carries(a, id);
      assert table[id] == StoredOp(a.peer, a.frame) && a == Arrival(a.peer, a.frame);
    }
  }

  lemma SameConversationSameOps(s: seq<Arrival>, peer1: Key, t: seq<Arrival>, peer2: Key)
    requires OnePayload(s) && OnePayload(t) && SameConversationArrived(s, peer1, t, peer2)
    ensures Conversation(RecordAll(map[], s), peer1) == Conversation(RecordAll(map[], t), peer2)
  {
    var x, y := Conversation(RecordAll(map[], s), peer1), Conversation(RecordAll(map[], t), peer2);
    forall id: MessageId
      ensures id in x <==> id in y
      ensures id in x && id in y ==> x[id] == y[id]
    {
      ConversationHolds(s, peer1, id);
      ConversationHolds(t, peer2, id);
    }
    assert x.Keys == y.Keys;
  }

  /**
   Convergence: two machines that received the same ops for a conversation, in
   any order, with any duplication and whatever else besides, show the same
   messages with the same bodies, deletions, reply links and reaction counts, in
   the same order but for ties. A room has one name on both; the two ends of a
   direct conversation each file it under the other.
   */
  lemma Converge(
      s: seq<Arrival>, peer1: Key, me1: Key, settings1: map<Text, Text>, h1: seq<Message>,
      t: seq<Arrival>, peer2: Key, me2: Key, settings2: map<Text, Text>, h2: seq<Message>)
    requires OnePayload(s) && OnePayload(t) && SameConversationArrived(s, peer1, t, peer2)
    requires IsHistory(Conversation(RecordAll(map[], s), peer1), me1, settings1, h1)
    requires IsHistory(Conversation(RecordAll(map[], t), peer2), me2, settings2, h2)
    ensures SameConversation(h1, h2)
  {
    SameConversationSameOps(s, peer1, t, peer2);
    HistoriesAgree(Conversation(RecordAll(map[], s), peer1), me1, settings1, me2, settings2, h1, h2);
  }

  // ----- authors -----

  /** The two logs hold the same ops of `author`'s, whatever else is in them. */
  ghost predicate AgreeOn(a: Ops, b: Ops, author: Key) {
    forall e: MessageId :: e.sender == author ==> (e in a <==> e in b) && (e in a && e in b ==> a[e] == b[e])
  }

  /** A message's body and deletion depend on its author's ops alone: nobody else's can touch either. */
  lemma NonInterference(a: Ops, b: Ops, id: MessageId, body: Text)
    requires id in a && id in b && IsMessage(a[id]) && AgreeOn(a, b, id.sender)
    ensures BodyIs(a, id, body) <==> BodyIs(b, id, body)
    ensures IsDeleted(a, id) <==> IsDeleted(b, id)
  {
    assert forall e :: IsMark(a, id, e) <==> IsMark(b, id, e);
    assert forall e :: IsLastMark(a, id, e) <==> IsLastMark(b, id, e);
  }

  /**
   "Deleted" does not mean "empty": an author's edit sorted after the delete
   puts words back while the flag stays. A deleted body is empty exactly when
   no non-empty edit of the author's is the last mark.
   */
  lemma DeletedBodyEmptyIff(ops: Ops, id: MessageId, body: Text)
    requires id in ops && IsMessage(ops[id]) && IsDeleted(ops, id) && BodyIs(ops, id, body)
    ensures body == [] <==> !exists e :: IsLastMark(ops, id, e) && ops[e].Edit? && ops[e].newBody != []
  {
    var d :| IsMark(ops, id, d) && ops[d].Delete?;
    var e :| IsLastMark(ops, id, e) && body == if ops[e].Edit? then ops[e].newBody else [];
  }

  lemma EditAfterDelete(id: MessageId, d: MessageId, e: MessageId, f: Frame, words: Text)
    requires IsMessage(f) && d.sender == id.sender && e.sender == id.sender && Before(id, d) && Before(d, e)
    ensures var ops: Ops := map[id := f, d := Delete(d, id), e := Edit(e, id, words)];
            IsDeleted(ops, id) && BodyIs(ops, id, words)
  {
    var ops: Ops := map[id := f, d := Delete(d, id), e := Edit(e, id, words)];
    assert IsMark(ops, id, d) && IsLastMark(ops, id, e);
  }

  // ----- other conversations -----

  lemma ConversationUntouched(t: Table, peer: Key, other: Key)
    requires other != peer
    ensures Conversation(Without(t, peer), other) == Conversation(t, other)
  {
  }

  // ----- shortened ids -----

  lemma {:induction false} HexInjective(a: seq<byte>, b: seq<byte>)
    requires Hex(a) == Hex(b)
    ensures a == b
  {
    if a != [] && b != [] {
      assert Hex(a)[0] == Hex(b)[0] && Hex(a)[1] == Hex(b)[1];
      assert Hex(a)[2..] == Hex(a[1..]) && Hex(b)[2..] == Hex(b[1..]);
      HexInjective(a[1..], b[1..]);
      assert a == [a[0]] + a[1..] && b == [b[0]] + b[1..];
    }
  }

  lemma {:induction false} DecimalInjective(m: nat, n: nat)
    requires Decimal(m) == Decimal(n)
    ensures m == n
  {
    var d := Decimal(m);
    assert m >= 10 ==> |d| == |Decimal(m / 10)| + 1;
    assert n >= 10 ==> |d| == |Decimal(n / 10)| + 1;
    assert d[|d| - 1] == '0' as int + m % 10 && d[|d| - 1] == '0' as int + n % 10;
    if m >= 10 && n >= 10 {
      assert d[..|d| - 1] == Decimal(m / 10) && d[..|d| - 1] == Decimal(n / 10);
      DecimalInjective(m / 10, n / 10);
    }
  }

  /** Two ids share a file key exactly when four bytes of the sender and the sequence number agree. */
  lemma FileKeysCollideIff(a: MessageId, b: MessageId)
    ensures FileKey(a) == FileKey(b) <==> a.sender[..4] == b.sender[..4] && a.seqNo == b.seqNo
  {
    if FileKey(a) == FileKey(b) {
      SplitEqual(Ascii("file:"), Display(a), Ascii("file:"), Display(b));
      var x, y := Ascii("-") + Decimal(a.seqNo), Ascii("-") + Decimal(b.seqNo);
      SplitEqual(Hex(a.sender[..4]), x, Hex(b.sender[..4]), y);
      SplitEqual(Ascii("-"), Decimal(a.seqNo), Ascii("-"), Decimal(b.seqNo));
      HexInjective(a.sender[..4], b.sender[..4]);
      DecimalInjective(a.seqNo, b.seqNo);
    }
  }

  // ----- what clearing one conversation does to another -----

  /** Some message of `ops` is kept under the same short name as `id`. */
  ghost predicate NamedLike(ops: Ops, id: MessageId) {
    exists o :: o in MessageIds(ops) && o.sender[..4] == id.sender[..4] && o.seqNo == id.seqNo
  }

  lemma DroppedIffNamedLike(ops: Ops, id: MessageId)
    ensures FileKey(id) in FileKeys(MessageIds(ops)) <==> NamedLike(ops, id)
  {
    forall o: MessageId
      ensures FileKey(o) == FileKey(id) <==> o.sender[..4] == id.sender[..4] && o.seqNo == id.seqNo
    {
      FileKeysCollideIff(o, id);
    }
    if FileKey(id) in FileKeys(MessageIds(ops)) {
      var o :| o in MessageIds(ops) && FileKey(o) == FileKey(id);
    }
    if NamedLike(ops, id) {
      var o :| o in MessageIds(ops) && o.sender[..4] == id.sender[..4] && o.seqNo == id.seqNo;
      assert FileKey(o) == FileKey(id);
    }
  }

  /**
   Forgetting a conversation leaves every message of every other one exactly as
   it stood, attachment paths apart. A path is lost iff some message of the
   conversation forgotten agrees with this one on four bytes of the sender and
   the sequence number, or the path's key is one of the names dropped.
   */
  lemma ForgettingTouchesOthersIff(
      t: Table, me: Key, settings: map<Text, Text>, peer: Key, other: Key, names: set<Text>,
      before: Message, after: Message)
    requires other != peer && before.id == after.id
    requires Renders(Conversation(t, other), me, settings, before)
    requires var left := settings - FileKeys(MessageIds(Conversation(t, peer))) - names;
             Renders(Conversation(Without(t, peer), other), me, left, after)
    ensures SameMessage(before, after)
    ensures after == before <==>
              !(HasPath(before) && (NamedLike(Conversation(t, peer), before.id) || FileKey(before.id) in names))
    ensures after != before ==> !HasPath(after)
  {
    var ops := Conversation(t, other);
    var left := settings - FileKeys(MessageIds(Conversation(t, peer))) - names;
    ConversationUntouched(t, peer, other);
    RenderingDetermined(ops, me, settings, me, left, before, after);
    TalliesDetermined(ops, me, me, before.id, before.reactions, after.reactions);
    DroppedIffNamedLike(Conversation(t, peer), before.id);
    if before.attachment.Some? {
      assert after.attachment.value == before.attachment.value.(path := after.attachment.value.path);
    }
  }

  /** Clearing a conversation is the same with no names dropped. */
  lemma ClearingTouchesOthersIff(
      t: Table, me: Key, settings: map<Text, Text>, peer: Key, other: Key, before: Message, after: Message)
    requires other != peer && before.id == after.id
    requires Renders(Conversation(t, other), me, settings, before)
    requires var left := settings - FileKeys(MessageIds(Conversation(t, peer)));
             Renders(Conversation(Without(t, peer), other), me, left, after)
    ensures SameMessage(before, after)
    ensures after == before <==> !(HasPath(before) && NamedLike(Conversation(t, peer), before.id))
    ensures after != before ==> !HasPath(after)
  {
    var dropped := FileKeys(MessageIds(Conversation(t, peer)));
    assert settings - dropped - {} == settings - dropped;
    ForgettingTouchesOthersIff(t, me, settings, peer, other, {}, before, after);
  }

  /** A conversation that is one message, by `id`'s own sender, shown as it was sent. */
  lemma LoneFileShown(id: MessageId, f: Frame, me: Key, settings: map<Text, Text>) returns (m: Message)
    requires f.File?
    ensures Renders(map[id := f], me, settings, m) && m.id == id
    ensures HasPath(m) <==> FileKey(id) in settings
  {
    var ops: Ops := map[id := f];
    m := Message(id, f.name, id.sender == me, false, None, [], AttachmentOf(settings, id, f));
    assert forall e :: !IsMark(ops, id, e);
    assert forall emoji: Text, e: MessageId :: !IsLastReact(ops, Slot(id, emoji, e.sender), e);
    assert forall emoji: Text :: Reactors(ops, id, emoji) == {};
  }

  /**
   It happens: two senders whose keys differ only past the fourth byte each send
   a file under the same sequence number, in different conversations. Clearing
   the one conversation loses the path of the other's file.
   */
  lemma ClearingLosesAnothersPath(
      me: Key, peer: Key, other: Key, a: MessageId, b: MessageId, f: Frame, g: Frame, path: Text)
    returns (before: Message, after: Message)
    requires peer != other && a != b && a.sender[..4] == b.sender[..4] && a.seqNo == b.seqNo
    requires f.File? && f.Id() == Some(a) && g.File? && g.Id() == Some(b)
    ensures var t: Table := map[a := StoredOp(peer, f), b := StoredOp(other, g)];
            var settings := map[FileKey(b) := path];
            var left := settings - FileKeys(MessageIds(Conversation(t, peer)));
            Renders(Conversation(t, other), me, settings, before)
            && Renders(Conversation(Without(t, peer), other), me, left, after)
            && before.id == after.id == b && HasPath(before) && !HasPath(after)
  {
    var t: Table := map[a := StoredOp(peer, f), b := StoredOp(other, g)];
    var settings := map[FileKey(b) := path];
    var left := settings - FileKeys(MessageIds(Conversation(t, peer)));
    assert Conversation(t, other) == map[b := g] && Conversation(t, peer) == map[a := f];
    assert a in MessageIds(Conversation(t, peer));
    DroppedIffNamedLike(Conversation(t, peer), b);
    before := LoneFileShown(b, g, me, settings);
    after := LoneFileShown(b, g, me, left);
    ConversationUntouched(t, peer, other);
  }

  /** Two such ids. */
  lemma IdsThatCollide() returns (a: MessageId, b: MessageId)
    ensures a != b && a.sender != b.sender && a.sender[..4] == b.sender[..4] && a.seqNo == b.seqNo
  {
    a := MessageId(Zeros(32), 1, 0);
    b := MessageId(Zeros(31) + [1], 1, 0);
    assert a.sender[31] == 0 && b.sender[31] == 1;
  }
}
