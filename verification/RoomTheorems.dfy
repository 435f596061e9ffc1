/**
 What a verified log says: exactly which logs verify, who is a member, and how
 much of the history a room's head and id pin down.
 */
module RoomTheorems {
  import opened Bytes
  import opened Wrappers
  import opened RoomLog
  import Transcripts

  // ----- a log read as a whole, without replaying it -----

  predicate Touches(e: RoomEntry, who: Key) {
    match e.op
    case Create(_) => false
    case Invite(member) => member == who
    case Kick(member) => member == who
    case Leave => e.author == who
  }

  /** The last entry about `who` invites them. */
  ghost predicate LastInvited(log: seq<RoomEntry>, who: Key) {
    exists i :: 0 <= i < |log| && log[i].op == Invite(who)
      && forall j :: i < j < |log| ==> !Touches(log[j], who)
  }

  ghost predicate IsMember(log: seq<RoomEntry>, who: Key)
    requires log != []
  {
    who == log[0].author || LastInvited(log, who)
  }

  predicate Signed(v: Verifier, e: RoomEntry) {
    v.signature(e).Ok?
  }

  /** Entry `i` is its author's to write, given the entries before it. */
  ghost predicate Authorised(log: seq<RoomEntry>, i: nat)
    requires 0 < i < |log|
  {
    var founder := log[0].author;
    match log[i].op
    case Create(_) => false
    case Invite(_) => log[i].author == founder
    case Kick(member) => log[i].author == founder && member != founder
    case Leave => log[i].author != founder && IsMember(log[..i], log[i].author)
  }

  ghost predicate WellFormed(v: Verifier, log: seq<RoomEntry>) {
    && log != []
    && log[0].prev == GENESIS
    && log[0].op.Create?
    && (forall i :: 0 <= i < |log| ==> Signed(v, log[i]))
    && (forall i :: 0 < i < |log| ==> log[i].prev == v.hash(log[i - 1]))
    && (forall i :: 0 < i < |log| ==> Authorised(log, i))
  }

  ghost predicate Describes(v: Verifier, log: seq<RoomEntry>, room: Room)
    requires log != [] && log[0].op.Create?
  {
    && room.id == v.hash(log[0])
    && room.name == log[0].op.name
    && room.founder == log[0].author
    && room.head == v.hash(log[|log| - 1])
    && room.length == |log|
    && (forall who: Key :: who in room.members <==> IsMember(log, who))
  }

  lemma LastInvitedStep(log: seq<RoomEntry>, who: Key)
    requires log != []
    ensures LastInvited(log, who) <==>
            if Touches(log[|log| - 1], who) then log[|log| - 1].op == Invite(who)
            else LastInvited(log[..|log| - 1], who)
  {
    var n := |log| - 1;
    if LastInvited(log, who) {
      var i :| 0 <= i < |log| && log[i].op == Invite(who) && forall j :: i < j < |log| ==> !Touches(log[j], who);
      if i < n {
        assert log[..n][i].op == Invite(who);
      }
    }
    if Touches(log[n], who) {
      if log[n].op == Invite(who) {
        assert LastInvited(log, who);
      }
    } else if LastInvited(log[..n], who) {
      var i :| 0 <= i < n && log[..n][i].op == Invite(who) && forall j :: i < j < n ==> !Touches(log[..n][j], who);
      assert log[i].op == Invite(who);
      assert forall j :: i < j < n ==> log[..n][j] == log[j];
    }
  }

  lemma WellFormedStep(v: Verifier, log: seq<RoomEntry>)
    requires |log| > 1
    ensures var n := |log| - 1;
            WellFormed(v, log) <==>
              WellFormed(v, log[..n]) && Signed(v, log[n]) && log[n].prev == v.hash(log[n - 1]) && Authorised(log, n)
  {
    var n := |log| - 1;
    var init := log[..n];
    assert forall i :: 0 <= i < n ==> init[i] == log[i];
    forall i | 0 < i < n
      ensures Authorised(log, i) <==> Authorised(init, i)
    {
      assert init[..i] == log[..i];
    }
  }

  /** Replay accepts exactly the well-formed logs, and returns the room they describe. */
  lemma {:induction false} VerifiesIffWellFormed(v: Verifier, log: seq<RoomEntry>)
    ensures Replay(v, log).Ok? <==> WellFormed(v, log)
    ensures Replay(v, log).Ok? ==> Describes(v, log, Replay(v, log).value)
    decreases |log|
  {
    if |log| == 1 {
      forall who: Key
        ensures !LastInvited(log, who) || !log[0].op.Create?
      {
        LastInvitedStep(log, who);
      }
    } else if |log| > 1 {
      var n := |log| - 1;
      VerifiesIffWellFormed(v, log[..n]);
      WellFormedStep(v, log);
      if WellFormed(v, log[..n]) {
        StepAcceptsIff(v, log, Replay(v, log[..n]).value);
      }
    }
  }

  /** Given the room its prefix describes, an entry is accepted iff it is signed, linked and authorised. */
  lemma StepAcceptsIff(v: Verifier, log: seq<RoomEntry>, room: Room)
    requires |log| > 1 && log[0].op.Create? && Describes(v, log[..|log| - 1], room)
    ensures var n := |log| - 1;
            var next := Step(v, room, log[n], n);
            (next.Ok? <==> Signed(v, log[n]) && log[n].prev == v.hash(log[n - 1]) && Authorised(log, n))
            && (next.Ok? ==> Describes(v, log, next.value))
  {
    var n := |log| - 1;
    forall who: Key
      ensures LastInvited(log, who) <==>
              if Touches(log[n], who) then log[n].op == Invite(who) else LastInvited(log[..n], who)
    {
      LastInvitedStep(log, who);
    }
  }

  /**
   Membership: a key is in the room iff it is the founder's or the last entry
   touching it invites it. Every invite and kick is the founder's, every leave
   is its own author's, and the founder is never out.
   */
  lemma MembershipCharacterised(v: Verifier, log: seq<RoomEntry>, room: Room)
    requires Replay(v, log) == Ok(room)
    ensures forall who: Key :: who in room.members <==> who == room.founder || LastInvited(log, who)
    ensures room.founder in room.members
    ensures forall i :: 0 < i < |log| && (log[i].op.Invite? || log[i].op.Kick?) ==> log[i].author == room.founder
    ensures forall i :: 0 < i < |log| && log[i].op.Leave? ==>
              log[i].author != room.founder && IsMember(log[..i], log[i].author)
    ensures forall i :: 0 <= i < |log| ==> Signed(v, log[i])
  {
    VerifiesIffWellFormed(v, log);
    assert WellFormed(v, log);
    forall i | 0 < i < |log|
      ensures log[i].op.Invite? || log[i].op.Kick? ==> log[i].author == room.founder
      ensures log[i].op.Leave? ==> log[i].author != room.founder && IsMember(log[..i], log[i].author)
    {
      assert Authorised(log, i);
    }
  }

  /** Every nonempty prefix of a verified log verifies, to the same room with the founder still in it. */
  lemma PrefixVerifies(v: Verifier, log: seq<RoomEntry>, n: nat)
    requires 0 < n <= |log| && Replay(v, log).Ok?
    ensures Replay(v, log[..n]).Ok?
    ensures var whole, part := Replay(v, log).value, Replay(v, log[..n]).value;
            part.id == whole.id && part.name == whole.name && part.founder == whole.founder
            && part.founder in part.members && part.length == n
  {
    if Replay(v, log[..n]).Err? {
      FailureSticks(v, log, n);
    }
    VerifiesIffWellFormed(v, log);
    VerifiesIffWellFormed(v, log[..n]);
  }

  // ----- what the signatures pin -----

  /** An entry passes exactly with a full-length signature its named author made over its transcript. */
  lemma SignedIff(c: Crypto, e: RoomEntry)
    ensures Signed(With(c), e) <==>
              |e.signature| == 64 && c.validKey(e.author) && c.verifies(e.author, EntryTranscript(e), e.signature)
  {
  }

  /**
   No entry of a verified log is forged. If a signature verifies only over what
   its key's holder said, then every entry was said by the author it names, and
   every invite and kick by the founder.
   */
  lemma VerifiedLogIsSaid(c: Crypto, said: (Key, seq<byte>) -> bool, log: seq<RoomEntry>, room: Room)
    requires forall who, bytes, signature :: c.verifies(who, bytes, signature) ==> said(who, bytes)
    requires Replay(With(c), log) == Ok(room)
    ensures forall i :: 0 <= i < |log| ==> said(log[i].author, EntryTranscript(log[i]))
    ensures forall i :: 0 < i < |log| && (log[i].op.Invite? || log[i].op.Kick?) ==>
              said(room.founder, EntryTranscript(log[i]))
    ensures log[0].op == Create(room.name) && said(room.founder, EntryTranscript(log[0]))
  {
    MembershipCharacterised(With(c), log, room);
    VerifiesIffWellFormed(With(c), log);
    forall i | 0 <= i < |log|
      ensures said(log[i].author, EntryTranscript(log[i]))
    {
      assert Signed(With(c), log[i]);
      SignedIff(c, log[i]);
    }
  }

  // ----- why a log is rejected -----

  /** What is wrong with a signature: its length first, then the key, then the signing. */
  lemma WhyNotSigned(c: Crypto, e: RoomEntry)
    ensures var r := VerifySignature(c, e);
            (|e.signature| != 64 ==> r == Err(SignatureNotSixtyFour))
            && (|e.signature| == 64 && !c.validKey(e.author) ==> r == Err(AuthorNotAKey))
            && ((|e.signature| == 64 && c.validKey(e.author)
                 && !c.verifies(e.author, EntryTranscript(e), e.signature)) ==> r == Err(NotSignedByAuthor))
  {
  }

  /** A log is rejected at its Create for the link, then the signature, then the kind of op. */
  lemma WhyNoStart(v: Verifier, create: RoomEntry)
    ensures var r := Replay(v, [create]);
            (create.prev != GENESIS ==> r == Err(NoCreateAtStart))
            && (create.prev == GENESIS && v.signature(create).Err? ==> r == Err(v.signature(create).error))
            && (create.prev == GENESIS && v.signature(create).Ok? && !create.op.Create? ==> r == Err(NotACreate))
    ensures Replay(v, []) == Err(EmptyLog)
  {
  }

  /** What an op that is not its author's to write is rejected for, read off the entries before it. */
  ghost function Objection(log: seq<RoomEntry>, n: nat): LogError
    requires 0 < n < |log|
  {
    match log[n].op
    case Create(_) => SecondCreate(n)
    case Invite(_) => NotAnAdmin(n)
    case Kick(_) => if log[n].author == log[0].author then KicksFounder(n) else NotAnAdmin(n)
    case Leave => if log[n].author == log[0].author then FounderLeaves(n) else LeavesWithoutBeingIn(n)
  }

  /**
   The first entry replay rejects decides the error, for its link before its
   signature and for its signature before what it does.
   */
  lemma WhyRejected(v: Verifier, log: seq<RoomEntry>, n: nat)
    requires 0 < n < |log| && Replay(v, log[..n]).Ok?
    ensures var linked := log[n].prev == v.hash(log[n - 1]);
            (!linked ==> Replay(v, log) == Err(DoesNotFollow(n)))
            && (linked && !Signed(v, log[n]) ==> Replay(v, log) == Err(v.signature(log[n]).error))
            && (linked && Signed(v, log[n]) && !Authorised(log, n) ==> Replay(v, log) == Err(Objection(log, n)))
  {
    var part := log[..n + 1];
    assert part[..n] == log[..n] && part[n] == log[n];
    VerifiesIffWellFormed(v, log[..n]);
    if Replay(v, part).Err? {
      FailureSticks(v, log, n + 1);
    }
    StepAcceptsIff(v, part, Replay(v, log[..n]).value);
    assert Authorised(part, n) <==> Authorised(log, n);
  }

  // ----- what the hashes pin -----

  /** No two different entries of these logs have the same hash. */
  ghost predicate CollisionFree(v: Verifier, a: seq<RoomEntry>, b: seq<RoomEntry>) {
    forall i, j :: 0 <= i < |a| && 0 <= j < |b| && v.hash(a[i]) == v.hash(b[j]) ==> a[i] == b[j]
  }

  /**
   It is enough that the hash function collides on no two different preimages
   of these entries: the entry layout leaves no second way to read one.
   */
  lemma CollisionFreeFromBytes(c: Crypto, a: seq<RoomEntry>, b: seq<RoomEntry>)
    requires forall i, j :: 0 <= i < |a| && 0 <= j < |b| && c.hash(Preimage(a[i])) == c.hash(Preimage(b[j]))
               ==> Preimage(a[i]) == Preimage(b[j])
    ensures CollisionFree(With(c), a, b)
  {
    var v := With(c);
    forall i, j | 0 <= i < |a| && 0 <= j < |b| && v.hash(a[i]) == v.hash(b[j])
      ensures a[i] == b[j]
    {
      assert c.hash(Preimage(a[i])) == c.hash(Preimage(b[j]));
      Transcripts.PreimageInjective(a[i], b[j]);
    }
  }

  /**
   The head pins the whole history. When one log is longer the chains walk back
   to the shorter one's Create, which cannot also be a later entry of the other.
   */
  lemma {:induction false} HeadPinsHistory(v: Verifier, a: seq<RoomEntry>, b: seq<RoomEntry>)
    requires Replay(v, a).Ok? && Replay(v, b).Ok? && CollisionFree(v, a, b)
    requires Replay(v, a).value.head == Replay(v, b).value.head
    ensures a == b
  {
    VerifiesIffWellFormed(v, a);
    VerifiesIffWellFormed(v, b);
    SameHeadSameLog(v, a, b);
  }

  lemma {:induction false} SameHeadSameLog(v: Verifier, a: seq<RoomEntry>, b: seq<RoomEntry>)
    requires WellFormed(v, a) && WellFormed(v, b) && CollisionFree(v, a, b)
    requires v.hash(a[|a| - 1]) == v.hash(b[|b| - 1])
    ensures a == b
    decreases |a|
  {
    var m, n := |a| - 1, |b| - 1;
    assert a[m] == b[n];
    assert m > 0 ==> Authorised(a, m);
    assert n > 0 ==> Authorised(b, n);
    assert a == a[..m] + [a[m]] && b == b[..n] + [b[n]];
    if m > 0 {
      WellFormedStep(v, a);
      WellFormedStep(v, b);
      SameHeadSameLog(v, a[..m], b[..n]);
    }
  }

  /** The id pins the Create, and with it the founder and the name. */
  lemma {:induction false} IdPinsCreate(v: Verifier, a: seq<RoomEntry>, b: seq<RoomEntry>)
    requires Replay(v, a).Ok? && Replay(v, b).Ok? && CollisionFree(v, a, b)
    requires Replay(v, a).value.id == Replay(v, b).value.id
    ensures a[0] == b[0]
    ensures Replay(v, a).value.founder == Replay(v, b).value.founder
    ensures Replay(v, a).value.name == Replay(v, b).value.name
  {
    VerifiesIffWellFormed(v, a);
    VerifiesIffWellFormed(v, b);
  }

  /** After the Create, no two different entries follow the same one. */
  ghost predicate ForkFree(a: seq<RoomEntry>, b: seq<RoomEntry>) {
    forall i, j :: 0 < i < |a| && 0 < j < |b| && a[i].prev == b[j].prev ==> a[i] == b[j]
  }

  /** Without forks, two logs of one room differ only in how far they go. */
  lemma {:induction false} PrefixOrdered(v: Verifier, a: seq<RoomEntry>, b: seq<RoomEntry>)
    requires Replay(v, a).Ok? && Replay(v, b).Ok? && CollisionFree(v, a, b) && ForkFree(a, b)
    requires Replay(v, a).value.id == Replay(v, b).value.id
    ensures |a| <= |b| ==> a <= b
    ensures |b| <= |a| ==> b <= a
  {
    IdPinsCreate(v, a, b);
    VerifiesIffWellFormed(v, a);
    VerifiesIffWellFormed(v, b);
    var n := if |a| <= |b| then |a| else |b|;
    for k := 1 to n
      invariant forall i :: 0 <= i < k ==> a[i] == b[i]
    {
      assert a[k].prev == v.hash(a[k - 1]) == b[k].prev;
    }
  }
}
