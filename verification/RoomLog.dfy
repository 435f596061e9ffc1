/**
 Membership logs: the layout of an entry, what makes one acceptable after the
 entries before it, and the replay that turns a log into a room.
 */
module RoomLog {
  import opened Bytes
  import opened Wrappers
  import opened Postcard

  type RoomId = Key

  datatype RoomOp =
    | Create(name: Text)
    | Invite(member: Key)
    | Kick(member: Key)
    | Leave

  datatype RoomEntry = RoomEntry(prev: Key, author: Key, tsMs: u64, op: RoomOp, signature: seq<byte>)

  /** The primitives the log rests on, left abstract: BLAKE3, and strict Ed25519 verification. */
  datatype Crypto = Crypto(
    hash: seq<byte> -> Key,
    validKey: Key -> bool,
    verifies: (Key, seq<byte>, seq<byte>) -> bool)

  const ENTRY_CONTEXT := Ascii("wicara room entry v1")
  const GENESIS: Key := Zeros(32)

  function PutOp(op: RoomOp): seq<byte> {
    match op
    case Create(name) => [0] + (Varint(|name|) + name)
    case Invite(member) => [1] + member
    case Kick(member) => [2] + member
    case Leave => [3]
  }

  function Transcript(prev: Key, author: Key, tsMs: u64, op: RoomOp): seq<byte> {
    ENTRY_CONTEXT + (prev + (author + (U64Bytes(tsMs) + PutOp(op))))
  }

  function EntryTranscript(e: RoomEntry): seq<byte> {
    Transcript(e.prev, e.author, e.tsMs, e.op)
  }

  /** What the entry's hash is taken over: the transcript, then the signature. */
  function Preimage(e: RoomEntry): seq<byte> {
    EntryTranscript(e) + e.signature
  }

  /** `RoomEntry::hash`. */
  function EntryHash(c: Crypto, e: RoomEntry): Key {
    c.hash(Preimage(e))
  }

  datatype LogError =
    | EmptyLog
    | NoCreateAtStart
    | NotACreate
    | SignatureNotSixtyFour
    | AuthorNotAKey
    | NotSignedByAuthor
    | DoesNotFollow(n: nat)
    | SecondCreate(n: nat)
    | NotAnAdmin(n: nat)
    | KicksFounder(n: nat)
    | LeavesWithoutBeingIn(n: nat)
    | FounderLeaves(n: nat)

  function VerifySignature(c: Crypto, e: RoomEntry): Result<(), LogError> {
    if |e.signature| != 64 then Err(SignatureNotSixtyFour)
    else if !c.validKey(e.author) then Err(AuthorNotAKey)
    else if !c.verifies(e.author, EntryTranscript(e), e.signature) then Err(NotSignedByAuthor)
    else Ok(())
  }

  /**
   The two things replay asks of an entry. Replay looks no further into the
   bytes than this; `With` supplies both from the primitives.
   */
  datatype Verifier = Verifier(
    hash: RoomEntry -> Key,
    signature: RoomEntry -> Result<(), LogError>)

  function With(c: Crypto): Verifier {
    Verifier(e => EntryHash(c, e), e => VerifySignature(c, e))
  }

  /** What replaying a log comes to. `length` is how many entries it had. */
  datatype Room = Room(
    id: RoomId,
    name: Text,
    founder: Key,
    members: set<Key>,
    head: Key,
    length: nat)
  {
    predicate IsAdmin(who: Key) {
      founder == who
    }
  }

  // ----- replay, entry by entry -----

  function Start(v: Verifier, create: RoomEntry): Result<Room, LogError> {
    if create.prev != GENESIS then Err(NoCreateAtStart) else
    var _ :- v.signature(create);
    if !create.op.Create? then Err(NotACreate) else
    var id := v.hash(create);
    Ok(Room(id, create.op.name, create.author, {create.author}, id, 1))
  }

  function Members(room: Room, e: RoomEntry, n: nat): Result<set<Key>, LogError> {
    match e.op
    case Create(_) => Err(SecondCreate(n))
    case Invite(member) =>
      if !room.IsAdmin(e.author) then Err(NotAnAdmin(n)) else
      Ok(room.members + {member})
    case Kick(member) =>
      if !room.IsAdmin(e.author) then Err(NotAnAdmin(n)) else
      if member == room.founder then Err(KicksFounder(n)) else
      Ok(room.members - {member})
    case Leave =>
      if e.author !in room.members then Err(LeavesWithoutBeingIn(n)) else
      if e.author == room.founder then Err(FounderLeaves(n)) else
      Ok(room.members - {e.author})
  }

  function Step(v: Verifier, room: Room, e: RoomEntry, n: nat): Result<Room, LogError> {
    if e.prev != room.head then Err(DoesNotFollow(n)) else
    var _ :- v.signature(e);
    var members :- Members(room, e, n);
    Ok(room.(members := members, head := v.hash(e), length := room.length + 1))
  }

  /** The room a log replays to, as a recursion on its last entry. */
  function Replay(v: Verifier, log: seq<RoomEntry>): Result<Room, LogError> {
    if log == [] then Err(EmptyLog)
    else if |log| == 1 then Start(v, log[0])
    else
      var n := |log| - 1;
      var room :- Replay(v, log[..n]);
      Step(v, room, log[n], n)
  }

  /** An entry replay rejects condemns every log that goes on from it. */
  lemma {:induction false} FailureSticks(v: Verifier, log: seq<RoomEntry>, n: nat)
    requires 0 < n <= |log| && Replay(v, log[..n]).Err?
    ensures Replay(v, log) == Replay(v, log[..n])
    decreases |log|
  {
    if n < |log| {
      var m := |log| - 1;
      assert log[..m][..n] == log[..n];
      FailureSticks(v, log[..m], n);
    } else {
      assert log[..n] == log;
    }
  }

  /** `verify_log`: one pass over the entries, up to the first that replay rejects. */
  method VerifyLog(v: Verifier, entries: seq<RoomEntry>) returns (r: Result<Room, LogError>)
    ensures r == Replay(v, entries)
  {
    if entries == [] {
      return Err(EmptyLog);
    }
    var first := Start(v, entries[0]);
    if first.Err? {
      FailureSticks(v, entries, 1);
      return Err(first.error);
    }
    var room := first.value;
    for n := 1 to |entries|
      invariant Replay(v, entries[..n]) == Ok(room)
    {
      assert entries[..n + 1][..n] == entries[..n];
      var next := Step(v, room, entries[n], n);
      if next.Err? {
        FailureSticks(v, entries, n + 1);
        return Err(next.error);
      }
      room := next.value;
    }
    assert entries[..|entries|] == entries;
    return Ok(room);
  }
}
