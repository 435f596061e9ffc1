/**
 The client's protocol steps: accepting an op, taking a room log, appending to
 one, and keeping the room cache in step with what is on disk.
 */
module Client {
  import opened Bytes
  import opened Wrappers
  import opened RoomLog
  import opened RoomReplicas
  import opened Wire
  import opened MessageStore
  import RoomTheorems

  // ----- the steps, as functions of the client's state -----

  /** `logs` is the stored room table, `rooms` the cache of replayed rooms. */
  datatype Client = Client(
    ops: Table,
    contacts: set<Key>,
    logs: map<RoomId, Log>,
    rooms: map<RoomId, Room>)

  /** What asking the hub for a log comes to. */
  datatype HubReply = NoHub | Unreachable | Reply(log: Log)

  /**
   What the world does during one step: the hub's answer, how far each write
   gets, and whether the conversation can be read back for display.
   */
  datatype Env = Env(hub: HubReply, saving: Fault, recording: Fault, refolds: bool)

  datatype ClientError =
    | NoHubConfigured
    | HubFailed
    | BadLog(why: LogError)
    | WrongRoom
    | NotInThatRoom
    | DiskError
    | RefoldFailed
    | NotTheSenders
    | SenderNotMember
    | SelfNotMember
    | UnknownRoom

  /** The log on disk under `id`, with a fault in the middle of the two writes. */
  function SaveLog(c: Client, id: RoomId, log: Log, fault: Fault): Client {
    match fault
    case BeforeContact => c
    case BeforeRow => c.(contacts := c.contacts + {id})
    case NoFault => c.(contacts := c.contacts + {id}, logs := c.logs[id := log])
  }

  function Show(c: Client, room: Room): Client {
    c.(rooms := c.rooms[room.id := room])
  }

  /** A refold that fails is an error, though everything it would show is already stored. */
  function Refolded(refolds: bool): Result<(), ClientError> {
    if refolds then Ok(()) else Err(RefoldFailed)
  }

  /** `fetch_room`: whatever the hub has, if it verifies to this id, long or short. */
  function Fetch(v: Verifier, c: Client, id: RoomId, env: Env): (Client, Result<(), ClientError>) {
    match env.hub
    case NoHub => (c, Err(NoHubConfigured))
    case Unreachable => (c, Err(HubFailed))
    case Reply(log) =>
      match Replay(v, log)
      case Err(why) => (c, Err(BadLog(why)))
      case Ok(room) =>
        if room.id != id then (c, Err(WrongRoom))
        else if !env.saving.NoFault? then (SaveLog(c, id, log, env.saving), Err(DiskError))
        else (Show(SaveLog(c, id, log, NoFault), room), Refolded(env.refolds))
  }

  function HeldLength(c: Client, id: RoomId): nat {
    if id in c.rooms then c.rooms[id].length else 0
  }

  /** `absorb_room`: takes a longer log that verifies to this room, which must be known or include `me`. */
  function Absorb(v: Verifier, me: Key, c: Client, id: RoomId, log: Log, env: Env)
    : (Client, Result<(), ClientError>)
  {
    if log == [] then Fetch(v, c, id, env)
    else
      match Replay(v, log)
      case Err(why) => (c, Err(BadLog(why)))
      case Ok(room) =>
        if room.id != id then (c, Err(WrongRoom))
        else if id !in c.rooms && me !in room.members then (c, Err(NotInThatRoom))
        else if room.length <= HeldLength(c, id) then (c, Ok(()))
        else if !env.saving.NoFault? then (SaveLog(c, id, log, env.saving), Err(DiskError))
        else (Show(SaveLog(c, id, log, NoFault), room), Refolded(env.refolds))
  }

  predicate IsMember(c: Client, room: RoomId, who: Key) {
    room in c.rooms && who in c.rooms[room].members
  }

  /** Recording under a disk fault: an error leaves at most the contact behind. */
  function RecordUnder(c: Client, peer: Key, f: Frame, fault: Fault): (Client, Result<bool, ClientError>) {
    match f.Id()
    case None => (c, Ok(false))
    case Some(id) =>
      match fault
      case BeforeContact => (c, Err(DiskError))
      case BeforeRow => (c.(contacts := c.contacts + {peer}), Err(DiskError))
      case NoFault =>
        (c.(contacts := c.contacts + {peer}, ops := RecordOp(c.ops, Arrival(peer, f))), Ok(id !in c.ops))
  }

  /** What a room op must pass: both ends are members, the hub being consulted when the author is not yet one. */
  function Entitle(v: Verifier, me: Key, c: Client, sender: Key, f: Frame, env: Env)
    : (Client, Result<(), ClientError>)
  {
    if !f.InRoom? then (c, Ok(()))
    else
      var (next, fetched) := if IsMember(c, f.room, sender) then (c, Ok(())) else Fetch(v, c, f.room, env);
      if fetched.Err? then (next, fetched)
      else if !IsMember(next, f.room, sender) then (next, Err(SenderNotMember))
      else if !IsMember(next, f.room, me) then (next, Err(SelfNotMember))
      else (next, Ok(()))
  }

  /** `accept`: where the op was filed, unless it was there already. */
  function Accept(v: Verifier, me: Key, c: Client, sender: Key, f: Frame, env: Env)
    : (Client, Result<Option<Key>, ClientError>)
  {
    if f.RoomUpdated? then (Absorb(v, me, c, f.room, f.log, env).0, Ok(None))
    else if f.Id().None? then (c, Ok(None))
    else if f.Id().value.sender != sender then (c, Err(NotTheSenders))
    else
      var (entitled, allowed) := Entitle(v, me, c, sender, f, env);
      if allowed.Err? then (entitled, Err(allowed.error))
      else
        var conversation := f.Conversation(sender);
        var (recorded, isNew) := RecordUnder(entitled, conversation, f.UnwrapRoom(), env.recording);
        if isNew.Err? then (recorded, Err(isNew.error))
        else (recorded, Ok(if isNew.value then Some(conversation) else None))
  }

  // ----- what the steps keep -----

  /** Every cached room is the replay of the log stored under its id. */
  ghost predicate CacheAgrees(v: Verifier, c: Client) {
    forall id :: id in c.rooms ==>
      id in c.logs && Replay(v, c.logs[id]) == Ok(c.rooms[id]) && c.rooms[id].id == id
  }

  lemma FetchKeepsAgreement(v: Verifier, c: Client, id: RoomId, env: Env)
    requires CacheAgrees(v, c)
    ensures CacheAgrees(v, Fetch(v, c, id, env).0)
  {
  }

  lemma AbsorbKeepsAgreement(v: Verifier, me: Key, c: Client, id: RoomId, log: Log, env: Env)
    requires CacheAgrees(v, c)
    ensures CacheAgrees(v, Absorb(v, me, c, id, log, env).0)
  {
  }

  lemma FetchOnlyTouchesRooms(v: Verifier, c: Client, id: RoomId, env: Env)
    ensures Fetch(v, c, id, env).0.ops == c.ops
  {
  }

  lemma EntitleKeepsAgreement(v: Verifier, me: Key, c: Client, sender: Key, f: Frame, env: Env)
    ensures Entitle(v, me, c, sender, f, env).0.ops == c.ops
    ensures CacheAgrees(v, c) ==> CacheAgrees(v, Entitle(v, me, c, sender, f, env).0)
  {
    if f.InRoom? {
      FetchOnlyTouchesRooms(v, c, f.room, env);
      if CacheAgrees(v, c) {
        FetchKeepsAgreement(v, c, f.room, env);
      }
    }
  }

  /** Recording touches neither logs nor cache, and adds at most the op itself. */
  lemma RecordUnderAdds(c: Client, peer: Key, f: Frame, fault: Fault)
    ensures var (after, r) := RecordUnder(c, peer, f, fault);
            after.logs == c.logs && after.rooms == c.rooms && Added(c, after, peer, f, r.Ok?, r.Ok? && r.value)
  {
  }

  /**
   `after` has `c`'s ops, and `f` filed with `peer` under its own id if that was
   new; `ok` means the id is there, an error that nothing was added.
   */
  ghost predicate Added(c: Client, after: Client, peer: Key, f: Frame, ok: bool, isNew: bool) {
    var id := f.Id();
    && (forall o :: o in c.ops ==> o in after.ops && after.ops[o] == c.ops[o])
    && (ok && id.Some? ==> id.value in after.ops)
    && (isNew ==> ok && id.Some? && id.value !in c.ops && after.ops.Keys == c.ops.Keys + {id.value}
                  && after.ops[id.value] == StoredOp(peer, f))
    && (!isNew ==> after.ops == c.ops)
  }

  lemma AbsorbOnlyTouchesRooms(v: Verifier, me: Key, c: Client, id: RoomId, log: Log, env: Env)
    ensures Absorb(v, me, c, id, log, env).0.ops == c.ops
  {
  }

  /**
   Every step keeps the cache in agreement with the disk. Accepting without an
   error means the op is on disk; an error means nothing was recorded; the
   conversation is reported exactly when the op is new.
   */
  lemma AcceptKeeps(v: Verifier, me: Key, c: Client, sender: Key, f: Frame, env: Env)
    ensures var (after, r) := Accept(v, me, c, sender, f, env);
            (CacheAgrees(v, c) ==> CacheAgrees(v, after))
            && Added(c, after, f.Conversation(sender), f.UnwrapRoom(), r.Ok?, r.Ok? && r.value.Some?)
            && (r.Ok? && r.value.Some? ==> r.value.value == f.Conversation(sender))
  {
    if f.RoomUpdated? {
      AbsorbOnlyTouchesRooms(v, me, c, f.room, f.log, env);
      if CacheAgrees(v, c) {
        AbsorbKeepsAgreement(v, me, c, f.room, f.log, env);
      }
    } else if f.Id().Some? && f.Id().value.sender == sender {
      UnwrapKeepsId(f);
      EntitleKeepsAgreement(v, me, c, sender, f, env);
      var entitled := Entitle(v, me, c, sender, f, env).0;
      RecordUnderAdds(entitled, f.Conversation(sender), f.UnwrapRoom(), env.recording);
    }
  }

  /** For a room already known, taking a log is the replica rule: the strictly longer one wins. */
  lemma AbsorbIsLongerWins(v: Verifier, me: Key, c: Client, id: RoomId, log: Log, env: Env)
    requires CacheAgrees(v, c) && id in c.rooms && log != [] && env.saving.NoFault?
    ensures var after := Absorb(v, me, c, id, log, env).0;
            id in after.rooms && after.logs[id] == LongerWins(v, id, c.logs[id], log)
  {
    LengthIsReplayed(v, c.logs[id]);
    if Replay(v, log).Ok? {
      LengthIsReplayed(v, log);
    }
  }

  /**
   Fetching from the hub has no such rule: it stores whatever verifies. It does
   what the replica rule would exactly when the hub's log is longer than the one
   held, or is the one held.
   */
  lemma FetchIsLongerWinsIff(v: Verifier, c: Client, id: RoomId, env: Env)
    requires CacheAgrees(v, c) && id in c.rooms && env.saving.NoFault?
    requires env.hub.Reply? && Speaks(v, id, env.hub.log)
    ensures var after := Fetch(v, c, id, env).0;
            after.logs[id] == LongerWins(v, id, c.logs[id], env.hub.log)
            <==> |env.hub.log| > |c.logs[id]| || env.hub.log == c.logs[id]
  {
  }

  /**
   A hub that serves any shorter part of the log held is believed: the log on
   disk shrinks to what was served, which is never what the replica rule does.
   */
  lemma FetchingAPrefixShortens(v: Verifier, c: Client, id: RoomId, n: nat, env: Env)
    requires CacheAgrees(v, c) && id in c.rooms && 0 < n < |c.logs[id]|
    requires env.hub == Reply(c.logs[id][..n]) && env.saving.NoFault?
    ensures var after := Fetch(v, c, id, env).0;
            id in after.rooms && after.logs[id] == c.logs[id][..n] && after.rooms[id].length == n
            && CacheAgrees(v, after) && after.logs[id] != LongerWins(v, id, c.logs[id], env.hub.log)
  {
    RoomTheorems.PrefixVerifies(v, c.logs[id], n);
  }

  /** With it goes a kick: served the log as it was before, the client has the member back. */
  lemma FetchingAPrefixUndoesKick(v: Verifier, c: Client, id: RoomId, member: Key, env: Env)
    requires CacheAgrees(v, c) && id in c.rooms && env.saving.NoFault?
    requires var n := |c.logs[id]| - 1;
             n > 0 && c.logs[id][n].op == Kick(member) && env.hub == Reply(c.logs[id][..n])
             && Replay(v, c.logs[id][..n]).Ok? && member in Replay(v, c.logs[id][..n]).value.members
    ensures !IsMember(c, id, member) && IsMember(Fetch(v, c, id, env).0, id, member)
  {
    FetchingAPrefixShortens(v, c, id, |c.logs[id]| - 1, env);
  }

  /**
   For a room not yet known, two logs of it end the same in either order exactly
   when they are one log, or the longer one can be taken first, or the shorter
   one cannot; of two equally long ones, exactly when not both can be.
   */
  lemma UnknownRoomOrderMattersIff(v: Verifier, me: Key, c: Client, id: RoomId, a: Log, b: Log, env: Env)
    requires id !in c.rooms && env.saving.NoFault? && |a| >= |b|
    requires Speaks(v, id, a) && Speaks(v, id, b)
    ensures var inA, inB := me in Replay(v, a).value.members, me in Replay(v, b).value.members;
            Absorb(v, me, Absorb(v, me, c, id, a, env).0, id, b, env).0
            == Absorb(v, me, Absorb(v, me, c, id, b, env).0, id, a, env).0
            <==> a == b || if |a| > |b| then inA || !inB else !(inA && inB)
  {
    LengthIsReplayed(v, a);
    LengthIsReplayed(v, b);
    var onlyA, onlyB := TakeLog(v, c, id, a), TakeLog(v, c, id, b);
    assert onlyA.logs[id] == a && onlyB.logs[id] == b;
    assert TakeLog(v, onlyB, id, a) == onlyA;
  }

  /** The state after a log is stored and shown. */
  function TakeLog(v: Verifier, c: Client, id: RoomId, log: Log): Client
    requires Speaks(v, id, log)
  {
    Show(SaveLog(c, id, log, NoFault), Replay(v, log).value)
  }

  /** One such pair: a log that has `me` out is taken only if an earlier one that has `me` in came first. */
  lemma {:induction false} UnknownRoomOrderMatters(
      v: Verifier, me: Key, c: Client, id: RoomId, kicked: Log, joined: Log, env: Env)
    requires id !in c.rooms && env.saving.NoFault? && |kicked| > |joined|
    requires Speaks(v, id, kicked) && Speaks(v, id, joined)
    requires me !in Replay(v, kicked).value.members && me in Replay(v, joined).value.members
    ensures Absorb(v, me, Absorb(v, me, c, id, kicked, env).0, id, joined, env).0.logs[id] == joined
    ensures Absorb(v, me, Absorb(v, me, c, id, joined, env).0, id, kicked, env).0.logs[id] == kicked
  {
    LengthIsReplayed(v, kicked);
    LengthIsReplayed(v, joined);
  }

  lemma {:induction false} LengthIsReplayed(v: Verifier, log: Log)
    requires Replay(v, log).Ok?
    ensures Replay(v, log).value.length == |log|
    decreases |log|
  {
    if |log| > 1 {
      LengthIsReplayed(v, log[..|log| - 1]);
    }
  }

  /** The checks passed only if replaying the stored log puts both sender and receiver in the room. */
  lemma EntitledAreMembers(v: Verifier, me: Key, c: Client, sender: Key, f: Frame, env: Env)
    requires CacheAgrees(v, c) && f.InRoom? && Entitle(v, me, c, sender, f, env).1.Ok?
    ensures var after := Entitle(v, me, c, sender, f, env).0;
            f.room in after.logs && Replay(v, after.logs[f.room]).Ok?
            && sender in Replay(v, after.logs[f.room]).value.members
            && me in Replay(v, after.logs[f.room]).value.members
  {
    EntitleKeepsAgreement(v, me, c, sender, f, env);
  }

  /**
   An op newly stored was minted under the authenticated sender's own key, and
   if it is a room's, replaying that room's stored log puts its sender and this
   endpoint in it.
   */
  lemma StoredOpsAreEntitled(v: Verifier, me: Key, c: Client, sender: Key, f: Frame, env: Env)
    requires CacheAgrees(v, c) && Accept(v, me, c, sender, f, env).0.ops != c.ops
    ensures f.Id().Some? && f.Id().value.sender == sender
    ensures var after := Accept(v, me, c, sender, f, env).0;
            f.InRoom? ==>
              f.room in after.logs && Replay(v, after.logs[f.room]).Ok?
              && sender in Replay(v, after.logs[f.room]).value.members
              && me in Replay(v, after.logs[f.room]).value.members
  {
    if f.RoomUpdated? {
      AbsorbOnlyTouchesRooms(v, me, c, f.room, f.log, env);
    } else if f.Id().Some? && f.Id().value.sender == sender {
      var (entitled, allowed) := Entitle(v, me, c, sender, f, env);
      EntitleKeepsAgreement(v, me, c, sender, f, env);
      RecordUnderAdds(entitled, f.Conversation(sender), f.UnwrapRoom(), env.recording);
      if f.InRoom? && allowed.Ok? {
        EntitledAreMembers(v, me, c, sender, f, env);
      }
    }
  }

  // ----- exactly when each step does its work -----

  /** The hub's log is stored and shown iff it verifies to this room and the disk is willing. */
  lemma FetchTakesIff(v: Verifier, c: Client, id: RoomId, env: Env)
    ensures var (after, r) := Fetch(v, c, id, env);
            var good := env.hub.Reply? && Speaks(v, id, env.hub.log);
            after.ops == c.ops
            && (if good && env.saving.NoFault?
                then after.logs == c.logs[id := env.hub.log]
                     && after.rooms == c.rooms[id := Replay(v, env.hub.log).value]
                     && after.contacts == c.contacts + {id}
                else after.logs == c.logs && after.rooms == c.rooms)
            && (r.Ok? <==> good && env.saving.NoFault? && env.refolds)
            && (env.hub.NoHub? ==> r == Err(NoHubConfigured)) && (env.hub.Unreachable? ==> r == Err(HubFailed))
  {
  }

  /**
   A log handed over is stored and shown iff it verifies to this room, the room
   is known or includes `me`, it is longer than what is held, and the disk is
   willing. It is no error to be handed one that is not longer.
   */
  lemma AbsorbTakesIff(v: Verifier, me: Key, c: Client, id: RoomId, log: Log, env: Env)
    requires log != []
    ensures var (after, r) := Absorb(v, me, c, id, log, env);
            var allowed := Speaks(v, id, log) && (id in c.rooms || me in Replay(v, log).value.members);
            var longer := id in c.rooms ==> |log| > c.rooms[id].length;
            after.ops == c.ops
            && (if allowed && longer && env.saving.NoFault?
                then after.logs == c.logs[id := log] && after.rooms == c.rooms[id := Replay(v, log).value]
                else after.logs == c.logs && after.rooms == c.rooms)
            && (r.Ok? <==> allowed && (longer ==> env.saving.NoFault? && env.refolds))
  {
    if Replay(v, log).Ok? {
      LengthIsReplayed(v, log);
    }
  }

  /** An op under anybody's key but the sender's changes nothing. */
  lemma ForgedOpIsRefused(v: Verifier, me: Key, c: Client, sender: Key, f: Frame, env: Env)
    requires f.Id().Some? && f.Id().value.sender != sender
    ensures Accept(v, me, c, sender, f, env) == (c, Err(NotTheSenders))
  {
  }

  /** What recording an op under its conversation comes to, new or not. */
  ghost predicate Filed(
    c: Client, after: Client, r: Result<Option<Key>, ClientError>, id: MessageId, peer: Key, f: Frame)
  {
    if id in c.ops then after.ops == c.ops && r == Ok(None)
    else after.ops == c.ops[id := StoredOp(peer, f)] && r == Ok(Some(peer))
  }

  /** A direct op of the sender's is filed with the sender iff the disk is willing; the rooms are not touched. */
  lemma DirectOpStoredIff(v: Verifier, me: Key, c: Client, sender: Key, f: Frame, env: Env)
    requires !f.InRoom? && f.Id().Some? && f.Id().value.sender == sender
    ensures var (after, r) := Accept(v, me, c, sender, f, env);
            after.logs == c.logs && after.rooms == c.rooms
            && (if env.recording.NoFault? then Filed(c, after, r, f.Id().value, sender, f)
                else after.ops == c.ops && r == Err(DiskError))
  {
  }

  /**
   A member's op is filed in the room, without its wrapper, iff this endpoint is
   in the room too and the disk is willing. Nothing is asked of the hub: no log
   and no cached room changes, whatever it would have answered.
   */
  lemma MemberOpStoredIff(v: Verifier, me: Key, c: Client, sender: Key, f: Frame, env: Env)
    requires f.InRoom? && f.Id().Some? && f.Id().value.sender == sender && IsMember(c, f.room, sender)
    ensures var (after, r) := Accept(v, me, c, sender, f, env);
            after.logs == c.logs && after.rooms == c.rooms
            && (if !IsMember(c, f.room, me) then after == c && r == Err(SelfNotMember)
                else if env.recording.NoFault? then Filed(c, after, r, f.Id().value, f.room, f.op)
                else after.ops == c.ops && r == Err(DiskError))
  {
    UnwrapKeepsId(f);
  }

  /**
   An op from someone the cache does not put in the room sends the client to the
   hub, and what it finds there replaces the log held. The op is then stored iff
   the hub's log verifies to that room with both ends in it, and every write
   succeeds.
   */
  lemma OutsiderStoredIff(v: Verifier, me: Key, c: Client, sender: Key, f: Frame, env: Env)
    requires f.InRoom? && f.Id().Some? && f.Id().value.sender == sender && f.Id().value !in c.ops
    requires !IsMember(c, f.room, sender)
    ensures var (after, r) := Accept(v, me, c, sender, f, env);
            (f.Id().value in after.ops <==>
               env.hub.Reply? && Speaks(v, f.room, env.hub.log)
               && sender in Replay(v, env.hub.log).value.members && me in Replay(v, env.hub.log).value.members
               && env.saving.NoFault? && env.refolds && env.recording.NoFault?)
            && (f.Id().value in after.ops ==>
                  after.ops[f.Id().value] == StoredOp(f.room, f.op) && r == Ok(Some(f.room)))
            && (env.hub.Reply? && Speaks(v, f.room, env.hub.log) && env.saving.NoFault? ==>
                  f.room in after.logs && after.logs[f.room] == env.hub.log)
  {
    UnwrapKeepsId(f);
    FetchOnlyTouchesRooms(v, c, f.room, env);
    var (entitled, allowed) := Entitle(v, me, c, sender, f, env);
    if allowed.Ok? {
      RecordUnderAdds(entitled, f.Conversation(sender), f.UnwrapRoom(), env.recording);
    }
  }

  /** A log that comes with no op is taken as it may be; nothing is answered for either way. */
  lemma LogsAndGreetingsAnswerNothing(v: Verifier, me: Key, c: Client, sender: Key, f: Frame, env: Env)
    requires f.Id().None?
    ensures var (after, r) := Accept(v, me, c, sender, f, env);
            r == Ok(None) && after.ops == c.ops
            && (f.RoomUpdated? ==> after == Absorb(v, me, c, f.room, f.log, env).0) && (!f.RoomUpdated? ==> after == c)
  {
    if f.RoomUpdated? {
      AbsorbOnlyTouchesRooms(v, me, c, f.room, f.log, env);
    }
  }

  // ----- appending -----

  /** `RoomEntry::new` under this endpoint's identity. */
  function Signed(sign: seq<byte> -> seq<byte>, me: Key, prev: Key, now: u64, op: RoomOp): RoomEntry {
    RoomEntry(prev, me, now, op, sign(Transcript(prev, me, now, op)))
  }

  /** `me` is a key, and `sign` signs for it: full-length signatures that verify under it. */
  ghost predicate Signs(k: Crypto, me: Key, sign: seq<byte> -> seq<byte>) {
    k.validKey(me) && forall bytes :: |sign(bytes)| == 64 && k.verifies(me, bytes, sign(bytes))
  }

  /** An entry this endpoint makes passes the check every replay of it will put it to. */
  lemma SignedPasses(k: Crypto, sign: seq<byte> -> seq<byte>, me: Key, prev: Key, now: u64, op: RoomOp)
    requires Signs(k, me, sign)
    ensures With(k).signature(Signed(sign, me, prev, now, op)).Ok?
  {
    RoomTheorems.SignedIff(k, Signed(sign, me, prev, now, op));
  }

  function Head(v: Verifier, log: Log): Key {
    if log == [] then GENESIS else v.hash(log[|log| - 1])
  }

  function Appended(v: Verifier, sign: seq<byte> -> seq<byte>, me: Key, log: Log, now: u64, op: RoomOp): Log {
    log + [Signed(sign, me, Head(v, log), now, op)]
  }

  /** The stored log an entry is appended to; none yet for a room being created. */
  function LogUnder(logs: map<RoomId, Log>, room: Option<RoomId>): Log {
    if room.Some? && room.value in logs then logs[room.value] else []
  }

  /** Whether the hub takes the log published to it, if there is a hub. */
  datatype Publishing = NoRegistry | Taken | NotTaken

  /** How far the write gets, whether the room can be read back, and what the hub says. */
  datatype AppendEnv = AppendEnv(saving: Fault, refolds: bool, publishing: Publishing)

  /** What an append hands on for delivery, and to whom. */
  datatype Notice = Notice(room: RoomId, log: Log, told: set<Key>)

  function MembersOf(v: Verifier, log: Log): set<Key> {
    var r := Replay(v, log);
    if r.Ok? then r.value.members else {}
  }

  /**
   `append`: to a stored log, or to nothing when the room is being created. The
   log is stored and shown before the hub is asked, and nobody is told of an
   entry the hub refused.
   */
  function Append(
      v: Verifier, sign: seq<byte> -> seq<byte>, me: Key, c: Client,
      room: Option<RoomId>, op: RoomOp, now: u64, env: AppendEnv)
    : (Client, Result<Notice, ClientError>)
  {
    if room.Some? && room.value !in c.logs then (c, Err(UnknownRoom)) else
    var entries := Appended(v, sign, me, LogUnder(c.logs, room), now, op);
    match Replay(v, entries)
    case Err(why) => (c, Err(BadLog(why)))
    case Ok(shown) =>
      if !env.saving.NoFault? then (SaveLog(c, shown.id, entries, env.saving), Err(DiskError)) else
      var after := Show(SaveLog(c, shown.id, entries, NoFault), shown);
      if !env.refolds then (after, Err(RefoldFailed))
      else if env.publishing.NotTaken? then (after, Err(HubFailed))
      else (after, Ok(Notice(shown.id, entries, MembersOf(v, LogUnder(c.logs, room)) + shown.members - {me})))
  }

  /** What `me` may do in a room. */
  predicate MayWrite(room: Room, me: Key, op: RoomOp) {
    match op
    case Create(_) => false
    case Invite(_) => me == room.founder
    case Kick(member) => me == room.founder && member != room.founder
    case Leave => me in room.members && me != room.founder
  }

  /** Appending to a log that verifies succeeds exactly when the op is `me`'s to write. */
  lemma AppendVerifiesIff(
      k: Crypto, sign: seq<byte> -> seq<byte>, me: Key, log: Log, room: Room, now: u64, op: RoomOp)
    requires Signs(k, me, sign) && Replay(With(k), log) == Ok(room)
    ensures var entries := Appended(With(k), sign, me, log, now, op);
            (Replay(With(k), entries).Ok? <==> MayWrite(room, me, op))
            && (MayWrite(room, me, op) ==> Speaks(With(k), room.id, entries))
  {
    var entries := Appended(With(k), sign, me, log, now, op);
    SignedPasses(k, sign, me, Head(With(k), log), now, op);
    HeadIsReplayed(With(k), log);
    assert entries[..|log|] == log;
  }

  lemma HeadIsReplayed(v: Verifier, log: Log)
    requires Replay(v, log).Ok?
    ensures Replay(v, log).value.head == Head(v, log)
  {
  }

  /**
   Appending to a room this endpoint holds. The stored log grows by one entry
   exactly when the op is its to write and the disk is willing, whatever the
   hub says after that; otherwise no log and no cached room has changed. The
   caller hears of success only if the hub took it too.
   */
  lemma AppendExtendsIff(
      k: Crypto, sign: seq<byte> -> seq<byte>, me: Key, c: Client, id: RoomId, op: RoomOp, now: u64, env: AppendEnv)
    requires Signs(k, me, sign) && CacheAgrees(With(k), c) && id in c.rooms
    ensures var v := With(k);
            var (after, r) := Append(v, sign, me, c, Some(id), op, now, env);
            var entries := Appended(v, sign, me, c.logs[id], now, op);
            CacheAgrees(v, after) && c.logs[id] < entries && |entries| == |c.logs[id]| + 1
            && entries[|c.logs[id]|].op == op && entries[|c.logs[id]|].author == me
            && (if MayWrite(c.rooms[id], me, op) && env.saving.NoFault?
                then after.logs == c.logs[id := entries] && id in after.rooms
                else after.logs == c.logs && after.rooms == c.rooms)
            && (r.Ok? <==>
                  MayWrite(c.rooms[id], me, op) && env.saving.NoFault? && env.refolds && !env.publishing.NotTaken?)
            && (r.Ok? ==> r.value.room == id && r.value.log == entries)
  {
    AppendVerifiesIff(k, sign, me, c.logs[id], c.rooms[id], now, op);
  }

  /**
   Exactly the members before or after are told, this endpoint apart: whoever was
   kicked hears of it, and so does whoever was invited.
   */
  lemma AppendTellsBothSides(
      k: Crypto, sign: seq<byte> -> seq<byte>, me: Key, c: Client, id: RoomId, op: RoomOp, now: u64, env: AppendEnv)
    requires Signs(k, me, sign) && CacheAgrees(With(k), c) && id in c.rooms
    requires Append(With(k), sign, me, c, Some(id), op, now, env).1.Ok?
    ensures var (after, r) := Append(With(k), sign, me, c, Some(id), op, now, env);
            (forall who :: who in r.value.told <==>
               who != me && (IsMember(c, id, who) || IsMember(after, id, who)))
            && (op.Kick? ==> !IsMember(after, id, op.member)
                             && (IsMember(c, id, op.member) ==> op.member in r.value.told))
            && (op.Invite? ==> IsMember(after, id, op.member) && (op.member != me ==> op.member in r.value.told))
  {
    AppendVerifiesIff(k, sign, me, c.logs[id], c.rooms[id], now, op);
    var entries := Appended(With(k), sign, me, c.logs[id], now, op);
    assert entries[..|c.logs[id]|] == c.logs[id];
  }

  /**
   With no room named, only a Create goes through, and the disk willing it makes
   a room of this endpoint alone, which nobody else is told of.
   */
  lemma AppendCreatesIff(
      k: Crypto, sign: seq<byte> -> seq<byte>, me: Key, c: Client, op: RoomOp, now: u64, env: AppendEnv)
    requires Signs(k, me, sign)
    ensures var v := With(k);
            var (after, r) := Append(v, sign, me, c, None, op, now, env);
            var create := Signed(sign, me, GENESIS, now, op);
            var id := v.hash(create);
            (if !op.Create? then after == c && r == Err(BadLog(NotACreate))
             else if !env.saving.NoFault? then after.logs == c.logs && after.rooms == c.rooms && r == Err(DiskError)
             else after.logs == c.logs[id := [create]]
                  && after.rooms == c.rooms[id := Room(id, op.name, me, {me}, id, 1)])
            && (r.Ok? <==> op.Create? && env.saving.NoFault? && env.refolds && !env.publishing.NotTaken?)
            && (r.Ok? ==> r.value == Notice(id, [create], {}))
  {
    SignedPasses(k, sign, me, GENESIS, now, op);
    assert [] + [Signed(sign, me, GENESIS, now, op)] == [Signed(sign, me, GENESIS, now, op)];
    assert {} + {me} - {me} == {};
  }

  /** Nothing is appended to a room this endpoint has no log of, or one that does not verify. */
  lemma AppendNeedsALog(
      v: Verifier, sign: seq<byte> -> seq<byte>, me: Key, c: Client, id: RoomId, op: RoomOp, now: u64, env: AppendEnv)
    requires id !in c.logs || (c.logs[id] != [] && Replay(v, c.logs[id]).Err?)
    ensures var (after, r) := Append(v, sign, me, c, Some(id), op, now, env);
            after == c && r.Err? && (id !in c.logs ==> r == Err(UnknownRoom))
  {
    if id in c.logs {
      var entries := Appended(v, sign, me, c.logs[id], now, op);
      assert entries[..|c.logs[id]|] == c.logs[id];
      FailureSticks(v, entries, |c.logs[id]|);
    }
  }

  /** What a user does to a conversation. */
  datatype Command =
    | Say(body: Text, replyTo: Option<MessageId>)
    | Reword(target: MessageId, newBody: Text)
    | Unsay(target: MessageId)
    | Respond(target: MessageId, emoji: Text, on: bool)

  function FrameFor(command: Command, id: MessageId): Frame {
    match command
    case Say(body, replyTo) => Chat(id, body, replyTo)
    case Reword(target, newBody) => Edit(id, target, newBody)
    case Unsay(target) => Delete(id, target)
    case Respond(target, emoji, on) => React(id, target, emoji, on)
  }

  lemma FrameKeepsId(command: Command, id: MessageId)
    ensures FrameFor(command, id).Id() == Some(id)
  {
  }

  class App {
    const me: Key
    const v: Verifier
    const sign: seq<byte> -> seq<byte>
    const store: Store
    var rooms: map<RoomId, Room>

    ghost function View(): Client
      reads this, store
    {
      Client(store.ops, store.contacts, store.rooms, rooms)
    }

    ghost predicate Valid()
      reads this, store
    {
      store.me == me && CacheAgrees(v, View())
    }

    /** A process starts with nothing cached, whatever is on disk. */
    constructor (store: Store, v: Verifier, sign: seq<byte> -> seq<byte>)
      ensures Valid() && this.store == store && this.v == v && this.sign == sign && rooms == map[]
    {
      this.store, this.v, this.sign, me, rooms := store, v, sign, store.me, map[];
    }

    method FetchRoom(id: RoomId, env: Env) returns (r: Result<(), ClientError>)
      requires Valid()
      modifies this`rooms, store`rooms, store`contacts
      ensures Valid() && (View(), r) == Fetch(v, old(View()), id, env)
    {
      if env.hub.NoHub? {
        return Err(NoHubConfigured);
      }
      if env.hub.Unreachable? {
        return Err(HubFailed);
      }
      var replayed := VerifyLog(v, env.hub.log);
      if replayed.Err? {
        return Err(BadLog(replayed.error));
      }
      if replayed.value.id != id {
        return Err(WrongRoom);
      }
      var saved := store.SaveRoom(id, env.hub.log, env.saving);
      if !saved {
        return Err(DiskError);
      }
      rooms := rooms[id := replayed.value];
      return Refolded(env.refolds);
    }

    method AbsorbRoom(id: RoomId, log: Log, env: Env) returns (r: Result<(), ClientError>)
      requires Valid()
      modifies this`rooms, store`rooms, store`contacts
      ensures Valid() && (View(), r) == Absorb(v, me, old(View()), id, log, env)
    {
      if log == [] {
        r := FetchRoom(id, env);
        return;
      }
      var replayed := VerifyLog(v, log);
      if replayed.Err? {
        return Err(BadLog(replayed.error));
      }
      var room := replayed.value;
      if room.id != id {
        return Err(WrongRoom);
      }
      if id !in rooms && me !in room.members {
        return Err(NotInThatRoom);
      }
      var held := if id in rooms then rooms[id].length else 0;
      if room.length <= held {
        return Ok(());
      }
      var saved := store.SaveRoom(id, log, env.saving);
      if !saved {
        return Err(DiskError);
      }
      rooms := rooms[id := room];
      return Refolded(env.refolds);
    }

    method AcceptOp(sender: Key, frame: Frame, env: Env) returns (r: Result<Option<Key>, ClientError>)
      requires Valid()
      modifies this`rooms, store`rooms, store`contacts, store`ops
      ensures Valid() && (View(), r) == Accept(v, me, old(View()), sender, frame, env)
    {
      if frame.RoomUpdated? {
        // The outcome is not the caller's concern.
        var taken := AbsorbRoom(frame.room, frame.log, env);
        return Ok(None);
      }
      if frame.Id().None? {
        return Ok(None);
      }
      if frame.Id().value.sender != sender {
        return Err(NotTheSenders);
      }
      if frame.InRoom? {
        if !(frame.room in rooms && sender in rooms[frame.room].members) {
          var fetched := FetchRoom(frame.room, env);
          if fetched.Err? {
            return Err(fetched.error);
          }
          if !(frame.room in rooms && sender in rooms[frame.room].members) {
            return Err(SenderNotMember);
          }
        }
        if !(frame.room in rooms && me in rooms[frame.room].members) {
          return Err(SelfNotMember);
        }
      }
      UnwrapKeepsId(frame);
      var conversation := frame.Conversation(sender);
      var isNew := store.Record(conversation, frame.UnwrapRoom(), env.recording);
      if isNew.Err? {
        return Err(DiskError);
      }
      return Ok(if isNew.value then Some(conversation) else None);
    }

    /** One more entry of this endpoint's: signed, verified, stored, shown and published, in that order. */
    method AppendEntry(room: Option<RoomId>, op: RoomOp, now: u64, env: AppendEnv)
      returns (r: Result<Notice, ClientError>)
      requires Valid()
      modifies this`rooms, store`rooms, store`contacts
      ensures Valid() && (View(), r) == Append(v, sign, me, old(View()), room, op, now, env)
    {
      if room.Some? && room.value !in store.rooms {
        return Err(UnknownRoom);
      }
      var stored := LogUnder(store.rooms, room);
      var before := VerifyLog(v, stored);
      var wereIn := if before.Ok? then before.value.members else {};
      var entries := Appended(v, sign, me, stored, now, op);
      // An entry that would not be accepted here goes nowhere.
      var verified := VerifyLog(v, entries);
      if verified.Err? {
        return Err(BadLog(verified.error));
      }
      var shown := verified.value;
      var saved := store.SaveRoom(shown.id, entries, env.saving);
      if !saved {
        return Err(DiskError);
      }
      rooms := rooms[shown.id := shown];
      if !env.refolds {
        return Err(RefoldFailed);
      }
      if env.publishing.NotTaken? {
        return Err(HubFailed);
      }
      return Ok(Notice(shown.id, entries, wereIn + shown.members - {me}));
    }

    /** Replays every stored log at start-up; one that does not verify to its own id is left out. */
    method LoadRooms()
      requires Valid() && rooms == map[]
      modifies this`rooms
      ensures Valid()
      ensures forall id :: id in rooms <==> id in store.rooms && Speaks(v, id, store.rooms[id])
    {
      var rest := store.rooms.Keys;
      while rest != {}
        invariant rest <= store.rooms.Keys
        invariant Valid()
        invariant forall id :: id in rooms <==> id in store.rooms && id !in rest && Speaks(v, id, store.rooms[id])
      {
        var id :| id in rest;
        rest := rest - {id};
        var replayed := VerifyLog(v, store.rooms[id]);
        if replayed.Ok? && replayed.value.id == id {
          rooms := rooms[id := replayed.value];
        }
      }
    }

    /** `/forget`: the cached room goes first, and stays gone until a restart if the disk then fails. */
    method ForgetPeer(peer: Key, names: set<Text>, commits: bool) returns (r: Result<seq<Text>, StoreError>)
      requires Valid()
      modifies this`rooms, store`ops, store`contacts, store`rooms, store`settings
      ensures Valid() && rooms == old(rooms) - {peer}
      ensures r.Ok? <==> commits
      ensures store.rooms == if commits then old(store.rooms) - {peer} else old(store.rooms)
      ensures store.ops == if commits then Without(old(store.ops), peer) else old(store.ops)
      ensures store.contacts == if commits then old(store.contacts) - {peer} else old(store.contacts)
      ensures !commits ==> store.settings == old(store.settings)
    {
      rooms := rooms - {peer};
      r := store.Forget(peer, names, commits);
    }

    /** `/wipe`, likewise. */
    method WipeAll(commits: bool) returns (r: Result<seq<Text>, StoreError>)
      requires Valid()
      modifies this`rooms, store`ops, store`contacts, store`rooms, store`settings
      ensures Valid() && rooms == map[]
      ensures r.Ok? <==> commits
      ensures commits ==> store.ops == map[] && store.rooms == map[] && store.contacts == {}
      ensures !commits ==>
                store.ops == old(store.ops) && store.rooms == old(store.rooms)
                && store.contacts == old(store.contacts) && store.settings == old(store.settings)
    {
      rooms := map[];
      r := store.Wipe(commits);
    }

    /**
     What a user command turns into: the frame is minted, recorded, shown and
     only then handed on for delivery. Whatever is delivered is on disk,
     unchanged, under a fresh id; a failure to show it stops it on disk.
     */
    method Dispatch(peer: Key, command: Command, now: u64, fault: Fault, refolds: bool)
      returns (delivered: Option<Frame>)
      requires Valid()
      modifies store`ops, store`contacts, store`counter
      ensures Valid()
      ensures delivered.Some? <==> fault.NoFault? && refolds
      ensures var frame := FrameFor(command, MessageId(me, (old(store.counter) + 1) % TWO_64, now));
              (delivered.Some? ==> delivered.value == frame)
              && store.ops == if fault.NoFault? then RecordOp(old(store.ops), Arrival(peer, frame)) else old(store.ops)
      ensures fault.NoFault? && old(store.CounterAhead()) && old(store.counter) + 1 < TWO_64 ==>
                var id := MessageId(me, old(store.counter) + 1, now);
                store.CounterAhead() && id !in old(store.ops)
                && store.ops == old(store.ops)[id := StoredOp(peer, FrameFor(command, id))]
    {
      var id := store.NextId(now);
      var frame := FrameFor(command, id);
      FrameKeepsId(command, id);
      var recorded := store.Record(peer, frame, fault);
      if recorded.Err? || !refolds {
        return None;
      }
      return Some(frame);
    }
  }
}
