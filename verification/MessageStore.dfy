/**
 What a client keeps: its op table by message id, its contact list, its room logs
 and its settings, with the send counter that resumes from them.
 */
module MessageStore {
  import opened Bytes
  import opened Wrappers
  import opened RoomLog
  import opened Wire
  import opened Fold
  import History

  datatype StoredOp = StoredOp(peer: Key, frame: Frame)

  /** The ops table: a row to an id, whoever's conversation it is in. */
  type Table = map<MessageId, StoredOp>

  /** What a process leaves behind when it stops, however it stops. */
  datatype Disk = Disk(
    ops: Table,
    contacts: set<Key>,
    rooms: map<RoomId, seq<RoomEntry>>,
    settings: map<Text, Text>)

  /** Where a write stops, if the disk fails or the process dies in the middle of it. */
  datatype Fault = NoFault | BeforeContact | BeforeRow

  datatype StoreError = DiskFailed

  // ----- recording, as a function of the table -----

  datatype Arrival = Arrival(peer: Key, frame: Frame)

  /** `INSERT OR IGNORE`: the first payload under an id stays. */
  function RecordOp(t: Table, a: Arrival): Table {
    match a.frame.Id()
    case None => t
    case Some(id) => if id in t then t else t[id := StoredOp(a.peer, a.frame)]
  }

  function Conversation(t: Table, peer: Key): Ops {
    map id | id in t && t[id].peer == peer :: t[id].frame
  }

  function Without(t: Table, peer: Key): Table {
    map id | id in t && t[id].peer != peer :: t[id]
  }

  // ----- what a conversation holds -----

  function MessageIds(ops: Ops): set<MessageId> {
    set id | id in ops && IsMessage(ops[id])
  }

  /** The attachments this machine has a path for. */
  function SavedFiles(ops: Ops, settings: map<Text, Text>): set<MessageId> {
    set id | id in ops && ops[id].File? && FileKey(id) in settings
  }

  function FileKeys(ids: set<MessageId>): set<Text> {
    set id | id in ids :: FileKey(id)
  }

  predicate HasPath(m: Message) {
    m.attachment.Some? && m.attachment.value.path.Some?
  }

  /** The attachment paths of a list of messages. */
  function Paths(ms: seq<Message>): seq<Text> {
    if ms == [] then []
    else (if HasPath(ms[0]) then [ms[0].attachment.value.path.value] else []) + Paths(ms[1..])
  }

  function Tail(ms: seq<Message>, limit: nat): seq<Message> {
    var skip := if |ms| > limit then |ms| - limit else 0;
    ms[skip..]
  }

  function Ids(ms: seq<Message>): set<MessageId> {
    set m | m in ms :: m.id
  }

  function IdsWithPath(ms: seq<Message>): set<MessageId> {
    set m | m in ms && HasPath(m) :: m.id
  }

  ghost predicate Distinct(ms: seq<Message>) {
    forall i, j :: 0 <= i < j < |ms| ==> ms[i].id != ms[j].id
  }

  lemma {:induction false} CountIds(ms: seq<Message>)
    requires Distinct(ms)
    ensures |Ids(ms)| == |ms|
  {
    if ms == [] {
      assert Ids(ms) == {};
    } else {
      CountIds(ms[1..]);
      assert forall m :: m in ms <==> m == ms[0] || m in ms[1..];
      assert Ids(ms) == Ids(ms[1..]) + {ms[0].id};
    }
  }

  lemma {:induction false} CountPaths(ms: seq<Message>)
    requires Distinct(ms)
    ensures |IdsWithPath(ms)| == |Paths(ms)|
  {
    if ms == [] {
      assert IdsWithPath(ms) == {};
    } else {
      CountPaths(ms[1..]);
      assert forall m :: m in ms <==> m == ms[0] || m in ms[1..];
      if HasPath(ms[0]) {
        assert IdsWithPath(ms) == IdsWithPath(ms[1..]) + {ms[0].id};
      } else {
        assert IdsWithPath(ms) == IdsWithPath(ms[1..]);
      }
    }
  }

  lemma {:induction false} PathsAre(ms: seq<Message>, p: Text)
    ensures p in Paths(ms) <==> exists m :: m in ms && HasPath(m) && m.attachment.value.path.value == p
  {
    if ms != [] {
      PathsAre(ms[1..], p);
      assert forall m :: m in ms <==> m == ms[0] || m in ms[1..];
    }
  }

  /** These are the paths recorded for these ids, and no others. */
  ghost predicate ArePathsOf(files: seq<Text>, ids: set<MessageId>, settings: map<Text, Text>) {
    forall p :: p in files <==> exists id :: id in ids && Lookup(settings, FileKey(id)) == Some(p)
  }

  lemma PathsOfBoth(
      f1: seq<Text>, ids1: set<MessageId>, f2: seq<Text>, ids2: set<MessageId>, settings: map<Text, Text>)
    requires ArePathsOf(f1, ids1, settings) && ArePathsOf(f2, ids2, settings)
    ensures ArePathsOf(f1 + f2, ids1 + ids2, settings)
  {
    forall p
      ensures p in f1 + f2 <==> exists id :: id in ids1 + ids2 && Lookup(settings, FileKey(id)) == Some(p)
    {
      assert p in f1 + f2 <==> p in f1 || p in f2;
    }
  }

  /** What a history shows of an id: the attachment path recorded for it, if it is a file's. */
  lemma ShownPaths(ops: Ops, me: Key, settings: map<Text, Text>, ms: seq<Message>)
    requires IsHistory(ops, me, settings, ms)
    ensures IdsWithPath(ms) == SavedFiles(ops, settings)
    ensures forall m :: m in ms && HasPath(m) ==> Lookup(settings, FileKey(m.id)) == m.attachment.value.path
  {
    assert forall m :: m in ms ==> Renders(ops, me, settings, m);
    forall id | id in SavedFiles(ops, settings)
      ensures id in IdsWithPath(ms)
    {
      var m :| m in ms && m.id == id;
    }
  }

  /** Messages that show the recorded paths list exactly the paths recorded for them. */
  lemma PathsOfShown(ms: seq<Message>, settings: map<Text, Text>)
    requires forall m :: m in ms && HasPath(m) ==> Lookup(settings, FileKey(m.id)) == m.attachment.value.path
    ensures ArePathsOf(Paths(ms), IdsWithPath(ms), settings)
  {
    forall p
      ensures p in Paths(ms) <==> exists id :: id in IdsWithPath(ms) && Lookup(settings, FileKey(id)) == Some(p)
    {
      PathsAre(ms, p);
      if exists id :: id in IdsWithPath(ms) && Lookup(settings, FileKey(id)) == Some(p) {
        var id :| id in IdsWithPath(ms) && Lookup(settings, FileKey(id)) == Some(p);
        var m :| m in ms && HasPath(m) && m.id == id;
      }
      if p in Paths(ms) {
        var m :| m in ms && HasPath(m) && m.attachment.value.path.value == p;
        assert m.id in IdsWithPath(ms);
      }
    }
  }

  /** Folding loses nothing and invents nothing: messages and saved files are counted exactly. */
  lemma HistoryCounts(ops: Ops, me: Key, settings: map<Text, Text>, ms: seq<Message>)
    requires IsHistory(ops, me, settings, ms)
    ensures Ids(ms) == MessageIds(ops) && |ms| == |MessageIds(ops)|
    ensures |Paths(ms)| == |SavedFiles(ops, settings)|
    ensures ArePathsOf(Paths(ms), SavedFiles(ops, settings), settings)
  {
    CountIds(ms);
    CountPaths(ms);
    ShownPaths(ops, me, settings, ms);
    assert Ids(ms) == MessageIds(ops);
    PathsOfShown(ms, settings);
  }

  /**
   As many messages as there are, up to `limit`, in order and each as it stands;
   and none of those left out comes after any of these.
   */
  ghost predicate AreNewest(ops: Ops, me: Key, settings: map<Text, Text>, limit: nat, ms: seq<Message>) {
    && |ms| == (if |MessageIds(ops)| <= limit then |MessageIds(ops)| else limit)
    && InOrder(ms)
    && (forall m :: m in ms ==> Renders(ops, me, settings, m))
    && (forall id, m :: id in MessageIds(ops) && id !in Ids(ms) && m in ms ==> !Before(m.id, id))
  }

  /** Of a list in order, nothing in the first part comes after anything in the rest. */
  lemma RestIsNotEarlier(all: seq<Message>, skip: nat, id: MessageId, m: Message)
    requires skip <= |all| && InOrder(all) && id in Ids(all) && id !in Ids(all[skip..]) && m in all[skip..]
    ensures !Before(m.id, id)
  {
    var older :| older in all && older.id == id;
    assert older !in all[skip..];
    assert all == all[..skip] + all[skip..];
    var i :| 0 <= i < |all| && all[i] == older;
    assert i < skip by {
      assert forall k :: skip <= k < |all| ==> all[k] in all[skip..];
    }
    var j :| 0 <= j < |all[skip..]| && all[skip..][j] == m;
    assert all[skip + j] == m;
  }

  lemma RestIsInOrder(all: seq<Message>, skip: nat)
    requires skip <= |all| && InOrder(all)
    ensures InOrder(all[skip..])
  {
  }

  /** A whole history's messages are the conversation's, so what is not in its end is before it. */
  lemma TailIsNewest(ops: Ops, me: Key, settings: map<Text, Text>, all: seq<Message>, limit: nat)
    requires IsHistory(ops, me, settings, all)
    ensures AreNewest(ops, me, settings, limit, Tail(all, limit))
  {
    HistoryCounts(ops, me, settings, all);
    var ms := Tail(all, limit);
    var skip := |all| - |ms|;
    assert ms == all[skip..];
    RestIsInOrder(all, skip);
    assert forall m :: m in ms ==> m in all;
    forall id, m | id in MessageIds(ops) && id !in Ids(ms) && m in ms
      ensures !Before(m.id, id)
    {
      RestIsNotEarlier(all, skip, id, m);
    }
  }

  // ----- the same, over several conversations -----

  function AllMessages(t: Table, peers: set<Key>): set<MessageId> {
    set id | id in t && t[id].peer in peers && IsMessage(t[id].frame)
  }

  function AllSaved(t: Table, settings: map<Text, Text>, peers: set<Key>): set<MessageId> {
    set id | id in t && t[id].peer in peers && t[id].frame.File? && FileKey(id) in settings
  }

  lemma OneMorePeer(t: Table, peers: set<Key>, peer: Key)
    requires peer !in peers
    ensures |AllMessages(t, peers + {peer})| == |AllMessages(t, peers)| + |MessageIds(Conversation(t, peer))|
  {
    assert AllMessages(t, peers + {peer}) == AllMessages(t, peers) + MessageIds(Conversation(t, peer));
  }

  lemma OneMorePeerSaved(t: Table, settings: map<Text, Text>, peers: set<Key>, peer: Key)
    requires peer !in peers
    ensures AllSaved(t, settings, peers + {peer})
         == AllSaved(t, settings, peers) + SavedFiles(Conversation(t, peer), settings)
    ensures AllSaved(t, settings, peers) !! SavedFiles(Conversation(t, peer), settings)
  {
  }

  // ----- the send counter -----

  predicate Own(t: Table, me: Key, id: MessageId) {
    id in t && id.sender == me
  }

  /** `SELECT MAX(seq)` over the signed column, zero if there is no row, read back as unsigned. */
  ghost predicate IsResume(t: Table, me: Key, n: u64) {
    if exists id :: Own(t, me, id) then
      && (exists id :: Own(t, me, id) && id.seqNo == n)
      && (forall id :: Own(t, me, id) ==> AsI64(id.seqNo) <= AsI64(n))
    else n == 0
  }

  /** The highest own sequence number on disk, unless the sign bit gets in the way. */
  lemma ResumeCoversIff(t: Table, me: Key, n: u64)
    requires IsResume(t, me, n)
    ensures (forall id :: Own(t, me, id) ==> id.seqNo <= n)
       <==> ((forall id :: Own(t, me, id) ==> id.seqNo < TWO_63)
             || (forall id :: Own(t, me, id) ==> id.seqNo >= TWO_63))
  {
    if exists id :: Own(t, me, id) {
      var top :| Own(t, me, top) && top.seqNo == n;
      if n < TWO_63 {
        forall id | Own(t, me, id)
          ensures id.seqNo >= TWO_63 || id.seqNo <= n
        {
          assert AsI64(id.seqNo) <= AsI64(n);
        }
      } else {
        forall id | Own(t, me, id)
          ensures id.seqNo >= TWO_63 && id.seqNo <= n
        {
          assert AsI64(id.seqNo) <= AsI64(n);
        }
      }
    }
  }

  method ResumeFrom(t: Table, me: Key) returns (n: u64)
    ensures IsResume(t, me, n)
  {
    var rest := t.Keys;
    var found := false;
    n := 0;
    while rest != {}
      invariant rest <= t.Keys
      invariant !found ==> n == 0 && forall id :: Own(t, me, id) ==> id in rest
      invariant found ==> exists id :: Own(t, me, id) && id.seqNo == n
      invariant found ==> forall id :: Own(t, me, id) && id !in rest ==> AsI64(id.seqNo) <= AsI64(n)
    {
      var id :| id in rest;
      rest := rest - {id};
      if id.sender == me {
        assert Own(t, me, id);
        if !found || AsI64(id.seqNo) > AsI64(n) {
          n := id.seqNo;
        }
        found := true;
      }
    }
  }

  class Store {
    const me: Key
    var ops: Table
    var contacts: set<Key>
    var rooms: map<RoomId, seq<RoomEntry>>
    var settings: map<Text, Text>
    var counter: u64

    /** Every conversation anything is filed under is in the contact list. */
    ghost predicate Covered()
      reads this
    {
      (forall id :: id in ops ==> ops[id].peer in contacts) && rooms.Keys <= contacts
    }

    /** Every row is filed under its own op's id. */
    ghost predicate Keyed()
      reads this
    {
      forall id :: id in ops ==> ops[id].frame.Id() == Some(id)
    }

    /** No own op on disk has a sequence number the counter has not reached. */
    ghost predicate CounterAhead()
      reads this
    {
      forall id :: Own(ops, me, id) ==> id.seqNo <= counter
    }

    /** Opening backfills the contact list, whatever state the database was left in. */
    constructor (disk: Disk, me: Key)
      ensures this.me == me && ops == disk.ops && rooms == disk.rooms && settings == disk.settings
      ensures contacts == disk.contacts + (set id | id in disk.ops :: disk.ops[id].peer) + disk.rooms.Keys
      ensures Covered()
      ensures IsResume(ops, me, counter)
      ensures (forall id :: Own(ops, me, id) ==> id.seqNo < TWO_63) ==> CounterAhead()
    {
      this.me, ops, rooms, settings := me, disk.ops, disk.rooms, disk.settings;
      contacts := disk.contacts + (set id | id in disk.ops :: disk.ops[id].peer) + disk.rooms.Keys;
      var resume := ResumeFrom(disk.ops, me);
      counter := resume;
      ResumeCoversIff(disk.ops, me, resume);
    }

    /** `Counter::mint`. An id minted while the counter is ahead is on no row, and keeps it ahead. */
    method NextId(now: u64) returns (id: MessageId)
      modifies this`counter
      ensures counter == (old(counter) + 1) % TWO_64
      ensures id == MessageId(me, counter, now)
      ensures old(CounterAhead()) && old(counter) + 1 < TWO_64 ==> CounterAhead() && id !in ops
    {
      counter := (counter + 1) % TWO_64;
      id := MessageId(me, counter, now);
    }

    /** Answers whether the table grew. The contact goes in first, so a crash never leaves an op without one. */
    method Record(peer: Key, frame: Frame, fault: Fault) returns (r: Result<bool, StoreError>)
      modifies this`ops, this`contacts
      ensures r.Ok? <==> frame.Id().None? || fault.NoFault?
      ensures r.Ok? ==> ops == RecordOp(old(ops), Arrival(peer, frame))
      ensures r.Err? ==> ops == old(ops)
      ensures r.Ok? ==> (r.value <==> frame.Id().Some? && frame.Id().value !in old(ops))
      ensures contacts == if frame.Id().None? || fault.BeforeContact? then old(contacts) else old(contacts) + {peer}
      ensures old(Covered()) ==> Covered()
      ensures old(Keyed()) ==> Keyed()
    {
      if frame.Id().None? {
        return Ok(false);
      }
      var id := frame.Id().value;
      if fault.BeforeContact? {
        return Err(DiskFailed);
      }
      contacts := contacts + {peer};
      if fault.BeforeRow? {
        return Err(DiskFailed);
      }
      if id in ops {
        return Ok(false);
      }
      ops := ops[id := StoredOp(peer, frame)];
      return Ok(true);
    }

    method SaveRoom(id: RoomId, log: seq<RoomEntry>, fault: Fault) returns (saved: bool)
      modifies this`rooms, this`contacts
      ensures saved <==> fault.NoFault?
      ensures rooms == if saved then old(rooms)[id := log] else old(rooms)
      ensures contacts == if fault.BeforeContact? then old(contacts) else old(contacts) + {id}
      ensures old(Covered()) ==> Covered()
    {
      if fault.BeforeContact? {
        return false;
      }
      contacts := contacts + {id};
      if fault.BeforeRow? {
        return false;
      }
      rooms := rooms[id := log];
      return true;
    }

    method SetFilePath(id: MessageId, path: Text)
      modifies this`settings
      ensures settings == old(settings)[FileKey(id) := path]
    {
      settings := settings[FileKey(id) := path];
    }

    /** Everyone in the contact list, each once. */
    method Peers() returns (peers: seq<Key>)
      ensures forall p :: p in peers <==> p in contacts
      ensures forall i, j :: 0 <= i < j < |peers| ==> peers[i] != peers[j]
      ensures |peers| == |contacts|
    {
      peers := [];
      var rest := contacts;
      while rest != {}
        invariant rest <= contacts
        invariant forall p :: p in peers <==> p in contacts && p !in rest
        invariant forall i, j :: 0 <= i < j < |peers| ==> peers[i] != peers[j]
        invariant |peers| + |rest| == |contacts|
      {
        var p :| p in rest;
        peers, rest := peers + [p], rest - {p};
      }
    }

    /** `history` with no limit. */
    method WholeHistory(peer: Key) returns (ms: seq<Message>)
      ensures IsHistory(Conversation(ops, peer), me, settings, ms)
    {
      ms := History.Refold(Conversation(ops, peer), me, settings);
    }

    /** The end of the conversation, at most `limit` messages of it. */
    method Newest(peer: Key, limit: nat) returns (ms: seq<Message>)
      ensures exists all :: IsHistory(Conversation(ops, peer), me, settings, all) && ms == Tail(all, limit)
      ensures AreNewest(Conversation(ops, peer), me, settings, limit, ms)
    {
      var all := WholeHistory(peer);
      ms := Tail(all, limit);
      TailIsNewest(Conversation(ops, peer), me, settings, all, limit);
    }

    /** How many messages and saved files a `/forget` would take. */
    method ForgetPreview(peer: Key) returns (messages: nat, files: nat)
      ensures messages == |MessageIds(Conversation(ops, peer))|
      ensures files == |SavedFiles(Conversation(ops, peer), settings)|
    {
      var ms := WholeHistory(peer);
      HistoryCounts(Conversation(ops, peer), me, settings, ms);
      return |ms|, |Paths(ms)|;
    }

    /** The keys naming where these messages' attachments landed, deleted one by one. */
    method DropFileKeys(ms: seq<Message>) returns (left: map<Text, Text>)
      ensures left == settings - FileKeys(Ids(ms))
    {
      left := settings;
      for n := 0 to |ms|
        invariant left == settings - FileKeys(Ids(ms[..n]))
      {
        assert ms[..n + 1] == ms[..n] + [ms[n]];
        assert Ids(ms[..n + 1]) == Ids(ms[..n]) + {ms[n].id};
        assert FileKeys(Ids(ms[..n + 1])) == FileKeys(Ids(ms[..n])) + {FileKey(ms[n].id)};
        left := left - {FileKey(ms[n].id)};
      }
      assert ms[..|ms|] == ms;
    }

    /**
     Removes the conversation, the room log, the contact and the names, in one
     transaction: if it does not commit, nothing has gone.
     */
    method Forget(peer: Key, names: set<Text>, commits: bool) returns (r: Result<seq<Text>, StoreError>)
      modifies this`ops, this`contacts, this`rooms, this`settings
      ensures r.Ok? <==> commits
      ensures r.Err? ==>
                ops == old(ops) && rooms == old(rooms) && contacts == old(contacts) && settings == old(settings)
      ensures r.Ok? ==> ops == Without(old(ops), peer) && Conversation(ops, peer) == map[]
      ensures r.Ok? ==>
                forall id :: id in old(ops) && old(ops)[id].peer != peer ==> id in ops && ops[id] == old(ops)[id]
      ensures r.Ok? ==> rooms == old(rooms) - {peer} && contacts == old(contacts) - {peer}
      ensures r.Ok? ==> settings == old(settings) - FileKeys(MessageIds(Conversation(old(ops), peer))) - names
      ensures r.Ok? ==> |r.value| == |SavedFiles(Conversation(old(ops), peer), old(settings))|
      ensures r.Ok? ==> ArePathsOf(r.value, SavedFiles(Conversation(old(ops), peer), old(settings)), old(settings))
      ensures old(Covered()) ==> Covered()
    {
      var ms := WholeHistory(peer);
      HistoryCounts(Conversation(ops, peer), me, settings, ms);
      if !commits {
        return Err(DiskFailed);
      }
      var left := DropFileKeys(ms);
      settings := left - names;
      ops := Without(ops, peer);
      rooms := rooms - {peer};
      contacts := contacts - {peer};
      return Ok(Paths(ms));
    }

    /** Removes the conversation and nothing else of the peer's: contact, log and names stay. */
    method Clear(peer: Key, commits: bool) returns (r: Result<seq<Text>, StoreError>)
      modifies this`ops, this`settings
      ensures r.Ok? <==> commits
      ensures r.Err? ==> ops == old(ops) && settings == old(settings)
      ensures r.Ok? ==> ops == Without(old(ops), peer) && Conversation(ops, peer) == map[]
      ensures r.Ok? ==>
                forall id :: id in old(ops) && old(ops)[id].peer != peer ==> id in ops && ops[id] == old(ops)[id]
      ensures r.Ok? ==> settings == old(settings) - FileKeys(MessageIds(Conversation(old(ops), peer)))
      ensures r.Ok? ==> |r.value| == |SavedFiles(Conversation(old(ops), peer), old(settings))|
      ensures r.Ok? ==> ArePathsOf(r.value, SavedFiles(Conversation(old(ops), peer), old(settings)), old(settings))
      ensures old(Covered()) ==> Covered()
    {
      var ms := WholeHistory(peer);
      HistoryCounts(Conversation(ops, peer), me, settings, ms);
      if !commits {
        return Err(DiskFailed);
      }
      var left := DropFileKeys(ms);
      settings := left;
      ops := Without(ops, peer);
      return Ok(Paths(ms));
    }

    /** What `Wipe` would remove, counted. */
    method WipePreview() returns (conversations: nat, messages: nat, files: nat)
      ensures conversations == |contacts|
      ensures messages == |AllMessages(ops, contacts)|
      ensures Covered() ==> messages == |set id | id in ops && IsMessage(ops[id].frame)|
      ensures files == |AllSaved(ops, settings, contacts)|
    {
      var peers := Peers();
      messages, files := 0, 0;
      ghost var done: set<Key> := {};
      for n := 0 to |peers|
        invariant forall p :: p in done <==> p in peers[..n]
        invariant messages == |AllMessages(ops, done)|
        invariant files == |AllSaved(ops, settings, done)|
      {
        var m, f := ForgetPreview(peers[n]);
        OneMorePeer(ops, done, peers[n]);
        OneMorePeerSaved(ops, settings, done, peers[n]);
        messages, files := messages + m, files + f;
        done := done + {peers[n]};
      }
      assert peers[..|peers|] == peers;
      assert done == contacts;
      if Covered() {
        assert AllMessages(ops, contacts) == set id | id in ops && IsMessage(ops[id].frame);
      }
      conversations := |peers|;
    }

    /** The attachment paths of every conversation in the contact list. */
    method AllPaths() returns (files: seq<Text>)
      ensures |files| == |AllSaved(ops, settings, contacts)|
      ensures ArePathsOf(files, AllSaved(ops, settings, contacts), settings)
    {
      var peers := Peers();
      files := [];
      ghost var done: set<Key> := {};
      for n := 0 to |peers|
        invariant forall p :: p in done <==> p in peers[..n]
        invariant |files| == |AllSaved(ops, settings, done)|
        invariant ArePathsOf(files, AllSaved(ops, settings, done), settings)
      {
        var ms := WholeHistory(peers[n]);
        HistoryCounts(Conversation(ops, peers[n]), me, settings, ms);
        OneMorePeerSaved(ops, settings, done, peers[n]);
        var saved := SavedFiles(Conversation(ops, peers[n]), settings);
        PathsOfBoth(files, AllSaved(ops, settings, done), Paths(ms), saved, settings);
        files := files + Paths(ms);
        done := done + {peers[n]};
      }
      assert peers[..|peers|] == peers;
      assert done == contacts;
    }

    /** Everything goes but the prekey; the answer is where the attachments lie. */
    method Wipe(commits: bool) returns (r: Result<seq<Text>, StoreError>)
      modifies this`ops, this`contacts, this`rooms, this`settings
      ensures r.Ok? <==> commits
      ensures r.Err? ==>
                ops == old(ops) && rooms == old(rooms) && contacts == old(contacts) && settings == old(settings)
      ensures r.Ok? ==> ops == map[] && rooms == map[] && contacts == {} && Covered()
      ensures r.Ok? && old(Covered()) ==>
                forall id :: id in old(ops) && old(ops)[id].frame.File? && FileKey(id) in old(settings) ==>
                  old(settings)[FileKey(id)] in r.value
      ensures r.Ok? ==> settings == map k | k in old(settings) && k == Ascii("prekey") :: old(settings)[k]
      ensures r.Ok? ==> |r.value| == |AllSaved(old(ops), old(settings), old(contacts))|
      ensures r.Ok? ==> ArePathsOf(r.value, AllSaved(old(ops), old(settings), old(contacts)), old(settings))
    {
      var files := AllPaths();
      if !commits {
        return Err(DiskFailed);
      }
      assert Covered() ==> forall id :: id in ops && ops[id].frame.File? && FileKey(id) in settings ==>
          id in AllSaved(ops, settings, contacts) && Lookup(settings, FileKey(id)) == Some(settings[FileKey(id)]);
      ops, rooms, contacts := map[], map[], {};
      settings := map k | k in settings && k == Ascii("prekey") :: settings[k];
      return Ok(files);
    }
  }
}
