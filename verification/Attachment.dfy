/**
 Receiving an attachment: a header that announces a size and a hash, then raw
 bytes in whatever chunks the stream delivers them, with the stream and the disk
 free to fail at any point.
 */
module Attachment {
  import opened Bytes
  import opened Wrappers
  import opened Wire
  import opened Fold
  import opened MessageStore

  const MAX_FILE: u64 := 0x1000_0000
  const CHUNK: nat := 0x1_0000

  /** What one read delivers: something, and no more than the buffer holds. */
  type Chunk = b: seq<byte> | 0 < |b| <= CHUNK witness [0]

  /**
   One turn of the loop: bytes, a transport error, or a disk error on writing.
   Writes are buffered, so after an error the file holds some first part, `kept`
   bytes of it, of what was written so far.
   */
  datatype Event =
    | Data(bytes: Chunk)
    | StreamFails(kept: nat)
    | DiskFails(bytes: Chunk, kept: nat)

  /** What else can fail, and how far things get if it does. */
  datatype Faults = Faults(
    recording: Fault,
    refolds: bool,
    creates: bool,
    flushLoses: Option<nat>,
    removes: bool,
    records: bool)

  const NO_FAULTS := Faults(NoFault, true, true, None, true, true)

  datatype Outcome =
    | Kept
    | NotAHeader
    | NotTheSenders
    | TooLarge
    | NotRecorded
    | NotShown
    | NotCreated
    | SentTooMuch
    | DidNotMatch
    | Broken
    | PathNotRecorded

  type Files = map<Text, seq<byte>>

  /** The bytes a list of reads delivers. */
  function Delivered(events: seq<Event>): seq<byte> {
    if events == [] then []
    else (if events[0].StreamFails? then [] else events[0].bytes) + Delivered(events[1..])
  }

  predicate Unbroken(events: seq<Event>) {
    forall e :: e in events ==> e.Data?
  }

  function FirstPart(s: seq<byte>, n: nat): (r: seq<byte>)
    ensures r <= s
  {
    if n <= |s| then s[..n] else s
  }

  // ----- the loop, as a function of the reads -----

  /** How the loop is left: at the end of the stream, past the size announced, or on an error. */
  datatype Ending = Ended(all: seq<byte>) | Overran(left: seq<byte>) | Failed(left: seq<byte>)

  function Drain(size: nat, got: seq<byte>, events: seq<Event>): Ending
    decreases |events|
  {
    if events == [] then Ended(got)
    else if events[0].StreamFails? then Failed(FirstPart(got, events[0].kept))
    else
      var next := got + events[0].bytes;
      if |next| > size then Overran(got)
      else if events[0].DiskFails? then Failed(FirstPart(next, events[0].kept))
      else Drain(size, next, events[1..])
  }

  /** Both the announced length and the announced hash are right. */
  predicate Matches(hash: seq<byte> -> Key, size: nat, wanted: Key, bytes: seq<byte>) {
    size == |bytes| && wanted == hash(bytes)
  }

  function Discard(files: Files, path: Text, removes: bool): Files {
    if removes then files - {path} else files
  }

  /** The file created, which empties whatever was there, then filled, and kept or thrown away again. */
  function Fill(
      hash: seq<byte> -> Key, files: Files, path: Text, size: nat, wanted: Key, events: seq<Event>, faults: Faults)
    : (Files, Outcome)
  {
    match Drain(size, [], events)
    case Failed(left) => (files[path := left], Broken)
    case Overran(left) => (Discard(files[path := left], path, faults.removes), SentTooMuch)
    case Ended(all) =>
      if faults.flushLoses.Some? then (files[path := FirstPart(all, faults.flushLoses.value)], Broken)
      else if !Matches(hash, size, wanted, all) then (Discard(files[path := all], path, faults.removes), DidNotMatch)
      else (files[path := all], Kept)
  }

  // ----- one attachment, as a function of what is on this machine -----

  datatype Local = Local(ops: Table, settings: map<Text, Text>, files: Files)

  /** Why a header is turned away, if it is, with nothing written to the download directory. */
  function Refusal(peer: Key, header: Frame, faults: Faults): Option<Outcome> {
    if !header.File? then Some(NotAHeader)
    else if header.id.sender != peer then Some(NotTheSenders)
    else if header.size > MAX_FILE then Some(TooLarge)
    else if !faults.recording.NoFault? then Some(NotRecorded)
    else None
  }

  function Receive(
      hash: seq<byte> -> Key, d: Local, peer: Key, header: Frame, path: Text, events: seq<Event>, faults: Faults)
    : (Local, Outcome)
  {
    var refusal := Refusal(peer, header, faults);
    if refusal.Some? then (d, refusal.value) else
    var listed := d.(ops := RecordOp(d.ops, Arrival(peer, header)));
    if !faults.refolds then (listed, NotShown)
    else if !faults.creates then (listed, NotCreated)
    else
      var (files, outcome) := Fill(hash, d.files, path, header.size, header.hash, events, faults);
      if outcome != Kept then (listed.(files := files), outcome)
      else if !faults.records then (listed.(files := files), PathNotRecorded)
      else (listed.(files := files, settings := d.settings[FileKey(header.id) := path]), Kept)
  }

  // ----- what is written -----

  lemma {:induction false} DrainHolds(size: nat, got: seq<byte>, events: seq<Event>)
    requires |got| <= size
    ensures var whole := got + Delivered(events);
            match Drain(size, got, events)
            case Ended(all) => Unbroken(events) && all == whole && |all| <= size
            case Overran(left) => left <= whole && |left| <= size < |whole|
            case Failed(left) => left <= whole && |left| <= size && !Unbroken(events)
    decreases |events|
  {
    if events == [] {
      assert got + Delivered(events) == got;
    } else {
      assert events[0] in events && forall e :: e in events <==> e == events[0] || e in events[1..];
      if !events[0].StreamFails? {
        var next := got + events[0].bytes;
        assert got + Delivered(events) == next + Delivered(events[1..]);
        if |next| <= size && events[0].Data? {
          DrainHolds(size, next, events[1..]);
        }
      }
    }
  }

  /**
   However the bytes are chunked and whatever fails, the file is a first part of
   the stream and no longer than announced, and no other file is touched. It is
   kept only whole and matching; on a stream that does not break and a disk that
   does not fail it is kept exactly when it matches, and gone otherwise.
   */
  lemma FileIsAlwaysAFirstPart(
      hash: seq<byte> -> Key, files: Files, path: Text, size: nat, wanted: Key, events: seq<Event>, faults: Faults)
    ensures var (after, outcome) := Fill(hash, files, path, size, wanted, events, faults);
            after - {path} == files - {path}
            && (path in after ==> after[path] <= Delivered(events) && |after[path]| <= size)
            && (outcome == Kept ==> path in after && after[path] == Delivered(events)
                                    && Matches(hash, size, wanted, Delivered(events)))
            && (Unbroken(events) && faults.flushLoses.None? ==>
                  (outcome == Kept <==> Matches(hash, size, wanted, Delivered(events)))
                  && (outcome != Kept && faults.removes ==> path !in after))
  {
    DrainHolds(size, [], events);
    assert [] + Delivered(events) == Delivered(events);
  }

  /**
   A path is recorded only for a file that came whole, a refused header changes
   nothing, and nothing is ever written past the size announced or the limit.
   */
  lemma RecordedIffKept(
      hash: seq<byte> -> Key, d: Local, peer: Key, header: Frame, path: Text, events: seq<Event>, faults: Faults)
    ensures var (after, outcome) := Receive(hash, d, peer, header, path, events, faults);
            after.files - {path} == d.files - {path}
            && (Refusal(peer, header, faults).Some? ==> after == d)
            && (outcome == Kept ==>
                  after.settings == d.settings[FileKey(header.id) := path] && path in after.files
                  && after.files[path] == Delivered(events)
                  && Matches(hash, header.size, header.hash, after.files[path]) && header.size <= MAX_FILE)
            && (outcome != Kept ==> after.settings == d.settings)
            && (after.files == d.files
                || (header.File? && header.size <= MAX_FILE
                    && (path in after.files ==>
                          after.files[path] <= Delivered(events) && |after.files[path]| <= header.size)))
  {
    if Refusal(peer, header, faults).None? {
      FileIsAlwaysAFirstPart(hash, d.files, path, header.size, header.hash, events, faults);
    }
  }

  /**
   What comes of an honest and of a dishonest header, with nothing failing here:
   a header must be a file's, minted by the very peer that sends it and within
   the limit, the bytes must not run over, and they must match.
   */
  lemma ReceiveOutcome(
      hash: seq<byte> -> Key, d: Local, peer: Key, header: Frame, path: Text, events: seq<Event>)
    requires Unbroken(events)
    ensures var outcome := Receive(hash, d, peer, header, path, events, NO_FAULTS).1;
            if !header.File? then outcome == NotAHeader
            else if header.id.sender != peer then outcome == NotTheSenders
            else if header.size > 0x1000_0000 then outcome == TooLarge
            else if |Delivered(events)| > header.size then outcome == SentTooMuch
            else if |Delivered(events)| == header.size && hash(Delivered(events)) == header.hash then outcome == Kept
            else outcome == DidNotMatch
  {
    if header.File? {
      DrainHolds(header.size, [], events);
      assert [] + Delivered(events) == Delivered(events);
    }
  }

  /** A header minted under another's key, or announcing too much, changes nothing, whatever else fails. */
  lemma ForgedHeaderChangesNothing(
      hash: seq<byte> -> Key, d: Local, peer: Key, header: Frame, path: Text, events: seq<Event>, faults: Faults)
    requires !header.File? || header.id.sender != peer || header.size > 0x1000_0000
    ensures Receive(hash, d, peer, header, path, events, faults).0 == d
    ensures Receive(hash, d, peer, header, path, events, faults).1 != Kept
  {
  }

  /** A header that passes is on record from then on, whatever becomes of the bytes. */
  lemma HeaderIsRecorded(
      hash: seq<byte> -> Key, d: Local, peer: Key, header: Frame, path: Text, events: seq<Event>, faults: Faults)
    requires header.File? && header.id.sender == peer && header.size <= 0x1000_0000 && faults.recording.NoFault?
    ensures var after := Receive(hash, d, peer, header, path, events, faults).0;
            header.id in after.ops
            && after.ops[header.id] == if header.id in d.ops then d.ops[header.id] else StoredOp(peer, header)
  {
  }

  // ----- what a recorded path is worth -----

  /** The file at `path` is the one `f` announced. */
  predicate Names(hash: seq<byte> -> Key, files: Files, path: Text, f: Frame)
    requires f.File?
  {
    path in files && Matches(hash, f.size, f.hash, files[path])
  }

  /** `id` is an attachment on disk with a path recorded under its key. */
  predicate HasRecordedPath(t: Table, settings: map<Text, Text>, id: MessageId) {
    id in t && t[id].frame.File? && FileKey(id) in settings
  }

  /** Every recorded path names a complete file, the very one its op announced. */
  ghost predicate Sound(hash: seq<byte> -> Key, d: Local) {
    forall id :: HasRecordedPath(d.ops, d.settings, id) ==>
      Names(hash, d.files, d.settings[FileKey(id)], d.ops[id].frame)
  }

  ghost predicate Attainable(hash: seq<byte> -> Key, header: Frame)
    requires header.File?
  {
    exists b :: Matches(hash, header.size, header.hash, b)
  }

  /** No attachment's recorded path is the one about to be written. */
  ghost predicate PathIsFree(t: Table, settings: map<Text, Text>, path: Text) {
    forall id :: HasRecordedPath(t, settings, id) ==> settings[FileKey(id)] != path
  }

  /** Every attachment kept under the header's key announces what the header does. */
  ghost predicate KeyIsOneFiles(t: Table, header: Frame)
    requires header.File?
  {
    forall id :: id in t && t[id].frame.File? && FileKey(id) == FileKey(header.id) ==>
      t[id].frame.size == header.size && t[id].frame.hash == header.hash
  }

  /**
   What is on disk when a header comes in: its target path is nobody's, a path
   already recorded under the key of a new header is that header's own file,
   and unless no bytes could match it, no other file goes by its key.
   */
  ghost predicate Undisturbed(hash: seq<byte> -> Key, d: Local, peer: Key, header: Frame, path: Text)
    requires header.File?
  {
    var t := RecordOp(d.ops, Arrival(peer, header));
    && PathIsFree(t, d.settings, path)
    && (header.id !in d.ops && FileKey(header.id) in d.settings ==>
          Names(hash, d.files, d.settings[FileKey(header.id)], header))
    && (Attainable(hash, header) ==> KeyIsOneFiles(t, header))
  }

  /** The bytes one at a time. */
  function OneByOne(b: seq<byte>): seq<Event> {
    if b == [] then [] else [Data([b[0]])] + OneByOne(b[1..])
  }

  lemma {:induction false} OneByOneDelivers(b: seq<byte>)
    ensures Delivered(OneByOne(b)) == b && Unbroken(OneByOne(b))
  {
    if b != [] {
      OneByOneDelivers(b[1..]);
      var rest := OneByOne(b[1..]);
      assert forall e :: e in [Data([b[0]])] + rest <==> e == Data([b[0]]) || e in rest;
      assert ([Data([b[0]])] + rest)[1..] == rest;
    }
  }

  /** A stream that does not match, whatever the size announced. */
  function Mismatch(size: nat): seq<Event> {
    if size > 0 then [] else [Data([0])]
  }

  /** A mismatch empties the target path: what was there is gone, whoever's it was. */
  lemma MismatchRemoves(hash: seq<byte> -> Key, d: Local, peer: Key, header: Frame, path: Text)
    requires Refusal(peer, header, NO_FAULTS).None?
    ensures Receive(hash, d, peer, header, path, Mismatch(header.size), NO_FAULTS).0
         == Local(RecordOp(d.ops, Arrival(peer, header)), d.settings, d.files - {path})
  {
    assert d.files[path := []] - {path} == d.files - {path};
  }

  /** The right bytes, unbroken, are kept. */
  lemma MatchKeeps(hash: seq<byte> -> Key, d: Local, peer: Key, header: Frame, path: Text, b: seq<byte>)
    requires Refusal(peer, header, NO_FAULTS).None? && Matches(hash, header.size, header.hash, b)
    ensures Receive(hash, d, peer, header, path, OneByOne(b), NO_FAULTS)
         == (Local(RecordOp(d.ops, Arrival(peer, header)), d.settings[FileKey(header.id) := path], d.files[path := b]),
             Kept)
  {
    OneByOneDelivers(b);
    DrainHolds(header.size, [], OneByOne(b));
    assert [] + b == b;
  }

  lemma UndisturbedKeepsSound(
      hash: seq<byte> -> Key, d: Local, peer: Key, header: Frame, path: Text, events: seq<Event>, faults: Faults)
    requires header.File? && Sound(hash, d) && Undisturbed(hash, d, peer, header, path)
    ensures Sound(hash, Receive(hash, d, peer, header, path, events, faults).0)
  {
    var (after, outcome) := Receive(hash, d, peer, header, path, events, faults);
    if Refusal(peer, header, faults).None? {
      RecordedIffKept(hash, d, peer, header, path, events, faults);
      forall id | HasRecordedPath(after.ops, after.settings, id)
        ensures Names(hash, after.files, after.settings[FileKey(id)], after.ops[id].frame)
      {
        if outcome == Kept && FileKey(id) == FileKey(header.id) {
          assert Attainable(hash, header);
        } else {
          OtherPathStays(hash, d, peer, header, path, after, id);
        }
      }
    }
  }

  lemma OtherPathStays(
      hash: seq<byte> -> Key, d: Local, peer: Key, header: Frame, path: Text, after: Local, id: MessageId)
    requires header.File? && Sound(hash, d) && Undisturbed(hash, d, peer, header, path)
    requires after.ops == RecordOp(d.ops, Arrival(peer, header)) && after.files - {path} == d.files - {path}
    requires HasRecordedPath(after.ops, d.settings, id)
    ensures Names(hash, after.files, d.settings[FileKey(id)], after.ops[id].frame)
  {
    var p := d.settings[FileKey(id)];
    assert p != path;
    assert Names(hash, d.files, p, after.ops[id].frame) by {
      if id in d.ops {
        assert HasRecordedPath(d.ops, d.settings, id);
      }
    }
    assert p in d.files - {path} && (d.files - {path})[p] == d.files[p];
    assert p in after.files - {path} && (after.files - {path})[p] == after.files[p];
  }

  lemma DisturbedBreaksSound(hash: seq<byte> -> Key, d: Local, peer: Key, header: Frame, path: Text)
    returns (events: seq<Event>, faults: Faults)
    requires Refusal(peer, header, NO_FAULTS).None? && !Undisturbed(hash, d, peer, header, path)
    ensures !Sound(hash, Receive(hash, d, peer, header, path, events, faults).0)
  {
    var t := RecordOp(d.ops, Arrival(peer, header));
    faults := NO_FAULTS;
    if !PathIsFree(t, d.settings, path) {
      events := Mismatch(header.size);
      MismatchRemoves(hash, d, peer, header, path);
      var id :| HasRecordedPath(t, d.settings, id) && d.settings[FileKey(id)] == path;
      assert !Names(hash, d.files - {path}, path, t[id].frame);
    } else if Attainable(hash, header) && !KeyIsOneFiles(t, header) {
      var b :| Matches(hash, header.size, header.hash, b);
      events := OneByOne(b);
      MatchKeeps(hash, d, peer, header, path, b);
      var id :| id in t && t[id].frame.File? && FileKey(id) == FileKey(header.id)
                && !(t[id].frame.size == header.size && t[id].frame.hash == header.hash);
      assert HasRecordedPath(t, d.settings[FileKey(header.id) := path], id);
      assert !Names(hash, d.files[path := b], path, t[id].frame);
    } else {
      events, faults := [], NO_FAULTS.(refolds := false);
      assert HasRecordedPath(t, d.settings, header.id);
    }
  }

  /**
   Receiving keeps every recorded path sound, whatever the stream and the disk
   do, exactly when nothing on disk stands in the header's way.
   */
  lemma ReceiveKeepsSoundIff(hash: seq<byte> -> Key, d: Local, peer: Key, header: Frame, path: Text)
    requires Sound(hash, d) && Refusal(peer, header, NO_FAULTS).None?
    ensures (forall events, faults :: Sound(hash, Receive(hash, d, peer, header, path, events, faults).0))
            <==> Undisturbed(hash, d, peer, header, path)
  {
    if Undisturbed(hash, d, peer, header, path) {
      forall events, faults
        ensures Sound(hash, Receive(hash, d, peer, header, path, events, faults).0)
      {
        UndisturbedKeepsSound(hash, d, peer, header, path, events, faults);
      }
    } else {
      var events, faults := DisturbedBreaksSound(hash, d, peer, header, path);
    }
  }

  /**
   It fails on a header sent twice. The first time the file is kept and its path
   recorded; the second time, to the same path, a stream that does not match
   takes the file away and leaves the path behind.
   */
  lemma SentAgainLosesFile(hash: seq<byte> -> Key, peer: Key, header: Frame, path: Text, b: seq<byte>)
    requires Refusal(peer, header, NO_FAULTS).None? && Matches(hash, header.size, header.hash, b)
    ensures var blank := Local(map[], map[], map[]);
            var (first, outcome) := Receive(hash, blank, peer, header, path, OneByOne(b), NO_FAULTS);
            var (second, _) := Receive(hash, first, peer, header, path, Mismatch(header.size), NO_FAULTS);
            outcome == Kept && Sound(hash, first) && !Sound(hash, second)
            && Lookup(second.settings, FileKey(header.id)) == Some(path) && path !in second.files
  {
    var blank := Local(map[], map[], map[]);
    MatchKeeps(hash, blank, peer, header, path, b);
    var first := Receive(hash, blank, peer, header, path, OneByOne(b), NO_FAULTS).0;
    MismatchRemoves(hash, first, peer, header, path);
    var second := Receive(hash, first, peer, header, path, Mismatch(header.size), NO_FAULTS).0;
    assert HasRecordedPath(second.ops, second.settings, header.id);
  }

  // ----- the code that does it -----

  lemma Rewritten(files: Files, path: Text, a: seq<byte>, b: seq<byte>)
    ensures files[path := a][path := b] == files[path := b]
  {
  }

  class Downloads {
    const store: Store
    const hash: seq<byte> -> Key
    /** The download directory, by path. */
    var files: Files

    constructor (store: Store, hash: seq<byte> -> Key, files: Files)
      ensures this.store == store && this.hash == hash && this.files == files
    {
      this.store, this.hash, this.files := store, hash, files;
    }

    ghost function View(): Local
      reads this, store
    {
      Local(store.ops, store.settings, files)
    }

    method Remove(path: Text, removes: bool)
      modifies this`files
      ensures files == Discard(old(files), path, removes)
    {
      if removes {
        files := files - {path};
      }
    }

    method DownloadTo(path: Text, size: nat, wanted: Key, events: seq<Event>, faults: Faults)
      returns (outcome: Outcome)
      modifies this`files
      ensures (files, outcome) == Fill(hash, old(files), path, size, wanted, events, faults)
    {
      files := files[path := []];
      var got := 0;
      var hashed: seq<byte> := [];
      for n := 0 to |events|
        invariant got == |hashed| <= size
        invariant files == old(files)[path := hashed]
        invariant Drain(size, [], events) == Drain(size, hashed, events[n..])
      {
        var event := events[n];
        assert events[n..][0] == event && events[n..][1..] == events[n + 1..];
        if event.StreamFails? {
          Rewritten(old(files), path, hashed, FirstPart(hashed, event.kept));
          files := files[path := FirstPart(hashed, event.kept)];
          return Broken;
        }
        got := got + |event.bytes|;
        if got > size {
          Remove(path, faults.removes);
          return SentTooMuch;
        }
        ghost var before := hashed;
        hashed := hashed + event.bytes;
        if event.DiskFails? {
          Rewritten(old(files), path, before, FirstPart(hashed, event.kept));
          files := files[path := FirstPart(hashed, event.kept)];
          return Broken;
        }
        Rewritten(old(files), path, before, hashed);
        files := files[path := files[path] + event.bytes];
      }
      if faults.flushLoses.Some? {
        Rewritten(old(files), path, hashed, FirstPart(hashed, faults.flushLoses.value));
        files := files[path := FirstPart(hashed, faults.flushLoses.value)];
        return Broken;
      }
      if got != size || hash(hashed) != wanted {
        Remove(path, faults.removes);
        return DidNotMatch;
      }
      return Kept;
    }

    /** `receive`, one attachment stream from its header to its end. */
    method ReceiveFrom(peer: Key, header: Frame, path: Text, events: seq<Event>, faults: Faults)
      returns (outcome: Outcome)
      modifies this`files, store`ops, store`contacts, store`settings
      ensures (View(), outcome) == Receive(hash, old(View()), peer, header, path, events, faults)
    {
      if !header.File? {
        return NotAHeader;
      }
      if header.id.sender != peer {
        return NotTheSenders;
      }
      if header.size > MAX_FILE {
        return TooLarge;
      }
      var recorded := store.Record(peer, header, faults.recording);
      if recorded.Err? {
        return NotRecorded;
      }
      if !faults.refolds {
        return NotShown;
      }
      if !faults.creates {
        return NotCreated;
      }
      outcome := DownloadTo(path, header.size, header.hash, events, faults);
      if outcome != Kept {
        return outcome;
      }
      if !faults.records {
        return PathNotRecorded;
      }
      store.SetFilePath(header.id, path);
    }
  }
}
