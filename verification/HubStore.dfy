/** The hub's store: the mail table and the room registry. */
module HubStore {
  import opened Bytes
  import opened Wrappers
  import opened RoomLog
  import opened RoomReplicas
  import opened Filters
  import opened Mail

  const MAX_ENVELOPE: nat := 0x1_0000
  const QUOTA_PER_SENDER: nat := 200
  const QUOTA_PER_RECIPIENT: nat := 2000

  /** How the hub answers. */
  datatype Status =
    | Accepted
    | Stored
    | PayloadTooLarge
    | BadRequest
    | TooManyFromSender
    | MailboxFull
    | Conflict

  class HubStore {
    const v: Verifier
    /** The envelope a body encodes, if it is one, and whether an envelope's signature is its sender's. */
    const decode: seq<byte> -> Option<Envelope>
    const signed: Envelope -> bool
    var mail: seq<Row>
    var rooms: map<RoomId, Log>

    ghost predicate Valid()
      reads this
    {
      InArrivalOrder(mail)
    }

    constructor (v: Verifier, decode: seq<byte> -> Option<Envelope>, signed: Envelope -> bool)
      ensures Valid() && this.v == v && this.decode == decode && this.signed == signed
      ensures mail == [] && rooms == map[]
    {
      this.v, this.decode, this.signed, mail, rooms := v, decode, signed, [], map[];
    }

    /** A body the hub takes: small enough, an envelope addressed here, signed by its sender. */
    predicate Admissible(recipient: Key, body: seq<byte>) {
      |body| <= MAX_ENVELOPE && decode(body).Some?
      && decode(body).value.recipient == recipient && signed(decode(body).value)
    }

    /** The first thing wrong with a post, if anything is; size before content, content before quota. */
    function Verdict(rows: seq<Row>, recipient: Key, body: seq<byte>): (status: Status)
      ensures status == PayloadTooLarge <==> |body| > 0x1_0000
      ensures status == BadRequest <==>
                |body| <= 0x1_0000
                && (decode(body).None? || decode(body).value.recipient != recipient || !signed(decode(body).value))
      ensures status == TooManyFromSender <==>
                Admissible(recipient, body) && |Filter(rows, FromTo(decode(body).value.sender, recipient))| >= 200
      ensures status == MailboxFull <==>
                Admissible(recipient, body) && |Filter(rows, To(recipient))| >= 2000
                && |Filter(rows, FromTo(decode(body).value.sender, recipient))| < 200
      ensures status == Accepted <==>
                Admissible(recipient, body) && |Filter(rows, To(recipient))| < 2000
                && |Filter(rows, FromTo(decode(body).value.sender, recipient))| < 200
    {
      if |body| > MAX_ENVELOPE then PayloadTooLarge
      else if !Admissible(recipient, body) then BadRequest
      else if |Filter(rows, FromTo(decode(body).value.sender, recipient))| >= QUOTA_PER_SENDER then TooManyFromSender
      else if |Filter(rows, To(recipient))| >= QUOTA_PER_RECIPIENT then MailboxFull
      else Accepted
    }

    method Put(sender: Key, recipient: Key, now: int, e: Envelope)
      requires Valid()
      modifies this`mail
      ensures Valid() && mail == PutMail(old(mail), sender, recipient, now, e)
      ensures |mail| == |old(mail)| + 1 && mail[..|old(mail)|] == old(mail)
      ensures var row := mail[|old(mail)|];
              row.recipient == recipient && row.sender == sender && row.receivedMs == now && row.envelope == e
    {
      PutKeepsOrder(mail, sender, recipient, now, e);
      mail := PutMail(mail, sender, recipient, now, e);
    }

    method PendingFrom(sender: Key, recipient: Key) returns (n: nat)
      ensures n == |Filter(mail, FromTo(sender, recipient))|
      ensures n == |Where(mail, FromTo(sender, recipient))|
      ensures forall i :: i in Where(mail, FromTo(sender, recipient)) <==>
                0 <= i < |mail| && mail[i].sender == sender && mail[i].recipient == recipient
    {
      n := 0;
      for i := 0 to |mail|
        invariant n == |Filter(mail[..i], FromTo(sender, recipient))|
      {
        FilterSnoc(mail[..i], mail[i], FromTo(sender, recipient));
        assert mail[..i + 1] == mail[..i] + [mail[i]];
        if mail[i].sender == sender && mail[i].recipient == recipient {
          n := n + 1;
        }
      }
      assert mail[..|mail|] == mail;
      FilterCounts(mail, FromTo(sender, recipient));
    }

    method PendingFor(recipient: Key) returns (n: nat)
      ensures n == |Filter(mail, To(recipient))|
      ensures n == |Where(mail, To(recipient))|
      ensures forall i :: i in Where(mail, To(recipient)) <==> 0 <= i < |mail| && mail[i].recipient == recipient
    {
      n := 0;
      for i := 0 to |mail|
        invariant n == |Filter(mail[..i], To(recipient))|
      {
        FilterSnoc(mail[..i], mail[i], To(recipient));
        assert mail[..i + 1] == mail[..i] + [mail[i]];
        if mail[i].recipient == recipient {
          n := n + 1;
        }
      }
      assert mail[..|mail|] == mail;
      FilterCounts(mail, To(recipient));
    }

    /** One recipient's rows in id order, which is the order they arrived in. */
    method MailFor(recipient: Key) returns (out: seq<Row>)
      requires Valid()
      ensures out == Filter(mail, To(recipient))
      ensures SortedById(out)
      ensures forall row :: row in out <==> row in mail && row.recipient == recipient
    {
      out := [];
      for i := 0 to |mail|
        invariant out == SortById(Filter(mail[..i], To(recipient)))
      {
        ghost var before := Filter(mail[..i], To(recipient));
        FilterSnoc(mail[..i], mail[i], To(recipient));
        assert mail[..i + 1] == mail[..i] + [mail[i]];
        if mail[i].recipient == recipient {
          SortByIdSnoc(before, mail[i]);
          out := InsertById(out, mail[i]);
        }
      }
      assert mail[..|mail|] == mail;
      FilterKeepsOrder(mail, To(recipient));
      SortingIsReading(Filter(mail, To(recipient)));
      FilterIsExactly(mail, To(recipient));
    }

    /** Removes the recipient's own rows among `ids`, and nobody else's. */
    method DeleteMail(recipient: Key, ids: seq<int>) returns (deleted: nat)
      requires Valid()
      modifies this`mail
      ensures Valid() && mail == Filter(old(mail), NotDeleted(recipient, ids))
      ensures forall row :: row in mail <==> row in old(mail) && !(row.recipient == recipient && row.id in ids)
      ensures deleted == |old(mail)| - |mail|
    {
      deleted := 0;
      ghost var all := mail;
      FilterAll(mail, NotDeleted(recipient, ids[..0]));
      for n := 0 to |ids|
        invariant mail == Filter(all, NotDeleted(recipient, ids[..n]))
        invariant deleted == |all| - |mail|
        invariant Valid()
      {
        FilterTwice(all, NotDeleted(recipient, ids[..n]), NotRow(recipient, ids[n]), NotDeleted(recipient, ids[..n + 1]));
        FilterShrinks(mail, NotRow(recipient, ids[n]), NotRow(recipient, ids[n]));
        FilterKeepsOrder(mail, NotRow(recipient, ids[n]));
        var left := Filter(mail, NotRow(recipient, ids[n]));
        deleted := deleted + (|mail| - |left|);
        mail := left;
      }
      assert ids[..|ids|] == ids;
      FilterIsExactly(all, NotDeleted(recipient, ids));
    }

    method Sweep(cutoff: int) returns (swept: nat)
      requires Valid()
      modifies this`mail
      ensures Valid() && mail == Filter(old(mail), NotExpired(cutoff))
      ensures forall row :: row in mail <==> row in old(mail) && row.receivedMs >= cutoff
      ensures swept == |old(mail)| - |mail|
    {
      FilterKeepsOrder(mail, NotExpired(cutoff));
      FilterShrinks(mail, NotExpired(cutoff), NotExpired(cutoff));
      FilterIsExactly(mail, NotExpired(cutoff));
      var left := Filter(mail, NotExpired(cutoff));
      swept := |mail| - |left|;
      mail := left;
    }

    /** The `post_mail` handler, run without another handler between its steps. */
    method PostMail(recipient: Key, body: seq<byte>, now: int) returns (status: Status)
      requires Valid()
      modifies this`mail
      ensures Valid()
      ensures status == Verdict(old(mail), recipient, body)
      ensures mail ==
              if status == Accepted
              then PutMail(old(mail), decode(body).value.sender, recipient, now, decode(body).value)
              else old(mail)
    {
      if |body| > MAX_ENVELOPE {
        return PayloadTooLarge;
      }
      var decoded := decode(body);
      if decoded.None? {
        return BadRequest;
      }
      var e := decoded.value;
      if e.recipient != recipient {
        return BadRequest;
      }
      if !signed(e) {
        return BadRequest;
      }
      var fromSender := PendingFrom(e.sender, recipient);
      if fromSender >= QUOTA_PER_SENDER {
        return TooManyFromSender;
      }
      var waiting := PendingFor(recipient);
      if waiting >= QUOTA_PER_RECIPIENT {
        return MailboxFull;
      }
      Put(e.sender, recipient, now, e);
      return Accepted;
    }

    ghost function LogOf(id: RoomId): Log
      reads this
    {
      if id in rooms then rooms[id] else []
    }

    /** The `put_room` handler: a log that verifies to this id replaces a strictly shorter one. */
    method PutRoom(id: RoomId, log: Log) returns (status: Status)
      modifies this`rooms
      ensures LogOf(id) == LongerWins(v, id, old(LogOf(id)), log)
      ensures status == Stored <==> Speaks(v, id, log) && |log| > |old(LogOf(id))|
      ensures status == BadRequest <==> !Speaks(v, id, log)
      ensures status == Conflict <==> Speaks(v, id, log) && |log| <= |old(LogOf(id))|
      ensures rooms - {id} == old(rooms) - {id}
    {
      var room := VerifyLog(v, log);
      if room.Err? || room.value.id != id {
        return BadRequest;
      }
      if id in rooms && |log| <= |rooms[id]| {
        return Conflict;
      }
      rooms := rooms[id := log];
      return Stored;
    }
  }
}
