/**
 The mailbox protocol over whole runs: senders post, the recipient fetches,
 absorbs and asks for deletion, the hub applies each request when it gets to it
 or never, ops arrive live as well, the client crashes, other recipients delete
 their mail and the hub sweeps old rows.
 */
module Mailbox {
  import opened Bytes
  import opened Wrappers
  import opened RoomLog
  import opened RoomReplicas
  import opened Wire
  import opened MessageStore
  import opened Filters
  import opened Mail
  import opened HubStore
  import opened Client

  /** Where the recipient's drain stands: rows fetched, how many are absorbed, and the ids to delete. */
  datatype Phase = Idle | Draining(batch: seq<Row>, at: nat, collected: seq<int>)

  /**
   The hub's rows, the recipient's client, its drain, and the delete requests it
   has sent that the hub has yet to apply. Then, for stating what must hold:
   everything ever posted, every op ever recorded as it was first stored, the
   envelopes the sweep took, and the ids reported as new since the user
   last deleted anything.
   */
  datatype World = World(
    rows: seq<Row>,
    client: Client,
    phase: Phase,
    deletes: seq<seq<int>>,
    posted: set<Envelope>,
    recorded: Table,
    expired: set<Envelope>,
    reported: seq<MessageId>)

  /**
   The client gives up on a delete after a while and moves on; the request may
   still be applied at any later time (`ApplyDelete`) or never (`LoseDelete`).
   */
  datatype Step =
    | Post(e: Envelope, now: int)
    | FetchMail
    | AbsorbNext(env: Env)
    | SendDelete
    | ApplyDelete(which: nat)
    | LoseDelete(which: nat)
    | Live(sender: Key, frame: Frame, liveEnv: Env)
    | Write(conversation: Key, own: Frame)
    | Crash
    | OtherDeletes(recipient: Key, ids: seq<int>)
    | Sweep(cutoff: int)
    | Erase(peer: Key)

  /** Accepting a frame, with the bookkeeping. */
  function Take(v: Verifier, me: Key, w: World, sender: Key, f: Frame, env: Env): World {
    var (after, r) := Accept(v, me, w.client, sender, f, env);
    w.(client := after,
       recorded := after.ops + w.recorded,
       reported := if r.Ok? && r.value.Some? && f.Id().Some? then w.reported + [f.Id().value] else w.reported)
  }

  /** `absorb`: an envelope that does not open is an error; the rest is `accept`. */
  function AbsorbOk(v: Verifier, me: Key, c: Client, e: Envelope, env: Env): bool {
    e.recipient == me && e.content.Some? && Accept(v, me, c, e.sender, e.content.value, env).1.Ok?
  }

  function AbsorbStep(v: Verifier, me: Key, w: World, env: Env): World
    requires w.phase.Draining? && w.phase.at < |w.phase.batch|
  {
    var row := w.phase.batch[w.phase.at];
    var ok := AbsorbOk(v, me, w.client, row.envelope, env);
    var taken := if row.envelope.recipient == me && row.envelope.content.Some?
                 then Take(v, me, w, row.envelope.sender, row.envelope.content.value, env) else w;
    taken.(phase := Draining(w.phase.batch, w.phase.at + 1,
                             if ok then w.phase.collected + [row.id] else w.phase.collected))
  }

  /** A restart replays the stored logs that still verify. */
  function Restarted(v: Verifier, c: Client): Client {
    c.(rooms := map id | id in c.logs && Speaks(v, id, c.logs[id]) :: Replay(v, c.logs[id]).value)
  }

  /** An op of this endpoint's own goes on disk before it goes anywhere else. */
  function Written(me: Key, w: World, conversation: Key, own: Frame): World {
    if own.Id().Some? && own.Id().value.sender == me then
      var after := RecordUnder(w.client, conversation, own, NoFault).0;
      w.(client := after, recorded := after.ops + w.recorded)
    else w
  }

  /** The requests still out once one of them is applied or lost. */
  function StillOut(deletes: seq<seq<int>>, which: nat): seq<seq<int>> {
    if which < |deletes| then deletes[..which] + deletes[which + 1..] else deletes
  }

  /** One step; a step that is not enabled changes nothing. */
  function Next(v: Verifier, me: Key, w: World, step: Step): World {
    match step
    case Post(e, now) => w.(rows := PutMail(w.rows, e.sender, e.recipient, now, e), posted := w.posted + {e})
    case FetchMail =>
      if w.phase.Idle? then w.(phase := Draining(Filter(w.rows, To(me)), 0, [])) else w
    case AbsorbNext(env) =>
      if w.phase.Draining? && w.phase.at < |w.phase.batch| then AbsorbStep(v, me, w, env) else w
    case SendDelete =>
      if w.phase.Draining? && w.phase.at >= |w.phase.batch| then
        w.(phase := Idle, deletes := if w.phase.collected == [] then w.deletes else w.deletes + [w.phase.collected])
      else w
    case ApplyDelete(which) =>
      if which < |w.deletes| then
        w.(rows := Filter(w.rows, NotDeleted(me, w.deletes[which])), deletes := StillOut(w.deletes, which))
      else w
    case LoseDelete(which) => w.(deletes := StillOut(w.deletes, which))
    case Live(sender, frame, env) => Take(v, me, w, sender, frame, env)
    case Write(conversation, own) => Written(me, w, conversation, own)
    case Crash => w.(client := Restarted(v, w.client), phase := Idle)
    case OtherDeletes(recipient, ids) =>
      if recipient == me then w else w.(rows := Filter(w.rows, NotDeleted(recipient, ids)))
    case Sweep(cutoff) =>
      w.(rows := Filter(w.rows, NotExpired(cutoff)),
         expired := w.expired + set row | row in w.rows && row.receivedMs < cutoff :: row.envelope)
    case Erase(peer) =>
      w.(client := w.client.(ops := Without(w.client.ops, peer)), reported := [])
  }

  /** A crash ends the drain and restarts the client, which shows exactly the stored rooms that verify, as replayed. */
  lemma CrashRestarts(v: Verifier, me: Key, w: World)
    ensures var after := Next(v, me, w, Crash);
            after.phase == Idle && after.rows == w.rows && after.deletes == w.deletes
            && after.client.ops == w.client.ops && after.client.logs == w.client.logs
            && (forall id :: id in after.client.rooms <==> id in w.client.logs && Speaks(v, id, w.client.logs[id]))
            && (forall id :: id in after.client.rooms ==> Replay(v, w.client.logs[id]) == Ok(after.client.rooms[id]))
  {
  }

  /** Deleting a conversation here leaves nothing of it on disk, and everything of every other one. */
  lemma EraseForgets(v: Verifier, me: Key, w: World, peer: Key, other: Key)
    requires other != peer
    ensures var after := Next(v, me, w, Erase(peer)).client.ops;
            Conversation(after, peer) == map[] && Conversation(after, other) == Conversation(w.client.ops, other)
  {
  }

  /** What each party takes off the hub: its own rows under the ids it names, and the sweep whatever is old. */
  lemma HubRowsGo(v: Verifier, me: Key, w: World, row: Row, recipient: Key, ids: seq<int>, cutoff: int, which: nat)
    requires row in w.rows
    ensures recipient != me ==>
              (row in Next(v, me, w, OtherDeletes(recipient, ids)).rows <==>
                 !(row.recipient == recipient && row.id in ids))
    ensures row in Next(v, me, w, Sweep(cutoff)).rows <==> row.receivedMs >= cutoff
    ensures which < |w.deletes| ==>
              (row in Next(v, me, w, ApplyDelete(which)).rows <==> !(row.recipient == me && row.id in w.deletes[which]))
  {
    FilterIn(w.rows, NotDeleted(recipient, ids), row);
    FilterIn(w.rows, NotExpired(cutoff), row);
    if which < |w.deletes| {
      FilterIn(w.rows, NotDeleted(me, w.deletes[which]), row);
    }
  }

  function Run(v: Verifier, me: Key, w: World, steps: seq<Step>): World
    decreases |steps|
  {
    if steps == [] then w else Run(v, me, Next(v, me, w, steps[0]), steps[1..])
  }

  lemma {:induction false} RunAppend(v: Verifier, me: Key, w: World, s: seq<Step>, t: seq<Step>)
    ensures Run(v, me, w, s + t) == Run(v, me, Run(v, me, w, s), t)
    decreases |s|
  {
    if s == [] {
      assert s + t == t;
    } else {
      assert (s + t)[0] == s[0] && (s + t)[1..] == s[1..] + t;
      RunAppend(v, me, Next(v, me, w, s[0]), s[1..], t);
    }
  }

  lemma RunOne(v: Verifier, me: Key, w: World, step: Step)
    ensures Run(v, me, w, [step]) == Next(v, me, w, step)
  {
    assert [step][1..] == [];
  }

  // ----- when a post is safe -----

  /** `id` is that of a fetched row the client has yet to absorb. */
  ghost predicate ToCome(w: World, id: int) {
    w.phase.Draining? && exists k :: w.phase.at <= k < |w.phase.batch| && w.phase.batch[k].id == id
  }

  /** `id` is down for deletion once the drain ends. */
  predicate Collected(w: World, id: int) {
    w.phase.Draining? && id in w.phase.collected
  }

  /** `id` is down for deletion in a request the hub has yet to apply. */
  ghost predicate Listed(w: World, id: int) {
    exists list :: list in w.deletes && id in list
  }

  ghost predicate AtRisk(w: World, id: int) {
    ToCome(w, id) || Collected(w, id) || Listed(w, id)
  }

  /** The row id a post would be given is not one the client may yet ask, or has asked, to delete. */
  ghost predicate SafeStep(me: Key, w: World, step: Step) {
    step.Post? && step.e.recipient == me ==> !AtRisk(w, NextRowId(w.rows))
  }

  ghost predicate SafeRun(v: Verifier, me: Key, w: World, steps: seq<Step>)
    decreases |steps|
  {
    steps == [] || (SafeStep(me, w, steps[0]) && SafeRun(v, me, Next(v, me, w, steps[0]), steps[1..]))
  }

  // ----- what holds -----

  /** An envelope for `me` whose op carries an id: the ones delivery is promised for. */
  predicate Owed(me: Key, e: Envelope) {
    e.recipient == me && e.content.Some? && e.content.value.Id().Some?
  }

  ghost predicate OnHub(rows: seq<Row>, e: Envelope) {
    exists row :: row in rows && row.envelope == e && row.recipient == e.recipient
  }

  /** Every op owed is still on the hub, or has been recorded, or outlived its time there. */
  ghost predicate NothingLost(me: Key, w: World) {
    forall e :: e in w.posted && Owed(me, e) ==>
      OnHub(w.rows, e) || e.content.value.Id().value in w.recorded || e in w.expired
  }

  /** No op has been reported as new twice, and each one reported is on disk. */
  ghost predicate ReportedOnce(w: World) {
    && (forall i, j :: 0 <= i < j < |w.reported| ==> w.reported[i] != w.reported[j])
    && (forall id :: id in w.reported ==> id in w.client.ops)
  }

  /** The op in this row has been recorded, if it carries an id at all. */
  predicate Settled(w: World, row: Row) {
    row.envelope.content.Some?
    && (row.envelope.content.value.Id().Some? ==> row.envelope.content.value.Id().value in w.recorded)
  }

  /** Whatever this list would remove has been recorded. */
  ghost predicate ListSound(me: Key, w: World, list: seq<int>) {
    forall row :: row in w.rows && row.recipient == me && row.id in list ==> Settled(w, row)
  }

  /** A row of `me`'s under an id still to come is the one fetched, and what is collected may go. */
  ghost predicate DrainSound(me: Key, w: World) {
    w.phase.Draining? ==>
      && (forall row, k ::
            (row in w.rows && row.recipient == me
             && w.phase.at <= k < |w.phase.batch| && row.id == w.phase.batch[k].id)
            ==> row == w.phase.batch[k])
      && ListSound(me, w, w.phase.collected)
  }

  ghost predicate DeletesSound(me: Key, w: World) {
    forall list :: list in w.deletes ==> ListSound(me, w, list)
  }

  ghost predicate Inv(v: Verifier, me: Key, w: World) {
    && InArrivalOrder(w.rows)
    && CacheAgrees(v, w.client)
    && w.client.ops.Keys <= w.recorded.Keys
    && NothingLost(me, w)
    && ReportedOnce(w)
    && DrainSound(me, w)
    && DeletesSound(me, w)
  }

  // ----- step by step -----

  /** Removing rows loses nothing if each removed row's op is recorded or its envelope expired. */
  lemma RemovingKeeps(me: Key, w: World, after: World, kept: Row -> bool)
    requires NothingLost(me, w) && after.rows == Filter(w.rows, kept)
    requires after.posted == w.posted && w.recorded == after.recorded && w.expired <= after.expired
    requires forall row ::
               row in w.rows && !kept(row) && Owed(me, row.envelope) && row.recipient == row.envelope.recipient
               ==> Settled(w, row) || row.envelope in after.expired
    ensures NothingLost(me, after)
  {
    forall e | e in after.posted && Owed(me, e)
      ensures OnHub(after.rows, e) || e.content.value.Id().value in after.recorded || e in after.expired
    {
      if OnHub(w.rows, e) {
        var row :| row in w.rows && row.envelope == e && row.recipient == e.recipient;
        FilterIn(w.rows, kept, row);
      }
    }
  }

  /** With no more rows or requests and no fewer recorded ops, every deletion under way is as sound as before. */
  lemma DeletionsStaySound(me: Key, w: World, after: World)
    requires DrainSound(me, w) && DeletesSound(me, w)
    requires forall row :: row in after.rows ==> row in w.rows
    requires after.phase == w.phase || after.phase.Idle?
    requires forall list :: list in after.deletes ==> list in w.deletes
    requires w.recorded.Keys <= after.recorded.Keys
    ensures DrainSound(me, after) && DeletesSound(me, after)
  {
    assert forall row :: Settled(w, row) ==> Settled(after, row);
  }

  lemma TakeKeeps(v: Verifier, me: Key, w: World, sender: Key, f: Frame, env: Env)
    requires Inv(v, me, w)
    ensures Inv(v, me, Take(v, me, w, sender, f, env))
    ensures Accept(v, me, w.client, sender, f, env).1.Ok? && f.Id().Some? ==>
              f.Id().value in Take(v, me, w, sender, f, env).recorded
  {
    AcceptKeeps(v, me, w.client, sender, f, env);
    UnwrapKeepsId(f);
    DeletionsStaySound(me, w, Take(v, me, w, sender, f, env));
  }

  /** Moving on to the next row, down for deletion or not, once the op in this one is settled. */
  lemma AdvanceKeeps(v: Verifier, me: Key, w: World, after: World)
    requires Inv(v, me, w) && w.phase.Draining? && w.phase.at < |w.phase.batch|
    requires after == w.(phase := after.phase) && after.phase.Draining?
    requires after.phase.batch == w.phase.batch && after.phase.at == w.phase.at + 1
    requires var row := w.phase.batch[w.phase.at];
             after.phase.collected == w.phase.collected
             || (after.phase.collected == w.phase.collected + [row.id] && Settled(w, row))
    ensures Inv(v, me, after)
  {
    assert forall r :: Settled(w, r) ==> Settled(after, r);
  }

  lemma AbsorbKeeps(v: Verifier, me: Key, w: World, env: Env)
    requires Inv(v, me, w) && w.phase.Draining? && w.phase.at < |w.phase.batch|
    ensures Inv(v, me, AbsorbStep(v, me, w, env))
  {
    var row := w.phase.batch[w.phase.at];
    var after := AbsorbStep(v, me, w, env);
    if row.envelope.recipient == me && row.envelope.content.Some? {
      TakeKeeps(v, me, w, row.envelope.sender, row.envelope.content.value, env);
      AdvanceKeeps(v, me, Take(v, me, w, row.envelope.sender, row.envelope.content.value, env), after);
    } else {
      AdvanceKeeps(v, me, w, after);
    }
  }

  lemma SendKeeps(v: Verifier, me: Key, w: World)
    requires Inv(v, me, w)
    ensures Inv(v, me, Next(v, me, w, SendDelete))
  {
    var after := Next(v, me, w, SendDelete);
    assert forall row :: Settled(w, row) ==> Settled(after, row);
    forall list | list in after.deletes
      ensures ListSound(me, after, list)
    {
      assert list in w.deletes || ListSound(me, w, list);
    }
  }

  lemma StillOutShrinks(deletes: seq<seq<int>>, which: nat)
    ensures forall list :: list in StillOut(deletes, which) ==> list in deletes
  {
  }

  /** Rows go, for a reason that excuses each of them, and requests with them. */
  lemma RemovalKeepsInv(v: Verifier, me: Key, w: World, after: World, kept: Row -> bool)
    requires Inv(v, me, w)
    requires after == w.(rows := Filter(w.rows, kept), deletes := after.deletes, expired := after.expired)
    requires w.expired <= after.expired && forall list :: list in after.deletes ==> list in w.deletes
    requires forall row :: row in w.rows && !kept(row) ==>
               row.recipient != me || Settled(w, row) || row.envelope in after.expired
    ensures Inv(v, me, after)
  {
    RemovingKeeps(me, w, after, kept);
    FilterKeepsOrder(w.rows, kept);
    forall row | row in after.rows
      ensures row in w.rows
    {
      FilterIn(w.rows, kept, row);
    }
    DeletionsStaySound(me, w, after);
  }

  lemma ApplyKeeps(v: Verifier, me: Key, w: World, which: nat)
    requires Inv(v, me, w)
    ensures Inv(v, me, Next(v, me, w, ApplyDelete(which)))
  {
    if which < |w.deletes| {
      StillOutShrinks(w.deletes, which);
      assert w.deletes[which] in w.deletes;
      RemovalKeepsInv(v, me, w, Next(v, me, w, ApplyDelete(which)), NotDeleted(me, w.deletes[which]));
    }
  }

  lemma PostedLosesNothing(v: Verifier, me: Key, w: World, e: Envelope, now: int)
    requires Inv(v, me, w)
    ensures var after := Next(v, me, w, Post(e, now)); InArrivalOrder(after.rows) && NothingLost(me, after)
  {
    var after := Next(v, me, w, Post(e, now));
    PutKeepsOrder(w.rows, e.sender, e.recipient, now, e);
    assert forall row :: row in w.rows ==> row in after.rows;
    forall p | p in after.posted && Owed(me, p)
      ensures OnHub(after.rows, p) || p.content.value.Id().value in after.recorded || p in after.expired
    {
      if p == e {
        assert after.rows[|w.rows|].envelope == e;
        assert after.rows[|w.rows|] in after.rows;
      } else if OnHub(w.rows, p) {
        var row :| row in w.rows && row.envelope == p && row.recipient == p.recipient;
        assert row in after.rows;
      }
    }
  }

  lemma PostKeeps(v: Verifier, me: Key, w: World, e: Envelope, now: int)
    requires Inv(v, me, w) && SafeStep(me, w, Post(e, now))
    ensures Inv(v, me, Next(v, me, w, Post(e, now)))
  {
    var after := Next(v, me, w, Post(e, now));
    PostedLosesNothing(v, me, w, e, now);
    assert forall row :: Settled(w, row) ==> Settled(after, row);
    forall row | row in after.rows && row !in w.rows
      ensures row.recipient == e.recipient && row.id == NextRowId(w.rows)
    {
    }
    forall list | list in w.deletes
      ensures ListSound(me, after, list)
    {
      assert e.recipient == me ==> !Listed(w, NextRowId(w.rows));
    }
  }

  lemma FetchKeeps(v: Verifier, me: Key, w: World)
    requires Inv(v, me, w) && w.phase.Idle?
    ensures Inv(v, me, w.(phase := Draining(Filter(w.rows, To(me)), 0, [])))
  {
    var batch := Filter(w.rows, To(me));
    forall row | row in batch
      ensures row in w.rows && row.recipient == me
    {
      FilterIn(w.rows, To(me), row);
    }
    forall row, fetched | row in w.rows && fetched in batch && row.id == fetched.id
      ensures row == fetched
    {
      IdNamesRow(w.rows, row, fetched);
    }
    var after := w.(phase := Draining(batch, 0, []));
    assert forall row :: Settled(w, row) ==> Settled(after, row);
  }

  lemma StepKeeps(v: Verifier, me: Key, w: World, step: Step)
    requires Inv(v, me, w) && SafeStep(me, w, step)
    ensures Inv(v, me, Next(v, me, w, step))
  {
    var after := Next(v, me, w, step);
    match step
    case Post(e, now) => PostKeeps(v, me, w, e, now);
    case FetchMail =>
      if w.phase.Idle? {
        FetchKeeps(v, me, w);
      }
    case AbsorbNext(env) =>
      if w.phase.Draining? && w.phase.at < |w.phase.batch| {
        AbsorbKeeps(v, me, w, env);
      }
    case SendDelete => SendKeeps(v, me, w);
    case ApplyDelete(which) => ApplyKeeps(v, me, w, which);
    case LoseDelete(which) =>
      StillOutShrinks(w.deletes, which);
      DeletionsStaySound(me, w, after);
    case Live(sender, frame, env) => TakeKeeps(v, me, w, sender, frame, env);
    case Write(conversation, own) => DeletionsStaySound(me, w, after);
    case Crash =>
      assert CacheAgrees(v, Restarted(v, w.client));
      DeletionsStaySound(me, w, after);
    case OtherDeletes(recipient, ids) =>
      if recipient != me {
        RemovalKeepsInv(v, me, w, after, NotDeleted(recipient, ids));
      }
    case Sweep(cutoff) => RemovalKeepsInv(v, me, w, after, NotExpired(cutoff));
    case Erase(peer) => DeletionsStaySound(me, w, after);
  }

  lemma {:induction false} RunKeeps(v: Verifier, me: Key, w: World, steps: seq<Step>)
    requires Inv(v, me, w) && SafeRun(v, me, w, steps)
    ensures Inv(v, me, Run(v, me, w, steps))
    decreases |steps|
  {
    if steps != [] {
      StepKeeps(v, me, w, steps[0]);
      RunKeeps(v, me, Next(v, me, w, steps[0]), steps[1..]);
    }
  }

  /** An empty hub, and a client that has recorded whatever is on its disk. */
  predicate Initial(v: Verifier, w: World) {
    && w.rows == [] && w.phase.Idle? && w.deletes == [] && w.posted == {} && w.expired == {} && w.reported == []
    && w.recorded == w.client.ops && w.client == Restarted(v, w.client)
  }

  lemma InitialInv(v: Verifier, me: Key, w: World)
    requires Initial(v, w)
    ensures Inv(v, me, w)
  {
    assert CacheAgrees(v, Restarted(v, w.client));
  }

  /**
   Delivery over whole runs. Under any interleaving of posts, fetches, absorbs,
   delete requests sent, applied late or lost, live arrivals, crashes, other
   recipients' deletes, local deletions and sweeps of any age, in which no post
   is given a row id that is at risk: every op owed is on the hub, or recorded,
   or expired there, and none is ever reported as new twice.
   */
  lemma DeliveryOverRuns(v: Verifier, me: Key, w: World, steps: seq<Step>)
    requires Initial(v, w) && SafeRun(v, me, w, steps)
    ensures NothingLost(me, Run(v, me, w, steps))
    ensures ReportedOnce(Run(v, me, w, steps))
    ensures InArrivalOrder(Run(v, me, w, steps).rows)
  {
    InitialInv(v, me, w);
    RunKeeps(v, me, w, steps);
  }

  /** Whatever a delete takes, however late it is applied, is the recipient's own and has been recorded. */
  lemma DeletesTakeOnlyTheRecorded(v: Verifier, me: Key, w: World, steps: seq<Step>, which: nat, row: Row)
    requires Initial(v, w) && SafeRun(v, me, w, steps)
    requires var before := Run(v, me, w, steps);
             row in before.rows && row !in Next(v, me, before, ApplyDelete(which)).rows
    ensures row.recipient == me && Settled(Run(v, me, w, steps), row)
  {
    InitialInv(v, me, w);
    RunKeeps(v, me, w, steps);
    var before := Run(v, me, w, steps);
    if which < |before.deletes| {
      FilterIn(before.rows, NotDeleted(me, before.deletes[which]), row);
      assert before.deletes[which] in before.deletes;
    }
  }

  /** An envelope counts as expired only if a sweep took a row of it. */
  lemma OnlySweptExpire(v: Verifier, me: Key, w: World, step: Step, e: Envelope)
    requires e in Next(v, me, w, step).expired && e !in w.expired
    ensures step.Sweep?
    ensures exists row :: row in w.rows && row !in Next(v, me, w, step).rows && row.envelope == e
  {
    var row :| row in w.rows && row.receivedMs < step.cutoff && row.envelope == e;
    FilterIn(w.rows, NotExpired(step.cutoff), row);
  }

  // ----- nothing new goes unreported -----

  /** Whatever others wrote that was not on disk before has been reported. */
  ghost predicate NewsReported(me: Key, before: Table, w: World) {
    forall id :: id in w.client.ops ==> id in before || id.sender == me || id in w.reported
  }

  lemma TakeReports(v: Verifier, me: Key, before: Table, w: World, sender: Key, f: Frame, env: Env)
    requires NewsReported(me, before, w)
    ensures NewsReported(me, before, Take(v, me, w, sender, f, env))
  {
    AcceptKeeps(v, me, w.client, sender, f, env);
    UnwrapKeepsId(f);
  }

  lemma StepReports(v: Verifier, me: Key, before: Table, w: World, step: Step)
    requires NewsReported(me, before, w) && !step.Erase?
    ensures NewsReported(me, before, Next(v, me, w, step))
  {
    match step
    case AbsorbNext(env) =>
      if w.phase.Draining? && w.phase.at < |w.phase.batch| {
        var e := w.phase.batch[w.phase.at].envelope;
        if e.recipient == me && e.content.Some? {
          TakeReports(v, me, before, w, e.sender, e.content.value, env);
        }
      }
    case Live(sender, frame, env) => TakeReports(v, me, before, w, sender, frame, env);
    case _ =>
  }

  /**
   Over any run in which the user deletes nothing, every op of another's that has
   come to disk has been reported as new. That it was so only once is
   `ReportedOnce`.
   */
  lemma {:induction false} NewOpsAreReported(v: Verifier, me: Key, before: Table, w: World, steps: seq<Step>)
    requires NewsReported(me, before, w) && forall step :: step in steps ==> !step.Erase?
    ensures NewsReported(me, before, Run(v, me, w, steps))
    decreases |steps|
  {
    if steps != [] {
      assert steps[0] in steps;
      StepReports(v, me, before, w, steps[0]);
      NewOpsAreReported(v, me, before, Next(v, me, w, steps[0]), steps[1..]);
    }
  }

  // ----- a delete takes exactly the rows it was drawn up for -----

  /** Every id listed is that of a fetched row, and the fetched rows listed are in place and `me`'s. */
  ghost predicate NamesRows(me: Key, rows: seq<Row>, batch: seq<Row>, list: seq<int>) {
    && (forall id :: id in list ==> exists row :: row in batch && row.id == id)
    && (forall row :: row in batch && row.id in list ==> row in rows && row.recipient == me)
  }

  /** No sweep, and no other request of `me`'s, takes any of the fetched rows listed. */
  ghost predicate SparesStep(w: World, batch: seq<Row>, list: seq<int>, step: Step) {
    && (step.Sweep? ==> forall row :: row in batch && row.id in list ==> row.receivedMs >= step.cutoff)
    && (step.ApplyDelete? && step.which < |w.deletes| ==> forall id :: id in list ==> id !in w.deletes[step.which])
  }

  ghost predicate SparesRun(v: Verifier, me: Key, w: World, steps: seq<Step>, batch: seq<Row>, list: seq<int>)
    decreases |steps|
  {
    steps == []
    || (SparesStep(w, batch, list, steps[0]) && SparesRun(v, me, Next(v, me, w, steps[0]), steps[1..], batch, list))
  }

  lemma RemovalKeepsNames(me: Key, rows: seq<Row>, batch: seq<Row>, list: seq<int>, kept: Row -> bool)
    requires InArrivalOrder(rows) && NamesRows(me, rows, batch, list)
    requires forall row :: row in batch && row.id in list ==> kept(row)
    ensures InArrivalOrder(Filter(rows, kept)) && NamesRows(me, Filter(rows, kept), batch, list)
  {
    FilterKeepsOrder(rows, kept);
    forall row | row in batch && row.id in list
      ensures row in Filter(rows, kept)
    {
      FilterIn(rows, kept, row);
    }
  }

  lemma StepKeepsNames(v: Verifier, me: Key, w: World, step: Step, batch: seq<Row>, list: seq<int>)
    requires InArrivalOrder(w.rows) && NamesRows(me, w.rows, batch, list) && SparesStep(w, batch, list, step)
    ensures InArrivalOrder(Next(v, me, w, step).rows) && NamesRows(me, Next(v, me, w, step).rows, batch, list)
  {
    match step
    case Post(e, now) => PutKeepsOrder(w.rows, e.sender, e.recipient, now, e);
    case ApplyDelete(which) =>
      if which < |w.deletes| {
        RemovalKeepsNames(me, w.rows, batch, list, NotDeleted(me, w.deletes[which]));
      }
    case OtherDeletes(recipient, ids) =>
      if recipient != me {
        RemovalKeepsNames(me, w.rows, batch, list, NotDeleted(recipient, ids));
      }
    case Sweep(cutoff) => RemovalKeepsNames(me, w.rows, batch, list, NotExpired(cutoff));
    case _ =>
  }

  lemma {:induction false} RunKeepsNames(
      v: Verifier, me: Key, w: World, steps: seq<Step>, batch: seq<Row>, list: seq<int>)
    requires InArrivalOrder(w.rows) && NamesRows(me, w.rows, batch, list) && SparesRun(v, me, w, steps, batch, list)
    ensures InArrivalOrder(Run(v, me, w, steps).rows) && NamesRows(me, Run(v, me, w, steps).rows, batch, list)
    decreases |steps|
  {
    if steps != [] {
      StepKeepsNames(v, me, w, steps[0], batch, list);
      RunKeepsNames(v, me, Next(v, me, w, steps[0]), steps[1..], batch, list);
    }
  }

  /**
   Row ids are stable as long as the rows are spared. After any run that takes
   none of the fetched rows listed, posts and all, those rows are still in place
   under the same ids, and applying the list takes exactly them: nothing that
   came since, nothing of another recipient's.
   */
  lemma DeleteTakesExactlyTheListed(
      v: Verifier, me: Key, w: World, steps: seq<Step>, batch: seq<Row>, list: seq<int>, which: nat, row: Row)
    requires InArrivalOrder(w.rows) && NamesRows(me, w.rows, batch, list) && SparesRun(v, me, w, steps, batch, list)
    requires var before := Run(v, me, w, steps);
             which < |before.deletes| && before.deletes[which] == list && row in before.rows
    ensures var before := Run(v, me, w, steps);
            (forall fetched :: fetched in batch && fetched.id in list ==> fetched in before.rows)
            && (row !in Next(v, me, before, ApplyDelete(which)).rows <==> row in batch && row.id in list)
    ensures row !in Next(v, me, Run(v, me, w, steps), ApplyDelete(which)).rows ==> row.recipient == me
  {
    RunKeepsNames(v, me, w, steps, batch, list);
    var before := Run(v, me, w, steps);
    FilterIn(before.rows, NotDeleted(me, list), row);
    if row.id in list {
      var fetched :| fetched in batch && fetched.id == row.id;
      IdNamesRow(before.rows, row, fetched);
    }
  }

  /** Everything down for deletion is the id of a row of this one batch. */
  ghost predicate FromBatch(w: World, batch: seq<Row>) {
    && (w.phase.Draining? ==> w.phase.batch == batch && IdsOf(batch, w.phase.collected))
    && (forall list :: list in w.deletes ==> IdsOf(batch, list))
  }

  ghost predicate IdsOf(batch: seq<Row>, list: seq<int>) {
    forall id :: id in list ==> exists row :: row in batch && row.id == id
  }

  lemma StepKeepsFromBatch(v: Verifier, me: Key, w: World, step: Step, batch: seq<Row>)
    requires FromBatch(w, batch) && !step.FetchMail?
    ensures FromBatch(Next(v, me, w, step), batch)
  {
    StillOutShrinks(w.deletes, if step.ApplyDelete? || step.LoseDelete? then step.which else 0);
    if step.AbsorbNext? && w.phase.Draining? && w.phase.at < |batch| {
      assert batch[w.phase.at] in batch;
    }
  }

  lemma {:induction false} RunKeepsFromBatch(v: Verifier, me: Key, w: World, steps: seq<Step>, batch: seq<Row>)
    requires FromBatch(w, batch) && forall step :: step in steps ==> !step.FetchMail?
    ensures FromBatch(Run(v, me, w, steps), batch)
    decreases |steps|
  {
    if steps != [] {
      assert steps[0] in steps;
      StepKeepsFromBatch(v, me, w, steps[0], batch);
      RunKeepsFromBatch(v, me, Next(v, me, w, steps[0]), steps[1..], batch);
    }
  }

  /**
   From one fetch to its delete. With no other request out when the client
   fetches, and no fetched row it lists swept before the request is applied,
   whatever else happens in between: the request takes exactly the rows that
   were fetched and listed, each still the row it was.
   */
  lemma DrainTakesExactlyItsOwn(v: Verifier, me: Key, w: World, steps: seq<Step>, which: nat, row: Row)
    requires InArrivalOrder(w.rows) && w.phase.Idle? && w.deletes == []
    requires forall step :: step in steps ==> !step.FetchMail?
    requires var before := Run(v, me, Next(v, me, w, FetchMail), steps);
             which < |before.deletes| && row in before.rows
             && SparesRun(v, me, Next(v, me, w, FetchMail), steps, Filter(w.rows, To(me)), before.deletes[which])
    ensures var batch, before := Filter(w.rows, To(me)), Run(v, me, Next(v, me, w, FetchMail), steps);
            var list := before.deletes[which];
            IdsOf(batch, list)
            && (forall fetched :: fetched in batch && fetched.id in list ==> fetched in before.rows)
            && (row !in Next(v, me, before, ApplyDelete(which)).rows <==> row in batch && row.id in list)
  {
    var batch, fetched := Filter(w.rows, To(me)), Next(v, me, w, FetchMail);
    RunKeepsFromBatch(v, me, fetched, steps, batch);
    var list := Run(v, me, fetched, steps).deletes[which];
    assert IdsOf(batch, list);
    forall r | r in batch
      ensures r in w.rows && r.recipient == me
    {
      FilterIn(w.rows, To(me), r);
    }
    DeleteTakesExactlyTheListed(v, me, fetched, steps, batch, list, which, row);
  }

  // ----- what is recorded is what was posted -----

  /** This frame is the one op its id stands for, in the one conversation it belongs to. */
  predicate Honest(payload: MessageId -> StoredOp, sender: Key, f: Frame) {
    f.Id().Some? ==> payload(f.Id().value) == StoredOp(f.Conversation(sender), f.UnwrapRoom())
  }

  predicate HonestEnvelope(payload: MessageId -> StoredOp, me: Key, e: Envelope) {
    e.recipient == me && e.content.Some? ==> Honest(payload, e.sender, e.content.value)
  }

  predicate HonestStep(payload: MessageId -> StoredOp, me: Key, step: Step) {
    match step
    case Post(e, _) => HonestEnvelope(payload, me, e)
    case Live(sender, frame, _) => Honest(payload, sender, frame)
    case Write(conversation, own) => own.Id().Some? ==> payload(own.Id().value) == StoredOp(conversation, own)
    case _ => true
  }

  ghost predicate HonestRows(payload: MessageId -> StoredOp, me: Key, rows: seq<Row>) {
    forall row :: row in rows ==> HonestEnvelope(payload, me, row.envelope)
  }

  ghost predicate HonestTable(payload: MessageId -> StoredOp, t: Table) {
    forall id :: id in t ==> t[id] == payload(id) && t[id].frame.Id() == Some(id)
  }

  ghost predicate Intact(payload: MessageId -> StoredOp, me: Key, w: World) {
    && (forall e :: e in w.posted ==> HonestEnvelope(payload, me, e))
    && HonestRows(payload, me, w.rows)
    && (w.phase.Draining? ==> HonestRows(payload, me, w.phase.batch))
    && w.client.ops.Keys <= w.recorded.Keys
    && HonestTable(payload, w.recorded)
  }

  lemma TakeKeepsIntact(
      payload: MessageId -> StoredOp, v: Verifier, me: Key, w: World, sender: Key, f: Frame, env: Env)
    requires Intact(payload, me, w) && Honest(payload, sender, f)
    ensures Intact(payload, me, Take(v, me, w, sender, f, env))
  {
    AcceptKeeps(v, me, w.client, sender, f, env);
    UnwrapKeepsId(f);
  }

  lemma FilterKeepsHonest(payload: MessageId -> StoredOp, me: Key, rows: seq<Row>, kept: Row -> bool)
    requires HonestRows(payload, me, rows)
    ensures HonestRows(payload, me, Filter(rows, kept))
  {
    forall row | row in Filter(rows, kept)
      ensures HonestEnvelope(payload, me, row.envelope)
    {
      FilterIn(rows, kept, row);
    }
  }

  lemma StepKeepsIntact(payload: MessageId -> StoredOp, v: Verifier, me: Key, w: World, step: Step)
    requires Intact(payload, me, w) && HonestStep(payload, me, step)
    ensures Intact(payload, me, Next(v, me, w, step))
  {
    match step
    case FetchMail => FilterKeepsHonest(payload, me, w.rows, To(me));
    case AbsorbNext(env) =>
      if w.phase.Draining? && w.phase.at < |w.phase.batch| {
        var e := w.phase.batch[w.phase.at].envelope;
        assert w.phase.batch[w.phase.at] in w.phase.batch;
        if e.recipient == me && e.content.Some? {
          TakeKeepsIntact(payload, v, me, w, e.sender, e.content.value, env);
        }
      }
    case ApplyDelete(which) =>
      if which < |w.deletes| {
        FilterKeepsHonest(payload, me, w.rows, NotDeleted(me, w.deletes[which]));
      }
    case Live(sender, frame, env) => TakeKeepsIntact(payload, v, me, w, sender, frame, env);
    case OtherDeletes(recipient, ids) => FilterKeepsHonest(payload, me, w.rows, NotDeleted(recipient, ids));
    case Sweep(cutoff) => FilterKeepsHonest(payload, me, w.rows, NotExpired(cutoff));
    case _ =>
  }

  lemma {:induction false} RunKeepsIntact(
      payload: MessageId -> StoredOp, v: Verifier, me: Key, w: World, steps: seq<Step>)
    requires Intact(payload, me, w) && forall step :: step in steps ==> HonestStep(payload, me, step)
    ensures Intact(payload, me, Run(v, me, w, steps))
    decreases |steps|
  {
    if steps != [] {
      assert steps[0] in steps;
      StepKeepsIntact(payload, v, me, w, steps[0]);
      RunKeepsIntact(payload, v, me, Next(v, me, w, steps[0]), steps[1..]);
    }
  }

  /**
   With one op and one conversation to an id, an op neither on the hub nor
   expired was recorded in its conversation exactly as it was posted.
   */
  lemma DeliveredAsPosted(
      payload: MessageId -> StoredOp, v: Verifier, me: Key, w: World, steps: seq<Step>, e: Envelope)
    requires Initial(v, w) && SafeRun(v, me, w, steps) && HonestTable(payload, w.recorded)
    requires forall step :: step in steps ==> HonestStep(payload, me, step)
    requires e in Run(v, me, w, steps).posted && Owed(me, e)
    ensures var after, f := Run(v, me, w, steps), e.content.value;
            OnHub(after.rows, e) || e in after.expired
            || (f.Id().value in after.recorded
                && after.recorded[f.Id().value] == StoredOp(f.Conversation(e.sender), f.UnwrapRoom()))
  {
    DeliveryOverRuns(v, me, w, steps);
    RunKeepsIntact(payload, v, me, w, steps);
    assert HonestEnvelope(payload, me, e);
  }

  // ----- a way to be safe: be prompt, and spare what is being drained -----

  /**
   The client fetches only when no delete of its own is outstanding, and a sweep
   takes none of its rows that are at risk.
   */
  ghost predicate PromptStep(me: Key, w: World, step: Step) {
    && (step.FetchMail? ==> w.deletes == [])
    && (step.Sweep? ==> forall row ::
          row in w.rows && row.recipient == me && AtRisk(w, row.id) ==> row.receivedMs >= step.cutoff)
  }

  ghost predicate PromptRun(v: Verifier, me: Key, w: World, steps: seq<Step>)
    decreases |steps|
  {
    steps == [] || (PromptStep(me, w, steps[0]) && PromptRun(v, me, Next(v, me, w, steps[0]), steps[1..]))
  }

  ghost predicate InPlace(me: Key, rows: seq<Row>, id: int) {
    exists row :: row in rows && row.recipient == me && row.id == id
  }

  /** One delete at most is outstanding, then none is being drawn up, and every id at risk is that of a row in place. */
  ghost predicate Orderly(me: Key, w: World) {
    && |w.deletes| <= 1
    && (w.phase.Draining? ==> w.deletes == [])
    && (forall id :: AtRisk(w, id) ==> InPlace(me, w.rows, id))
  }

  lemma OrderlyMakesPostsSafe(me: Key, w: World, step: Step)
    requires Orderly(me, w)
    ensures SafeStep(me, w, step)
  {
    MaxIdBounds(w.rows);
  }

  lemma RemovalKeepsOrderly(me: Key, w: World, after: World, kept: Row -> bool)
    requires Orderly(me, w) && after.rows == Filter(w.rows, kept)
    requires after.phase == w.phase && after.deletes == w.deletes
    requires forall row :: row in w.rows && row.recipient == me && AtRisk(w, row.id) ==> kept(row)
    ensures Orderly(me, after)
  {
    forall id | AtRisk(after, id)
      ensures InPlace(me, after.rows, id)
    {
      assert AtRisk(w, id);
      var row :| row in w.rows && row.recipient == me && row.id == id;
      FilterIn(w.rows, kept, row);
    }
  }

  /** A step that touches no row, and puts no id at risk that was not. */
  lemma LocalKeepsOrderly(me: Key, w: World, after: World)
    requires Orderly(me, w) && forall row :: row in w.rows ==> row in after.rows
    requires |after.deletes| <= 1 && (after.phase.Draining? ==> after.deletes == [])
    requires forall id :: AtRisk(after, id) ==> AtRisk(w, id)
    ensures Orderly(me, after)
  {
    forall id | AtRisk(after, id)
      ensures InPlace(me, after.rows, id)
    {
      assert InPlace(me, w.rows, id);
    }
  }

  lemma StepKeepsOrderly(v: Verifier, me: Key, w: World, step: Step)
    requires Orderly(me, w) && PromptStep(me, w, step)
    ensures Orderly(me, Next(v, me, w, step))
  {
    var after := Next(v, me, w, step);
    match step
    case FetchMail =>
      if w.phase.Idle? {
        forall id | AtRisk(after, id)
          ensures InPlace(me, after.rows, id)
        {
          var k :| 0 <= k < |after.phase.batch| && after.phase.batch[k].id == id;
          FilterIn(w.rows, To(me), after.phase.batch[k]);
        }
      }
    case OtherDeletes(recipient, ids) =>
      if recipient != me {
        RemovalKeepsOrderly(me, w, after, NotDeleted(recipient, ids));
      }
    case Sweep(cutoff) => RemovalKeepsOrderly(me, w, after, NotExpired(cutoff));
    case ApplyDelete(which) =>
      if which < |w.deletes| {
        assert after.deletes == [];
      }
    case _ =>
      NothingNewAtRisk(v, me, w, step);
      LocalKeepsOrderly(me, w, after);
  }

  /** A step of the client's own, other than a fetch, puts no id at risk that was not. */
  lemma NothingNewAtRisk(v: Verifier, me: Key, w: World, step: Step)
    requires !step.FetchMail? && !step.ApplyDelete?
    ensures forall id :: AtRisk(Next(v, me, w, step), id) ==> AtRisk(w, id)
  {
    var after := Next(v, me, w, step);
    forall id | AtRisk(after, id)
      ensures AtRisk(w, id)
    {
      if step.AbsorbNext? && w.phase.Draining? && w.phase.at < |w.phase.batch| {
        assert id == w.phase.batch[w.phase.at].id ==> ToCome(w, id);
      }
    }
  }

  /** Every run of a prompt client on a sparing hub is safe. */
  lemma {:induction false} PromptRunsAreSafe(v: Verifier, me: Key, w: World, steps: seq<Step>)
    requires Orderly(me, w) && PromptRun(v, me, w, steps)
    ensures SafeRun(v, me, w, steps)
    decreases |steps|
  {
    if steps != [] {
      OrderlyMakesPostsSafe(me, w, steps[0]);
      StepKeepsOrderly(v, me, w, steps[0]);
      PromptRunsAreSafe(v, me, Next(v, me, w, steps[0]), steps[1..]);
    }
  }

  lemma DeliveryOverPromptRuns(v: Verifier, me: Key, w: World, steps: seq<Step>)
    requires Initial(v, w) && PromptRun(v, me, w, steps)
    ensures NothingLost(me, Run(v, me, w, steps)) && ReportedOnce(Run(v, me, w, steps))
  {
    PromptRunsAreSafe(v, me, w, steps);
    DeliveryOverRuns(v, me, w, steps);
  }

  // ----- where the guarantee ends -----

  /** A step of the client's own, which neither reads nor changes the hub's rows. */
  predicate Offline(step: Step) {
    || step.AbsorbNext? || step.SendDelete? || step.LoseDelete?
    || step.Live? || step.Write? || step.Crash? || step.Erase?
  }

  lemma PostCommutes(v: Verifier, me: Key, w: World, e: Envelope, now: int, step: Step)
    requires Offline(step)
    ensures Next(v, me, Next(v, me, w, Post(e, now)), step) == Next(v, me, Next(v, me, w, step), Post(e, now))
  {
  }

  lemma {:induction false} OfflineRun(v: Verifier, me: Key, w: World, e: Envelope, now: int, steps: seq<Step>)
    requires Inv(v, me, w) && forall step :: step in steps ==> Offline(step)
    ensures Inv(v, me, Run(v, me, w, steps))
    ensures Run(v, me, w, steps).rows == w.rows && Run(v, me, w, steps).expired == w.expired
    ensures Run(v, me, Next(v, me, w, Post(e, now)), steps) == Next(v, me, Run(v, me, w, steps), Post(e, now))
    decreases |steps|
  {
    if steps != [] {
      assert steps[0] in steps;
      StepKeeps(v, me, w, steps[0]);
      PostCommutes(v, me, w, e, now, steps[0]);
      OfflineRun(v, me, Next(v, me, w, steps[0]), e, now, steps[1..]);
    }
  }

  /** An op owed, not yet on the hub, recorded or expired. */
  ghost predicate Fresh(me: Key, w: World, e: Envelope) {
    Owed(me, e) && !OnHub(w.rows, e) && e.content.value.Id().value !in w.recorded && e !in w.expired
  }

  /** Posting a fresh op and then applying a delete loses it iff the row id it got is in the list. */
  lemma PostThenDeleteIff(v: Verifier, me: Key, w: World, e: Envelope, now: int, which: nat)
    requires Inv(v, me, w) && Fresh(me, w, e) && which < |w.deletes|
    ensures NothingLost(me, Next(v, me, Next(v, me, w, Post(e, now)), ApplyDelete(which)))
            <==> NextRowId(w.rows) !in w.deletes[which]
  {
    var posted := Next(v, me, w, Post(e, now));
    var after := Next(v, me, posted, ApplyDelete(which));
    var kept := NotDeleted(me, w.deletes[which]);
    var row := posted.rows[|w.rows|];
    PostedLosesNothing(v, me, w, e, now);
    FilterIn(posted.rows, kept, row);
    if NextRowId(w.rows) in w.deletes[which] {
      forall r | r in after.rows
        ensures r.envelope != e || r.recipient != e.recipient
      {
        FilterIn(posted.rows, kept, r);
        assert r in w.rows || r == row;
      }
      assert e in after.posted;
    } else {
      forall r | r in posted.rows && !kept(r)
        ensures Settled(posted, r)
      {
        assert r in w.rows || r == row;
        assert w.deletes[which] in w.deletes && Settled(w, r);
      }
      RemovingKeeps(me, posted, after, kept);
    }
  }

  /**
   The exact condition. A fresh op is posted, the client goes on by itself in any
   way, absorbing, sending requests, crashing, and then some request of its is
   applied: something owed is lost if and only if the id the post was given is in
   that request, whenever it was or will be drawn up.
   */
  lemma LateDeleteLosesIff(
      v: Verifier, me: Key, w: World, e: Envelope, now: int, steps: seq<Step>, which: nat)
    requires Inv(v, me, w) && forall step :: step in steps ==> Offline(step)
    requires which < |Run(v, me, w, steps).deletes| && Fresh(me, Run(v, me, w, steps), e)
    ensures NothingLost(me, Run(v, me, w, [Post(e, now)] + (steps + [ApplyDelete(which)])))
            <==> NextRowId(w.rows) !in Run(v, me, w, steps).deletes[which]
  {
    OfflineRun(v, me, w, e, now, steps);
    RunAppend(v, me, w, [Post(e, now)], steps + [ApplyDelete(which)]);
    RunOne(v, me, w, Post(e, now));
    var posted := Next(v, me, w, Post(e, now));
    RunAppend(v, me, posted, steps, [ApplyDelete(which)]);
    RunOne(v, me, Run(v, me, posted, steps), ApplyDelete(which));
    PostThenDeleteIff(v, me, Run(v, me, w, steps), e, now, which);
  }

  // ----- and that it does -----

  function Blank(): World {
    World([], Client(map[], {}, map[], map[]), Idle, [], {}, map[], {}, [])
  }

  const CALM := Env(NoHub, NoFault, NoFault, true)

  function Letter(sender: Key, me: Key, n: u64, body: Text): Envelope {
    Envelope(sender, me, Some(Chat(MessageId(sender, n, 0), body, None)))
  }

  lemma FilterOne(row: Row, kept: Row -> bool)
    ensures Filter([row], kept) == if kept(row) then [row] else []
  {
    assert [row][1..] == [];
  }

  /** One letter posted, fetched and absorbed: its row is still there, and down for deletion. */
  lemma OneLetterDrained(v: Verifier, me: Key, sender: Key, body: Text) returns (w: World)
    ensures w == Run(v, me, Blank(), [Post(Letter(sender, me, 1, body), 0), FetchMail, AbsorbNext(CALM)])
    ensures Inv(v, me, w) && w.expired == {} && w.deletes == []
    ensures w.recorded.Keys == w.client.ops.Keys == {MessageId(sender, 1, 0)}
    ensures var row := Row(1, me, sender, 0, Letter(sender, me, 1, body));
            w.rows == [row] && w.phase == Draining([row], 1, [1])
  {
    var e := Letter(sender, me, 1, body);
    var row := Row(1, me, sender, 0, e);
    var posted := Next(v, me, Blank(), Post(e, 0));
    assert posted.rows == [row];
    var fetched := Next(v, me, posted, FetchMail);
    FilterOne(row, To(me));
    w := AbsorbedOnce(v, me, sender, body, fetched);
    RunThree(v, me, Blank(), Post(e, 0), FetchMail, AbsorbNext(CALM));
    InitialInv(v, me, Blank());
    StepKeeps(v, me, Blank(), Post(e, 0));
    StepKeeps(v, me, posted, FetchMail);
    StepKeeps(v, me, fetched, AbsorbNext(CALM));
  }

  lemma AbsorbedOnce(v: Verifier, me: Key, sender: Key, body: Text, w: World) returns (after: World)
    requires w.recorded.Keys == w.client.ops.Keys && w.client.ops.Keys <= {MessageId(sender, 1, 0)}
    requires var row := Row(1, me, sender, 0, Letter(sender, me, 1, body)); w.phase == Draining([row], 0, [])
    ensures after == Next(v, me, w, AbsorbNext(CALM))
    ensures after.phase == Draining(w.phase.batch, 1, [1])
    ensures after.recorded.Keys == after.client.ops.Keys == {MessageId(sender, 1, 0)}
    ensures after.rows == w.rows && after.expired == w.expired && after.deletes == w.deletes
  {
    after := Next(v, me, w, AbsorbNext(CALM));
    assert after.recorded.Keys == after.client.ops.Keys;
  }

  lemma RunThree(v: Verifier, me: Key, w: World, a: Step, b: Step, c: Step)
    ensures Run(v, me, w, [a, b, c]) == Next(v, me, Next(v, me, Next(v, me, w, a), b), c)
  {
    assert [a, b, c] == [a] + ([b] + [c]);
    var w1 := Next(v, me, w, a);
    var w2 := Next(v, me, w1, b);
    RunAppend(v, me, w, [a], [b] + [c]);
    RunAppend(v, me, w1, [b], [c]);
    RunOne(v, me, w, a);
    RunOne(v, me, w1, b);
    RunOne(v, me, w2, c);
  }

  /**
   With one sweep. A letter is fetched and absorbed, the sweep takes its row, a
   second letter gets the same row id, and the delete takes it unseen.
   */
  lemma SweptDrainLosesMail(v: Verifier, me: Key, sender: Key, first: Text, second: Text)
    returns (steps: seq<Step>)
    ensures !NothingLost(me, Run(v, me, Blank(), steps))
    ensures steps == [Post(Letter(sender, me, 1, first), 0), FetchMail, AbsorbNext(CALM)] + ([Sweep(1)]
                     + ([Post(Letter(sender, me, 2, second), 1)] + ([SendDelete] + [ApplyDelete(0)])))
  {
    var head := [Post(Letter(sender, me, 1, first), 0), FetchMail, AbsorbNext(CALM)];
    var e := Letter(sender, me, 2, second);
    var tail := [Post(e, 1)] + ([SendDelete] + [ApplyDelete(0)]);
    steps := head + ([Sweep(1)] + tail);
    var w := OneLetterDrained(v, me, sender, first);
    RunAppend(v, me, Blank(), head, [Sweep(1)] + tail);
    RunAppend(v, me, w, [Sweep(1)], tail);
    var swept := SweptAway(v, me, sender, first, w);
    LateDeleteLosesIff(v, me, swept, e, 1, [SendDelete], 0);
  }

  lemma SweptAway(v: Verifier, me: Key, sender: Key, body: Text, w: World) returns (swept: World)
    requires Inv(v, me, w) && w.expired == {} && w.deletes == []
    requires w.recorded.Keys == {MessageId(sender, 1, 0)}
    requires var row := Row(1, me, sender, 0, Letter(sender, me, 1, body));
             w.rows == [row] && w.phase == Draining([row], 1, [1])
    ensures swept == Run(v, me, w, [Sweep(1)]) && Inv(v, me, swept)
    ensures swept.rows == [] && swept.recorded == w.recorded
    ensures forall gone :: gone in swept.expired ==> gone == Letter(sender, me, 1, body)
    ensures var ready := Run(v, me, swept, [SendDelete]);
            ready.deletes == [[1]] && ready.rows == [] && ready.recorded == w.recorded && ready.expired == swept.expired
  {
    swept := Next(v, me, w, Sweep(1));
    RunOne(v, me, w, Sweep(1));
    StepKeeps(v, me, w, Sweep(1));
    FilterOne(w.rows[0], NotExpired(1));
    RunOne(v, me, swept, SendDelete);
  }

  /** Not a sweep, not a crash, not a deletion of the user's. */
  predicate Ordinary(step: Step) {
    !step.Sweep? && !step.Crash? && !step.Erase?
  }

  lemma OrdinaryParts(s: seq<Step>, t: seq<Step>, u: seq<Step>)
    requires forall step :: step in s ==> Ordinary(step)
    requires forall step :: step in t ==> Ordinary(step)
    requires forall step :: step in u ==> Ordinary(step)
    ensures forall step :: step in s + (t + u) ==> Ordinary(step)
  {
  }

  /**
   With no sweep at all. The client gives up on a delete, fetches the same row
   and asks again; the first request is applied, a second letter gets the freed
   row id, and the second request takes it unseen.
   */
  lemma RepeatedDeleteLosesMail(v: Verifier, me: Key, sender: Key, first: Text, second: Text)
    returns (steps: seq<Step>)
    ensures !NothingLost(me, Run(v, me, Blank(), steps))
    ensures forall step :: step in steps ==> Ordinary(step)
  {
    var head := [Post(Letter(sender, me, 1, first), 0), FetchMail, AbsorbNext(CALM)];
    var again := [SendDelete, FetchMail, AbsorbNext(CALM), SendDelete, ApplyDelete(0)];
    var e := Letter(sender, me, 2, second);
    var tail := [Post(e, 1)] + ([] + [ApplyDelete(0)]);
    steps := head + (again + tail);
    OrdinaryParts(head, again, tail);
    var w := OneLetterDrained(v, me, sender, first);
    RunAppend(v, me, Blank(), head, again + tail);
    RunAppend(v, me, w, again, tail);
    var ready := SentTwiceAppliedOnce(v, me, sender, first, w);
    LateDeleteLosesIff(v, me, ready, e, 1, [], 0);
  }

  lemma SentTwiceAppliedOnce(v: Verifier, me: Key, sender: Key, body: Text, w: World) returns (ready: World)
    requires Inv(v, me, w) && w.expired == {} && w.deletes == []
    requires w.recorded.Keys == w.client.ops.Keys == {MessageId(sender, 1, 0)}
    requires var row := Row(1, me, sender, 0, Letter(sender, me, 1, body));
             w.rows == [row] && w.phase == Draining([row], 1, [1])
    ensures ready == Run(v, me, w, [SendDelete, FetchMail, AbsorbNext(CALM), SendDelete, ApplyDelete(0)])
    ensures Inv(v, me, ready) && ready.rows == [] && ready.expired == {} && ready.deletes == [[1]]
    ensures ready.recorded.Keys == {MessageId(sender, 1, 0)}
  {
    var fetched := FetchedAgain(v, me, w);
    var again := AbsorbedOnce(v, me, sender, body, fetched);
    StepKeeps(v, me, fetched, AbsorbNext(CALM));
    ready := AppliedOnce(v, me, again);
    RunFive(v, me, w, SendDelete, FetchMail, AbsorbNext(CALM), SendDelete, ApplyDelete(0));
  }

  lemma FetchedAgain(v: Verifier, me: Key, w: World) returns (fetched: World)
    requires Inv(v, me, w) && w.deletes == []
    requires |w.rows| == 1 && w.rows[0].recipient == me && w.phase == Draining(w.rows, 1, [1])
    ensures fetched == Next(v, me, Next(v, me, w, SendDelete), FetchMail) && Inv(v, me, fetched)
    ensures fetched == w.(phase := Draining(w.rows, 0, []), deletes := [[1]])
  {
    var sent := Next(v, me, w, SendDelete);
    assert sent.deletes == [[1]] && w.rows == [w.rows[0]];
    FilterOne(w.rows[0], To(me));
    fetched := Next(v, me, sent, FetchMail);
    StepKeeps(v, me, w, SendDelete);
    StepKeeps(v, me, sent, FetchMail);
  }

  lemma AppliedOnce(v: Verifier, me: Key, w: World) returns (ready: World)
    requires Inv(v, me, w) && w.deletes == [[1]]
    requires |w.rows| == 1 && w.rows[0].recipient == me && w.rows[0].id == 1 && w.phase == Draining(w.rows, 1, [1])
    ensures ready == Next(v, me, Next(v, me, w, SendDelete), ApplyDelete(0)) && Inv(v, me, ready)
    ensures ready == w.(phase := Idle, rows := [], deletes := [[1]])
  {
    var twice := Next(v, me, w, SendDelete);
    assert twice.deletes == [[1], [1]] && w.rows == [w.rows[0]];
    FilterOne(w.rows[0], NotDeleted(me, [1]));
    ready := Next(v, me, twice, ApplyDelete(0));
    assert ready.deletes == [[1]];
    StepKeeps(v, me, w, SendDelete);
    StepKeeps(v, me, twice, ApplyDelete(0));
  }

  lemma RunFive(v: Verifier, me: Key, w: World, a: Step, b: Step, c: Step, d: Step, e: Step)
    ensures Run(v, me, w, [a, b, c, d, e])
         == Next(v, me, Next(v, me, Next(v, me, Next(v, me, Next(v, me, w, a), b), c), d), e)
  {
    assert [a, b, c, d, e] == [a, b, c] + ([d] + [e]);
    var w3 := Run(v, me, w, [a, b, c]);
    RunThree(v, me, w, a, b, c);
    RunAppend(v, me, w, [a, b, c], [d] + [e]);
    RunAppend(v, me, w3, [d], [e]);
    RunOne(v, me, w3, d);
    RunOne(v, me, Next(v, me, w3, d), e);
  }

  // ----- one pass of the client's loop -----

  /** The row is gone for good reason: its op is on the recipient's disk, or carries no id. */
  predicate Safe(me: Key, ops: Table, row: Row) {
    row.recipient == me && row.envelope.content.Some?
    && (row.envelope.content.value.Id().Some? ==> row.envelope.content.value.Id().value in ops)
  }

  /** What accepting a fetched row comes to: nothing stored is lost, and no error means the row is safe to delete. */
  lemma AcceptedIsSafe(v: Verifier, me: Key, c: Client, row: Row, env: Env)
    requires row.recipient == me && row.envelope.content.Some?
    ensures var (after, r) := Accept(v, me, c, row.envelope.sender, row.envelope.content.value, env);
            Extends(c.ops, after.ops)
            && (r.Ok? ==> Safe(me, after.ops, row))
            && |after.ops| == |c.ops| + (if r.Ok? && r.value.Some? then 1 else 0)
  {
    var f := row.envelope.content.value;
    AcceptKeeps(v, me, c, row.envelope.sender, f, env);
    UnwrapKeepsId(f);
    var (after, r) := Accept(v, me, c, row.envelope.sender, f, env);
    assert |after.ops| == |after.ops.Keys| && |c.ops| == |c.ops.Keys|;
  }

  ghost predicate Extends(before: Table, after: Table) {
    forall id :: id in before ==> id in after && after[id] == before[id]
  }

  /** Every id collected is that of a fetched row that is safe to delete. */
  ghost predicate CollectedSafely(me: Key, ops: Table, mail: seq<Row>, collected: seq<int>) {
    forall id :: id in collected ==> exists row :: row in mail && row.id == id && Safe(me, ops, row)
  }

  lemma CollectOne(me: Key, before: Table, after: Table, mail: seq<Row>, collected: seq<int>, row: Row)
    requires CollectedSafely(me, before, mail, collected) && Extends(before, after)
    ensures CollectedSafely(me, after, mail, collected)
    ensures row in mail && Safe(me, after, row) ==> CollectedSafely(me, after, mail, collected + [row.id])
  {
    forall id | id in collected
      ensures exists r :: r in mail && r.id == id && Safe(me, after, r)
    {
      var r :| r in mail && r.id == id && Safe(me, before, r);
      assert Safe(me, after, r);
    }
  }

  lemma DeletedAreSafe(me: Key, ops: Table, rows: seq<Row>, collected: seq<int>, row: Row)
    requires InArrivalOrder(rows) && CollectedSafely(me, ops, Filter(rows, To(me)), collected) && row in rows
    ensures row in Filter(rows, NotDeleted(me, collected)) || Safe(me, ops, row)
  {
    FilterIn(rows, NotDeleted(me, collected), row);
    if row.recipient == me && row.id in collected {
      var fetched :| fetched in Filter(rows, To(me)) && fetched.id == row.id && Safe(me, ops, fetched);
      FilterIn(rows, To(me), fetched);
      IdNamesRow(rows, row, fetched);
    }
  }

  /** What absorbing a batch comes to: the client, the ids to delete, the conversations with news, and how much news. */
  datatype Passed = Passed(client: Client, collected: seq<int>, touched: set<Key>, arrived: nat)

  /** Absorbing each row in turn; `envs(n)` is what the world does while row `n` is absorbed. */
  function Pass(v: Verifier, me: Key, c: Client, mail: seq<Row>, envs: nat -> Env): Passed
    decreases |mail|
  {
    if mail == [] then Passed(c, [], {}, 0)
    else
      var n := |mail| - 1;
      PassOne(v, me, Pass(v, me, c, mail[..n], envs), mail[n], envs(n))
  }

  function PassOne(v: Verifier, me: Key, p: Passed, row: Row, env: Env): Passed {
    if row.envelope.recipient != me || row.envelope.content.None? then p
    else
      var (after, r) := Accept(v, me, p.client, row.envelope.sender, row.envelope.content.value, env);
      Tallied(p, row.id, after, r)
  }

  function Tallied(p: Passed, id: int, after: Client, r: Result<Option<Key>, ClientError>): Passed {
    if r.Err? then p.(client := after)
    else if r.value.None? then p.(client := after, collected := p.collected + [id])
    else Passed(after, p.collected + [id], p.touched + {r.value.value}, p.arrived + 1)
  }

  /** `touched` is exactly the conversations that have an op in `after` they did not have in `before`. */
  ghost predicate Grew(before: Table, after: Table, touched: set<Key>) {
    forall peer :: peer in touched <==> exists id :: id in after && id !in before && after[id].peer == peer
  }

  ghost predicate AddedOne(before: Table, after: Table, id: MessageId) {
    id !in before && id in after && after.Keys == before.Keys + {id}
  }

  /** The answer to a frame accepted is the conversation of the one op it added, if it added one. */
  ghost predicate AnswersFor(before: Table, after: Table, r: Result<Option<Key>, ClientError>) {
    && Extends(before, after)
    && if r.Ok? && r.value.Some? then exists id :: AddedOne(before, after, id) && after[id].peer == r.value.value
       else after == before
  }

  lemma AcceptAnswers(v: Verifier, me: Key, c: Client, sender: Key, f: Frame, env: Env)
    ensures var (after, r) := Accept(v, me, c, sender, f, env); AnswersFor(c.ops, after.ops, r)
  {
    AcceptKeeps(v, me, c, sender, f, env);
    UnwrapKeepsId(f);
    var (after, r) := Accept(v, me, c, sender, f, env);
    if r.Ok? && r.value.Some? {
      assert AddedOne(c.ops, after.ops, f.Id().value);
    }
  }

  lemma TalliedGrows(before: Table, p: Passed, id: int, after: Client, r: Result<Option<Key>, ClientError>)
    requires Extends(before, p.client.ops) && Grew(before, p.client.ops, p.touched)
    requires AnswersFor(p.client.ops, after.ops, r)
    ensures var next := Tallied(p, id, after, r);
            Extends(before, next.client.ops) && Grew(before, next.client.ops, next.touched)
            && |next.client.ops| - |p.client.ops| == next.arrived - p.arrived
  {
    if r.Ok? && r.value.Some? {
      var o :| AddedOne(p.client.ops, after.ops, o) && after.ops[o].peer == r.value.value;
      GrewByOne(before, p.client.ops, p.touched, after.ops, o);
    }
  }

  lemma PassOneGrows(v: Verifier, me: Key, before: Table, p: Passed, row: Row, env: Env)
    requires Extends(before, p.client.ops) && Grew(before, p.client.ops, p.touched)
    ensures var next := PassOne(v, me, p, row, env);
            Extends(before, next.client.ops) && Grew(before, next.client.ops, next.touched)
            && |next.client.ops| - |p.client.ops| == next.arrived - p.arrived
  {
    if row.envelope.recipient == me && row.envelope.content.Some? {
      var (after, r) := Accept(v, me, p.client, row.envelope.sender, row.envelope.content.value, env);
      AcceptAnswers(v, me, p.client, row.envelope.sender, row.envelope.content.value, env);
      TalliedGrows(before, p, row.id, after, r);
    }
  }

  lemma GrewByOne(before: Table, mid: Table, touched: set<Key>, after: Table, id: MessageId)
    requires Extends(before, mid) && Extends(mid, after) && Grew(before, mid, touched)
    requires AddedOne(mid, after, id)
    ensures Grew(before, after, touched + {after[id].peer}) && |after| == |mid| + 1
  {
    assert |after| == |after.Keys| && |mid| == |mid.Keys|;
    forall peer
      ensures peer in touched + {after[id].peer} <==> exists o :: o in after && o !in before && after[o].peer == peer
    {
      if peer in touched {
        var o :| o in mid && o !in before && mid[o].peer == peer;
        assert o in after && after[o].peer == peer;
      }
      if exists o :: o in after && o !in before && after[o].peer == peer {
        var o :| o in after && o !in before && after[o].peer == peer;
        assert o != id ==> o in mid && mid[o].peer == peer;
      }
    }
  }

  lemma PassOneCollects(v: Verifier, me: Key, p: Passed, row: Row, env: Env, mail: seq<Row>)
    requires row in mail && row.recipient == me && CollectedSafely(me, p.client.ops, mail, p.collected)
    ensures var next := PassOne(v, me, p, row, env); CollectedSafely(me, next.client.ops, mail, next.collected)
  {
    if row.envelope.recipient == me && row.envelope.content.Some? {
      AcceptedIsSafe(v, me, p.client, row, env);
      var after := Accept(v, me, p.client, row.envelope.sender, row.envelope.content.value, env).0;
      CollectOne(me, p.client.ops, after.ops, mail, p.collected, row);
    }
  }

  /**
   Absorbing loses nothing stored and collects only rows that are safe to
   delete; the count is that of the new ops, and the conversations reported are
   exactly those that grew.
   */
  lemma {:induction false} PassHolds(v: Verifier, me: Key, c: Client, mail: seq<Row>, envs: nat -> Env)
    requires forall row :: row in mail ==> row.recipient == me
    ensures var p := Pass(v, me, c, mail, envs);
            Extends(c.ops, p.client.ops) && CollectedSafely(me, p.client.ops, mail, p.collected)
            && p.arrived == |p.client.ops| - |c.ops| && Grew(c.ops, p.client.ops, p.touched)
    decreases |mail|
  {
    if mail != [] {
      var n := |mail| - 1;
      var p := Pass(v, me, c, mail[..n], envs);
      PassHolds(v, me, c, mail[..n], envs);
      assert mail[n] in mail && CollectedSafely(me, p.client.ops, mail, p.collected);
      PassOneGrows(v, me, c.ops, p, mail[n], envs(n));
      PassOneCollects(v, me, p, mail[n], envs(n), mail);
    }
  }

  /** The rows collected are exactly those whose op was absorbed without an error. */
  lemma {:induction false} PassCollectsTheAbsorbed(
      v: Verifier, me: Key, c: Client, mail: seq<Row>, envs: nat -> Env, k: nat)
    requires InArrivalOrder(mail) && k < |mail|
    ensures mail[k].id in Pass(v, me, c, mail, envs).collected
       <==> AbsorbOk(v, me, Pass(v, me, c, mail[..k], envs).client, mail[k].envelope, envs(k))
    decreases |mail|
  {
    var n := |mail| - 1;
    var p := Pass(v, me, c, mail[..n], envs);
    CollectedAreFetched(v, me, c, mail[..n], envs);
    if k < n {
      assert mail[..n][..k] == mail[..k];
      PassCollectsTheAbsorbed(v, me, c, mail[..n], envs, k);
    } else {
      assert mail[n].id !in p.collected;
    }
  }

  lemma {:induction false} CollectedAreFetched(v: Verifier, me: Key, c: Client, mail: seq<Row>, envs: nat -> Env)
    ensures forall id :: id in Pass(v, me, c, mail, envs).collected ==> exists k :: 0 <= k < |mail| && mail[k].id == id
    decreases |mail|
  {
    if mail != [] {
      var n := |mail| - 1;
      CollectedAreFetched(v, me, c, mail[..n], envs);
      forall id | id in Pass(v, me, c, mail, envs).collected
        ensures exists k :: 0 <= k < |mail| && mail[k].id == id
      {
        if id in Pass(v, me, c, mail[..n], envs).collected {
          var k :| 0 <= k < n && mail[..n][k].id == id;
          assert mail[k].id == id;
        }
      }
    }
  }

  /** Absorbing all of `me`'s rows and then deleting the ones collected leaves every row on the hub or safe. */
  lemma PassLeavesSafe(v: Verifier, me: Key, c: Client, rows: seq<Row>, envs: nat -> Env)
    requires InArrivalOrder(rows)
    ensures var p := Pass(v, me, c, Filter(rows, To(me)), envs);
            Extends(c.ops, p.client.ops) && Grew(c.ops, p.client.ops, p.touched)
            && p.arrived == |p.client.ops| - |c.ops|
            && (forall row :: row in rows ==>
                  row in Filter(rows, NotDeleted(me, p.collected)) || Safe(me, p.client.ops, row))
  {
    var mail := Filter(rows, To(me));
    forall row | row in mail
      ensures row.recipient == me
    {
      FilterIn(rows, To(me), row);
    }
    PassHolds(v, me, c, mail, envs);
    var p := Pass(v, me, c, mail, envs);
    forall row | row in rows
      ensures row in Filter(rows, NotDeleted(me, p.collected)) || Safe(me, p.client.ops, row)
    {
      DeletedAreSafe(me, p.client.ops, rows, p.collected, row);
    }
  }

  /** The loop's body: absorb one row, and note what came of it. */
  method AbsorbRow(app: App, row: Row, env: Env, collected: seq<int>, touched: set<Key>, arrived: nat)
    returns (collected': seq<int>, touched': set<Key>, arrived': nat)
    requires app.Valid()
    modifies app`rooms, app.store`rooms, app.store`contacts, app.store`ops
    ensures app.Valid()
    ensures Passed(app.View(), collected', touched', arrived')
         == PassOne(app.v, app.me, Passed(old(app.View()), collected, touched, arrived), row, env)
  {
    collected', touched', arrived' := collected, touched, arrived;
    if row.envelope.recipient == app.me && row.envelope.content.Some? {
      var accepted := app.AcceptOp(row.envelope.sender, row.envelope.content.value, env);
      if accepted.Ok? {
        collected' := collected + [row.id];
        if accepted.value.Some? {
          touched' := touched + {accepted.value.value};
          arrived' := arrived + 1;
        }
      }
    }
  }

  /**
   `mailbox_loop`, once around, with nothing else touching the hub: fetch,
   absorb each row, and only then delete the ones absorbed. If the request gets
   through, exactly the rows collected leave the hub, and each of them is on
   disk; `arrived` counts the ops that are new, and `touched` is the
   conversations that grew.
   */
  method DrainOnce(app: App, hub: HubStore, envs: nat -> Env, reached: bool)
    returns (touched: set<Key>, arrived: nat)
    requires app.Valid() && hub.Valid()
    modifies app`rooms, app.store`rooms, app.store`contacts, app.store`ops, hub`mail
    ensures app.Valid() && hub.Valid()
    ensures var p := Pass(app.v, app.me, old(app.View()), Filter(old(hub.mail), To(app.me)), envs);
            app.View() == p.client && touched == p.touched && arrived == p.arrived
            && hub.mail ==
               if reached then Filter(old(hub.mail), NotDeleted(app.me, p.collected)) else old(hub.mail)
    ensures forall row :: row in old(hub.mail) && row !in hub.mail ==> Safe(app.me, app.store.ops, row)
    ensures Extends(old(app.store.ops), app.store.ops)
    ensures arrived == |app.store.ops| - |old(app.store.ops)|
    ensures Grew(old(app.store.ops), app.store.ops, touched)
  {
    var mail := hub.MailFor(app.me);
    var collected: seq<int> := [];
    touched, arrived := {}, 0;
    ghost var rows := hub.mail;
    ghost var c := app.View();
    for n := 0 to |mail|
      invariant app.Valid() && hub.Valid() && hub.mail == rows
      invariant Passed(app.View(), collected, touched, arrived) == Pass(app.v, app.me, c, mail[..n], envs)
    {
      assert mail[..n + 1][..n] == mail[..n];
      collected, touched, arrived := AbsorbRow(app, mail[n], envs(n), collected, touched, arrived);
    }
    assert mail[..|mail|] == mail;
    PassLeavesSafe(app.v, app.me, c, rows, envs);
    FilterAll(rows, NotDeleted(app.me, []));
    if reached && collected != [] {
      var deleted := hub.DeleteMail(app.me, collected);
    }
  }
}
