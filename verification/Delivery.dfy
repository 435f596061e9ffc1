/**
 From delivery to convergence: once a run has nothing left in flight, a
 conversation on disk is exactly what was written here and what came from
 others, and two ends that exchanged their ops show the same conversation.
 */
module Delivery {
  import opened Bytes
  import opened Wrappers
  import opened RoomLog
  import opened Wire
  import opened Fold
  import opened MessageStore
  import opened Filters
  import opened Mail
  import opened Client
  import opened Mailbox
  import opened Convergence

  // ----- what came, step by step -----

  /** This step writes `f` in `peer`'s conversation on this machine. */
  predicate Writes(me: Key, step: Step, peer: Key, f: Frame) {
    step == Write(peer, f) && f.Id().Some? && f.Id().value.sender == me
  }

  /** `g`, coming from `sender`, is `f` for `peer`'s conversation. */
  predicate Brings(sender: Key, g: Frame, peer: Key, f: Frame) {
    g.Id().Some? && g.Conversation(sender) == peer && g.UnwrapRoom() == f
  }

  /** This step posts `f` to `me`, or hands it over live and it is accepted. */
  predicate Sends(v: Verifier, me: Key, w: World, step: Step, peer: Key, f: Frame) {
    match step
    case Post(e, _) => Owed(me, e) && Brings(e.sender, e.content.value, peer, f)
    case Live(sender, frame, env) => Brings(sender, frame, peer, f) && Accept(v, me, w.client, sender, frame, env).1.Ok?
    case _ => false
  }

  ghost predicate EverWritten(me: Key, steps: seq<Step>, peer: Key, f: Frame) {
    exists step :: step in steps && Writes(me, step, peer, f)
  }

  ghost predicate EverSent(v: Verifier, me: Key, w: World, steps: seq<Step>, peer: Key, f: Frame)
    decreases |steps|
  {
    steps != []
    && (Sends(v, me, w, steps[0], peer, f) || EverSent(v, me, Next(v, me, w, steps[0]), steps[1..], peer, f))
  }

  ghost predicate Came(v: Verifier, me: Key, w: World, steps: seq<Step>, peer: Key, f: Frame) {
    EverWritten(me, steps, peer, f) || EverSent(v, me, w, steps, peer, f)
  }

  lemma CameFirstOrLater(v: Verifier, me: Key, w: World, steps: seq<Step>, peer: Key, f: Frame)
    requires steps != []
    ensures Came(v, me, w, steps, peer, f) <==>
              Writes(me, steps[0], peer, f) || Sends(v, me, w, steps[0], peer, f)
              || Came(v, me, Next(v, me, w, steps[0]), steps[1..], peer, f)
  {
    assert forall step :: step in steps <==> step == steps[0] || step in steps[1..];
  }

  // ----- nothing comes from nowhere -----

  /** A row on the hub, or in the batch, holds the op, for `me`. */
  ghost predicate InFlight(me: Key, w: World, id: MessageId) {
    || (exists row :: row in w.rows && HoldsOp(me, row, id))
    || (w.phase.Draining? && exists row :: row in w.phase.batch && HoldsOp(me, row, id))
  }

  predicate HoldsOp(me: Key, row: Row, id: MessageId) {
    Owed(me, row.envelope) && row.envelope.content.value.Id() == Some(id)
  }

  ghost predicate Known(me: Key, w: World, id: MessageId) {
    id in w.recorded || InFlight(me, w, id)
  }

  /** A frame taken adds at most its own id to what is recorded. */
  lemma TakeAddsItsOwn(v: Verifier, me: Key, w: World, sender: Key, f: Frame, env: Env, id: MessageId)
    requires w.client.ops.Keys <= w.recorded.Keys
    requires id in Take(v, me, w, sender, f, env).recorded && id !in w.recorded
    ensures f.Id() == Some(id) && Accept(v, me, w.client, sender, f, env).1.Ok?
  {
    AcceptKeeps(v, me, w.client, sender, f, env);
    UnwrapKeepsId(f);
  }

  lemma FilterKeepsFlight(me: Key, rows: seq<Row>, kept: Row -> bool, id: MessageId)
    requires exists row :: row in Filter(rows, kept) && HoldsOp(me, row, id)
    ensures exists row :: row in rows && HoldsOp(me, row, id)
  {
    var row :| row in Filter(rows, kept) && HoldsOp(me, row, id);
    FilterIn(rows, kept, row);
  }

  /** Whatever a step makes known was known, or is what the step writes or sends. */
  lemma StepMakesKnown(
      payload: MessageId -> StoredOp, v: Verifier, me: Key, w: World, step: Step, id: MessageId)
    requires Intact(payload, me, w) && HonestStep(payload, me, step) && Known(me, Next(v, me, w, step), id)
    ensures var op := payload(id);
            Known(me, w, id) || Writes(me, step, op.peer, op.frame) || Sends(v, me, w, step, op.peer, op.frame)
  {
    var after := Next(v, me, w, step);
    match step
    case Post(e, now) =>
      if exists row :: row in after.rows && HoldsOp(me, row, id) {
        var row :| row in after.rows && HoldsOp(me, row, id);
        assert row in w.rows || row.envelope == e;
      }
    case FetchMail =>
      if w.phase.Idle? && exists row :: row in after.phase.batch && HoldsOp(me, row, id) {
        FilterKeepsFlight(me, w.rows, To(me), id);
      }
    case AbsorbNext(env) =>
      if w.phase.Draining? && w.phase.at < |w.phase.batch| && !InFlight(me, after, id) && id !in w.recorded {
        var row := w.phase.batch[w.phase.at];
        TakeAddsItsOwn(v, me, w, row.envelope.sender, row.envelope.content.value, env, id);
        assert row in w.phase.batch && HoldsOp(me, row, id);
      }
    case ApplyDelete(which) =>
      if which < |w.deletes| && exists row :: row in after.rows && HoldsOp(me, row, id) {
        FilterKeepsFlight(me, w.rows, NotDeleted(me, w.deletes[which]), id);
      }
    case Live(sender, frame, env) =>
      if !InFlight(me, after, id) && id !in w.recorded {
        TakeAddsItsOwn(v, me, w, sender, frame, env, id);
      }
    case OtherDeletes(recipient, ids) =>
      if recipient != me && exists row :: row in after.rows && HoldsOp(me, row, id) {
        FilterKeepsFlight(me, w.rows, NotDeleted(recipient, ids), id);
      }
    case Sweep(cutoff) =>
      if exists row :: row in after.rows && HoldsOp(me, row, id) {
        FilterKeepsFlight(me, w.rows, NotExpired(cutoff), id);
      }
    case _ =>
  }

  lemma {:induction false} KnownCame(
      payload: MessageId -> StoredOp, v: Verifier, me: Key, w: World, steps: seq<Step>, id: MessageId)
    requires Intact(payload, me, w) && forall step :: step in steps ==> HonestStep(payload, me, step)
    requires Known(me, Run(v, me, w, steps), id) && !Known(me, w, id)
    ensures Came(v, me, w, steps, payload(id).peer, payload(id).frame)
    decreases |steps|
  {
    if steps != [] {
      var next := Next(v, me, w, steps[0]);
      assert steps[0] in steps;
      StepKeepsIntact(payload, v, me, w, steps[0]);
      CameFirstOrLater(v, me, w, steps, payload(id).peer, payload(id).frame);
      if Known(me, next, id) {
        StepMakesKnown(payload, v, me, w, steps[0], id);
      } else {
        KnownCame(payload, v, me, next, steps[1..], id);
      }
    }
  }

  // ----- nothing that came is missing -----

  /** The op is recorded, or an envelope that brings it has been posted. */
  ghost predicate Arrived(me: Key, w: World, id: MessageId) {
    id in w.recorded || exists e :: e in w.posted && Owed(me, e) && e.content.value.Id() == Some(id)
  }

  lemma StepKeepsArrived(v: Verifier, me: Key, w: World, step: Step, id: MessageId)
    requires Arrived(me, w, id)
    ensures Arrived(me, Next(v, me, w, step), id)
  {
    if id !in w.recorded {
      var e :| e in w.posted && Owed(me, e) && e.content.value.Id() == Some(id);
      assert e in Next(v, me, w, step).posted;
    }
  }

  lemma StepArrives(v: Verifier, me: Key, w: World, step: Step, peer: Key, f: Frame)
    requires Writes(me, step, peer, f) || Sends(v, me, w, step, peer, f)
    ensures f.Id().Some? && Arrived(me, Next(v, me, w, step), f.Id().value)
  {
    match step
    case Post(e, _) =>
      UnwrapKeepsId(e.content.value);
      assert e in Next(v, me, w, step).posted;
    case Live(sender, frame, env) =>
      UnwrapKeepsId(frame);
      AcceptKeeps(v, me, w.client, sender, frame, env);
    case Write(_, _) =>
  }

  lemma {:induction false} RunKeepsArrived(v: Verifier, me: Key, w: World, steps: seq<Step>, id: MessageId)
    requires Arrived(me, w, id)
    ensures Arrived(me, Run(v, me, w, steps), id)
    decreases |steps|
  {
    if steps != [] {
      StepKeepsArrived(v, me, w, steps[0], id);
      RunKeepsArrived(v, me, Next(v, me, w, steps[0]), steps[1..], id);
    }
  }

  /** Honesty fixes what a step brings by its id. */
  lemma StepIsHonest(
      payload: MessageId -> StoredOp, v: Verifier, me: Key, w: World, step: Step, peer: Key, f: Frame)
    requires HonestStep(payload, me, step)
    requires Writes(me, step, peer, f) || Sends(v, me, w, step, peer, f)
    ensures f.Id().Some? && payload(f.Id().value) == StoredOp(peer, f)
  {
    match step
    case Post(e, _) => UnwrapKeepsId(e.content.value);
    case Live(_, frame, _) => UnwrapKeepsId(frame);
    case Write(_, _) =>
  }

  lemma {:induction false} CameArrives(
      payload: MessageId -> StoredOp, v: Verifier, me: Key, w: World, steps: seq<Step>, peer: Key, f: Frame)
    requires forall step :: step in steps ==> HonestStep(payload, me, step)
    requires Came(v, me, w, steps, peer, f)
    ensures f.Id().Some? && payload(f.Id().value) == StoredOp(peer, f)
    ensures Arrived(me, Run(v, me, w, steps), f.Id().value)
    decreases |steps|
  {
    assert steps != [];
    assert steps[0] in steps;
    CameFirstOrLater(v, me, w, steps, peer, f);
    var next := Next(v, me, w, steps[0]);
    if Writes(me, steps[0], peer, f) || Sends(v, me, w, steps[0], peer, f) {
      StepIsHonest(payload, v, me, w, steps[0], peer, f);
      StepArrives(v, me, w, steps[0], peer, f);
      RunKeepsArrived(v, me, next, steps[1..], f.Id().value);
    } else {
      CameArrives(payload, v, me, next, steps[1..], peer, f);
    }
  }

  // ----- nothing recorded has gone -----

  ghost predicate OpsAreRecorded(w: World) {
    && w.client.ops.Keys == w.recorded.Keys
    && (forall id :: id in w.recorded ==> w.client.ops[id] == w.recorded[id])
  }

  lemma StepKeepsOps(v: Verifier, me: Key, w: World, step: Step)
    requires OpsAreRecorded(w) && !step.Erase?
    ensures OpsAreRecorded(Next(v, me, w, step))
  {
    match step
    case AbsorbNext(env) =>
      if w.phase.Draining? && w.phase.at < |w.phase.batch| {
        var e := w.phase.batch[w.phase.at].envelope;
        if e.recipient == me && e.content.Some? {
          AcceptKeeps(v, me, w.client, e.sender, e.content.value, env);
        }
      }
    case Live(sender, frame, env) => AcceptKeeps(v, me, w.client, sender, frame, env);
    case _ =>
  }

  lemma {:induction false} RunKeepsOps(v: Verifier, me: Key, w: World, steps: seq<Step>)
    requires OpsAreRecorded(w) && forall step :: step in steps ==> !step.Erase?
    ensures OpsAreRecorded(Run(v, me, w, steps))
    decreases |steps|
  {
    if steps != [] {
      assert steps[0] in steps;
      StepKeepsOps(v, me, w, steps[0]);
      RunKeepsOps(v, me, Next(v, me, w, steps[0]), steps[1..]);
    }
  }

  // ----- the conversation -----

  /** Nothing owed is still on the hub, and nothing owed was swept there. */
  ghost predicate Quiet(me: Key, w: World) {
    forall e :: e in w.posted && Owed(me, e) ==> !OnHub(w.rows, e) && e !in w.expired
  }

  /** A run from nothing in which every id stands for one op, no post is at risk and the user deletes nothing. */
  ghost predicate CleanRun(payload: MessageId -> StoredOp, v: Verifier, me: Key, w: World, steps: seq<Step>) {
    && Initial(v, w) && w.client.ops == map[] && SafeRun(v, me, w, steps)
    && (forall step :: step in steps ==> HonestStep(payload, me, step) && !step.Erase?)
  }

  function OpsOf(w: World, peer: Key): Ops {
    Conversation(w.client.ops, peer)
  }

  /**
   Once a clean run is quiet, what is on disk for a conversation is exactly what
   was written here and what came from others: every op posted or accepted live
   is there as it was sent, and there is nothing else.
   */
  lemma ConversationIsWhatCame(
      payload: MessageId -> StoredOp, v: Verifier, me: Key, w: World, steps: seq<Step>, peer: Key, f: Frame)
    requires CleanRun(payload, v, me, w, steps) && Quiet(me, Run(v, me, w, steps)) && f.Id().Some?
    ensures var ops := OpsOf(Run(v, me, w, steps), peer);
            f.Id().value in ops && ops[f.Id().value] == f <==> Came(v, me, w, steps, peer, f)
  {
    var after, id := Run(v, me, w, steps), f.Id().value;
    RunKeepsIntact(payload, v, me, w, steps);
    RunKeepsOps(v, me, w, steps);
    DeliveryOverRuns(v, me, w, steps);
    if Came(v, me, w, steps, peer, f) {
      CameArrives(payload, v, me, w, steps, peer, f);
      assert id in after.recorded;
    }
    if id in after.recorded {
      KnownCame(payload, v, me, w, steps, id);
    }
  }

  /** Whatever a clean run stores is stored under its own id. */
  lemma ConversationIsKeyed(
      payload: MessageId -> StoredOp, v: Verifier, me: Key, w: World, steps: seq<Step>, peer: Key, id: MessageId)
    requires CleanRun(payload, v, me, w, steps) && id in OpsOf(Run(v, me, w, steps), peer)
    ensures OpsOf(Run(v, me, w, steps), peer)[id].Id() == Some(id)
  {
    RunKeepsIntact(payload, v, me, w, steps);
    RunKeepsOps(v, me, w, steps);
  }

  lemma SameOpsIfSameCame(
      pay1: MessageId -> StoredOp, v1: Verifier, me1: Key, w1: World, steps1: seq<Step>, peer1: Key,
      pay2: MessageId -> StoredOp, v2: Verifier, me2: Key, w2: World, steps2: seq<Step>, peer2: Key, id: MessageId)
    requires CleanRun(pay1, v1, me1, w1, steps1) && Quiet(me1, Run(v1, me1, w1, steps1))
    requires CleanRun(pay2, v2, me2, w2, steps2) && Quiet(me2, Run(v2, me2, w2, steps2))
    requires forall f :: Came(v1, me1, w1, steps1, peer1, f) ==> Came(v2, me2, w2, steps2, peer2, f)
    requires id in OpsOf(Run(v1, me1, w1, steps1), peer1)
    ensures var x, y := OpsOf(Run(v1, me1, w1, steps1), peer1), OpsOf(Run(v2, me2, w2, steps2), peer2);
            id in y && y[id] == x[id]
  {
    var f := OpsOf(Run(v1, me1, w1, steps1), peer1)[id];
    ConversationIsKeyed(pay1, v1, me1, w1, steps1, peer1, id);
    ConversationIsWhatCame(pay1, v1, me1, w1, steps1, peer1, f);
    ConversationIsWhatCame(pay2, v2, me2, w2, steps2, peer2, f);
  }

  /**
   Delivered, so the same: two machines whose runs have gone quiet, to whose
   conversation the same ops came by whatever route and in whatever order, show
   the same messages with the same bodies, deletions, replies and counts, in the
   same order but for ties.
   */
  lemma DeliveredConverge(
      pay1: MessageId -> StoredOp, v1: Verifier, me1: Key, w1: World, steps1: seq<Step>, peer1: Key,
      settings1: map<Text, Text>, h1: seq<Message>,
      pay2: MessageId -> StoredOp, v2: Verifier, me2: Key, w2: World, steps2: seq<Step>, peer2: Key,
      settings2: map<Text, Text>, h2: seq<Message>)
    requires CleanRun(pay1, v1, me1, w1, steps1) && Quiet(me1, Run(v1, me1, w1, steps1))
    requires CleanRun(pay2, v2, me2, w2, steps2) && Quiet(me2, Run(v2, me2, w2, steps2))
    requires forall f :: Came(v1, me1, w1, steps1, peer1, f) <==> Came(v2, me2, w2, steps2, peer2, f)
    requires IsHistory(OpsOf(Run(v1, me1, w1, steps1), peer1), me1, settings1, h1)
    requires IsHistory(OpsOf(Run(v2, me2, w2, steps2), peer2), me2, settings2, h2)
    ensures SameConversation(h1, h2)
  {
    var x, y := OpsOf(Run(v1, me1, w1, steps1), peer1), OpsOf(Run(v2, me2, w2, steps2), peer2);
    forall id: MessageId
      ensures id in x ==> id in y && y[id] == x[id]
      ensures id in y ==> id in x && x[id] == y[id]
    {
      if id in x {
        SameOpsIfSameCame(pay1, v1, me1, w1, steps1, peer1, pay2, v2, me2, w2, steps2, peer2, id);
      }
      if id in y {
        SameOpsIfSameCame(pay2, v2, me2, w2, steps2, peer2, pay1, v1, me1, w1, steps1, peer1, id);
      }
    }
    assert x.Keys == y.Keys;
    assert x == y;
    HistoriesAgree(x, me1, settings1, me2, settings2, h1, h2);
  }

  /**
   The two ends of a direct conversation: if each was sent exactly what the other
   wrote, then once both are quiet they show the same conversation.
   */
  lemma TwoEndsConverge(
      pay1: MessageId -> StoredOp, v1: Verifier, me1: Key, w1: World, steps1: seq<Step>,
      settings1: map<Text, Text>, h1: seq<Message>,
      pay2: MessageId -> StoredOp, v2: Verifier, me2: Key, w2: World, steps2: seq<Step>,
      settings2: map<Text, Text>, h2: seq<Message>)
    requires CleanRun(pay1, v1, me1, w1, steps1) && Quiet(me1, Run(v1, me1, w1, steps1))
    requires CleanRun(pay2, v2, me2, w2, steps2) && Quiet(me2, Run(v2, me2, w2, steps2))
    requires forall f :: EverWritten(me1, steps1, me2, f) <==> EverSent(v2, me2, w2, steps2, me1, f)
    requires forall f :: EverWritten(me2, steps2, me1, f) <==> EverSent(v1, me1, w1, steps1, me2, f)
    requires IsHistory(OpsOf(Run(v1, me1, w1, steps1), me2), me1, settings1, h1)
    requires IsHistory(OpsOf(Run(v2, me2, w2, steps2), me1), me2, settings2, h2)
    ensures SameConversation(h1, h2)
  {
    DeliveredConverge(pay1, v1, me1, w1, steps1, me2, settings1, h1, pay2, v2, me2, w2, steps2, me1, settings2, h2);
  }

  // ----- and there are such runs -----

  /** A letter written at one end. */
  function WriterSteps(peer: Key, letter: Frame): seq<Step> {
    [Write(peer, letter)]
  }

  /** The same letter posted, drained and deleted at the other. */
  function ReaderSteps(writer: Key, me: Key, body: Text): seq<Step> {
    [Post(Letter(writer, me, 1, body), 0), FetchMail, AbsorbNext(CALM)] + [SendDelete, ApplyDelete(0)]
  }

  /** The payload function of a world with one op in it. */
  function Only(op: StoredOp): MessageId -> StoredOp {
    (id: MessageId) => op
  }

  lemma BlankIsInitial(v: Verifier)
    ensures Initial(v, Blank())
  {
    assert Restarted(v, Blank().client).rooms == map[];
  }

  lemma {:induction false} NoPostIsSafe(v: Verifier, me: Key, w: World, steps: seq<Step>)
    requires forall step :: step in steps ==> !step.Post?
    ensures SafeRun(v, me, w, steps)
    decreases |steps|
  {
    if steps != [] {
      assert steps[0] in steps;
      NoPostIsSafe(v, me, Next(v, me, w, steps[0]), steps[1..]);
    }
  }

  /** One post to a client with nothing at risk, and none after it. */
  lemma OnlyPostIsSafe(v: Verifier, me: Key, w: World, post: Step, rest: seq<Step>)
    requires w.phase.Idle? && w.deletes == [] && forall step :: step in rest ==> !step.Post?
    ensures SafeRun(v, me, w, [post] + rest)
  {
    assert ([post] + rest)[1..] == rest;
    NoPostIsSafe(v, me, Next(v, me, w, post), rest);
  }

  lemma {:induction false} OnlyLocalSendsNothing(v: Verifier, me: Key, w: World, steps: seq<Step>, p: Key, f: Frame)
    requires forall step :: step in steps ==> !step.Post? && !step.Live?
    ensures !EverSent(v, me, w, steps, p, f)
    decreases |steps|
  {
    if steps != [] {
      assert steps[0] in steps;
      OnlyLocalSendsNothing(v, me, Next(v, me, w, steps[0]), steps[1..], p, f);
    }
  }

  lemma WriterIsClean(v: Verifier, me: Key, peer: Key, letter: Frame)
    requires letter.Id().Some? && letter.Id().value.sender == me
    ensures var steps := WriterSteps(peer, letter);
            CleanRun(Only(StoredOp(peer, letter)), v, me, Blank(), steps) && Quiet(me, Run(v, me, Blank(), steps))
            && (forall p, f :: EverWritten(me, steps, p, f) <==> p == peer && f == letter)
            && (forall p, f :: !EverSent(v, me, Blank(), steps, p, f))
  {
    var step := Write(peer, letter);
    RunOne(v, me, Blank(), step);
    BlankIsInitial(v);
    NoPostIsSafe(v, me, Blank(), WriterSteps(peer, letter));
    assert step in WriterSteps(peer, letter);
    assert forall p, f :: p == peer && f == letter ==> Writes(me, step, p, f);
    forall p, f
      ensures !EverSent(v, me, Blank(), WriterSteps(peer, letter), p, f)
    {
      OnlyLocalSendsNothing(v, me, Blank(), WriterSteps(peer, letter), p, f);
    }
  }

  lemma ReaderIsQuiet(v: Verifier, me: Key, writer: Key, body: Text)
    ensures Quiet(me, Run(v, me, Blank(), ReaderSteps(writer, me, body)))
  {
    var head, tail := [Post(Letter(writer, me, 1, body), 0), FetchMail, AbsorbNext(CALM)], [SendDelete, ApplyDelete(0)];
    var w := OneLetterDrained(v, me, writer, body);
    RunAppend(v, me, Blank(), head, tail);
    FilterOne(w.rows[0], NotDeleted(me, [1]));
    var sent := Next(v, me, w, SendDelete);
    assert sent.deletes == [[1]];
    assert tail == [SendDelete] + [ApplyDelete(0)];
    RunAppend(v, me, w, [SendDelete], [ApplyDelete(0)]);
    RunOne(v, me, w, SendDelete);
    RunOne(v, me, sent, ApplyDelete(0));
  }

  /** The reader's first step is a post; of the rest none is a post, a live arrival, a write or a deletion. */
  lemma ReaderParts(writer: Key, me: Key, body: Text) returns (post: Step, rest: seq<Step>)
    ensures ReaderSteps(writer, me, body) == [post] + rest && post == Post(Letter(writer, me, 1, body), 0)
    ensures forall step :: step in rest ==> !step.Post? && !step.Live? && !step.Write? && !step.Erase?
  {
    post := Post(Letter(writer, me, 1, body), 0);
    rest := [FetchMail, AbsorbNext(CALM), SendDelete, ApplyDelete(0)];
  }

  lemma ReaderIsClean(v: Verifier, me: Key, writer: Key, body: Text)
    ensures var letter := Letter(writer, me, 1, body).content.value;
            CleanRun(Only(StoredOp(writer, letter)), v, me, Blank(), ReaderSteps(writer, me, body))
  {
    var post, rest := ReaderParts(writer, me, body);
    BlankIsInitial(v);
    OnlyPostIsSafe(v, me, Blank(), post, rest);
  }

  lemma ReaderIsSent(v: Verifier, me: Key, writer: Key, body: Text, p: Key, f: Frame)
    ensures !EverWritten(me, ReaderSteps(writer, me, body), p, f)
    ensures EverSent(v, me, Blank(), ReaderSteps(writer, me, body), p, f)
       <==> p == writer && f == Letter(writer, me, 1, body).content.value
  {
    var post, rest := ReaderParts(writer, me, body);
    assert ([post] + rest)[1..] == rest;
    OnlyLocalSendsNothing(v, me, Next(v, me, Blank(), post), rest, p, f);
  }

  /** One letter written, posted and drained: the two ends show the same conversation. */
  lemma OneLetterIsShared(
      v: Verifier, writer: Key, reader: Key, body: Text,
      settings1: map<Text, Text>, h1: seq<Message>, settings2: map<Text, Text>, h2: seq<Message>)
    requires var letter := Letter(writer, reader, 1, body).content.value;
             IsHistory(OpsOf(Run(v, writer, Blank(), WriterSteps(reader, letter)), reader), writer, settings1, h1)
    requires IsHistory(OpsOf(Run(v, reader, Blank(), ReaderSteps(writer, reader, body)), writer), reader, settings2, h2)
    ensures SameConversation(h1, h2) && |h1| == |h2| == 1
  {
    var letter := Letter(writer, reader, 1, body).content.value;
    WriterIsClean(v, writer, reader, letter);
    ReaderIsClean(v, reader, writer, body);
    ReaderIsQuiet(v, reader, writer, body);
    forall p, f
      ensures !EverWritten(reader, ReaderSteps(writer, reader, body), p, f)
      ensures EverSent(v, reader, Blank(), ReaderSteps(writer, reader, body), p, f) <==> p == writer && f == letter
    {
      ReaderIsSent(v, reader, writer, body, p, f);
    }
    TwoEndsConverge(
      Only(StoredOp(reader, letter)), v, writer, Blank(), WriterSteps(reader, letter), settings1, h1,
      Only(StoredOp(writer, letter)), v, reader, Blank(), ReaderSteps(writer, reader, body), settings2, h2);
    WriterShowsOne(v, writer, reader, letter, settings1, h1);
  }

  lemma WriterShowsOne(v: Verifier, me: Key, peer: Key, letter: Frame, settings: map<Text, Text>, h: seq<Message>)
    requires letter.Chat? && letter.id.sender == me
    requires IsHistory(OpsOf(Run(v, me, Blank(), WriterSteps(peer, letter)), peer), me, settings, h)
    ensures |h| == 1
  {
    RunOne(v, me, Blank(), Write(peer, letter));
    var ops := OpsOf(Run(v, me, Blank(), WriterSteps(peer, letter)), peer);
    assert ops.Keys == {letter.id} && ops[letter.id] == letter;
    assert MessageIds(ops) == {letter.id};
    HistoryCounts(ops, me, settings, h);
  }
}
