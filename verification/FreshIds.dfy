/**
 Ids across restarts. A process opens the store, mints ids, records own and
 incoming ops, loses conversations to the user, and stops at any moment, with
 whatever it minted but did not record forgotten.
 */
module FreshIds {
  import opened Bytes
  import opened Wrappers
  import opened Wire
  import opened MessageStore

  /** `minted` holds the ids this process handed out, `pending` those of them it has not recorded. */
  datatype Process = Down | Up(counter: u64, minted: set<MessageId>, pending: set<MessageId>)

  /** `ever` holds the ids handed out by this process or any before it. */
  datatype State = State(ops: Table, process: Process, ever: set<MessageId>)

  ghost predicate Opens(me: Key, s: State, t: State) {
    && s.process.Down? && t.process.Up? && t.process.minted == t.process.pending == {}
    && IsResume(s.ops, me, t.process.counter)
    && t.ops == s.ops && t.ever == s.ever
  }

  ghost predicate Mints(me: Key, s: State, t: State, id: MessageId) {
    && s.process.Up? && t.ops == s.ops && t.ever == s.ever + {id}
    && id.sender == me && id.seqNo == (s.process.counter + 1) % TWO_64
    && t.process == Up(id.seqNo, s.process.minted + {id}, s.process.pending + {id})
  }

  ghost predicate RecordsOwn(s: State, t: State, a: Arrival) {
    && s.process.Up? && a.frame.Id().Some? && a.frame.Id().value in s.process.pending
    && t == s.(ops := RecordOp(s.ops, a),
               process := s.process.(pending := s.process.pending - {a.frame.Id().value}))
  }

  ghost predicate RecordsIncoming(me: Key, s: State, t: State, a: Arrival) {
    && s.process.Up? && (a.frame.Id().Some? ==> a.frame.Id().value.sender != me)
    && t == s.(ops := RecordOp(s.ops, a))
  }

  /** Clear, forget or wipe: some rows go, the rest stay. */
  ghost predicate Removes(s: State, t: State) {
    && s.process.Up? && t == s.(ops := t.ops)
    && (forall id :: id in t.ops ==> id in s.ops && t.ops[id] == s.ops[id])
  }

  ghost predicate Stops(s: State, t: State) {
    s.process.Up? && t == s.(process := Down)
  }

  ghost predicate Next(me: Key, s: State, t: State) {
    || Opens(me, s, t)
    || (exists id :: Mints(me, s, t, id))
    || (exists a :: RecordsOwn(s, t, a))
    || (exists a :: RecordsIncoming(me, s, t, a))
    || Removes(s, t)
    || Stops(s, t)
  }

  ghost predicate IsRun(me: Key, run: seq<State>) {
    && run != [] && run[0] == State(map[], Down, {})
    && (forall i :: 0 <= i < |run| - 1 ==> Next(me, run[i], run[i + 1]))
  }

  /** No counter has come within one of the sign bit the store's signed column would give it. */
  ghost predicate BelowSignBit(s: State) {
    s.process.Up? ==> s.process.counter + 1 < TWO_63
  }

  ghost predicate AllBelow(run: seq<State>, n: nat)
    requires n <= |run|
  {
    forall i :: 0 <= i < n ==> BelowSignBit(run[i])
  }

  // ----- within one process -----

  /** Nothing minted or on disk under `me` is past the counter, and whatever was handed out is `me`'s. */
  ghost predicate Ahead(me: Key, s: State) {
    && (forall id :: Own(s.ops, me, id) ==> id.seqNo < TWO_63)
    && (forall id :: id in s.ever ==> id.sender == me && 0 < id.seqNo < TWO_63)
    && (s.process.Up? ==>
          && s.process.pending <= s.process.minted <= s.ever
          && (forall id :: Own(s.ops, me, id) ==> id.seqNo <= s.process.counter)
          && (forall id :: id in s.process.minted ==> id.seqNo <= s.process.counter))
  }

  lemma StepKeepsAhead(me: Key, s: State, t: State)
    requires Ahead(me, s) && BelowSignBit(s) && Next(me, s, t)
    ensures Ahead(me, t)
  {
    if Opens(me, s, t) {
      ResumeCoversIff(s.ops, me, t.process.counter);
    } else if exists a :: RecordsOwn(s, t, a) {
      var a :| RecordsOwn(s, t, a);
      assert forall id :: id in t.ops ==> id in s.ops || id in s.process.pending;
    } else if exists a :: RecordsIncoming(me, s, t, a) {
      var a :| RecordsIncoming(me, s, t, a);
      assert forall id :: Own(t.ops, me, id) ==> Own(s.ops, me, id);
    }
  }

  lemma {:induction false} RunKeepsAhead(me: Key, run: seq<State>, n: nat)
    requires IsRun(me, run) && n < |run| && AllBelow(run, n)
    ensures Ahead(me, run[n])
  {
    if n > 0 {
      RunKeepsAhead(me, run, n - 1);
      StepKeepsAhead(me, run[n - 1], run[n]);
    }
  }

  /**
   Over any run of openings, mints, records, deletions and crashes, an id just
   minted is on no stored op and is none that this process handed out before,
   recorded or not, deleted since or not.
   */
  lemma MintedIdsAreFresh(me: Key, run: seq<State>, n: nat, id: MessageId)
    requires IsRun(me, run) && n < |run| - 1 && AllBelow(run, n + 1)
    requires Mints(me, run[n], run[n + 1], id)
    ensures id !in run[n].ops && id !in run[n].process.minted
    ensures forall own :: Own(run[n].ops, me, own) ==> own.seqNo < id.seqNo
  {
    RunKeepsAhead(me, run, n);
  }

  // ----- across processes -----

  /** Every id ever handed out is matched or passed by some own op still on disk. */
  ghost predicate Covers(me: Key, s: State) {
    forall past :: past in s.ever ==> exists own :: Own(s.ops, me, own) && own.seqNo >= past.seqNo
  }

  /** The counter has reached every one of these ids. */
  predicate Reached(s: State, ids: set<MessageId>) {
    s.process.Up? ==> forall past :: past in ids ==> past.seqNo <= s.process.counter
  }

  lemma OpeningReaches(me: Key, s: State, t: State)
    requires Ahead(me, s) && Opens(me, s, t) && Covers(me, s)
    ensures Reached(t, s.ever)
  {
    ResumeCoversIff(s.ops, me, t.process.counter);
  }

  lemma StepKeepsReached(me: Key, s: State, t: State, ids: set<MessageId>)
    requires BelowSignBit(s) && Next(me, s, t) && s.process.Up? && Reached(s, ids)
    ensures Reached(t, ids)
  {
  }

  /** As long as every opening finds the ids handed out before it covered, the counter is never behind any of them. */
  lemma {:induction false} RunKeepsReached(me: Key, run: seq<State>, n: nat)
    requires IsRun(me, run) && n < |run| && AllBelow(run, n)
    requires forall i :: 0 <= i < n && Opens(me, run[i], run[i + 1]) ==> Covers(me, run[i])
    ensures Reached(run[n], run[n].ever)
  {
    if n > 0 {
      RunKeepsReached(me, run, n - 1);
      var s, t := run[n - 1], run[n];
      assert Next(me, s, t);
      if s.process.Up? {
        StepKeepsReached(me, s, t, s.ever);
      } else {
        RunKeepsAhead(me, run, n - 1);
        OpeningReaches(me, s, t);
      }
    }
  }

  /** Then no id is handed out twice, over any number of processes. */
  lemma NeverReissued(me: Key, run: seq<State>, n: nat, id: MessageId)
    requires IsRun(me, run) && n < |run| - 1 && AllBelow(run, n + 1)
    requires forall i :: 0 <= i < n && Opens(me, run[i], run[i + 1]) ==> Covers(me, run[i])
    requires Mints(me, run[n], run[n + 1], id)
    ensures id !in run[n].ever
  {
    RunKeepsReached(me, run, n);
  }

  /** `longer` goes on from `run` within one process, to the minting of `id`. */
  ghost predicate MintsOn(me: Key, run: seq<State>, longer: seq<State>, id: MessageId) {
    && IsRun(me, longer) && |run| < |longer| && longer[..|run|] == run
    && (forall i :: |run| <= i < |longer| ==> longer[i].process.Up?)
    && AllBelow(longer, |longer| - 1)
    && Mints(me, longer[|longer| - 2], longer[|longer| - 1], id)
  }

  /** The run goes on with one more process, whose last mint is of an id some process before it handed out. */
  ghost predicate Reissues(me: Key, run: seq<State>, longer: seq<State>, id: MessageId)
    requires run != []
  {
    MintsOn(me, run, longer, id) && |run| + 1 < |longer| && id in run[|run| - 1].ever
  }

  lemma {:induction false} ProcessKeepsReached(me: Key, longer: seq<State>, from: nat, n: nat, ids: set<MessageId>)
    requires IsRun(me, longer) && from <= n < |longer| && AllBelow(longer, n)
    requires forall i :: from <= i <= n ==> longer[i].process.Up?
    requires Reached(longer[from], ids)
    ensures Reached(longer[n], ids)
  {
    if n > from {
      ProcessKeepsReached(me, longer, from, n - 1, ids);
      StepKeepsReached(me, longer[n - 1], longer[n], ids);
    }
  }

  lemma ADownProcessOpens(me: Key, run: seq<State>, n: nat)
    requires IsRun(me, run) && n < |run| - 1 && run[n].process.Down?
    ensures Opens(me, run[n], run[n + 1])
  {
    assert Next(me, run[n], run[n + 1]);
  }

  lemma CoveredOpeningReaches(me: Key, run: seq<State>, n: nat)
    requires IsRun(me, run) && n < |run| - 1 && AllBelow(run, n)
    requires run[n].process.Down? && Covers(me, run[n])
    ensures Reached(run[n + 1], run[n].ever)
  {
    ADownProcessOpens(me, run, n);
    RunKeepsAhead(me, run, n);
    OpeningReaches(me, run[n], run[n + 1]);
  }

  /** A process that starts with everything before it covered never mints one of those ids. */
  lemma CoveredProcessIsFresh(me: Key, longer: seq<State>, k: nat, id: MessageId)
    requires IsRun(me, longer) && 0 < k < |longer| - 1 && AllBelow(longer, |longer| - 1)
    requires longer[k - 1].process.Down? && forall i :: k <= i < |longer| ==> longer[i].process.Up?
    requires Covers(me, longer[k - 1]) && Mints(me, longer[|longer| - 2], longer[|longer| - 1], id)
    ensures id !in longer[k - 1].ever
  {
    var top := |longer| - 2;
    CoveredOpeningReaches(me, longer, k - 1);
    ProcessKeepsReached(me, longer, k, top, longer[k - 1].ever);
    assert BelowSignBit(longer[top]) && id.seqNo == longer[top].process.counter + 1;
  }

  lemma CoveredIsNotReissued(me: Key, run: seq<State>, longer: seq<State>, id: MessageId)
    requires IsRun(me, run) && run[|run| - 1].process.Down? && Reissues(me, run, longer, id)
    ensures !Covers(me, run[|run| - 1])
  {
    var k := |run|;
    if Covers(me, run[k - 1]) {
      assert longer[k - 1] == run[k - 1];
      CoveredProcessIsFresh(me, longer, k, id);
    }
  }

  lemma HighestOf(ids: set<MessageId>) returns (top: MessageId)
    requires ids != {}
    ensures top in ids && forall id :: id in ids ==> AsI64(id.seqNo) <= AsI64(top.seqNo)
  {
    top :| top in ids;
    if ids != {top} {
      var other := HighestOf(ids - {top});
      if AsI64(other.seqNo) > AsI64(top.seqNo) {
        top := other;
      }
    }
  }

  /** There always is a value to resume from. */
  lemma ResumeExists(t: Table, me: Key) returns (n: u64)
    ensures IsResume(t, me, n)
  {
    var owned := set id | id in t && id.sender == me;
    assert forall id :: Own(t, me, id) <==> id in owned;
    if owned == {} {
      n := 0;
    } else {
      var top := HighestOf(owned);
      assert Own(t, me, top);
      n := top.seqNo;
    }
  }

  function Minted(s: State, id: MessageId): State
    requires s.process.Up?
  {
    State(s.ops, Up(id.seqNo, s.process.minted + {id}, s.process.pending + {id}), s.ever + {id})
  }

  lemma RunSnoc(me: Key, run: seq<State>, t: State)
    requires IsRun(me, run) && Next(me, run[|run| - 1], t)
    ensures IsRun(me, run + [t])
    ensures AllBelow(run, |run|) && BelowSignBit(t) ==> AllBelow(run + [t], |run| + 1)
  {
    var more := run + [t];
    forall i | 0 <= i < |more| - 1
      ensures Next(me, more[i], more[i + 1])
    {
      assert i < |run| - 1 ==> Next(me, run[i], run[i + 1]);
    }
  }

  lemma MintsOnFromEarlier(me: Key, run: seq<State>, t: State, longer: seq<State>, id: MessageId)
    requires MintsOn(me, run + [t], longer, id) && t.process.Up?
    ensures MintsOn(me, run, longer, id)
  {
    var more := run + [t];
    assert longer[|run|] == longer[..|more|][|run|] == t;
    assert longer[..|run|] == longer[..|more|][..|run|] == more[..|run|] == run;
  }

  /** Minting on until the counter comes to `id`. */
  lemma MintUpTo(me: Key, run: seq<State>, id: MessageId) returns (longer: seq<State>)
    requires IsRun(me, run) && AllBelow(run, |run|)
    requires var s := run[|run| - 1]; s.process.Up? && s.process.counter < id.seqNo < TWO_63 && id.sender == me
    ensures MintsOn(me, run, longer, id)
    decreases id.seqNo - run[|run| - 1].process.counter
  {
    var s := run[|run| - 1];
    var next := if s.process.counter + 1 == id.seqNo then id else MessageId(me, s.process.counter + 1, 0);
    var t := Minted(s, next);
    assert Mints(me, s, t, next);
    RunSnoc(me, run, t);
    if next == id {
      longer := run + [t];
      assert longer[..|run|] == run;
    } else {
      longer := MintUpTo(me, run + [t], id);
      MintsOnFromEarlier(me, run, t, longer, id);
    }
  }

  lemma UncoveredIsReissued(me: Key, run: seq<State>, id: MessageId) returns (longer: seq<State>)
    requires IsRun(me, run) && AllBelow(run, |run|) && run[|run| - 1].process.Down?
    requires var s := run[|run| - 1];
             id in s.ever && !exists own :: Own(s.ops, me, own) && own.seqNo >= id.seqNo
    ensures Reissues(me, run, longer, id)
  {
    RunKeepsAhead(me, run, |run| - 1);
    var s := run[|run| - 1];
    var resume := ResumeExists(s.ops, me);
    assert resume < id.seqNo;
    var t := State(s.ops, Up(resume, {}, {}), s.ever);
    assert Opens(me, s, t);
    RunSnoc(me, run, t);
    longer := MintUpTo(me, run + [t], id);
    MintsOnFromEarlier(me, run, t, longer, id);
    assert |longer| > |run + [t]|;
  }

  /**
   A process about to start can hand out an id some process before it did,
   exactly when the own ops still on disk do not cover those ids.
   */
  lemma ReissuedIffUncovered(me: Key, run: seq<State>)
    requires IsRun(me, run) && AllBelow(run, |run|) && run[|run| - 1].process.Down?
    ensures (exists longer, id :: Reissues(me, run, longer, id)) <==> !Covers(me, run[|run| - 1])
  {
    if exists longer, id :: Reissues(me, run, longer, id) {
      var longer, id :| Reissues(me, run, longer, id);
      CoveredIsNotReissued(me, run, longer, id);
    }
    if !Covers(me, run[|run| - 1]) {
      var s := run[|run| - 1];
      var id :| id in s.ever && !exists own :: Own(s.ops, me, own) && own.seqNo >= id.seqNo;
      var longer := UncoveredIsReissued(me, run, id);
    }
  }

  /** It happens: one op is minted and recorded, its conversation is cleared, and the process stops. */
  lemma ClearedIdsAreReissued(me: Key, peer: Key, body: Text)
    returns (run: seq<State>, longer: seq<State>, id: MessageId)
    ensures IsRun(me, run) && Reissues(me, run, longer, id)
  {
    id := MessageId(me, 1, 0);
    var a := Arrival(peer, Chat(id, body, None));
    var started := State(map[], Up(0, {}, {}), {});
    var minted := Minted(started, id);
    var recorded := State(RecordOp(map[], a), Up(1, {id}, {}), {id});
    var cleared := recorded.(ops := map[]);
    var stopped := cleared.(process := Down);
    run := [State(map[], Down, {}), started, minted, recorded, cleared, stopped];
    assert Opens(me, run[0], run[1]);
    assert Mints(me, run[1], run[2], id);
    assert {} + {id} == {id} && {id} - {id} == {};
    assert RecordsOwn(run[2], run[3], a);
    assert Removes(run[3], run[4]);
    assert Stops(run[4], run[5]);
    assert IsRun(me, run);
    longer := UncoveredIsReissued(me, run, id);
  }
}
