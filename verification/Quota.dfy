/**
 The mailbox quotas under concurrency. A `post_mail` handler counts the sender's
 rows, counts the recipient's rows and inserts, taking the store's lock for each
 step separately, so other handlers, deletes and sweeps run in between.
 */
module Quota {
  import opened Bytes
  import opened Filters
  import opened Mail
  import opened HubStore

  datatype Stage = Begun | SenderCounted | RecipientCounted

  datatype Handler = Handler(sender: Key, recipient: Key, stage: Stage)

  datatype State = State(mail: seq<Row>, inFlight: map<nat, Handler>)

  datatype Step =
    | Begin(h: nat, sender: Key, recipient: Key)
    | CountSender(h: nat)
    | CountRecipient(h: nat)
    | Insert(h: nat, now: int, e: Envelope)
    | Drop(h: nat)
    | Remove(kept: Row -> bool)

  predicate At(s: State, h: nat, stage: Stage) {
    h in s.inFlight && s.inFlight[h].stage == stage
  }

  function Done(s: State, h: nat): State {
    s.(inFlight := s.inFlight - {h})
  }

  function Advance(s: State, h: nat, stage: Stage): State
    requires h in s.inFlight
  {
    s.(inFlight := s.inFlight[h := s.inFlight[h].(stage := stage)])
  }

  /** One step; a step that is not enabled changes nothing. */
  function Next(s: State, step: Step): State {
    match step
    case Begin(h, sender, recipient) =>
      if h in s.inFlight then s else s.(inFlight := s.inFlight[h := Handler(sender, recipient, Begun)])
    case CountSender(h) =>
      if !At(s, h, Begun) then s
      else if |Filter(s.mail, FromTo(s.inFlight[h].sender, s.inFlight[h].recipient))| >= QUOTA_PER_SENDER then Done(s, h)
      else Advance(s, h, SenderCounted)
    case CountRecipient(h) =>
      if !At(s, h, SenderCounted) then s
      else if |Filter(s.mail, To(s.inFlight[h].recipient))| >= QUOTA_PER_RECIPIENT then Done(s, h)
      else Advance(s, h, RecipientCounted)
    case Insert(h, now, e) =>
      if !At(s, h, RecipientCounted) then s
      else Done(s, h).(mail := PutMail(s.mail, s.inFlight[h].sender, s.inFlight[h].recipient, now, e))
    case Drop(h) => Done(s, h)
    case Remove(kept) => s.(mail := Filter(s.mail, kept))
  }

  function Run(s: State, steps: seq<Step>): State
    decreases |steps|
  {
    if steps == [] then s else Run(Next(s, steps[0]), steps[1..])
  }

  // ----- who is in flight -----

  function InFlightTo(s: State, r: Key): set<nat> {
    set h | h in s.inFlight && s.inFlight[h].recipient == r
  }

  /** Past the recipient count: nothing stands between these and an insert. */
  function Cleared(s: State, r: Key): set<nat> {
    set h | h in s.inFlight && s.inFlight[h].recipient == r && s.inFlight[h].stage == RecipientCounted
  }

  /** Past the sender count for `q`. */
  function SenderCleared(s: State, q: Key, r: Key): set<nat> {
    set h | h in s.inFlight && s.inFlight[h].recipient == r && s.inFlight[h].sender == q && s.inFlight[h].stage != Begun
  }

  /** At no moment of the run are more than `k` handlers in flight for `r`. */
  predicate AtMost(s: State, steps: seq<Step>, r: Key, k: nat)
    decreases |steps|
  {
    |InFlightTo(s, r)| <= k && (steps == [] || AtMost(Next(s, steps[0]), steps[1..], r, k))
  }

  /** Rows present plus rows already cleared for insertion. */
  ghost predicate Bounded(s: State, r: Key, k: nat) {
    RecipientBounded(s, r, k) && forall q: Key :: SenderBounded(s, q, r, k)
  }


  lemma Subset<T>(a: set<T>, b: set<T>)
    requires a <= b
    ensures |a| <= |b|
  {
    assert b == a + (b - a);
  }

  ghost predicate RecipientBounded(s: State, r: Key, k: nat) {
    |Filter(s.mail, To(r))| + |Cleared(s, r)| < QUOTA_PER_RECIPIENT + k
  }

  ghost predicate SenderBounded(s: State, q: Key, r: Key, k: nat) {
    |Filter(s.mail, FromTo(q, r))| + |SenderCleared(s, q, r)| < QUOTA_PER_SENDER + k
  }

  /** An insert turns a cleared handler into a row. */
  lemma InsertKeepsRecipientBound(s: State, h: nat, now: int, e: Envelope, r: Key, k: nat)
    requires At(s, h, RecipientCounted) && RecipientBounded(s, r, k)
    ensures RecipientBounded(Next(s, Insert(h, now, e)), r, k)
  {
    var n := Next(s, Insert(h, now, e));
    FilterSnoc(s.mail, Row(NextRowId(s.mail), s.inFlight[h].recipient, s.inFlight[h].sender, now, e), To(r));
    assert Cleared(n, r) == Cleared(s, r) - {h};
  }

  lemma InsertKeepsSenderBound(s: State, h: nat, now: int, e: Envelope, q: Key, r: Key, k: nat)
    requires At(s, h, RecipientCounted) && SenderBounded(s, q, r, k)
    ensures SenderBounded(Next(s, Insert(h, now, e)), q, r, k)
  {
    var n := Next(s, Insert(h, now, e));
    FilterSnoc(s.mail, Row(NextRowId(s.mail), s.inFlight[h].recipient, s.inFlight[h].sender, now, e), FromTo(q, r));
    assert SenderCleared(n, q, r) == SenderCleared(s, q, r) - {h};
  }

  /** Fewer rows and no more handlers cleared is within the same bounds. */
  lemma ShrinkingKeepsBounds(s: State, n: State, kept: Row -> bool, q: Key, r: Key, k: nat)
    requires n.mail == s.mail || n.mail == Filter(s.mail, kept)
    ensures RecipientBounded(s, r, k) && Cleared(n, r) <= Cleared(s, r) ==> RecipientBounded(n, r, k)
    ensures SenderBounded(s, q, r, k) && SenderCleared(n, q, r) <= SenderCleared(s, q, r) ==> SenderBounded(n, q, r, k)
  {
    FilterShrinks(s.mail, kept, To(r));
    FilterShrinks(s.mail, kept, FromTo(q, r));
    if Cleared(n, r) <= Cleared(s, r) {
      Subset(Cleared(n, r), Cleared(s, r));
    }
    if SenderCleared(n, q, r) <= SenderCleared(s, q, r) {
      Subset(SenderCleared(n, q, r), SenderCleared(s, q, r));
    }
  }

  /** A handler clears a count only below the cap, and then at most `k` are clear of it. */
  lemma StepKeepsRecipientBound(s: State, step: Step, r: Key, k: nat)
    requires RecipientBounded(s, r, k) && |InFlightTo(Next(s, step), r)| <= k
    ensures RecipientBounded(Next(s, step), r, k)
  {
    var n := Next(s, step);
    if step.Insert? && At(s, step.h, RecipientCounted) {
      InsertKeepsRecipientBound(s, step.h, step.now, step.e, r, k);
    } else if step.CountRecipient? && |Filter(s.mail, To(r))| < QUOTA_PER_RECIPIENT {
      Subset(Cleared(n, r), InFlightTo(n, r));
    } else {
      ShrinkingKeepsBounds(s, n, if step.Remove? then step.kept else To(r), r, r, k);
    }
  }

  lemma StepKeepsSenderBound(s: State, step: Step, q: Key, r: Key, k: nat)
    requires SenderBounded(s, q, r, k) && |InFlightTo(Next(s, step), r)| <= k
    ensures SenderBounded(Next(s, step), q, r, k)
  {
    var n := Next(s, step);
    if step.Insert? && At(s, step.h, RecipientCounted) {
      InsertKeepsSenderBound(s, step.h, step.now, step.e, q, r, k);
    } else if step.CountSender? && |Filter(s.mail, FromTo(q, r))| < QUOTA_PER_SENDER {
      Subset(SenderCleared(n, q, r), InFlightTo(n, r));
    } else {
      ShrinkingKeepsBounds(s, n, if step.Remove? then step.kept else To(r), q, r, k);
    }
  }

  lemma {:induction false} RunKeepsBounds(s: State, steps: seq<Step>, r: Key, k: nat)
    requires Bounded(s, r, k) && AtMost(s, steps, r, k)
    ensures Bounded(Run(s, steps), r, k)
    decreases |steps|
  {
    if steps != [] {
      StepKeepsRecipientBound(s, steps[0], r, k);
      forall q: Key
        ensures SenderBounded(Next(s, steps[0]), q, r, k)
      {
        StepKeepsSenderBound(s, steps[0], q, r, k);
      }
      RunKeepsBounds(Next(s, steps[0]), steps[1..], r, k);
    }
  }

  ghost predicate WithinCaps(mail: seq<Row>, r: Key) {
    && |Filter(mail, To(r))| <= QUOTA_PER_RECIPIENT
    && (forall q: Key :: |Filter(mail, FromTo(q, r))| <= QUOTA_PER_SENDER)
  }

  /**
   With at most `k` handlers in flight for a recipient, the mailbox overshoots
   its caps by at most k-1, through any posts, deletes and sweeps. One handler
   at a time keeps them exactly.
   */
  lemma QuotaUnderConcurrency(s: State, steps: seq<Step>, r: Key, k: nat)
    requires k >= 1 && WithinCaps(s.mail, r) && s.inFlight == map[] && AtMost(s, steps, r, k)
    ensures |Filter(Run(s, steps).mail, To(r))| <= QUOTA_PER_RECIPIENT + k - 1
    ensures forall q: Key :: |Filter(Run(s, steps).mail, FromTo(q, r))| <= QUOTA_PER_SENDER + k - 1
    ensures k == 1 ==> WithinCaps(Run(s, steps).mail, r)
  {
    assert Cleared(s, r) == {};
    forall q: Key
      ensures SenderBounded(s, q, r, k)
    {
      assert SenderCleared(s, q, r) == {};
    }
    RunKeepsBounds(s, steps, r, k);
    forall q: Key
      ensures |Filter(Run(s, steps).mail, FromTo(q, r))| <= QUOTA_PER_SENDER + k - 1
    {
      assert SenderBounded(Run(s, steps), q, r, k);
    }
  }

  // ----- the bounds are reached -----

  function Below(n: nat): (s: set<nat>)
    ensures |s| == n && forall h: nat :: h in s <==> h < n
  {
    if n == 0 then {} else Below(n - 1) + {n - 1}
  }

  /** Handlers are numbered below `k`, so no more than `k` are ever in flight. */
  predicate NumberedBelow(steps: seq<Step>, k: nat) {
    forall i :: 0 <= i < |steps| && steps[i].Begin? ==> steps[i].h < k
  }

  lemma {:induction false} NumberedMeansAtMost(s: State, steps: seq<Step>, r: Key, k: nat)
    requires NumberedBelow(steps, k) && s.inFlight.Keys <= Below(k)
    ensures AtMost(s, steps, r, k)
    decreases |steps|
  {
    Subset(InFlightTo(s, r), Below(k));
    if steps != [] {
      var next := Next(s, steps[0]);
      assert next.inFlight.Keys <= s.inFlight.Keys + (if steps[0].Begin? then {steps[0].h} else {});
      NumberedMeansAtMost(next, steps[1..], r, k);
    }
  }

  lemma RunFirst(s: State, step: Step, rest: seq<Step>)
    ensures Run(s, [step] + rest) == Run(Next(s, step), rest)
  {
    assert ([step] + rest)[1..] == rest;
  }

  /** Handlers 0 to n-1 are all in flight from `q` to `r` and past both counts; no others are. */
  ghost predicate Ready(s: State, q: Key, r: Key, n: nat) {
    && (forall h: nat :: h in s.inFlight <==> h < n)
    && (forall h: nat :: h in s.inFlight ==> s.inFlight[h] == Handler(q, r, RecipientCounted))
  }

  function ClearThen(q: Key, r: Key, n: nat, rest: seq<Step>): (steps: seq<Step>)
    ensures forall k :: n < k && NumberedBelow(rest, k) ==> NumberedBelow(steps, k)
  {
    [Begin(n, q, r)] + ([CountSender(n)] + ([CountRecipient(n)] + rest))
  }

  /** Clear handlers n to k-1, then insert for handlers k-1 down to 0. */
  function Burst(q: Key, r: Key, n: nat, k: nat, e: Envelope): (steps: seq<Step>)
    requires n <= k
    ensures NumberedBelow(steps, k)
    decreases k - n
  {
    if n == k then
      assert forall i :: 0 <= i < |InsertAll(k, e)| ==> InsertAll(k, e)[i] in InsertAll(k, e);
      InsertAll(k, e)
    else ClearThen(q, r, n, Burst(q, r, n + 1, k, e))
  }

  function InsertAll(n: nat, e: Envelope): (steps: seq<Step>)
    ensures forall step :: step in steps ==> step.Insert?
  {
    if n == 0 then [] else [Insert(n - 1, 0, e)] + InsertAll(n - 1, e)
  }

  /** `n` more rows from `q` to `r`. */
  ghost predicate Grown(mail: seq<Row>, after: seq<Row>, q: Key, r: Key, n: nat) {
    && |Filter(after, To(r))| == |Filter(mail, To(r))| + n
    && |Filter(after, FromTo(q, r))| == |Filter(mail, FromTo(q, r))| + n
  }

  lemma InsertLast(s: State, q: Key, r: Key, n: nat, e: Envelope) returns (next: State)
    requires n > 0 && Ready(s, q, r, n)
    ensures next == Next(s, Insert(n - 1, 0, e)) && Ready(next, q, r, n - 1)
    ensures Grown(s.mail, next.mail, q, r, 1)
  {
    next := Next(s, Insert(n - 1, 0, e));
    var row := Row(NextRowId(s.mail), r, q, 0, e);
    FilterSnoc(s.mail, row, To(r));
    FilterSnoc(s.mail, row, FromTo(q, r));
  }

  lemma {:induction false} InsertAllFills(s: State, q: Key, r: Key, n: nat, e: Envelope) returns (end: State)
    requires Ready(s, q, r, n)
    ensures end == Run(s, InsertAll(n, e))
    ensures Grown(s.mail, end.mail, q, r, n)
    decreases n
  {
    if n == 0 {
      end := s;
    } else {
      var next := InsertLast(s, q, r, n, e);
      end := InsertAllFills(next, q, r, n - 1, e);
      RunFirst(s, Insert(n - 1, 0, e), InsertAll(n - 1, e));
    }
  }

  /** Below both caps, a handler that begins clears both counts. */
  lemma ClearsOne(s: State, q: Key, r: Key, n: nat, rest: seq<Step>) returns (next: State)
    requires |Filter(s.mail, To(r))| < QUOTA_PER_RECIPIENT && |Filter(s.mail, FromTo(q, r))| < QUOTA_PER_SENDER
    requires Ready(s, q, r, n)
    ensures next.mail == s.mail && Ready(next, q, r, n + 1)
    ensures Run(s, ClearThen(q, r, n, rest)) == Run(next, rest)
  {
    var s1 := Next(s, Begin(n, q, r));
    var s2 := Next(s1, CountSender(n));
    next := Next(s2, CountRecipient(n));
    RunFirst(s2, CountRecipient(n), rest);
    RunFirst(s1, CountSender(n), [CountRecipient(n)] + rest);
    RunFirst(s, Begin(n, q, r), [CountSender(n)] + ([CountRecipient(n)] + rest));
  }

  lemma {:induction false} BurstOvershoots(s: State, q: Key, r: Key, n: nat, k: nat, e: Envelope)
    returns (end: State)
    requires |Filter(s.mail, To(r))| < QUOTA_PER_RECIPIENT && |Filter(s.mail, FromTo(q, r))| < QUOTA_PER_SENDER
    requires n <= k && Ready(s, q, r, n)
    ensures end == Run(s, Burst(q, r, n, k, e))
    ensures Grown(s.mail, end.mail, q, r, k)
    decreases k - n
  {
    if n == k {
      end := InsertAllFills(s, q, r, k, e);
    } else {
      var next := ClearsOne(s, q, r, n, Burst(q, r, n + 1, k, e));
      end := BurstOvershoots(next, q, r, n + 1, k, e);
    }
  }

  /** Neither bound can be lowered: k handlers that count before any of them inserts reach both. */
  lemma BoundsAreReached(mail: seq<Row>, q: Key, r: Key, k: nat, e: Envelope)
    requires |Filter(mail, To(r))| == QUOTA_PER_RECIPIENT - 1 && |Filter(mail, FromTo(q, r))| == QUOTA_PER_SENDER - 1
    ensures exists steps :: AtMost(State(mail, map[]), steps, r, k)
              && |Filter(Run(State(mail, map[]), steps).mail, To(r))| == QUOTA_PER_RECIPIENT + k - 1
              && |Filter(Run(State(mail, map[]), steps).mail, FromTo(q, r))| == QUOTA_PER_SENDER + k - 1
  {
    var steps := Burst(q, r, 0, k, e);
    var end := BurstOvershoots(State(mail, map[]), q, r, 0, k, e);
    NumberedMeansAtMost(State(mail, map[]), steps, r, k);
  }
}
