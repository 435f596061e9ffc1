/**
 Replicas of one room's log. The hub and a client that knows the room apply the
 same rule to every log they are handed: take it iff it verifies to that room
 and is strictly longer than the one held.
 */
module RoomReplicas {
  import opened RoomLog
  import opened RoomTheorems

  type Log = seq<RoomEntry>

  /** `log` verifies, to room `id`. */
  predicate Speaks(v: Verifier, id: RoomId, log: Log) {
    var r := Replay(v, log);
    r.Ok? && r.value.id == id
  }

  function LongerWins(v: Verifier, id: RoomId, held: Log, incoming: Log): Log {
    if Speaks(v, id, incoming) && |incoming| > |held| then incoming else held
  }

  /** Handed each of `arrivals` in turn. */
  function Merge(v: Verifier, id: RoomId, held: Log, arrivals: seq<Log>): Log
    decreases |arrivals|
  {
    if arrivals == [] then held
    else Merge(v, id, LongerWins(v, id, held, arrivals[0]), arrivals[1..])
  }

  /** `log` is a longest among the held log and the arrivals that speak for the room. */
  ghost predicate Longest(v: Verifier, id: RoomId, held: Log, arrivals: seq<Log>, log: Log) {
    && (log == held || (log in arrivals && Speaks(v, id, log) && |log| > |held|))
    && (forall a :: a in arrivals && Speaks(v, id, a) ==> |a| <= |log|)
  }

  lemma {:induction false} MergeEndsAtLongest(v: Verifier, id: RoomId, held: Log, arrivals: seq<Log>)
    ensures Longest(v, id, held, arrivals, Merge(v, id, held, arrivals))
    ensures |Merge(v, id, held, arrivals)| >= |held|
    decreases |arrivals|
  {
    if arrivals != [] {
      var next := LongerWins(v, id, held, arrivals[0]);
      MergeEndsAtLongest(v, id, next, arrivals[1..]);
      var end := Merge(v, id, held, arrivals);
      forall a | a in arrivals && Speaks(v, id, a)
        ensures |a| <= |end|
      {
        assert a == arrivals[0] || a in arrivals[1..];
      }
    }
  }

  ghost predicate SameElements(s: seq<Log>, t: seq<Log>) {
    forall x :: x in s <==> x in t
  }

  /** The arrivals that could win do not disagree about which one does. */
  ghost predicate OneWinner(v: Verifier, id: RoomId, held: Log, arrivals: seq<Log>) {
    forall a, b :: Longest(v, id, held, arrivals, a) && Longest(v, id, held, arrivals, b) ==> a == b
  }

  lemma {:induction false} NothingLonger(v: Verifier, id: RoomId, held: Log, arrivals: seq<Log>)
    requires forall a :: a in arrivals && Speaks(v, id, a) ==> |a| <= |held|
    ensures Merge(v, id, held, arrivals) == held
  {
    if arrivals != [] {
      assert LongerWins(v, id, held, arrivals[0]) == held;
      NothingLonger(v, id, held, arrivals[1..]);
    }
  }

  /**
   Every order and every duplication of the same logs ends at the same log
   exactly when there is one longest among them.
   */
  lemma OrderIndependentIffOneWinner(v: Verifier, id: RoomId, held: Log, arrivals: seq<Log>)
    ensures (forall other :: SameElements(arrivals, other) ==>
               Merge(v, id, held, other) == Merge(v, id, held, arrivals))
            <==> OneWinner(v, id, held, arrivals)
  {
    MergeEndsAtLongest(v, id, held, arrivals);
    if OneWinner(v, id, held, arrivals) {
      forall other | SameElements(arrivals, other)
        ensures Merge(v, id, held, other) == Merge(v, id, held, arrivals)
      {
        MergeEndsAtLongest(v, id, held, other);
        assert Longest(v, id, held, arrivals, Merge(v, id, held, other));
      }
    } else {
      var a, b :| Longest(v, id, held, arrivals, a) && Longest(v, id, held, arrivals, b) && a != b;
      FirstLongestWins(v, id, held, arrivals, a);
      FirstLongestWins(v, id, held, arrivals, b);
    }
  }

  /** Whichever longest log comes first is the one kept; handing it over first makes it so. */
  lemma FirstLongestWins(v: Verifier, id: RoomId, held: Log, arrivals: seq<Log>, a: Log)
    requires Longest(v, id, held, arrivals, a)
    ensures exists other :: SameElements(arrivals, other) && Merge(v, id, held, other) == a
  {
    if a == held {
      NothingLonger(v, id, held, arrivals);
      assert SameElements(arrivals, arrivals);
    } else {
      var other := [a] + arrivals;
      assert other[1..] == arrivals;
      NothingLonger(v, id, a, arrivals);
      assert SameElements(arrivals, other) && Merge(v, id, held, other) == a;
    }
  }

  /** Held (if anything is) and arriving logs of the room, with no collision and no fork among them. */
  ghost predicate Harmonious(v: Verifier, id: RoomId, held: Log, arrivals: seq<Log>) {
    && (held == [] || Speaks(v, id, held))
    && (forall a, b :: a in [held] + arrivals && b in [held] + arrivals && Speaks(v, id, a) && Speaks(v, id, b)
          ==> CollisionFree(v, a, b) && ForkFree(a, b))
  }

  /**
   With no forks, a replica only ever extends what it holds, every log it was
   handed is a prefix of where it ends, and the order does not matter.
   */
  lemma NoForksOnlyExtend(v: Verifier, id: RoomId, held: Log, arrivals: seq<Log>)
    requires Harmonious(v, id, held, arrivals)
    ensures held <= Merge(v, id, held, arrivals)
    ensures forall a :: a in arrivals && Speaks(v, id, a) ==> a <= Merge(v, id, held, arrivals)
    ensures OneWinner(v, id, held, arrivals)
  {
    MergeEndsAtLongest(v, id, held, arrivals);
    var all := [held] + arrivals;
    assert forall a :: a in all <==> a == held || a in arrivals;
    forall a, b | a in all && b in all && Speaks(v, id, a) && Speaks(v, id, b)
      ensures |a| <= |b| ==> a <= b
    {
      PrefixOrdered(v, a, b);
    }
    forall a, b | Longest(v, id, held, arrivals, a) && Longest(v, id, held, arrivals, b)
      ensures a == b
    {
      if a != held && b != held {
        assert a <= b && b <= a;
      }
    }
  }

  /** What the replica holds after each of the first `n` arrivals. */
  function HeldAfter(v: Verifier, id: RoomId, held: Log, arrivals: seq<Log>, n: nat): Log
    requires n <= |arrivals|
  {
    Merge(v, id, held, arrivals[..n])
  }

  lemma {:induction false} MergeSplit(v: Verifier, id: RoomId, held: Log, s: seq<Log>, t: seq<Log>)
    ensures Merge(v, id, held, s + t) == Merge(v, id, Merge(v, id, held, s), t)
    decreases |s|
  {
    if s == [] {
      assert s + t == t;
    } else {
      assert (s + t)[1..] == s[1..] + t;
      MergeSplit(v, id, LongerWins(v, id, held, s[0]), s[1..], t);
    }
  }

  /** At every step of the way the log held is kept or properly extended: no kick is ever undone by a stale copy. */
  lemma EveryStepExtends(v: Verifier, id: RoomId, held: Log, arrivals: seq<Log>, n: nat)
    requires Harmonious(v, id, held, arrivals) && n < |arrivals|
    ensures HeldAfter(v, id, held, arrivals, n) <= HeldAfter(v, id, held, arrivals, n + 1)
  {
    var next := Merge(v, id, held, arrivals[..n]);
    assert arrivals[..n + 1] == arrivals[..n] + [arrivals[n]];
    MergeSplit(v, id, held, arrivals[..n], [arrivals[n]]);
    MergeEndsAtLongest(v, id, held, arrivals[..n]);
    assert next == held || next in arrivals;
    assert forall a :: a in [next] + [arrivals[n]] ==> a in [held] + arrivals;
    assert Harmonious(v, id, next, [arrivals[n]]);
    NoForksOnlyExtend(v, id, next, [arrivals[n]]);
  }
}
