/**
 The fold itself: one pass over the rows in query order, one over the reaction
 switches in whatever order the hash map gives them, then a sort of each
 message's tallies.
 */
module History {
  import opened Bytes
  import opened Wire
  import opened Fold

  // ----- the query -----

  /** `SELECT … ORDER BY ts_ms, seq`: every row once, in order, ties as they fall. */
  ghost predicate IsSelection(ops: Ops, rows: seq<MessageId>) {
    && (forall id :: id in rows <==> id in ops)
    && (forall i, j :: 0 <= i < j < |rows| ==> rows[i] != rows[j])
    && (forall i, j :: 0 <= i < j < |rows| ==> !Before(rows[j], rows[i]))
  }

  lemma {:induction false} HasFirst(s: set<MessageId>)
    requires s != {}
    ensures exists m :: m in s && forall o :: o in s ==> !Before(o, m)
  {
    var x :| x in s;
    if s == {x} {
      assert forall o :: o in s ==> !Before(o, x);
    } else {
      HasFirst(s - {x});
      var m :| m in s - {x} && forall o :: o in s - {x} ==> !Before(o, m);
      var first := if Before(x, m) then x else m;
      assert forall o :: o in s ==> o == x || o in s - {x};
      assert first in s && forall o :: o in s ==> !Before(o, first);
    }
  }

  method Select(ops: Ops) returns (rows: seq<MessageId>)
    ensures IsSelection(ops, rows)
  {
    rows := [];
    var rest := ops.Keys;
    while rest != {}
      invariant rest <= ops.Keys
      invariant forall id :: id in rows <==> id in ops && id !in rest
      invariant forall i, j :: 0 <= i < j < |rows| ==> rows[i] != rows[j]
      invariant forall i, j :: 0 <= i < j < |rows| ==> !Before(rows[j], rows[i])
      invariant forall i, o :: 0 <= i < |rows| && o in rest ==> !Before(o, rows[i])
    {
      HasFirst(rest);
      var first :| first in rest && forall o :: o in rest ==> !Before(o, first);
      rows := rows + [first];
      rest := rest - {first};
    }
  }

  // ----- one more row -----

  /** `id` is a row the query returns after every one of `seen`. */
  ghost predicate Next(seen: Ops, id: MessageId) {
    id !in seen && forall o :: o in seen ==> !Before(id, o)
  }

  lemma AfterOwn(seen: Ops, id: MessageId, o: MessageId)
    requires Next(seen, id) && o in seen && o.sender == id.sender
    ensures Before(o, id)
  {
    TieOrOrder(o, id);
  }

  /** A row that is no mark of the message leaves it as it stands. */
  lemma Unmarked(seen: Ops, id: MessageId, f: Frame, me: Key, settings: map<Text, Text>, m: Message)
    requires Next(seen, id) && RendersCore(seen, me, settings, m)
    requires !IsMark(seen[id := f], m.id, id)
    ensures RendersCore(seen[id := f], me, settings, m)
  {
    var now := seen[id := f];
    assert forall e :: IsMark(now, m.id, e) <==> IsMark(seen, m.id, e);
    assert forall e :: IsLastMark(now, m.id, e) <==> IsLastMark(seen, m.id, e);
  }

  /** A mark that arrives in order is the last one so far, and decides. */
  lemma Marked(seen: Ops, id: MessageId, f: Frame, me: Key, settings: map<Text, Text>, m: Message)
    requires Next(seen, id) && RendersCore(seen, me, settings, m)
    requires (f.Edit? || f.Delete?) && f.target == m.id && id.sender == m.id.sender
    ensures f.Edit? ==> RendersCore(seen[id := f], me, settings, m.(body := f.newBody))
    ensures f.Delete? ==> RendersCore(seen[id := f], me, settings, m.(body := [], deleted := true))
  {
    var now := seen[id := f];
    AfterOwn(seen, id, m.id);
    assert forall e :: IsMark(now, m.id, e) <==> IsMark(seen, m.id, e) || e == id;
    forall e | IsMark(now, m.id, e)
      ensures e == id || Before(e, id)
    {
      if e != id {
        AfterOwn(seen, id, e);
      }
    }
    assert IsLastMark(now, m.id, id);
  }

  /** A message starts as it was sent: nothing returned before it can be a mark of it. */
  lemma Unfolded(seen: Ops, id: MessageId, f: Frame, me: Key, settings: map<Text, Text>)
    requires Next(seen, id) && IsMessage(f)
    ensures RendersCore(seen[id := f], me, settings,
              Message(id, OriginalBody(f), id.sender == me, false, ReplyOf(f), [], AttachmentOf(settings, id, f)))
  {
    var now := seen[id := f];
    forall e
      ensures !IsMark(now, id, e)
    {
      if e in seen {
        assert !Before(id, e);
      }
    }
  }

  /** The message list and its index hold exactly the messages among `seen`, in order. */
  ghost predicate Indexed(seen: Ops, ms: seq<Message>, at: map<MessageId, nat>) {
    && (forall i :: 0 <= i < |ms| ==> ms[i].reactions == [] && ms[i].id in at && at[ms[i].id] == i)
    && (forall id :: id in at ==> at[id] < |ms| && ms[at[id]].id == id)
    && (forall id :: id in at <==> id in seen && IsMessage(seen[id]))
    && (forall i, j :: 0 <= i < j < |ms| ==> !Before(ms[j].id, ms[i].id))
  }

  /** …and each message is as it stands. */
  ghost predicate Folded(
    seen: Ops, me: Key, settings: map<Text, Text>, ms: seq<Message>, at: map<MessageId, nat>)
  {
    Indexed(seen, ms, at) && forall i :: 0 <= i < |ms| ==> RendersCore(seen, me, settings, ms[i])
  }

  lemma FoldMessage(
      seen: Ops, id: MessageId, f: Frame, me: Key, settings: map<Text, Text>,
      ms: seq<Message>, at: map<MessageId, nat>)
    requires Next(seen, id) && IsMessage(f) && Folded(seen, me, settings, ms, at)
    ensures var m := Message(id, OriginalBody(f), id.sender == me, false, ReplyOf(f), [], AttachmentOf(settings, id, f));
            Folded(seen[id := f], me, settings, ms + [m], at[id := |ms|])
  {
    Unfolded(seen, id, f, me, settings);
    forall i | 0 <= i < |ms|
      ensures RendersCore(seen[id := f], me, settings, ms[i])
    {
      Unmarked(seen, id, f, me, settings, ms[i]);
    }
  }

  lemma FoldMark(
      seen: Ops, id: MessageId, f: Frame, me: Key, settings: map<Text, Text>,
      ms: seq<Message>, at: map<MessageId, nat>)
    requires Next(seen, id) && Folded(seen, me, settings, ms, at)
    requires (f.Edit? || f.Delete?) && f.target.sender == id.sender && f.target in at
    ensures var m := ms[at[f.target]];
            var marked := if f.Edit? then m.(body := f.newBody) else m.(body := [], deleted := true);
            Folded(seen[id := f], me, settings, ms[at[f.target] := marked], at)
  {
    var k, now := at[f.target], seen[id := f];
    Marked(seen, id, f, me, settings, ms[k]);
    var marked := if f.Edit? then ms[k].(body := f.newBody) else ms[k].(body := [], deleted := true);
    forall i | 0 <= i < |ms| && i != k
      ensures RendersCore(now, me, settings, ms[i])
    {
      Unmarked(seen, id, f, me, settings, ms[i]);
    }
    StillIndexed(seen, id, f, ms, at, k, marked);
  }

  lemma StillIndexed(
      seen: Ops, id: MessageId, f: Frame, ms: seq<Message>, at: map<MessageId, nat>, k: nat, m: Message)
    requires id !in seen && !IsMessage(f) && Indexed(seen, ms, at)
    requires k < |ms| && m.id == ms[k].id && m.reactions == []
    ensures Indexed(seen[id := f], ms[k := m], at)
  {
    var after := ms[k := m];
    assert forall i :: 0 <= i < |ms| ==> after[i].id == ms[i].id && after[i].reactions == [];
  }

  /** Reactions, edits and deletes that are not the author's or whose target is not there yet, and stray frames. */
  lemma FoldOther(
      seen: Ops, id: MessageId, f: Frame, me: Key, settings: map<Text, Text>,
      ms: seq<Message>, at: map<MessageId, nat>)
    requires Next(seen, id) && Folded(seen, me, settings, ms, at) && !IsMessage(f)
    requires (f.Edit? || f.Delete?) && f.target.sender == id.sender ==> f.target !in at
    ensures Folded(seen[id := f], me, settings, ms, at)
  {
    forall i | 0 <= i < |ms|
      ensures RendersCore(seen[id := f], me, settings, ms[i])
    {
      Unmarked(seen, id, f, me, settings, ms[i]);
    }
  }

  // ----- the reaction switches -----

  /** The map holds, for each switch anyone has touched, where its last op left it. */
  ghost predicate Switched(seen: Ops, switches: map<Slot, bool>) {
    && (forall s, e :: IsReact(seen, s, e) ==> s in switches)
    && (forall s :: s in switches ==> exists e :: IsLastReact(seen, s, e) && switches[s] == seen[e].on)
  }

  lemma SwitchReact(seen: Ops, id: MessageId, f: Frame, switches: map<Slot, bool>)
    requires Next(seen, id) && f.React? && Switched(seen, switches)
    ensures Switched(seen[id := f], switches[Slot(f.target, f.emoji, id.sender) := f.on])
  {
    var now, flipped := seen[id := f], Slot(f.target, f.emoji, id.sender);
    var after := switches[flipped := f.on];
    forall s | s in after
      ensures exists e :: IsLastReact(now, s, e) && after[s] == now[e].on
    {
      if s == flipped {
        forall o | IsReact(now, s, o)
          ensures o == id || Before(o, id)
        {
          if o != id {
            AfterOwn(seen, id, o);
          }
        }
        assert IsLastReact(now, s, id);
      } else {
        var e :| IsLastReact(seen, s, e) && switches[s] == seen[e].on;
        assert forall o :: IsReact(now, s, o) <==> IsReact(seen, s, o);
        assert IsLastReact(now, s, e);
      }
    }
    forall s, e | IsReact(now, s, e)
      ensures s in after
    {
      assert e == id || IsReact(seen, s, e);
    }
  }

  lemma SwitchOther(seen: Ops, id: MessageId, f: Frame, switches: map<Slot, bool>)
    requires Next(seen, id) && !f.React? && Switched(seen, switches)
    ensures Switched(seen[id := f], switches)
  {
    var now := seen[id := f];
    assert forall s, e :: IsReact(now, s, e) <==> IsReact(seen, s, e);
    forall s | s in switches
      ensures exists e :: IsLastReact(now, s, e) && switches[s] == now[e].on
    {
      var e :| IsLastReact(seen, s, e) && switches[s] == seen[e].on;
      assert IsLastReact(now, s, e);
    }
  }

  // ----- the first pass -----

  /** What one row does to the list, the index and the switches. */
  method FoldRow(
      id: MessageId, frame: Frame, me: Key, settings: map<Text, Text>,
      ms: seq<Message>, at: map<MessageId, nat>, switches: map<Slot, bool>, ghost seen: Ops)
    returns (ms': seq<Message>, at': map<MessageId, nat>, switches': map<Slot, bool>)
    requires Next(seen, id) && Folded(seen, me, settings, ms, at) && Switched(seen, switches)
    ensures Folded(seen[id := frame], me, settings, ms', at')
    ensures Switched(seen[id := frame], switches')
  {
    ms', at', switches' := ms, at, switches;
    if frame.React? {
      SwitchReact(seen, id, frame, switches);
      FoldOther(seen, id, frame, me, settings, ms, at);
      switches' := switches[Slot(frame.target, frame.emoji, id.sender) := frame.on];
      return;
    }
    SwitchOther(seen, id, frame, switches);
    if IsMessage(frame) {
      FoldMessage(seen, id, frame, me, settings, ms, at);
      at' := at[id := |ms|];
      ms' := ms + [
        Message(id, OriginalBody(frame), id.sender == me, false, ReplyOf(frame), [], AttachmentOf(settings, id, frame))];
    } else if (frame.Edit? || frame.Delete?) && frame.target.sender == id.sender && frame.target in at {
      FoldMark(seen, id, frame, me, settings, ms, at);
      var i := at[frame.target];
      ms' := ms[i := if frame.Edit? then ms[i].(body := frame.newBody) else ms[i].(body := [], deleted := true)];
    } else {
      FoldOther(seen, id, frame, me, settings, ms, at);
    }
  }

  /** `seen` is the first `n` rows. */
  ghost predicate Seen(ops: Ops, rows: seq<MessageId>, n: nat, seen: Ops)
    requires n <= |rows|
  {
    && (forall id :: id in seen <==> id in rows[..n])
    && (forall id :: id in seen ==> id in ops && seen[id] == ops[id])
  }

  lemma SeeNext(ops: Ops, rows: seq<MessageId>, n: nat, seen: Ops)
    requires IsSelection(ops, rows) && n < |rows| && Seen(ops, rows, n, seen)
    ensures rows[n] in ops && Next(seen, rows[n]) && Seen(ops, rows, n + 1, seen[rows[n] := ops[rows[n]]])
  {
    assert rows[n] in rows;
    assert rows[..n + 1] == rows[..n] + [rows[n]];
  }

  method FoldRows(ops: Ops, rows: seq<MessageId>, me: Key, settings: map<Text, Text>)
    returns (messages: seq<Message>, at: map<MessageId, nat>, switches: map<Slot, bool>)
    requires IsSelection(ops, rows)
    ensures Folded(ops, me, settings, messages, at)
    ensures Switched(ops, switches)
  {
    messages, at, switches := [], map[], map[];
    ghost var seen: Ops := map[];
    for n := 0 to |rows|
      invariant Seen(ops, rows, n, seen)
      invariant Folded(seen, me, settings, messages, at)
      invariant Switched(seen, switches)
    {
      var id := rows[n];
      SeeNext(ops, rows, n, seen);
      messages, at, switches := FoldRow(id, ops[id], me, settings, messages, at, switches, seen);
      seen := seen[id := ops[id]];
    }
    assert seen == ops by {
      assert rows[..|rows|] == rows;
    }
  }

  // ----- the second pass -----

  /** Who has this emoji on, among the switches already counted. */
  ghost function Counted(switches: map<Slot, bool>, done: set<Slot>, id: MessageId, emoji: Text): set<Key>
    requires done <= switches.Keys
  {
    set s | s in done && s.target == id && s.emoji == emoji && switches[s] :: s.reactor
  }

  ghost predicate TallyRight(switches: map<Slot, bool>, done: set<Slot>, me: Key, id: MessageId, t: Tally)
    requires done <= switches.Keys
  {
    var who := Counted(switches, done, id, t.emoji);
    t.count == |who| && t.count > 0 && (t.mine <==> me in who)
  }

  ghost predicate Tallied(switches: map<Slot, bool>, done: set<Slot>, me: Key, id: MessageId, ts: seq<Tally>)
    requires done <= switches.Keys
  {
    && (forall i, j :: 0 <= i < j < |ts| ==> ts[i].emoji != ts[j].emoji)
    && (forall t :: t in ts ==> TallyRight(switches, done, me, id, t))
    && (forall emoji :: Counted(switches, done, id, emoji) != {} ==> exists t :: t in ts && t.emoji == emoji)
  }

  method FindEmoji(ts: seq<Tally>, emoji: Text) returns (k: nat)
    ensures k <= |ts|
    ensures k < |ts| ==> ts[k].emoji == emoji
    ensures k == |ts| ==> forall t :: t in ts ==> t.emoji != emoji
  {
    k := 0;
    while k < |ts| && ts[k].emoji != emoji
      invariant k <= |ts|
      invariant forall i :: 0 <= i < k ==> ts[i].emoji != emoji
    {
      k := k + 1;
    }
  }

  /** A switch that is off, or on some other message or emoji, changes no tally here. */
  lemma CountedElsewhere(switches: map<Slot, bool>, done: set<Slot>, s: Slot, id: MessageId, emoji: Text)
    requires s in switches && done <= switches.Keys
    requires !switches[s] || s.target != id || s.emoji != emoji
    ensures Counted(switches, done + {s}, id, emoji) == Counted(switches, done, id, emoji)
  {
  }

  lemma CountedHere(switches: map<Slot, bool>, done: set<Slot>, s: Slot)
    requires s in switches && done <= switches.Keys && s !in done && switches[s]
    ensures Counted(switches, done + {s}, s.target, s.emoji)
         == Counted(switches, done, s.target, s.emoji) + {s.reactor}
    ensures s.reactor !in Counted(switches, done, s.target, s.emoji)
  {
    var now, was := Counted(switches, done + {s}, s.target, s.emoji), Counted(switches, done, s.target, s.emoji);
    forall who | who in was + {s.reactor}
      ensures who in now
    {
      if who in was {
        var o :| o in done && o.target == s.target && o.emoji == s.emoji && switches[o] && o.reactor == who;
        assert o in done + {s};
      } else {
        assert s in done + {s};
      }
    }
  }

  lemma TallyElsewhere(
      switches: map<Slot, bool>, done: set<Slot>, s: Slot, me: Key, id: MessageId, ts: seq<Tally>)
    requires s in switches && done <= switches.Keys && Tallied(switches, done, me, id, ts)
    requires !switches[s] || s.target != id
    ensures Tallied(switches, done + {s}, me, id, ts)
  {
    forall emoji: Text
      ensures Counted(switches, done + {s}, id, emoji) == Counted(switches, done, id, emoji)
    {
      CountedElsewhere(switches, done, s, id, emoji);
    }
  }

  /** One reactor more on the tally at `k`, or a first tally of one. */
  function Bumped(ts: seq<Tally>, k: nat, emoji: Text, mine: bool): seq<Tally>
    requires k <= |ts|
  {
    if k < |ts| then ts[k := ts[k].(count := ts[k].count + 1, mine := ts[k].mine || mine)]
    else ts + [Tally(emoji, 1, mine)]
  }

  lemma TallyHere(switches: map<Slot, bool>, done: set<Slot>, s: Slot, me: Key, ts: seq<Tally>, k: nat)
    requires s in switches && done <= switches.Keys && s !in done && switches[s]
    requires Tallied(switches, done, me, s.target, ts)
    requires k <= |ts| && (k < |ts| ==> ts[k].emoji == s.emoji)
    requires k == |ts| ==> forall t :: t in ts ==> t.emoji != s.emoji
    ensures Tallied(switches, done + {s}, me, s.target, Bumped(ts, k, s.emoji, s.reactor == me))
  {
    var now := Bumped(ts, k, s.emoji, s.reactor == me);
    forall i | 0 <= i < |now|
      ensures TallyRight(switches, done + {s}, me, s.target, now[i])
    {
      BumpedTally(switches, done, s, me, ts, k, i);
    }
    BumpedEmojis(ts, k, s.emoji, s.reactor == me);
    forall emoji | Counted(switches, done + {s}, s.target, emoji) != {}
      ensures exists t :: t in now && t.emoji == emoji
    {
      if emoji != s.emoji {
        CountedElsewhere(switches, done, s, s.target, emoji);
      }
    }
  }

  lemma BumpedTally(switches: map<Slot, bool>, done: set<Slot>, s: Slot, me: Key, ts: seq<Tally>, k: nat, i: nat)
    requires s in switches && done <= switches.Keys && s !in done && switches[s]
    requires Tallied(switches, done, me, s.target, ts)
    requires k <= |ts| && (k < |ts| ==> ts[k].emoji == s.emoji)
    requires k == |ts| ==> forall t :: t in ts ==> t.emoji != s.emoji
    requires i < |Bumped(ts, k, s.emoji, s.reactor == me)|
    ensures TallyRight(switches, done + {s}, me, s.target, Bumped(ts, k, s.emoji, s.reactor == me)[i])
  {
    if i < |ts| {
      assert ts[i] in ts && TallyRight(switches, done, me, s.target, ts[i]);
    }
    if i == k {
      CountedHere(switches, done, s);
    } else {
      assert k < |ts| ==> ts[i].emoji != ts[k].emoji;
      CountedElsewhere(switches, done, s, s.target, ts[i].emoji);
    }
  }

  lemma BumpedEmojis(ts: seq<Tally>, k: nat, emoji: Text, mine: bool)
    requires k <= |ts| && (k < |ts| ==> ts[k].emoji == emoji)
    ensures forall t :: t in ts ==> exists u :: u in Bumped(ts, k, emoji, mine) && u.emoji == t.emoji
    ensures exists u :: u in Bumped(ts, k, emoji, mine) && u.emoji == emoji
  {
    var now := Bumped(ts, k, emoji, mine);
    assert now[k] in now && now[k].emoji == emoji;
    forall t | t in ts
      ensures exists u :: u in now && u.emoji == t.emoji
    {
      var i :| 0 <= i < |ts| && ts[i] == t;
      assert now[i] in now;
    }
  }

  /** All of the messages keep everything but their reactions, and those match the switches counted so far. */
  ghost predicate Counting(
    switches: map<Slot, bool>, done: set<Slot>, me: Key, folded: seq<Message>, ms: seq<Message>)
    requires done <= switches.Keys
  {
    && |ms| == |folded|
    && (forall i :: 0 <= i < |ms| ==>
          ms[i] == folded[i].(reactions := ms[i].reactions)
          && Tallied(switches, done, me, ms[i].id, ms[i].reactions))
  }

  /** One more switch counted: its own message's tallies move, every other message stays put. */
  lemma CountedOneMore(
      switches: map<Slot, bool>, done: set<Slot>, s: Slot, me: Key,
      folded: seq<Message>, before: seq<Message>, after: seq<Message>)
    requires s in switches && done <= switches.Keys && Counting(switches, done, me, folded, before)
    requires |after| == |before|
    requires forall j :: 0 <= j < |before| ==>
               if switches[s] && before[j].id == s.target
               then after[j] == before[j].(reactions := after[j].reactions)
                    && Tallied(switches, done + {s}, me, s.target, after[j].reactions)
               else after[j] == before[j]
    ensures Counting(switches, done + {s}, me, folded, after)
  {
    forall j | 0 <= j < |after|
      ensures after[j] == folded[j].(reactions := after[j].reactions)
      ensures Tallied(switches, done + {s}, me, after[j].id, after[j].reactions)
    {
      if !(switches[s] && before[j].id == s.target) {
        TallyElsewhere(switches, done, s, me, before[j].id, before[j].reactions);
      }
    }
  }

  /** The index finds each message, and only messages. */
  ghost predicate Finds(at: map<MessageId, nat>, ms: seq<Message>) {
    && (forall i :: 0 <= i < |ms| ==> ms[i].id in at && at[ms[i].id] == i)
    && (forall id :: id in at ==> at[id] < |ms| && ms[at[id]].id == id)
  }

  /** A switch that is on adds one to its emoji, on the message it names if there is one. */
  method CountOne(
      s: Slot, at: map<MessageId, nat>, switches: map<Slot, bool>, me: Key,
      ghost folded: seq<Message>, ms: seq<Message>, ghost done: set<Slot>)
    returns (ms': seq<Message>)
    requires s in switches && switches[s] && done <= switches.Keys && s !in done
    requires Finds(at, ms) && Counting(switches, done, me, folded, ms)
    ensures Counting(switches, done + {s}, me, folded, ms')
  {
    ms' := ms;
    if s.target in at {
      var i := at[s.target];
      var k := FindEmoji(ms[i].reactions, s.emoji);
      TallyHere(switches, done, s, me, ms[i].reactions, k);
      ms' := ms[i := ms[i].(reactions := Bumped(ms[i].reactions, k, s.emoji, s.reactor == me))];
    }
    CountedOneMore(switches, done, s, me, folded, ms, ms');
  }

  method CountReactions(
      folded: seq<Message>, at: map<MessageId, nat>, switches: map<Slot, bool>, me: Key)
    returns (messages: seq<Message>)
    requires Finds(at, folded) && forall i :: 0 <= i < |folded| ==> folded[i].reactions == []
    ensures Counting(switches, switches.Keys, me, folded, messages)
  {
    messages := folded;
    var rest := switches.Keys;
    ghost var done := {};
    while rest != {}
      invariant rest + done == switches.Keys && rest !! done
      invariant Counting(switches, done, me, folded, messages)
    {
      var s :| s in rest;
      rest := rest - {s};
      if switches[s] {
        messages := CountOne(s, at, switches, me, folded, messages, done);
      } else {
        CountedOneMore(switches, done, s, me, folded, messages, messages);
      }
      done := done + {s};
    }
    assert done == switches.Keys;
  }

  // ----- the third pass -----

  function Insert(t: Tally, ts: seq<Tally>): seq<Tally> {
    if ts == [] || Less(t.emoji, ts[0].emoji) then [t] + ts else [ts[0]] + Insert(t, ts[1..])
  }

  /** `sort_by` emoji. */
  function SortTallies(ts: seq<Tally>): seq<Tally> {
    if ts == [] then [] else Insert(ts[0], SortTallies(ts[1..]))
  }

  lemma {:induction false} InsertKeeps(t: Tally, ts: seq<Tally>)
    requires StrictlySorted(ts) && forall o :: o in ts ==> o.emoji != t.emoji
    ensures StrictlySorted(Insert(t, ts))
    ensures forall o :: o in Insert(t, ts) <==> o == t || o in ts
  {
    if ts != [] {
      if Less(t.emoji, ts[0].emoji) {
        forall i | 0 < i < |ts|
          ensures Less(t.emoji, ts[i].emoji)
        {
          LessTransitive(t.emoji, ts[0].emoji, ts[i].emoji);
        }
      } else {
        InsertKeeps(t, ts[1..]);
        var rest := Insert(t, ts[1..]);
        LessTotal(t.emoji, ts[0].emoji);
        forall i | 0 <= i < |rest|
          ensures Less(ts[0].emoji, rest[i].emoji)
        {
          assert rest[i] in rest;
        }
        assert ts == [ts[0]] + ts[1..];
      }
    }
  }

  lemma {:induction false} SortKeeps(ts: seq<Tally>)
    requires forall i, j :: 0 <= i < j < |ts| ==> ts[i].emoji != ts[j].emoji
    ensures StrictlySorted(SortTallies(ts))
    ensures forall t :: t in SortTallies(ts) <==> t in ts
  {
    if ts != [] {
      SortKeeps(ts[1..]);
      InsertKeeps(ts[0], SortTallies(ts[1..]));
    }
  }

  lemma CountedAreReactors(ops: Ops, switches: map<Slot, bool>, id: MessageId, emoji: Text)
    requires Switched(ops, switches)
    ensures Counted(switches, switches.Keys, id, emoji) == Reactors(ops, id, emoji)
  {
    forall who | who in Counted(switches, switches.Keys, id, emoji)
      ensures who in Reactors(ops, id, emoji)
    {
      var s := Slot(id, emoji, who);
      assert s in switches && switches[s];
      var e :| IsLastReact(ops, s, e) && switches[s] == ops[e].on;
    }
    forall who | who in Reactors(ops, id, emoji)
      ensures who in Counted(switches, switches.Keys, id, emoji)
    {
      var e :| e in ops && IsLastReact(ops, Slot(id, emoji, e.sender), e) && ops[e].on && e.sender == who;
      var s := Slot(id, emoji, who);
      assert IsReact(ops, s, e);
      var l :| IsLastReact(ops, s, l) && switches[s] == ops[l].on;
      assert l == e;
    }
  }

  lemma SortedTalliesRender(ops: Ops, switches: map<Slot, bool>, me: Key, id: MessageId, ts: seq<Tally>)
    requires Switched(ops, switches) && Tallied(switches, switches.Keys, me, id, ts)
    ensures TalliesAre(ops, me, id, SortTallies(ts))
  {
    SortKeeps(ts);
    forall emoji: Text
      ensures Counted(switches, switches.Keys, id, emoji) == Reactors(ops, id, emoji)
    {
      CountedAreReactors(ops, switches, id, emoji);
    }
  }

  /** The whole conversation, oldest first: `history` without its limit. */
  method Refold(ops: Ops, me: Key, settings: map<Text, Text>) returns (messages: seq<Message>)
    ensures IsHistory(ops, me, settings, messages)
  {
    var rows := Select(ops);
    var folded, at, switches := FoldRows(ops, rows, me, settings);
    messages := CountReactions(folded, at, switches, me);
    ghost var counted := messages;
    for n := 0 to |messages|
      invariant |messages| == |counted|
      invariant forall i :: n <= i < |messages| ==> messages[i] == counted[i]
      invariant forall i :: 0 <= i < n ==> messages[i] == counted[i].(reactions := SortTallies(counted[i].reactions))
    {
      messages := messages[n := messages[n].(reactions := SortTallies(messages[n].reactions))];
    }
    Assembled(ops, me, settings, folded, at, switches, counted, messages);
  }

  lemma Assembled(
      ops: Ops, me: Key, settings: map<Text, Text>, folded: seq<Message>, at: map<MessageId, nat>,
      switches: map<Slot, bool>, counted: seq<Message>, ms: seq<Message>)
    requires Folded(ops, me, settings, folded, at) && Switched(ops, switches)
    requires Counting(switches, switches.Keys, me, folded, counted) && |ms| == |counted|
    requires forall i :: 0 <= i < |ms| ==> ms[i] == counted[i].(reactions := SortTallies(counted[i].reactions))
    ensures IsHistory(ops, me, settings, ms)
  {
    assert forall i :: 0 <= i < |ms| ==> ms[i] == folded[i].(reactions := ms[i].reactions);
    forall i | 0 <= i < |ms|
      ensures Renders(ops, me, settings, ms[i])
    {
      assert RendersCore(ops, me, settings, folded[i]);
      SortedTalliesRender(ops, switches, me, ms[i].id, counted[i].reactions);
    }
    forall id | id in ops && IsMessage(ops[id])
      ensures exists m :: m in ms && m.id == id
    {
      assert ms[at[id]] in ms;
    }
  }
}
