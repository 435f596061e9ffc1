/**
 What a user's command does to the conversation it is given in: the message it
 adds or marks shows it, and nothing else changes.
 */
module Commands {
  import opened Bytes
  import opened Wrappers
  import opened Wire
  import opened Fold
  import opened Client

  /** The newest op of the conversation, and this endpoint's own. */
  ghost predicate IsNewest(ops: Ops, me: Key, id: MessageId) {
    id !in ops && id.sender == me && forall o :: o in ops ==> Before(o, id)
  }

  function Issued(ops: Ops, id: MessageId, command: Command): Ops {
    ops[id := FrameFor(command, id)]
  }

  /** A message as it is first shown, before anybody has marked it. */
  lemma ShownAsSent(ops: Ops, me: Key, settings: map<Text, Text>, m: Message)
    requires Renders(ops, me, settings, m) && forall e :: !IsMark(ops, m.id, e)
    ensures m.outbound <==> m.id.sender == me
    ensures !m.deleted
    ensures match ops[m.id]
            case Chat(_, body, replyTo) => m.body == body && m.replyTo == replyTo && m.attachment == None
            case File(_, name, size, hash) =>
              m.body == name && m.replyTo == None && m.attachment.Some?
              && m.attachment.value.name == name && m.attachment.value.size == size && m.attachment.value.hash == hash
              && (FileKey(m.id) in settings ==> m.attachment.value.path == Some(settings[FileKey(m.id)]))
              && (FileKey(m.id) !in settings ==> m.attachment.value.path == None)
            case _ => false
  {
  }

  /** What is said is shown, in one's own words, as a reply to what it replies to. */
  lemma SayShows(
      ops: Ops, me: Key, settings: map<Text, Text>, id: MessageId, body: Text, replyTo: Option<MessageId>, m: Message)
    requires IsNewest(ops, me, id) && Renders(Issued(ops, id, Say(body, replyTo)), me, settings, m) && m.id == id
    ensures m.body == body && m.replyTo == replyTo && m.outbound && !m.deleted && m.attachment == None
  {
    var after := Issued(ops, id, Say(body, replyTo));
    forall e
      ensures !IsMark(after, id, e)
    {
      if e in ops {
        assert Before(e, id);
      }
    }
    ShownAsSent(after, me, settings, m);
  }

  /** The newest mark of one's own message is the last. */
  lemma NewestMarkIsLast(ops: Ops, me: Key, id: MessageId, f: Frame, target: MessageId, after: Ops)
    requires IsNewest(ops, me, id) && target in ops && target.sender == me
    requires (f.Edit? || f.Delete?) && f.target == target
    requires after == ops[id := f]
    ensures IsLastMark(after, target, id)
    ensures forall e :: IsLastMark(after, target, e) ==> e == id
  {
    assert Before(target, id) && IsMark(after, target, id);
    forall e | IsMark(after, target, e)
      ensures e == id || (Before(e, id) && !Before(id, e))
    {
      assert e != id ==> e in ops;
    }
    forall e | IsLastMark(after, target, e)
      ensures e == id
    {
      assert id == e || Before(id, e);
    }
  }

  /** Rewording one's own message puts the new words in its place, and brings nothing back that was deleted. */
  lemma RewordShows(
      ops: Ops, me: Key, settings: map<Text, Text>, id: MessageId, target: MessageId, words: Text, m: Message)
    requires IsNewest(ops, me, id) && target in ops && IsMessage(ops[target]) && target.sender == me
    requires Renders(Issued(ops, id, Reword(target, words)), me, settings, m) && m.id == target
    ensures m.body == words && (m.deleted <==> IsDeleted(ops, target))
  {
    var after := Issued(ops, id, Reword(target, words));
    NewestMarkIsLast(ops, me, id, after[id], target, after);
    assert forall e :: IsMark(after, target, e) && after[e].Delete? <==> IsMark(ops, target, e) && ops[e].Delete?;
  }

  /** Unsaying one's own message empties it and says so. */
  lemma UnsayShows(ops: Ops, me: Key, settings: map<Text, Text>, id: MessageId, target: MessageId, m: Message)
    requires IsNewest(ops, me, id) && target in ops && IsMessage(ops[target]) && target.sender == me
    requires Renders(Issued(ops, id, Unsay(target)), me, settings, m) && m.id == target
    ensures m.body == [] && m.deleted
  {
    var after := Issued(ops, id, Unsay(target));
    NewestMarkIsLast(ops, me, id, after[id], target, after);
    assert IsMark(after, target, id) && after[id].Delete?;
  }

  lemma NewestReactIsLast(ops: Ops, me: Key, id: MessageId, f: Frame, after: Ops)
    requires IsNewest(ops, me, id) && f.React? && after == ops[id := f]
    ensures var s := Slot(f.target, f.emoji, me);
            IsLastReact(after, s, id) && forall e :: IsLastReact(after, s, e) ==> e == id
  {
    var s := Slot(f.target, f.emoji, me);
    assert IsReact(after, s, id);
    forall e | IsReact(after, s, e)
      ensures e == id || (Before(e, id) && !Before(id, e))
    {
      assert e != id ==> e in ops;
    }
    forall e | IsLastReact(after, s, e)
      ensures e == id
    {
      assert id == e || Before(id, e);
    }
  }

  /** Reacting counts one in or out: one's own mark is on a tally of that emoji iff the reaction was put on. */
  lemma RespondShows(
      ops: Ops, me: Key, settings: map<Text, Text>, id: MessageId, target: MessageId, emoji: Text, on: bool, m: Message)
    requires IsNewest(ops, me, id)
    requires Renders(Issued(ops, id, Respond(target, emoji, on)), me, settings, m) && m.id == target
    ensures on <==> exists t :: t in m.reactions && t.emoji == emoji && t.mine
  {
    var after := Issued(ops, id, Respond(target, emoji, on));
    NewestReactIsLast(ops, me, id, after[id], after);
    var who := Reactors(after, target, emoji);
    assert me in who <==> on by {
      assert IsLastReact(after, Slot(target, emoji, me), id) && after[id].on == on;
    }
    assert on ==> who != {};
    assert forall t :: t in m.reactions && t.emoji == emoji ==> (t.mine <==> me in who);
  }

  /** Which of a conversation's messages a command can change. */
  predicate Addresses(command: Command, id: MessageId) {
    match command
    case Say(_, _) => false
    case Reword(target, _) => target == id
    case Unsay(target) => target == id
    case Respond(target, _, _) => target == id
  }

  /** A new op that neither marks a message nor reacts to it leaves it as it stood. */
  lemma UntouchedStays(ops: Ops, after: Ops, me: Key, settings: map<Text, Text>, id: MessageId, m: Message)
    requires id !in ops && after.Keys == ops.Keys + {id} && forall o :: o in ops ==> after[o] == ops[o]
    requires !IsMark(after, m.id, id) && (after[id].React? ==> after[id].target != m.id)
    requires Renders(ops, me, settings, m)
    ensures Renders(after, me, settings, m)
  {
    assert forall e :: IsMark(after, m.id, e) <==> IsMark(ops, m.id, e);
    assert forall e :: IsLastMark(after, m.id, e) <==> IsLastMark(ops, m.id, e);
    forall emoji: Text
      ensures Reactors(after, m.id, emoji) == Reactors(ops, m.id, emoji)
    {
      ReactorsStay(ops, after, id, m.id, emoji);
    }
  }

  lemma ReactorsStay(ops: Ops, after: Ops, id: MessageId, target: MessageId, emoji: Text)
    requires id !in ops && after.Keys == ops.Keys + {id} && forall o :: o in ops ==> after[o] == ops[o]
    requires after[id].React? ==> after[id].target != target
    ensures Reactors(after, target, emoji) == Reactors(ops, target, emoji)
  {
    forall who: Key, e
      ensures IsLastReact(after, Slot(target, emoji, who), e) <==> IsLastReact(ops, Slot(target, emoji, who), e)
    {
      var s := Slot(target, emoji, who);
      assert forall o :: IsReact(after, s, o) <==> IsReact(ops, s, o);
    }
  }

  /** No command changes any message it does not address. */
  lemma OthersStay(ops: Ops, me: Key, settings: map<Text, Text>, id: MessageId, command: Command, m: Message)
    requires IsNewest(ops, me, id) && Renders(ops, me, settings, m) && !Addresses(command, m.id)
    ensures Renders(Issued(ops, id, command), me, settings, m)
  {
    UntouchedStays(ops, Issued(ops, id, command), me, settings, id, m);
  }

  /** Nobody can reword or unsay another's message: the command leaves it exactly as it stood. */
  lemma NotTheirsToMark(ops: Ops, me: Key, settings: map<Text, Text>, id: MessageId, command: Command, m: Message)
    requires IsNewest(ops, me, id) && Renders(ops, me, settings, m) && m.id.sender != me
    requires command.Reword? || command.Unsay?
    ensures Renders(Issued(ops, id, command), me, settings, m)
  {
    UntouchedStays(ops, Issued(ops, id, command), me, settings, id, m);
  }
}
