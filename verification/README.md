# A verified model of wicara

wicara is a peer-to-peer messenger. A client keeps every message, edit, delete and reaction as an
op in a local table and refolds a conversation from it. A small hub holds sealed mail for people
who are offline and a registry of room logs. Rooms are signed, hash-chained membership logs that
every client replays for itself. This project models those parts in Dafny and proves what they
promise.

| file | what it models |
|---|---|
| `Bytes.dfy`, `Wrappers.dfy`, `Postcard.dfy`, `Filters.dfy` | machine words, keys and text; options and results; varints; rows that satisfy a condition |
| `Fold.dfy`, `History.dfy`, `Convergence.dfy` | what an op log says, the three-pass fold that computes it, and what follows for replicas and authors |
| `MessageStore.dfy`, `FreshIds.dfy` | the client's tables (a class updated in place), deletion, and ids across restarts |
| `RoomLog.dfy`, `RoomTheorems.dfy`, `RoomReplicas.dfy` | the log, its replay, what a verified log pins down, and replication |
| `Client.dfy`, `Commands.dfy` | accepting an op, taking, fetching and appending to room logs, the room cache; what a user's command does to the conversation |
| `Mail.dfy`, `HubStore.dfy`, `Quota.dfy`, `Mailbox.dfy` | the hub's tables and handlers, quotas under concurrency, the mailbox protocol over whole runs |
| `Delivery.dfy` | delivery and convergence together: two ends that exchanged their ops show the same conversation |
| `Wire.dfy`, `Framing.dfy`, `Transcripts.dfy` | frames and their bytes, streams, the four signed layouts |
| `Attachment.dfy`, `WordWrap.dfy` | the receive loop and the word wrapper |

How to read it:

- Code that updates state is a class or a loop whose contract ties it to a specification, and the
  promises are lemmas about that specification. `App`'s steps are also functions on a `Client`
  value, so that whole runs can be stated; the class methods are proved to be those functions.
- A `String` is its UTF-8 bytes (`Text`), except in the word wrapper, which works on characters.
- Hashing, signing and sealing are abstract. Replay asks a `Verifier` for an entry's hash and for
  its signature check; collision-freedom is assumed only between the entries of the logs at hand.
  An `Envelope` carries what opens for its recipient, or nothing if it does not open.
- A disk that fails, or a process that dies between two writes, is a `Fault` argument; the hub's
  answer to a fetch, and whether a conversation can be read back, are an `Env` argument. Times are
  arguments too.
- SQL is modelled by its effect: primary keys, `INSERT OR IGNORE`, `ORDER BY` with ties left open,
  and row ids one above the largest present.

Six claims one might expect are false of the code; each is stated with the exact condition, and with
an input on which it fails:

- "Deleted" does not mean "empty". An edit sorted after a delete restores text (`DeletedBodyEmptyIff`,
  `EditAfterDelete`).
- Clearing one conversation can drop another's attachment path, because a path is kept under a
  shortened id (`ForgettingTouchesOthersIff`, `ClearingTouchesOthersIff`, `ClearingLosesAnothersPath`).
- A recorded attachment path need not name the file it was recorded for: a header sent twice can take
  the file away and leave the path (`ReceiveKeepsSoundIff`, `SentAgainLosesFile`).
- Fetching a room from the hub does not follow the longer-wins rule, so a stale copy can undo a kick
  (`FetchIsLongerWinsIff`, `FetchingAPrefixUndoesKick`), and for a room not yet known the order of
  arrivals matters (`UnknownRoomOrderMattersIff`, `UnknownRoomOrderMatters`).
- A client's delete can take mail it never saw, because row ids are reused. It happens with one sweep
  between a fetch and its delete, and with no sweep when a delete is applied after the client has given
  up on it and asked again (`LateDeleteLosesIff`, `SweptDrainLosesMail`, `RepeatedDeleteLosesMail`).
- A restart can reissue an id (`crates/wicara/src/store.rs:55-56` says it never does): once the newest
  own ops are cleared the counter resumes below them, and an id comes again if the clock does too
  (`ReissuedIffUncovered`, `ClearedIdsAreReissued`).

The hub's documentation says it verifies nothing about rooms (`crates/wicara-hub/src/store.rs:133-134`);
its handler does verify (`crates/wicara-hub/src/main.rs:199-210`), and the model follows the handler.

## Model

| member | source | states |
|---|---|---|
| `History.Select` | crates/wicara/src/store.rs:199-202 | the query returns each of the conversation's rows once, ordered by signed time then signed sequence number, ties in any order |
| `History.FoldRows` | crates/wicara/src/store.rs:212-283 | after the first pass the list and index hold exactly the messages, in order, each with the body and deletion its own author's later ops give it, and each reaction switch is where its reactor's last op left it |
| `History.CountReactions` | crates/wicara/src/store.rs:285-298 | whatever order the map yields its switches in, each message's tallies count each emoji's distinct reactors exactly, and nothing else about the messages changes |
| `History.SortKeeps` | crates/wicara/src/store.rs:299-301 | sorting a message's tallies by emoji makes them strictly ordered and neither loses nor adds one |
| `History.Refold` | crates/wicara/src/store.rs:188-305 | the fold is the declarative conversation: every message once, in order, body from the last author mark after it, deleted iff some author delete follows it, one tally per emoji anyone has on |
| `Fold.BeforeIsOlder` | crates/wicara/src/store.rs:199-202 | for times and numbers below the sign bit, rows come by time and then by sequence number |
| `Bytes.LessIff` | crates/wicara/src/store.rs:299-301 | tallies are sorted byte by byte: the first difference decides, and a proper prefix comes first |
| `Commands.ShownAsSent` | crates/wicara/src/store.rs:226-262 | an unmarked message is shown with its own text, reply link, side, and, for a file, the announced name, size and hash and the recorded path |
| `Commands.SayShows` | crates/wicara/src/main.rs:677-684 | what is said as the newest op is shown with those words, as a reply to that message, on one's own side |
| `Commands.RewordShows` | crates/wicara/src/main.rs:685-688 | rewording one's own message shows the new words and leaves it deleted or not as it was |
| `Commands.UnsayShows` | crates/wicara/src/main.rs:689-692 | deleting one's own message empties it and shows it deleted |
| `Commands.RespondShows` | crates/wicara/src/main.rs:693-709 | after reacting, a tally of that emoji counts oneself iff the reaction was put on |
| `Commands.OthersStay` | crates/wicara/src/main.rs:677-718 | a command leaves every message it does not address exactly as it stood |
| `Commands.NotTheirsToMark` | crates/wicara/src/store.rs:263-273 | rewording or deleting somebody else's message leaves it exactly as it stood |
| `Convergence.TablesConvergeIffOnePayload` | crates/wicara/src/store.rs:144-165 | all orders and duplications of a set of arrivals leave the same table if and only if no id carries two payloads |
| `Convergence.RenderingDetermined` | crates/wicara/src/store.rs:212-301 | how a message stands is fixed by the ops; only its side, "mine" marks and paths depend on the machine |
| `Convergence.Converge` | crates/wicara/src/store.rs:144-305 | two machines that received the same ops for a conversation, in any order and whatever else they received, show the same messages with the same bodies, deletions, replies and counts, ordered alike but for ties; each may file them under its own key, as the two ends of a direct conversation do |
| `Convergence.UntiedHistoriesEqual` | crates/wicara/src/store.rs:199-305 | with no two messages tied on time and sequence number, two folds of the same ops on one machine are the same list |
| `Convergence.NonInterference` | crates/wicara/src/store.rs:263-273 | in any two logs that agree on a message's author's ops, its body and deletion are the same, whatever anyone else wrote |
| `Convergence.DeletedBodyEmptyIff` | crates/wicara/src/store.rs:263-273 | a deleted message's body is empty iff its last mark is not a non-empty edit |
| `Convergence.EditAfterDelete` | crates/wicara/src/store.rs:263-273 | for any message, delete and later edit by its author, the fold shows it deleted and with the edit's words |
| `Convergence.ForgettingTouchesOthersIff` | crates/wicara/src/store.rs:364-386 | forgetting a conversation leaves every message of another as it stood, except that an attachment path is lost iff some message of the forgotten one agrees on four sender bytes and the sequence number, or its key is among the names dropped |
| `Convergence.ClearingTouchesOthersIff` | crates/wicara/src/store.rs:391-407 | the same for clearing, which drops no names |
| `Convergence.ClearingLosesAnothersPath` | crates/wicara/src/store.rs:391-407 | whenever two files in two conversations have such ids, clearing the one loses the path of the other |
| `Convergence.IdsThatCollide` | crates/wicara-core/src/wire.rs:45-52 | there are two such ids, of different senders |
| `Convergence.FileKeysCollideIff` | crates/wicara/src/store.rs:468-470 | two ids share a file key iff the sender's first four bytes and the sequence number agree |
| `Fold.DisplayReads` | crates/wicara-core/src/wire.rs:44-52 | the short form is eight hex digits, a dash and the number, and a file key is that after `file:` |
| `MessageStore.HistoryCounts` | crates/wicara/src/store.rs:346-369 | the folded list has one entry per stored message and its paths are exactly those of the saved files |
| `MessageStore.ResumeCoversIff` | crates/wicara/src/store.rs:79-93 | the resumed counter is at least every own sequence number iff those are all below, or all at or above, two to the sixty-third |
| `MessageStore.ResumeFrom` | crates/wicara/src/store.rs:79-87 | the resume value is the signed maximum of the own sequence numbers, or zero with no own row |
| `MessageStore.Store.constructor` | crates/wicara/src/store.rs:57-96 | opening backfills the contact list so it covers every op and room, and the counter is ahead of every own op below the sign bit |
| `MessageStore.Store.NextId` | crates/wicara/src/store.rs:136-138 | a minted id is on no stored op and keeps the counter ahead, short of wrap-around |
| `MessageStore.Store.Record` | crates/wicara/src/store.rs:144-165 | the first payload under an id stays, "new" is reported exactly then, and contact coverage holds even when the write stops half way |
| `MessageStore.Store.SaveRoom` | crates/wicara/src/store.rs:310-321 | the log is stored and the room is covered by a contact, even when the write stops half way |
| `MessageStore.Store.Newest` | crates/wicara/src/store.rs:198-305 | as many messages as there are up to the limit, in order, each as it stands, and none left out comes after any of them |
| `MessageStore.Store.Forget` | crates/wicara/src/store.rs:364-386 | exactly this conversation's ops, log, contact, names and file keys go, and exactly its saved paths are returned; if the transaction does not commit, nothing has gone |
| `MessageStore.Store.Clear` | crates/wicara/src/store.rs:391-407 | exactly this conversation's ops and file keys go, its paths are returned, contact and log stay; without a commit nothing has gone |
| `MessageStore.Store.WipePreview` | crates/wicara/src/store.rs:431-440 | the preview counts every contact, every message and every saved file once |
| `MessageStore.Store.Wipe` | crates/wicara/src/store.rs:412-428 | only the prekey setting survives, the paths returned are as many as the preview counts, and none of any conversation is missed; without a commit nothing has gone |
| `FreshIds.MintedIdsAreFresh` | crates/wicara-core/src/wire.rs:62-83 | over any run of openings, mints, records, deletions and crashes, a minted id is on no stored op, is none the process handed out before, recorded or deleted since or not, and is past every own op on disk |
| `FreshIds.NeverReissued` | crates/wicara/src/store.rs:55-93 | if at each opening every id ever handed out is matched or passed by an own op still on disk, no id is handed out twice over any number of processes |
| `FreshIds.ReissuedIffUncovered` | crates/wicara/src/store.rs:55-93 | a process about to start can hand out an id an earlier one did iff some id ever handed out is past every own op still on disk |
| `FreshIds.ClearedIdsAreReissued` | crates/wicara/src/store.rs:391-407 | it happens: an op is recorded, its conversation cleared, and the next process mints the same id |
| `FreshIds.RunKeepsAhead` | crates/wicara/src/store.rs:79-93 | over the same runs the counter is at least every own sequence number on disk |
| `RoomLog.VerifyLog` | crates/wicara-core/src/room.rs:121-185 | the loop computes the replay, error and all, stopping at the first entry it rejects |
| `RoomLog.FailureSticks` | crates/wicara-core/src/room.rs:116-185 | a log fails with the error of the first prefix that fails |
| `RoomTheorems.VerifiesIffWellFormed` | crates/wicara-core/src/room.rs:121-185 | a log verifies iff it starts at a signed Create, links by hash, is signed throughout, and each entry is its author's to write; the room is then the one it describes |
| `RoomTheorems.MembershipCharacterised` | crates/wicara-core/src/room.rs:141-184 | a key is a member iff it is the founder or the last entry touching it invites it; invites and kicks are the founder's, leaves are a member's own |
| `RoomTheorems.PrefixVerifies` | crates/wicara-core/src/room.rs:131-184 | every nonempty prefix verifies to the same id, name and founder, with the founder in it |
| `RoomTheorems.VerifiedLogIsSaid` | crates/wicara-core/src/room.rs:74-87 | if a signature verifies only over what its key's holder said, every entry of a verified log was said by the author it names, and the Create and every invite and kick by the founder |
| `RoomTheorems.SignedIff` | crates/wicara-core/src/room.rs:74-87 | an entry's signature passes iff it is 64 bytes, the author is a key, and it verifies under that key over the entry's transcript |
| `RoomTheorems.WhyNotSigned` | crates/wicara-core/src/room.rs:74-87 | a signature is refused for its length, then for the key, then for not being the author's |
| `RoomTheorems.WhyNoStart` | crates/wicara-core/src/room.rs:121-139 | an empty log and a bad Create are refused for the stated reason, link before signature before op |
| `RoomTheorems.WhyRejected` | crates/wicara-core/src/room.rs:141-184 | the first entry replay rejects decides the error: its link, then its signature, then what the entries before it say of its author |
| `RoomTheorems.CollisionFreeFromBytes` | crates/wicara-core/src/room.rs:65-94 | if the hash collides on no two different preimages of the entries, equal entry hashes mean equal entries |
| `RoomTheorems.HeadPinsHistory` | crates/wicara-core/src/room.rs:121-185 | two verified logs with equal heads are the same log |
| `RoomTheorems.IdPinsCreate` | crates/wicara-core/src/room.rs:131-139 | two verified logs with equal ids share the Create, the founder and the name |
| `RoomTheorems.PrefixOrdered` | crates/wicara-core/src/room.rs:141-145 | without forks, of two verified logs of one room one is a prefix of the other |
| `RoomReplicas.MergeEndsAtLongest` | crates/wicara-hub/src/store.rs:139-147 | a replica ends at a longest log among those it held and was handed |
| `RoomReplicas.OrderIndependentIffOneWinner` | crates/wicara-hub/src/store.rs:139-147 | every order and duplication of the arrivals ends at the same log iff there is one longest among them |
| `RoomReplicas.NoForksOnlyExtend` | crates/wicara/src/main.rs:189-214 | without forks the held log and every arrival are prefixes of where the replica ends, and there is one winner |
| `RoomReplicas.EveryStepExtends` | crates/wicara/src/main.rs:183-214 | without forks each arrival keeps or extends the log held |
| `HubStore.HubStore.PutRoom` | crates/wicara-hub/src/main.rs:199-219 | the registry applies the replica rule to this id and touches no other; a log that does not verify to it is a bad request, one not longer a conflict, and any other is stored |
| `Client.App.FetchRoom` | crates/wicara/src/main.rs:956-969 | stores and shows whatever log of that id the hub has, if it verifies, and keeps the cache equal to replay |
| `Client.FetchTakesIff` | crates/wicara/src/main.rs:956-969 | the hub's log is stored and shown iff it verifies to that room and the disk is willing, and otherwise no log or room changes |
| `Client.App.AbsorbRoom` | crates/wicara/src/main.rs:189-226 | takes a verified, longer log of a room that is known or includes this endpoint, and keeps the cache equal to replay |
| `Client.AbsorbTakesIff` | crates/wicara/src/main.rs:189-226 | a log handed over is stored and shown iff it verifies to that room, the room is known or includes this endpoint, it is longer, and the disk is willing; a shorter one is no error |
| `Client.App.AcceptOp` | crates/wicara/src/main.rs:142-181 | files an op after the sender and membership checks, and keeps the cache equal to replay |
| `Client.ForgedOpIsRefused` | crates/wicara/src/main.rs:149-155 | an op minted under a key other than the sender's is an error and changes nothing |
| `Client.DirectOpStoredIff` | crates/wicara/src/main.rs:173-180 | a direct op of the sender's is filed with the sender iff the disk is willing, new or not is told apart, and no room changes |
| `Client.MemberOpStoredIff` | crates/wicara/src/main.rs:157-180 | a room op from a member is filed in the room, unwrapped, iff this endpoint is a member and the disk is willing; the hub is not asked and no log or cached room changes |
| `Client.LogsAndGreetingsAnswerNothing` | crates/wicara/src/main.rs:142-148 | a log is offered to the room's replica and a greeting does nothing; neither stores an op or reports one |
| `Client.App.AppendEntry` | crates/wicara/src/main.rs:880-946 | verifies the log with one signed entry more, stores it, shows it, publishes it and only then names whom to tell; a hub that refuses leaves it stored and shown with nobody told, and the cache equals replay throughout |
| `Client.AppendExtendsIff` | crates/wicara/src/main.rs:880-946 | appending to a room held extends the stored log by one entry iff the op is this endpoint's to write and the disk is willing, whatever the hub says; the caller hears of success iff the hub took it too |
| `Client.AppendTellsBothSides` | crates/wicara/src/main.rs:888-926 | exactly the others who were members before or are members after are told, so both the kicked and the invited are |
| `Client.AppendCreatesIff` | crates/wicara/src/main.rs:880-927 | with no room named only a Create goes through; it makes a room of this endpoint alone, stored under its hash, and nobody is told |
| `Client.AppendNeedsALog` | crates/wicara/src/main.rs:880-892 | appending to a room with no stored log, or one that does not verify, is an error and changes nothing |
| `Client.SignedPasses` | crates/wicara-core/src/room.rs:48-63 | an entry this endpoint makes passes the signature check of every replay |
| `Client.App.LoadRooms` | crates/wicara/src/main.rs:973-993 | afterwards exactly the stored logs that verify to their own id are cached, as replayed |
| `Mailbox.CrashRestarts` | crates/wicara/src/main.rs:973-993 | in the protocol runs a crash ends the drain and the restart shows exactly the stored logs that verify to their own id, as replayed |
| `Client.App.ForgetPeer` | crates/wicara/src/main.rs:469-486 | the cached room always goes, and the stored log, ops and contact with it iff the transaction commits; what is cached still equals replay |
| `Client.App.WipeAll` | crates/wicara/src/main.rs:628-637 | every cached room goes, and everything stored with them iff the transaction commits |
| `Client.App.Dispatch` | crates/wicara/src/main.rs:677-718 | a frame is handed on only once recorded and shown, unchanged, under an id no stored op had; recorded but not shown, it stays on disk and is not handed on |
| `Client.AbsorbIsLongerWins` | crates/wicara/src/main.rs:189-214 | for a known room, taking a log is the replica rule on the log stored |
| `Client.FetchIsLongerWinsIff` | crates/wicara/src/main.rs:956-962 | fetching agrees with the replica rule iff the hub's log is longer than, or is, the one held |
| `Client.FetchingAPrefixShortens` | crates/wicara/src/main.rs:956-962 | a hub that serves any shorter part of the log held shortens the log on disk to it |
| `Client.FetchingAPrefixUndoesKick` | crates/wicara/src/main.rs:956-962 | served the log without its last entry, a kick, the client has the member back |
| `Client.UnknownRoomOrderMattersIff` | crates/wicara/src/main.rs:189-214 | two logs of an unknown room end the same in either order iff they are equal, or, one being longer, it includes this endpoint or the other does not, or, equally long, not both do |
| `Client.UnknownRoomOrderMatters` | crates/wicara/src/main.rs:195-202 | an instance: a longer log without this endpoint and a shorter one with it end differently in the two orders |
| `Client.AcceptKeeps` | crates/wicara/src/main.rs:142-181 | acceptance without error means the op is on disk, an error means nothing was recorded, newness is reported exactly, and the cache agrees with replay |
| `Client.StoredOpsAreEntitled` | crates/wicara/src/main.rs:149-179 | an op newly stored was minted under its authenticated sender's key, and a room op only if the stored log puts sender and receiver in the room |
| `Client.OutsiderStoredIff` | crates/wicara/src/main.rs:157-180 | a new room op from someone not known to be in the room is stored iff the hub's log verifies to that room with both ends in it and every write succeeds; such a log, once saved, replaces the one held either way |
| `Client.AppendVerifiesIff` | crates/wicara/src/main.rs:896-906 | appending to a verified log verifies iff the op is this endpoint's to write |
| `Mail.IdOrderIsArrivalOrder` | crates/wicara-hub/src/store.rs:97-104 | reading rows by id is reading them in arrival order |
| `Mail.PutKeepsOrder` | crates/wicara-hub/src/store.rs:68-74 | a row id one above the largest present keeps ids distinct and in arrival order |
| `HubStore.HubStore.MailFor` | crates/wicara-hub/src/store.rs:97-115 | exactly the recipient's rows, sorted by id, in the order they arrived |
| `HubStore.HubStore.DeleteMail` | crates/wicara-hub/src/store.rs:119-131 | exactly the recipient's own rows among the ids go, and the count is right |
| `HubStore.HubStore.Sweep` | crates/wicara-hub/src/store.rs:161-167 | exactly the rows received before the cutoff go |
| `HubStore.HubStore.PendingFrom` | crates/wicara-hub/src/store.rs:76-83 | the number of rows from this sender to this recipient |
| `HubStore.HubStore.PendingFor` | crates/wicara-hub/src/store.rs:88-95 | the number of rows for this recipient |
| `HubStore.HubStore.PostMail` | crates/wicara-hub/src/main.rs:128-165 | accepted iff the body is small enough, decodes, is addressed right and signed, and both quotas have room; then exactly that envelope's row is added, and otherwise the first fault in that order is the answer |
| `HubStore.HubStore.Verdict` | crates/wicara-hub/src/main.rs:133-163 | which refusal a post meets: over 65536 bytes, not an envelope for that recipient signed by its sender, 200 or more waiting from the sender, 2000 or more waiting for the recipient |
| `Quota.QuotaUnderConcurrency` | crates/wicara-hub/src/main.rs:151-164 | with at most k handlers in flight for a recipient, both caps are overshot by at most k-1 through any posts, deletes and sweeps |
| `Quota.BoundsAreReached` | crates/wicara-hub/src/main.rs:151-164 | for every k there is a run with at most k in flight that reaches both bounds |
| `Mailbox.DrainOnce` | crates/wicara/src/main.rs:1056-1094 | one pass is the specification `Pass`: if the request gets through exactly the recipient's rows collected leave the hub, each on disk or without an id, and otherwise none; the count is that of the new ops and the conversations reported are those that grew |
| `Mailbox.PassHolds` | crates/wicara/src/main.rs:1059-1075 | absorbing a batch loses nothing stored, collects only rows safe to delete, counts exactly the new ops, and reports exactly the conversations that grew |
| `Mailbox.PassCollectsTheAbsorbed` | crates/wicara/src/main.rs:1062-1074 | a fetched row is collected iff its op was absorbed without an error |
| `Mailbox.DeliveryOverRuns` | crates/wicara/src/main.rs:1051-1095 | over every run, with deletes applied late or lost and sweeps of any age, in which no post gets a row id still to be absorbed, collected or listed for deletion, each op owed is on the hub, recorded or expired, none is reported new twice, and ids stay in arrival order |
| `Mailbox.DeliveredAsPosted` | crates/wicara/src/main.rs:174-180 | over the same runs with one op to an id, what was recorded is the frame posted, unwrapped, in the conversation it belongs to |
| `Mailbox.PromptRunsAreSafe` | crates/wicara/src/hub.rs:123-138 | a client that fetches only with no delete outstanding, on a hub whose sweeps spare its rows at risk, never meets such a post |
| `Mailbox.DeliveryOverPromptRuns` | crates/wicara/src/main.rs:1051-1095 | so it loses nothing over any run |
| `Mailbox.OnlySweptExpire` | crates/wicara-hub/src/store.rs:161-167 | in the runs an envelope counts as expired only if a sweep took a row of it |
| `Mailbox.HubRowsGo` | crates/wicara-hub/src/store.rs:119-167 | in the runs a row goes iff its own recipient names its id, or it is older than a sweep's cutoff |
| `Mailbox.EraseForgets` | crates/wicara/src/store.rs:391-407 | in the runs deleting a conversation leaves nothing of it and all of every other |
| `Mailbox.NewOpsAreReported` | crates/wicara/src/main.rs:1064-1075 | over any run with no local deletion every op of another's that came to disk was reported as new |
| `Mailbox.DeleteTakesExactlyTheListed` | crates/wicara-hub/src/store.rs:119-131 | after any steps that take none of the fetched rows listed, those rows are in place under their ids, and applying the list takes a row iff it was fetched and is listed: none posted since, none of another recipient's |
| `Mailbox.DrainTakesExactlyItsOwn` | crates/wicara/src/main.rs:1056-1085 | from a fetch with no request out to its own request being applied, whatever happens between but a sweep of the rows listed, exactly the rows fetched and listed go |
| `Mailbox.DeletesTakeOnlyTheRecorded` | crates/wicara-hub/src/store.rs:119-131 | over the runs of `DeliveryOverRuns`, a row a delete takes, however late, is the recipient's own and its op has been recorded |
| `Mailbox.LateDeleteLosesIff` | crates/wicara-hub/src/store.rs:26-33 | a fresh op is posted, the client goes on alone in any way, then one of its requests is applied: something owed is lost iff the row id the post got is in that request |
| `Mailbox.SweptDrainLosesMail` | crates/wicara-hub/src/store.rs:161-167 | a run from nothing that loses a letter, with one sweep between the client's absorb and its delete |
| `Mailbox.RepeatedDeleteLosesMail` | crates/wicara/src/hub.rs:123-138 | a run from nothing that loses a letter with no sweep, crash or local deletion: a delete given up on and sent again |
| `Delivery.ConversationIsWhatCame` | crates/wicara/src/main.rs:142-181 | once a run with one op to an id and no local deletion has nothing owed on the hub or expired, a conversation on disk is exactly what was written in it here, posted to it, or accepted live |
| `Delivery.DeliveredConverge` | crates/wicara/src/main.rs:1051-1095 | two machines whose runs have gone quiet and to whose conversation the same ops came, by any route and in any order, show the same messages, ordered alike but for ties |
| `Delivery.TwoEndsConverge` | crates/wicara/src/main.rs:677-718 | if each end of a direct conversation was sent exactly what the other wrote, both show the same conversation |
| `Delivery.OneLetterIsShared` | crates/wicara/src/main.rs:1051-1095 | such runs exist: one letter written, posted, drained and deleted is shown at both ends |
| `Framing.Stream.ReadFrame` | crates/wicara-core/src/wire.rs:223-239 | one frame, a clean end, or an error, and what is left of the stream |
| `Framing.OverCapIsRefused` | crates/wicara-core/src/wire.rs:200-232 | a length over a mebibyte is refused as soon as it is read, and a frame over it is not encoded |
| `Framing.BadPayloadIsSkipped` | crates/wicara-core/src/wire.rs:234-239 | a whole payload that is no frame is an error and the stream stands after it |
| `Framing.FrameRoundTrip` | crates/wicara-core/src/wire.rs:198-214 | every frame within the cap decodes from its encoding, however deeply wrapped |
| `Framing.StreamRoundTrip` | crates/wicara-core/src/wire.rs:198-239 | any list of frames within the cap reads back as that list and then a clean end |
| `Framing.TruncatedStream` | crates/wicara-core/src/wire.rs:223-239 | a stream cut at any byte yields exactly the frames that arrived whole, then a clean end or "cut short" depending on where the cut fell |
| `Wire.FrameBytes` | crates/wicara-core/src/wire.rs:97-152 | one frame of each kind, byte for byte: tag by position, then the fields in order |
| `Wire.LogBytes` | crates/wicara-core/src/room.rs:20-46 | a room log of one entry, byte for byte |
| `Postcard.VarintRoundTrip` | crates/wicara-core/src/wire.rs:200-214 | a varint within its width reads back, leaving what follows |
| `Postcard.VarintPrefixFree` | crates/wicara-core/src/room.rs:87-94 | no two numbers' varints continue to the same bytes |
| `Transcripts.PrekeyLayout` | crates/wicara-core/src/e2e.rs:95-101 | where each field of a prekey statement lies |
| `Transcripts.EnvelopeLayout` | crates/wicara-core/src/e2e.rs:123-137 | where each field of an envelope statement lies |
| `Transcripts.MailboxLayout` | crates/wicara-core/src/e2e.rs:263-268 | where each field of a mailbox-auth statement lies |
| `Transcripts.EntryLayout` | crates/wicara-core/src/room.rs:67-94 | where each field of a room entry's statement lies, how its op is tagged, and that the hash covers the signature after it |
| `Bytes.LittleEndianDigits` | crates/wicara-core/src/e2e.rs:99 | numbers in statements and length prefixes go lowest byte first |
| `Transcripts.PrekeyTranscriptInjective` | crates/wicara-core/src/e2e.rs:95-101 | the prekey layout determines its fields |
| `Transcripts.EnvelopeTranscriptInjective` | crates/wicara-core/src/e2e.rs:123-137 | the envelope layout determines its fields, ciphertext included |
| `Transcripts.MailboxTranscriptInjective` | crates/wicara-core/src/e2e.rs:263-268 | the mailbox-auth layout determines its fields |
| `Transcripts.EntryTranscriptPrefixFree` | crates/wicara-core/src/room.rs:87-94 | the room-entry layout determines its fields and where it ends |
| `Transcripts.PreimageInjective` | crates/wicara-core/src/room.rs:67-72 | transcript then signature, undelimited, determines the entry, for signatures of any length |
| `Transcripts.SignedBytesInjective` | crates/wicara-core/src/e2e.rs:28-30 | equal signed bytes mean the same kind of statement with the same fields |
| `Attachment.Downloads.DownloadTo` | crates/wicara/src/files.rs:137-165 | the loop leaves the file and the outcome the specification gives, at every failure of stream, disk, flush or removal |
| `Attachment.FileIsAlwaysAFirstPart` | crates/wicara/src/files.rs:137-165 | for every chunking and every failure the file is a first part of the stream within the announced size and no other file changes; on an unbroken stream and disk it is kept iff length and hash match, and gone otherwise |
| `Attachment.Downloads.ReceiveFrom` | crates/wicara/src/files.rs:106-174 | the checks, the recording, the download and the path come in the specified order, each able to fail |
| `Attachment.ReceiveOutcome` | crates/wicara/src/files.rs:106-165 | with nothing failing here, a stream is kept iff it opens with a file header minted by that very peer, within the limit, and the bytes match it; otherwise the outcome names the first thing wrong |
| `Attachment.ForgedHeaderChangesNothing` | crates/wicara/src/files.rs:124-133 | a header minted under another's key, or over the limit, changes nothing whatever else fails |
| `Attachment.HeaderIsRecorded` | crates/wicara/src/files.rs:135 | a header that passes is on disk whatever becomes of the bytes, unless its id was already |
| `Attachment.RecordedIffKept` | crates/wicara/src/files.rs:106-174 | nothing changes for a refused header, a path is recorded only for a file that came whole and matched, and whatever is written is a first part of the stream within the size announced and the limit |
| `Attachment.ReceiveKeepsSoundIff` | crates/wicara/src/files.rs:106-174 | if every recorded path names its op's complete file, receiving keeps it so under every stream and failure iff the target path is no attachment's, a path already under a new header's key is its own file, and no attachment under the key announces anything else (when any bytes could match) |
| `Attachment.SentAgainLosesFile` | crates/wicara/src/files.rs:137-165 | a header received and then sent again to the same path, with bytes that do not match, loses the kept file and leaves its path recorded |
| `WordWrap.Wrap` | crates/wicara/src/ui.rs:1877-1905 | the nested loops compute the wrap the lemmas below are about |
| `WordWrap.LinesFit` | crates/wicara/src/ui.rs:1883-1894 | every line fits the column or is one over-wide character |
| `WordWrap.TextIsPreserved` | crates/wicara/src/ui.rs:1880-1903 | the non-white-space characters come out as they went in, in order |
| `WordWrap.WrapIsIdempotent` | crates/wicara/src/ui.rs:1877-1905 | wrapping the joined lines again gives the same lines |
| `WordWrap.WrapIsGreedy` | crates/wicara/src/ui.rs:1880-1903 | a paragraph's lines are its pieces in order, within the column, and no line ends while the next piece, a word that fits or a character of one that does not, could still go on it |
| `WordWrap.WrapIsOptimal` | crates/wicara/src/ui.rs:1880-1903 | no breaking of a paragraph within the column uses fewer lines, words that fit kept whole and over-wide words starting a line and cut anywhere |

## Left out

- Networking, sessions, dialling, the UI apart from the word wrapper, the command line and logging: no protocol state of their own. A live arrival is a step that may happen at any time; nothing is claimed about a live frame reaching anyone.
- `deliver` and the fan-out of a room op to its members: which connection or mailbox a frame goes to is routing. An append says whom to tell.
- The cryptography itself, the vault and sealing at rest: the primitives are parameters, and sealing at rest is the identity. A store opened under the wrong key is not part of this model.
- UTF-8 validation when reading a string, and the 64-bit cap on lengths that memory imposes anyway.
- Undecodable rows that `mail_for` skips: the handler decodes an envelope before it is stored.
- The largest row id, past which sqlite picks ids at random.
- The prekey directory and the time window on mailbox requests.
- Interleavings inside one client step. Each of accept, absorb, fetch, append, forget and receive is taken as one step; two running at once could show a room older than the one stored, or write one file from two streams.
- Client.App.LoadRooms: a conversation that cannot be read back at start-up, which stops the loading there, and the request to the hub that follows for each room, which is a fetch.
- The second refold of `receive`, after the path is recorded: its failure changes nothing.
- A delete request is applied at most once; one the network delivers twice is not modelled.
- MessageStore.Store.Peers: gives the contacts in no particular order; the original puts the busiest first.
- MessageStore.Store.Newest: the limit is a natural number, and the largest machine word stands for no limit.
- `Counter` is two fields of the store rather than an object of its own, and `next_id` is its only user.
- `send` for attachments, hashing a file on disk and choosing a safe name: the path is an argument.
