# A verified model of the dbus-broker core

This project models the in-memory state machines of dbus-broker and the byte-stream layer below
them, and proves what they promise for every input and every run. `dafny verify dfyconfig.toml`
verifies all of it.

**Matching and routing.** `MatchKeys` has the keys of a match rule, their order in the trees and what
messages they match; `MatchText` the text of rules, and `MatchMeaning` which messages a rule that was
written down matches in the end. `RefTree`, `MatchForest` and `MatchIndex` are the
four-level reference-counted trees: linking, unlinking, flushing and collecting destinations. The
main result there is `MatchIndex.MatchIndex.GetDestinations`: the trees find what a scan over all
rules would find. `Routing` says which registry a rule is linked in, and that the few registries
consulted for a signal suffice.

**The bus.** `Names`, `Replies` and `Activation` are the registries of names, of expected replies and
of activatable names; `NamePins` has the references to names and ties them to the state of the bus.
`BusState` ties the registries to the peers by one invariant, and `Bus` has the operations of peers
and of the driver on all of it: `Bus.Bus.Valid` holds after each of them, in
every run. It says that nothing refers to a peer that has left, that counters are exact, that whoever
has followed the NameOwnerChanged signals of the run, each naming the owner in place, knows the owner
of every name, that every expected reply is settled once, and that nothing waits for the activation of a
name that has an owner.

**The streams.** `InputQueue` is the buffer for lines and messages with the direct reads into a
message, `Socket` and `Connection` the layers above it, `Tokens` the meaning of a byte stream as
lines followed by messages. `Connection.Connection.Dequeue` returns the tokens of the whole stream
however it was cut. `Output` is the way out. `Message` and `Fields` have the rewriting of
the sender in a marshalled header, `Sasl` both sides of the authentication, and `Cuts`
and `Descriptors` what becomes of several sets of file descriptors for one message.

**Policy.** `Policy` has the verdicts over batches, names and rules, and the walk through the ordered
tree of names.

`Base`, `Address`, `Bytes` and `Counters` serve the others.

## Conventions

- A class stands for a structure that is updated in place. Red-black trees are maps or sets, linked
  lists are sequences. The registries of all objects live in one `MatchIndex`, which tells them apart
  by `RegistryId`; a rule is identified by its owner and keys, which is sound because an owner's rules
  are found by comparison (`MatchKeys.KeysCompareTies`).
- Quotas, the kernel and the activation controller answer arbitrarily. Serial 0 stands for a message
  that expects no reply. `Peer.open` says that the input of a peer is still dispatched.
- `Bus.Bus.changes` has all NameOwnerChanged signals, and grows only where one is sent
  (`Bus.Bus.AnnounceChange`).
- Adding a rule assumes `BusState.Relinkable`, as linking asserts that a linked rule stays where it is
  (src/bus/match.c:892-898); `Routing.RelinkMovesIff` says exactly when that would fail.

## Where the code differs from what one might expect

- `path_namespace='/'` matches only the path `/`, not all paths (`MatchText.NamespaceAsPromisedIff`).
- A rule whose sender is a peer that is connected but has not called Hello() is never linked, and
  not served later. The same holds for a rule with `member=NameOwnerChanged` that watches such a
  peer, which misses the signal of Hello(); and for rules of monitors (`Routing.GapExample`,
  `Routing.GapWatchExample`; exactly when it matters: `Routing.DeliveredExactlyIff`,
  `Routing.AnnouncedExactlyIff`).
- A monitor whose rule watches the owner of one name is not shown that signal, since monitors are not
  looked up in the registries of names for signals of the driver (`Routing.BlindMonitorExample`;
  exactly when it matters: `Routing.MonitorsSeeDriverIff`).
- Adding a rule again violates what linking asserts if it names a peer that was still to come when
  it was added first (`BusState.RelinkExample`; exactly when: `Routing.RelinkMovesIff`).
- The SASL server demands a zero byte in front of every line until one is understood
  (`Sasl.SecondZeroByteExample`).
- A further set of file descriptors for one message is a violation if it goes through the buffer, as
  everything does up to the end of the header and near the end of the message, but is dropped if
  it is read directly into the message. So whether such a message closes the connection may depend
  on the chunks. `Descriptors.Feed` says exactly when a cut is refused, `Cuts.CutMattersIff` exactly
  for which bytes and sets two cuts differ, and `Cuts.CutMattersExample` gives one such message. A
  further set with the header is always refused (`Cuts.DoomedIsRefused`). Which sets are accepted is
  part of the stream that `Connection.Connection.Dequeue` speaks about: given them, the end of the connection is a
  function of the stream.
- The `destination` of a rule is stored and compared, but does not restrict what it matches
  (`MatchKeys.DestinationIgnored`).
- A peer is also reached under a unique name with leading zeros, and ids with a minus sign are read
  modulo 2^64 (`Address.FromStringIs`).
- A policy rule of priority 0 never counts, and a rule for owning exactly one name also counts for
  the names below it (`Policy.CheckOwn`).

## Model

| member | source | states |
|---|---|---|
| MatchKeys.CompareKeys | src/bus/match.c:635-669 | the comparison, field by field, is the lexicographic one of all fields: strings, type, counts and interleaved arguments |
| MatchKeys.FlattenInjective | src/bus/match.c:635-669 | the comparison leaves out no field: keys with the same fields are the same keys |
| MatchKeys.KeysCompareTies | src/bus/match.c:635-669 | the tree order is antisymmetric, and a tie means equal keys, so rules that share a node match the same messages |
| MatchKeys.KeysCompareTransitive | src/bus/match.c:635-669 | the tree order is transitive, so it is a total order |
| MatchKeys.StringPrefix | src/bus/match.c:394-416 | true exactly if the string lies in the namespace, or (delimiter included) exactly if the prefix is the string or a directory above it |
| MatchKeys.MatchMetadata | src/bus/match.c:418-458 | true exactly if the message agrees with every key that is present: type, sender id, interface, member, path, both namespaces, and both kinds of argument keys, field by field |
| MatchKeys.MatchesIff | src/bus/match.c:418-458 | the same for the condition that all lookups are compared with |
| MatchForest.NodeHasRule | src/bus/match.c:488-511 | with exact reference counts, every node of every level has a linked rule at or below it: no empty node survives |
| MatchForest.PathLookups | src/bus/match.c:1099-1112 | looking up the empty path and the path of the message misses no matching rule of the registry, and finds no other |
| MatchForest.InterfaceLookups | src/bus/match.c:1084-1097 | the same for the two interface lookups below a path node |
| MatchForest.MemberLookups | src/bus/match.c:1070-1082 | the same for the two member lookups below an interface node |
| MatchForest.ChildrenCover | src/bus/match.c:1131-1165 | everything below a node is at or below one of its children, so flushing the children leaves the node empty |
| RefTree.BalancedCreate | src/bus/match.c:468-486 | a new node carries the reference of its creator and takes one on its parent; all other counts stay exact |
| RefTree.BalancedRemove | src/bus/match.c:499-509 | freeing a node on its last reference gives back exactly the reference on its parent |
| RefTree.LastReference | src/bus/match.c:499-509 | a node that is freed has neither rules nor children, as the assertions demand |
| RefTree.AliveForAReason | src/bus/match.c:488-515 | a node that nobody holds for the moment has a rule or a child |
| MatchIndex.MatchIndex.Ref | src/bus/match.c:488-497 | one more reference; all counts stay exact |
| MatchIndex.MatchIndex.Acquire | src/bus/match.c:811-881 | find or create a node of any level and hold a reference on it; no rule moves |
| MatchIndex.MatchIndex.Unref | src/bus/match.c:499-511 | drops one reference; the last one frees the node and passes on to its parent |
| MatchIndex.MatchIndex.LinkRule | src/bus/match.c:886-931 | the registries hold the rule afterwards, all others stay, and all node counts and subscription counters are exact |
| MatchIndex.MatchIndex.UnlinkRule | src/bus/match.c:936-948 | the registries lose exactly this rule; nodes without a rule are gone and all counters exact |
| MatchIndex.MatchIndex.FlushRules | src/bus/match.c:1122-1129 | unlinks exactly the rules of one node while the caller holds it |
| MatchIndex.MatchIndex.FlushAll | src/bus/match.c:1131-1165 | the loop over siblings removes exactly the nodes and rules below them, and ends |
| MatchIndex.MatchIndex.Flush | src/bus/match.c:1182-1199 | both trees of the registry are empty afterwards, other registries unchanged, counters exact |
| MatchIndex.MatchIndex.NoNodesOutside | src/bus/match.c:1035-1045 | every node of a registry disappears with its last rule, so a registry without rules is empty |
| MatchIndex.MatchIndex.GetDestinations | src/bus/match.c:1099-1120 | appends exactly the owners that a scan over all linked rules of the tree would find, each once, behind those already listed |
| MatchKeys.DestinationIgnored | src/bus/match.c:418-458 | the destination of a rule does not restrict what it matches |
| Counters.AddExact | src/bus/match.c:886-931 | the global and the per-owner subscription counters stay exact, and peaks bound them, when a rule is added |
| Counters.DropExact | src/bus/match.c:936-948 | counters do not underflow and stay exact when an item goes |
| Counters.OwnersSumUp | src/bus/match.c:968-979 | the per-owner counters add up to the global one |
| MatchText.CopyValue | src/bus/match.c:150-191 | copies the value with quotes and escapes resolved; at most one byte is written for a byte of text, plus the NUL, so it never leaves a buffer of strlen + 1 bytes |
| MatchText.QuoteReadsBack | src/bus/match.c:150-191 | every value has a quoted form that is copied back as the value, at the end of a rule and in front of further keys |
| MatchText.ParsePair | src/bus/match.c:223-261 | one key with its value; the buffer never gets ahead of the text, and a malformed pair is refused |
| MatchText.ParseKeys | src/bus/match.c:223-261 | ends for every text, within strlen + 1 bytes, with the keys the rule string denotes, or refuses it |
| MatchText.ParseWritten | src/bus/match.c:223-261 | any list of keys and values, written with quotes, is parsed as the assignment of these pairs one after the other |
| MatchText.AssignSpace | src/bus/match.c:30-148 | an accepted value takes no more room among the keys than it took in the text |
| MatchMeaning.AssignIs | src/bus/match.c:30-111 | each key sets just its field, once, to a valid value; the four types are numbered as in the protocol |
| MatchMeaning.AssignArgIs | src/bus/match.c:112-145 | argN and argNpath set argument N below 64, if neither is set yet |
| MatchMeaning.PairNarrows | src/bus/match.c:223-261 | one more pair of a rule narrows what it matches to the messages that also meet this pair |
| MatchMeaning.WrittenRuleMatches | src/bus/match.c:223-261 | from the text to the messages: a rule that is written down, parsed and applied matches exactly the messages that meet each of its pairs |
| MatchMeaning.PlainValue | src/bus/match.c:150-191 | a value without apostrophes and commas stands for itself, backslashes included |
| MatchMeaning.SpacedKey | src/bus/match.c:193-221 | blanks and stray equal signs around a key do not matter; a key without value is refused |
| MatchMeaning.JunkBehindKey | src/bus/match.c:193-221 | what comes behind a key and blanks is an equal sign, or a mistake |
| MatchMeaning.InterfaceIff | src/dbus/protocol.c:78-103 | which strings are interfaces, place by place |
| MatchMeaning.NamespaceIff | src/dbus/protocol.c:65-67 | which strings that are no unique names are namespaces |
| MatchText.PathIff | src/bus/match.c:81-92 | which strings are taken as paths, place by place |
| MatchMeaning.ValidateMember | src/dbus/protocol.c:114-131 | the loop accepts exactly the members |
| MatchText.Clone | src/bus/match.c:287-360 | the copy equals the original, hence matches the same messages, and fits a buffer of the old size |
| MatchText.CloneArgs | src/bus/match.c:310-345 | the loops that stop after the last present argument copy the whole array |
| MatchText.NamespaceAsPromisedIff | src/bus/match.c:394-416 | `path_namespace` matches as the D-Bus Specification says (section "Match Rules") if and only if it is not `/` or the path is `/` |
| Address.IdRoundTrip | src/dbus/address.c:69-122 | a printed unique name is read back as the id it was printed for |
| Address.FromStringIs | src/dbus/address.c:69-93 | what starts with a colon is an id of decimal digits behind `:1.`, or nothing; every other string is a name |
| Address.DecimalReads | src/dbus/address.c:69-93 | digits are read in base ten, from left to right |
| Address.ValidateDotted | src/dbus/protocol.c:9-41 | the loop that keeps track of dots decides the recursive definition |
| Address.NameIff | src/dbus/protocol.c:9-54 | which strings are well-known names, place by place |
| Address.UniqueNameIff | src/dbus/protocol.c:9-54 | which strings are unique names |
| Names.EnterDisciplined | src/bus/name.c:150-216 | after a request an owner still stands in the queue at most once, and only the primary owner may have DO_NOT_QUEUE |
| Names.LeaveDisciplined | src/bus/name.c:118-148 | a release keeps that discipline |
| Names.ReplyTellsPosition | src/bus/name.c:150-216 | each reply code says exactly where the caller stands before and after, and the primary owner changes only with PRIMARY_OWNER |
| Names.EnterKeepsOthers | src/bus/name.c:150-216 | a request keeps the entries of everybody else in sequence, except for a replaced primary owner that did not want to queue |
| Names.EnterQueued | src/bus/name.c:150-216 | who of the others is queued after a request |
| Names.TakesOverIff | src/bus/name.c:150-216 | the caller is primary owner afterwards exactly if there was none, it was so before, or it asks to replace an owner that allows it; else the old one stays |
| Names.ReplyIff | src/bus/name.c:150-216 | the reply is decided by this, and by whether the caller would wait |
| Names.FlagsStored | src/bus/name.c:160-160 | the entry of the caller carries the flags of this request; other entries keep theirs |
| Names.PlaceOfCaller | src/bus/name.c:179-213 | a new owner stands in front of the one it replaces; who waits keeps its place or comes last |
| Names.LeaveClosesGap | src/bus/name.c:118-148 | a release takes out one entry and keeps the sequence of the others |
| Names.EnterInSteps | src/bus/name.c:150-216 | the single list steps (new head, then dropping the old one) add up to the new queue |
| Names.ChangeReplays | src/bus/name.c:118-216 | the NameChange of one operation turns the old map of primary owners into the new one and names the old owner in place |
| Names.RecountExact | src/bus/name.c:118-216 | the primary counters stay exact when the head of a queue changes |
| Names.NameRegistry.OwnedIffQueued | src/bus/name.c:52-93 | an ownership is in the tree of its owner exactly if it is in the queue of its name |
| Names.NameRegistry.Update | src/bus/name.c:150-216 | the branches compute the new queue, reply and NameChange, free ownerships that fell out, and keep counters exact |
| Names.NameRegistry.ReleaseOwnership | src/bus/name.c:118-148 | the queue without the entry; a NameChange exactly if the primary owner changed |
| Names.NameRegistry.Request | src/bus/name.c:415-449 | the queue, reply and record of the update; who is primary owner afterwards, and when the reply is PRIMARY_OWNER, over the flags; or a refusal by quota that leaves everything as it was |
| Names.NameRegistry.Release | src/bus/name.c:464-485 | RELEASED, NOT_OWNER and NOT_FOUND exactly when due; only RELEASED changes the queue |
| Bus.ReplayStep | src/bus/name.c:118-216 | one operation on a queue with its signal keeps "following all signals, each naming the owner in place, one knows the owner of every name" |
| Bus.ReplayPeer | src/bus/driver.c:934-962 | so does a peer that says Hello() or leaves, with the signal about its unique name |
| Bus.OwnerOfUnique | src/bus/driver.c:934-962 | a unique name has an owner exactly while its peer is registered |
| Bus.WrongOwnerDoesNotReplay | src/bus/name.c:118-216 | a record with another old owner than the one in place does not replay |
| NamePins.NamePins.FreedIsUnused | src/bus/name.c:245-260 | on a bus, a Name that is not there has no queue, no activation, no rule that refers to it, and no rule in its registries: it is never freed too early |
| NamePins.NamePins.OnlyInUse | src/bus/name.c:245-260 | a Name that does not look like a unique name goes with the last rule, queue entry or activation of the bus that uses it |
| NamePins.NamePins.AddMatch | src/bus/peer.c:598-671 | each reference to a rule pins its Name once; the pins are those of the bus with the rule added |
| NamePins.NamePins.RemoveMatch | src/bus/peer.c:704-746 | the Name is released as often as it was pinned, unless it looks like a unique name; the pins are those of the bus without this reference |
| NamePins.NamePins.Request | src/bus/name.c:415-449 | the caller pins the Name before its place is known; the pins are then those of the new queue, whoever was dropped |
| NamePins.NamePins.Release | src/bus/name.c:464-485 | the pins are those of the queue without the caller |
| NamePins.NamePins.Activate | src/bus/activation.c:52-66 | an activatable name is pinned |
| NamePins.NamePins.Deactivate | src/bus/activation.c:71-87 | and is not any more |
| NamePins.NamePins.Unref | src/bus/name.c:245-260 | the last reference frees the Name, and nothing holds it then |
| Replies.Conservation | src/bus/reply.c:38-86 | over every history, each opening of a slot is settled exactly once, except for one that is still outstanding |
| Replies.ReplyRegistries.New | src/bus/reply.c:38-73 | a slot enters both containers only if its key is free and the quota allows; otherwise nothing changes |
| Replies.ReplyRegistries.Free | src/bus/reply.c:75-86 | the slot leaves both containers |
| Replies.ReplyRegistries.Find | src/bus/reply.c:88-95 | finds the slot of a caller and serial exactly if a reply is expected |
| Replies.ExpectsIff | src/bus/reply.c:88-95 | a reply is expected exactly for a slot of this callee, caller and serial |
| Replies.SettlesBoth | src/bus/driver.c:2576-2622 | two phases that settle different slots settle all of them, each once and in its way |
| Activation.Activation.Ask | src/bus/activation.c:115-128 | the controller is asked exactly if no activation is pending; on its refusal none is |
| Activation.Activation.QueueMessage | src/bus/activation.c:130-170 | a queued message waits last in line behind a pending activation; a refusal leaves the queue as it was |
| Activation.Activation.QueueRequest | src/bus/activation.c:172-200 | the same for requests; one without serial is not stored |
| Activation.Activation.PopRequest | src/bus/activation.c:18-27 | the first request is resolved; what was queued is still what was resolved followed by what waits |
| Activation.Activation.PopMessage | src/bus/activation.c:31-45 | the same for messages |
| Activation.Activation.Deinit | src/bus/activation.c:71-87 | everything that waited is Released, in sequence; what was resolved before stays as it was |
| Routing.HomeStandsRight | src/bus/peer.c:548-679 | the registry that is chosen is one that lookups for the sender or name will visit; if none is chosen, the rule names a peer id that is taken but hidden |
| Routing.HomeByKeys | src/bus/peer.c:548-679 | the choice of the registry, case by case over the keys of the rule and the peers |
| Routing.WantedIff | src/bus/bus.c:118-139 | who asked for a signal of a peer: registered peers (or monitors) with a rule that matches it and names no sender, its unique name, or a name it is primary owner of |
| Routing.WantedOfDriverIff | src/bus/bus.c:118-139 | who asked for a signal of the driver |
| Routing.OwnerChangedSays | src/bus/driver.c:621-646 | the signal carries the name, the old and the new owner, in this sequence, with the driver as its origin |
| Routing.LookupsSuffice | src/bus/bus.c:118-139 | the wildcard registry, the one of the sender and those of its primary names hold exactly the rules a signal of the sender concerns |
| Routing.OwnerLookupsSuffice | src/bus/driver.c:621-755 | a NameOwnerChanged signal reaches exactly its subscribers through three registries |
| Routing.MonitorsSeeDriverIff | src/bus/bus.c:95-116 | all monitors that want such a signal see it if and only if everyone whose wanted rule stands in the registry of the name, or is not linked, owns another wanted rule that is linked elsewhere |
| Routing.BlindMonitorExample | src/bus/bus.c:95-116 | a monitor that watches the owner of one name only does not see it change |
| Routing.OnlyGapRulesFail | src/bus/peer.c:650-655 | a wanted rule that is not linked names the sender, and was added between its connecting and its Hello() |
| Routing.DeliveredExactlyIff | src/bus/peer.c:548-702 | a signal of a peer reaches exactly the peers (or monitors) that asked for it if and only if everyone with an unlinked wanted rule owns another wanted rule that is linked; so it does if no rule fell into the gap |
| Routing.CoveredIff | src/bus/peer.c:548-702 | the owners of some of the wanted rules are all their owners if and only if each remaining rule has another one of the same owner among them |
| Routing.OnlyGapWatchersFail | src/bus/peer.c:581-612 | a wanted rule about a NameOwnerChanged signal that is not linked watches the unique name in question, and fell into the gap if that peer is on the bus |
| Routing.AnnouncedExactlyIff | src/bus/peer.c:581-612 | the signal reaches exactly the subscribers that asked for it, linked or not, if and only if each unlinked rule has another one of its owner; always so for well-known names |
| Routing.GapWatchExample | src/bus/peer.c:581-612 | a rule that watches a connected peer before its Hello() misses the signal of Hello() |
| Routing.GapExample | src/bus/peer.c:650-655 | a rule of a subscriber, or of a monitor, that is wanted and never served |
| Routing.RelinkMovesIff | src/bus/peer.c:633-647 | adding a rule again would choose another registry exactly if it names an id that was in the future then and is registered now |
| BusState.RelinkExample | src/bus/match.c:886-898 | a run of a client after which adding a rule again violates what linking asserts |
| BusState.SoundUnreferenced | src/bus/peer.c:412-431 | in a sound state no name queue, reply slot, rule or registry refers to a peer that has left |
| BusState.SoundCounts | src/bus/peer.c:450-464 | the numbers of peers, registered peers and monitors are exact |
| BusState.SoundLinks | src/bus/match.c:886-931 | a linked rule stands in the tree of the role of its owner, and counts exactly if that is a subscriber |
| BusState.JoinedSound | src/bus/peer.c:280-410 | a connecting peer keeps the state sound |
| BusState.JoinedIs | src/bus/peer.c:280-410 | a new peer has an id of its own and no role yet; nothing else changes |
| BusState.HelloIs | src/bus/peer.c:450-464 | Hello() registers this peer only, and counts it |
| BusState.SwitchedSound | src/bus/peer.c:450-464 | registering and unregistering keep it sound, with exact counts of registered peers and monitors |
| BusState.SubscribedSound | src/bus/peer.c:681-702 | adding a rule keeps it sound |
| BusState.SubscribedIs | src/bus/peer.c:681-702 | the rule has one more reference and stands at its home in the tree of its role; all others stay |
| BusState.UnsubscribedIs | src/bus/match.c:797-809 | one reference less; only the last one takes the rule away; all others stay |
| BusState.UnsubscribedSound | src/bus/peer.c:724-746 | removing rules keeps it sound |
| BusState.RequeuedSound | src/bus/name.c:150-216 | changing a name queue keeps it sound if nobody unregistered enters it |
| BusState.OpenedSound | src/bus/peer.c:833-842 | so does opening a reply slot between registered peers |
| BusState.DepartedSound | src/bus/driver.c:2569-2625 | after a disconnect the state is sound and nothing refers to the peer |
| BusState.DepartedKeepsOthers | src/bus/driver.c:2569-2625 | nobody else loses a rule, a reply or a role; of their links only those in the registries of the peer go |
| BusState.DepartedQueues | src/bus/driver.c:2580-2592 | nobody else loses a place in a queue |
| BusState.WatchersFlushed | src/bus/driver.c:2569-2601 | in the middle of a disconnect, rules that watch the owner of a name are linked as before |
| BusState.DepartedTwice | src/bus/driver.c:2569-2625 | a second goodbye changes nothing |
| BusState.MonitoringSound | src/bus/peer.c:748-787 | becoming a monitor keeps the state sound |
| BusState.MonitoringIs | src/bus/peer.c:748-787 | the monitor has exactly the rules it wants, each in the monitor tree of its home; all others stay |
| BusState.FreedSound | src/bus/peer.c:412-431 | freeing a departed peer keeps it sound |
| Bus.Bus.constructor | src/bus/bus.c:20-51 | an empty bus is sound |
| Bus.Bus.FollowersKnow | src/bus/driver.c:739-767 | in every reachable state, whoever has followed all signals knows the primary owner of each well-known name, and which unique names there are |
| Bus.Bus.NothingWaits | src/bus/driver.c:822-917 | in every reachable state, nothing waits for the activation of a name that has an owner |
| Bus.Bus.Connect | src/bus/peer.c:280-410 | a new id, not registered; all invariants hold |
| Bus.Bus.Hello | src/bus/driver.c:934-962 | the peer is registered and counted, and its coming is announced; all invariants hold |
| Bus.Bus.AddMatch | src/bus/peer.c:681-702 | the rule is referenced once more and linked where its sender says, or nothing changes |
| Bus.Bus.UnrefRule | src/bus/match.c:797-809 | the last reference unlinks and frees the rule, others only count |
| Bus.Bus.RemoveMatch | src/bus/peer.c:724-746 | drops one reference of a rule, or reports that there is none |
| Bus.Bus.FlushMatches | src/bus/peer.c:798-812 | exactly the rules of the peer are unlinked and freed |
| Bus.Bus.DropCalls | src/bus/driver.c:2576-2577 | every reply the peer waits for is settled, once, because its caller is gone; no other is |
| Bus.Bus.FailCalls | src/bus/driver.c:2612-2622 | every reply the peer owes is settled, once, with NoReply; no other is |
| Bus.Bus.ReleaseOne | src/bus/peer.c:543-546 | one name is released, and the signal of the change is sent |
| Bus.Bus.Goodbye | src/bus/driver.c:2569-2625 | all invariants hold, nothing refers to the peer any more, each reply slot it was part of is settled once in the right way |
| Bus.Bus.Free | src/bus/peer.c:412-431 | the emptiness assertions of freeing hold for a departed peer |
| Bus.Bus.BecomeMonitor | src/bus/peer.c:748-787 | the peer is a monitor with exactly the rules it wants, linked in the monitor trees and not counted |
| Bus.Bus.LinkMatch | src/bus/peer.c:548-679 | links in the chosen registry on the side of the caller's role, or leaves the rule unlinked |
| Bus.Bus.BroadcastDestinations | src/bus/bus.c:118-139 | each subscriber found in the wildcard registry, the given one, and those of the names of which the sender is primary owner, once |
| Bus.Bus.MonitorDestinations | src/bus/bus.c:95-116 | each monitor found in the wildcard registry and those of the sender, once |
| Bus.Bus.Broadcast | src/bus/driver.c:2675-2757 | in every reachable state a signal lists exactly the subscribers with a linked rule whose sender admits the peer, each once; these are all that asked if and only if each unlinked rule has another one of its owner |
| Bus.Bus.ShowToMonitors | src/bus/bus.c:95-116 | the monitors with a linked rule that admits the peer, each once; the monitors that asked if and only if each unlinked rule has another one of its owner |
| Bus.Bus.AnnounceChange | src/bus/driver.c:739-767 | the signal of a change is sent and recorded, on well-known names in the middle of a request, of a release or of a disconnect: exactly the subscribers that asked for it |
| Bus.Bus.SignalOf | src/bus/driver.c:739-767 | it names the old and the new owner by their unique names, or says nothing for nobody |
| Bus.Bus.AnnouncePeer | src/bus/driver.c:2597-2602 | the same for the unique name of a peer: from nobody to the peer on Hello(), and back when it leaves |
| Bus.Bus.Leave | src/bus/driver.c:2597-2602 | a peer that is still registered is announced to leave, and no other |
| Bus.Bus.AnnounceOwner | src/bus/driver.c:621-755 | the subscribers of one NameOwnerChanged signal with a linked rule, each once; the subscribers that asked if and only if each unlinked rule has another one of its owner |
| Bus.Bus.ShowOwnerToMonitors | src/bus/bus.c:95-116 | the monitors that see it; all that asked if and only if each rule in the registry of the name, or unlinked, has another one of its owner elsewhere |
| Bus.Bus.QueueUnicast | src/bus/peer.c:825-959 | a call opens a slot exactly if it is queued and a reply expected; one that cannot be queued settles the slot again |
| Bus.Bus.QueueReply | src/bus/peer.c:961-1001 | a reply is accepted exactly if it is expected, and settles exactly its slot: as forwarded, or as dropped if the caller has no quota for it or refuses its descriptors |
| Bus.Bus.FindPeerIs | src/bus/bus.c:70-93 | a unique name reaches its peer if that is registered, a well-known name its primary owner, and nothing else anybody |
| Bus.Bus.Forward | src/bus/driver.c:2627-2673 | to the registered peer of a unique name, or the primary owner of a well-known one, with its slot; else into the queue of an activatable name; all other queues stay |
| Bus.Bus.StartService | src/bus/driver.c:1205-1240 | the request waits for the activation exactly if the name is activatable and has no owner |
| Bus.Bus.NameActivated | src/bus/driver.c:822-917 | all requests are answered and all messages forwarded or refused, in sequence; the new slots are exactly those of forwarded messages that expect a reply, owed by the new owner; other names are untouched |
| Bus.Bus.ActivationFailed | src/bus/driver.c:769-820 | an outdated serial changes nothing; otherwise everything that waited has failed, in sequence |
| Bus.Bus.MakeActivatable | src/bus/activation.c:52-66 | a name becomes activatable unless it is |
| Bus.Bus.DropActivatable | src/bus/activation.c:71-87 | the name is not activatable any more, and everything that waited is Released, in sequence |
| Bus.Bus.RequestName | src/bus/driver.c:964-1024 | refusals for invalid, reserved and unique names; else the new queue, the reply, the signal of the change, and activation served exactly if the primary owner changed; the caller takes a name over exactly if the owner allows it |
| Bus.Bus.ReleaseName | src/bus/driver.c:1026-1075 | the same refusals; else the queue without the caller and the signal of the change |
| InputQueue.IQueue.constructor | src/dbus/queue.c:19-22 | an empty queue over its own buffer |
| InputQueue.IQueue.Flush | src/dbus/queue.c:51-65 | what was held is lost, and counted as handed out |
| InputQueue.IQueue.SetTarget | src/dbus/queue.c:70-100 | the target is set or refused by quota; what is held stays |
| InputQueue.IQueue.GetCursor | src/dbus/queue.c:105-237 | shifting and resizing keep the held bytes; says where to read to, that unparsed bytes are left, or that a line is too long; reads directly exactly if a large part of the message is missing |
| InputQueue.IQueue.Append | src/dbus/socket.c:528-724 | a chunk goes behind the held bytes, whether into the buffer or directly into the target; its descriptors come with its last byte |
| InputQueue.IQueue.PopLine | src/dbus/queue.c:242-299 | the first line of the held bytes up to CRLF, or none; a violation exactly if a set of descriptors came with a byte of it |
| InputQueue.IQueue.PopData | src/dbus/queue.c:304-385 | the first n held bytes are in the target, the rest is kept, bytes around the target are untouched, and the descriptors are the only ones that came with bytes since the last hand-out; a violation exactly if two accepted sets did |
| InputQueue.IQueue.Claim | src/dbus/queue.c:304-360 | copies what the target needs; a second set for the same message is refused |
| InputQueue.LineOfIff | src/dbus/queue.c:242-268 | a line ends at the first CR that an LF follows |
| InputQueue.CarriedNew | src/dbus/queue.c:139-142 | a set that arrives belongs to the last byte of its chunk and to no earlier range |
| InputQueue.LineFds | src/dbus/queue.c:252-268 | a line that ends before the last byte of a set leaves the set to what follows |
| InputQueue.CarriedIff | src/dbus/queue.c:304-385 | the set that comes with some bytes is the one whose chunk ended there, if there is just one |
| InputQueue.SetsWaiting | src/dbus/queue.c:352-360 | descriptors wait in the buffer and with the message at once exactly if two sets came since the last hand-out |
| Descriptors.Feed | src/dbus/socket.c:387-453 | a message read through a socket in any chunks, header first: the connection ends exactly if a chunk that goes through the buffer, with a byte of the header or less than 2048 bytes before the end, brings a further set; else it is complete with its bytes and its first set |
| Cuts.RefusedIff | src/dbus/queue.c:352-360 | the condition in numbers: a set after another one, with a chunk that begins within the first 16 bytes or less than 2048 before the end |
| Cuts.CutMattersIff | src/dbus/queue.c:352-360 | exactly which bytes and sets have a cut that is refused, exactly which have one that is not, and hence for which messages it depends on the cut |
| Cuts.RefusedIsRisky | src/dbus/queue.c:352-360 | no cut is refused unless a further set comes near the end, or may share a chunk with a part of the header |
| Cuts.DoomedIsRefused | src/dbus/queue.c:352-360 | every cut is refused if a further set comes with the header, or less than 2048 bytes are left behind the header and an earlier set |
| Cuts.AcceptedCut | src/dbus/queue.c:352-360 | every other message can be cut so that it is not refused |
| Cuts.RefusedCut | src/dbus/queue.c:352-360 | every message that may be refused has a cut that is |
| Cuts.CutMattersExample | src/dbus/queue.c:352-360 | one message with the same sets, read in three chunks and in four, of which only the latter is refused |
| Tokens.FirstStays | src/dbus/connection.c:268-330 | bytes that arrive later change neither a complete line or message nor a failure |
| Tokens.SwitchIff | src/dbus/connection.c:268-330 | messages begin behind the line that ends the exchange and behind no other |
| Tokens.DrainInSteps | src/dbus/connection.c:268-330 | reading in between gives the same as reading at the end, across the switch from lines to messages |
| Tokens.ChunksDoNotMatter | src/dbus/connection.c:268-330 | however a stream is cut, the same lines and messages come out |
| Tokens.LineLimit | src/dbus/queue.c:125-180 | a line of up to 16384 bytes with its end is accepted, a longer one never |
| Socket.Socket.DispatchRead | src/dbus/socket.c:726-758 | what is read goes behind the unread bytes, with its descriptors, which are dropped exactly if a set waits already and the bytes are read directly into the message; an end of file hangs up input, a failure output as well, and both keep what is unread; a line that is too long or an exceeded quota closes the socket |
| Socket.Socket.DequeueLine | src/dbus/socket.c:340-362 | the first line of the unread bytes; end of file exactly if a set came with a byte of it, or no line is left after hanging up |
| Socket.Socket.Dequeue | src/dbus/socket.c:387-453 | the first message of the unread bytes and the descriptors that came with any of its bytes; end of file exactly if two accepted sets came with it, its header is bad, or it is incomplete after hanging up |
| Socket.Socket.Close | src/dbus/socket.c:1047-1060 | both directions are closed, unread bytes are dropped, queued output is still sent |
| Connection.Connection.DispatchInput | src/dbus/connection.c:231-263 | what came out and what is unread still make up the stream; input is hung up on an end of file or a failure; a too long line fails the stream |
| Connection.Connection.FeedSasl | src/dbus/connection.c:121-184 | the exchange makes its step, its answer is queued unless output is shut down, and message mode begins with BEGIN |
| Connection.Connection.ReadMessage | src/dbus/connection.c:299-330 | the next message, and whether its descriptors were negotiated; it never comes out if two accepted sets came with it, and else an end means that all came out |
| Connection.Connection.Dequeue | src/dbus/connection.c:268-330 | whatever the chunks, the lines and messages of the whole stream come out in sequence; all of them have when nothing is returned, and at the end of file unless the next line or message clashes with its descriptors, in which case it never comes out |
| Connection.Connection.NextMessage | src/dbus/socket.c:387-453 | the next message of the account, and the exact condition on the whole stream for its end |
| Connection.ClashIff | src/dbus/socket.c:387-453 | when the next line or message clashes with its descriptors, in terms of its end |
| Connection.Connection.Queue | src/dbus/connection.c:335-370 | the wire form of the message goes behind everything queued before, with its descriptors, unless output is shut down or its descriptors are not allowed |
| Message.Message.constructor | src/dbus/message.c:74-113 | a message of the declared size with the vectors for header, padding and body |
| Message.FrameOf | src/dbus/message.c:74-113 | the size arithmetic: no frame below 16 bytes or above 128 MiB |
| Message.FrameIs | src/dbus/message.c:74-113 | where the header declares which size, in which byte order, and the limit of 128 MiB |
| Bytes.WordIs | src/dbus/message.c:74-113 | words of both byte orders, byte by byte |
| Message.CanonicalFrame | src/dbus/message.c:74-113 | a well-formed message is framed exactly where it ends |
| Message.Message.StitchSender | src/dbus/message.c:532-663 | the pieces together are the message with all fields but the old sender in sequence, the new sender last, the same body, correct padding, and true lengths |
| Message.Message.CutSender | src/dbus/message.c:592-615 | exactly the old sender field with its padding is cut out |
| Message.Message.FindSender | src/dbus/message.c:592-612 | start and end of the field are found from its string |
| Message.SenderFieldIs | src/dbus/message.c:624-635 | the bytes of the new field: code 7, signature `s`, length, name and NUL |
| Message.StitchedParses | src/dbus/message.c:532-663 | every reader that recognises the fields reads the stitched array as the fields without the old sender and with the new one |
| Message.StitchedReadsBack | src/dbus/message.c:532-663 | for fields of basic types, whatever was read before is read again, apart from the sender |
| Message.StitchedSender | src/dbus/message.c:532-663 | the new sender is the only one |
| Message.UniqueNameLength | src/dbus/message.c:575-592 | every unique name fits the patch buffer |
| Fields.ParseMarshal | src/dbus/message.c:463-509 | an array of fields is read back field by field |
| Fields.MarshalParse | src/dbus/message.c:463-509 | what was read is all that was there, including the padding |
| Fields.FixedFieldDelimits | src/dbus/message.c:463-509 | fields with values of fixed size are recognised at their size and alignment |
| Fields.TextFieldDelimits | src/dbus/message.c:463-509 | so are fields with strings and object paths |
| Fields.SignatureFieldDelimits | src/dbus/message.c:463-509 | and fields with signatures |
| Fields.PaddedMarshal | src/dbus/message.c:463-509 | padding the array pads the last field |
| Output.SocketBuffer.Append | src/dbus/socket.c:470-498 | a line and its CRLF go behind what is there, in bounds, also in a partly sent buffer |
| Output.SocketBuffer.Consume | src/dbus/socket.c:169-191 | n bytes leave the front; consumed is reported exactly when none remains |
| Output.Output.QueueLine | src/dbus/socket.c:470-498 | the line is queued last, or refused without a change |
| Output.Output.QueueMessage | src/dbus/socket.c:512-526 | the same for a message, which keeps its descriptors |
| Output.Output.Batch | src/dbus/socket.c:828-887 | at most 16 buffers, descriptors with the last one only, and the batch ends because of them, because it is full, or because nothing else waits |
| Output.BatchUnique | src/dbus/socket.c:828-887 | these clauses leave only one size for a batch |
| Output.Output.DispatchWrite | src/dbus/socket.c:760-977 | what is sent stays a prefix of what was queued, and grows by exactly the bytes the kernel took; at most one message with descriptors is in the kernel; when the caller is told to stop, and when output is hung up |
| Output.Output.Shutdown | src/dbus/socket.c:1031-1037 | nothing more is queued; with an empty queue output is hung up at once |
| Output.Output.Hangup | src/dbus/socket.c:273-287 | what waits is dropped |
| Sasl.Split | src/dbus/sasl.c:30-56 | command and argument around the first run of blanks |
| Sasl.SplitFinds | src/dbus/sasl.c:30-56 | a command without blanks and its argument are found again, however many blanks stand between |
| Sasl.SaslServer.Dispatch | src/dbus/sasl.c:274-352 | one line makes the step and the reply of the specified machine |
| Sasl.StepByReply | src/dbus/sasl.c:274-352 | errors and violations change nothing, a rejection resets all |
| Sasl.ReplyIff | src/dbus/sasl.c:199-352 | which lines get which reply, for all lines and states: OK for the right credential, or for none where it was asked for, and so on |
| Sasl.NoReply | src/dbus/sasl.c:274-285 | without the zero byte nothing begins |
| Sasl.SaslServer.Output | src/dbus/sasl.c:274-352 | the line that goes out for each reply |
| Sasl.HexIs | src/util/string.h:103-125 | two lower-case digits for each byte, the upper half first |
| Sasl.CredentialIs | src/dbus/sasl.c:199-232 | the credential is the uid in decimal, in hexadecimal digits |
| Sasl.GreetingAccepted | src/dbus/sasl.c:180-187 | the client accepts the greeting of every server |
| Sasl.AuthenticatedIffOk | src/dbus/sasl.c:274-352 | over all sequences of lines: authenticated exactly if OK was said since the last reset, descriptors allowed exactly if agreed since then |
| Sasl.OkNeedsCredential | src/dbus/sasl.c:199-248 | OK answers only the right uid in hexadecimal digits, or an empty credential that was asked for |
| Sasl.StateFromReplies | src/dbus/sasl.c:274-352 | what the replies so far tell about the state |
| Sasl.SecondZeroByteExample | src/dbus/sasl.c:274-300 | after an unknown command in the first line a second zero byte is demanded |
| Sasl.SaslClient.Dispatch | src/dbus/sasl.c:101-167 | one line makes the step of the client |
| Sasl.ClientIs | src/dbus/sasl.c:101-167 | which lines the client goes on with, and which end the exchange |
| Sasl.PipeliningSucceeds | src/dbus/sasl.c:101-167 | the client's pipelined request against the server, in every order of reading: nobody gives up, and once nothing is on its way both are done with descriptors allowed |
| Policy.FoldIsBest | src/bus/policy.c:910-969 | the running verdict is the first rule of the highest priority, or a denial if none counts |
| Policy.OrderIrrelevantIff | src/bus/policy.c:971-1058 | the order of rules makes no difference if and only if no two of the highest priority disagree |
| Policy.CheckXmitName | src/bus/policy.c:910-969 | skipping rules that cannot win or do not apply gives the fold over those that apply |
| Policy.AppliesIff | src/bus/policy.c:910-969 | a rule applies unless a condition it carries fails |
| Policy.CheckXmit | src/bus/policy.c:971-1058 | rules about any name first, then those about each name of the subject, or about the driver |
| Policy.CheckTransfer | src/bus/policy.c:1063-1141 | allowed exactly as the first applying rule of the highest priority says; denied without one |
| Policy.CheckConnect | src/bus/policy.c:835-844 | the same for connecting |
| Policy.CandidateIff | src/bus/policy.c:910-1058 | the candidates are the verdicts of exactly the rules for this direction that apply, about any name or a name of the subject, with all conditions spelled out |
| Policy.Descend | src/bus/policy.c:873-894 | the walk with the length-limited comparison finds an entry exactly if one is stored for the prefix |
| Policy.EndsAreDotted | src/bus/policy.c:873-905 | the loop visits exactly the empty prefix, the dotted prefixes and the whole name |
| Policy.CheckOwn | src/bus/policy.c:849-908 | owning is decided by the first rule of the highest priority about a dotted prefix |
| Policy.OwnCandidateIff | src/bus/policy.c:873-905 | the candidates are exactly the verdicts stored for the empty prefix, the prefixes in front of a dot, and the whole name |
| Policy.KeptIsTop | src/bus/policy.c:264-302 | remembering one verdict per name loses nothing unless two of the highest priority disagree |
| Policy.PolicyBatch.AddOwn | src/bus/policy.c:264-282 | the later of two verdicts of the same priority is remembered |
| Policy.PolicyBatch.AddOwnPrefix | src/bus/policy.c:284-302 | the same for prefix rules |
| Policy.PolicyBatch.AddXmit | src/bus/policy.c:304-360 | the rule goes behind the others about its name and direction; nothing else changes |

## Left out

- Memory allocation failures and other fatal errors.
- Marshalling by c-dvar: headers and bodies of messages, and thus what the driver reads and writes in detail. Header fields that hold containers are covered by `Message.StitchedParses` for any reader that recognises them.
- The texts of replies and errors of the driver, its introspection, properties, statistics and credential methods.
- c-rbtree, c-list, fdlist and user quotas, whose sources are not part of the repository; insertion into the tree of policy names (the walk is proved for every sorted tree).
- The second reply that src/bus/driver.c:1240 may write when starting a service: it depends on c-dvar.
- Name snapshots, which pin Names as well. `NamePins` follows the references to Names beside `Bus`, where names are map keys; `NamePins.NamePins.Mirrors` ties the two together. A rule for a sender such as `:2.0` pins its Name for good (`NamePins.NamePins.Forget`).
- Wrap-around of 64-bit peer ids and activation serials.
- Policy, AppArmor and SELinux verdicts on delivery: queueing a message fails arbitrarily instead. Importing policies and putting snapshots together from batches.
- epoll interest, the `reset` flag of sockets, ancillary data other than descriptors, credentials and the accept loop.
- The client side of Connection; the client side of SASL is in `Sasl`.
- Output buffers hold the bytes their vectors point to as values; aliasing between a message queued on several sockets is not modelled. `Output.Window.base` keeps the bounds of line buffers.
- In `Descriptors.Feed` a message begins with a chunk and ends with one. Chunks that reach into the next message are covered by `Connection.Connection.Dequeue`.
- Lines are returned as copies, not as pointers into the buffer (the byte that the code overwrites with NUL is handed out already, see `InputQueue.IQueue.Overwrite`).
- The launcher, the session tools, logging, metrics and the message log.
