# A verified model of the UnrealIRCd core

This project models, in Dafny, the parts of UnrealIRCd whose correctness depends on more than one
function: data structures that many operations change in place, and tables and texts that have to stay
in step with them. Each operation is proved against a specification on plain values, and the
specifications are proved to have the properties the server relies on.

| file | what it models |
|---|---|
| `Framing.dfy`, `Dbuf.dfy` | the receive queue: a list of fixed-size blocks as one byte string, and message framing as in section 2.3.1 of RFC 1459 |
| `Channels.dfy` | the membership graph (`Member`, `Membership`, `LocalMember`), its pools, and the life of channels |
| `Cmode.dfy`, `MemberModes.dfy` | the channel mode registry as a value; member mode strings, ranks and access checks |
| `ModeLine.dfy` | printing the modes of a channel and reading a mode line (MODE syntax, section 4.2.3.1 of RFC 1459) |
| `ListModes.dfy` | ban, exempt and invite lists, and their merge between servers |
| `Runs.dfy`, `Registry.dfy` | runs of state machines; one state machine for all registries that survive a rehash |
| `Bits.dfy`, `LetterOrder.dfy` | allocation of bits; order of mode letters |
| `UserModes.dfy`, `ChannelModes.dfy`, `ModData.dfy`, `ClientCaps.dfy` | the four registries |
| `ChannelState.dfy`, `Holders.dfy` | what registrations leave on channels, members and other objects: mode bits, parameters, slots of data |
| `Conditionals.dfy`, `ConfigTree.dfy` | `@if` conditions, pruning of the configuration tree on values and in memory |
| `Defines.dfy` | `$VARIABLE` expansion into a fixed buffer |
| `Packing.dfy`, `ISupport.dfy` | the 005 tokens and their packing into lines |
| `Ring.dfy` | the circular doubly linked list |
| `Events.dfy` | the event loop |
| `Seqs.dfy`, `Options.dfy`, `CStrings.dfy`, `Casemap.dfy` | sequences, optional values, bounded strings, case folding |

Conventions. Characters are unsigned, as the server is compiled. Integers are unbounded except where a
width decides something (capability bits go through a C `int`). Lists of the server that are linked
through `AddListItem` and `DelListItem` are fields of type `seq`; the ring, the configuration tree, the
receive queue, which is a ring of blocks, and the membership graph are objects with links. Hooks, logging
and messages to clients are left out or are parameters: the channel-destroy hook is an answer, event
callbacks follow an arbitrary script of actions, conditions ask a `World`.

Each registry, and the membership graph, is given twice: as an object whose methods follow the code, and as a
function `After` from states and commands to states. Every method is proved to do what the function says, so a run of the object is
the run of the function (`Run` of each table and of the network). The theorems are about all runs of the function: every state
on the way is valid and the commands are operations of the one abstract registry (`RunsAreRuns`), and each
invariant that the code can break holds throughout a run if and only if no command of it meets the condition
that breaks it.

What these functions compute is in turn said without them. For every command of a machine a lemma says, element
by element, what has changed and that nothing else has (`AddedAsRequested`, `AddOutcome`, `SetTakesEffect`,
`RemoveTakesEffect`, `JoinTakesEffect` and the like); texts that the server writes are read back to what they were
written from (`ModeLine.PrintedAreSet`, `ModeLine.ChangesReadBack`, `ISupport.TokensReadBack`,
`Defines.SubstituteParts`, `Framing.LineIsDelivered`).

Where the code does not do what one expects, the model follows the code and states exactly when it does:

- A mode line reads back if and only if both buffers were large enough for it (`ModeLine.PrintThenParseExact`).
- The string that access is checked against gives everybody the access it should if and only if its buffer
  had room for all letters (`MemberModes.CutExact`); it then fails for everybody when the lowest rank asked
  for is the 0 of an unknown letter (`MemberModes.AccessExact`).
- Reading a mode line stays inside its parameter buffer if and only if no parameter that it takes is a word
  of 512 bytes or more with a space behind it (`ModeLine.ParseMode.All`).
  A ban of 512 bytes is such a word (`ModeLine.LongBan`).
- The fast and the scanning lookup of a user mode agree on a letter if and only if its mode is not marked as
  unloaded (`UserModes.LookupsAgree`).
- The bit of a removed user mode stays on users of other servers, and in `SendUmodes`. No user ever has a bit
  that belongs to no mode if and only if no mode is removed that a user of another server has
  (`UserModes.StaleInRuns`), and `SendUmodes` has exactly the bits of the global modes throughout if and only
  if no global mode is removed, or revived as a local one (`UserModes.SendInRuns`). Otherwise the next mode
  gets that bit: the user then has it set, and it is sent although it is local (`UserModes.SecondIsSet`).
- The limit for membership data is the value of an enum constant, 7, while the array has 4 places, and slots
  below the highest are not used again: over every run all slots fit if and only if nothing is registered
  while the last place of the array is taken (`ModData.SlotsFitThroughout`). Four names and one removal are
  enough to leave the array (`ModData.FourNamesOverflow`).
- `unload_moddata_commit` finds clients through some of their lists only. It misses all servers, which are on
  another list, for client data; control clients and the server itself for data of local clients; and
  memberships of remote users (`Holders.ReachedExact`). Over every run there is data of a removed registration
  if and only if a removal leaves some on an object that is missed (`ModData.StaleInRuns`), which cannot happen
  if and only if the data is that of variables, channels or members (`ModData.NeverStaleExact`). A slot handed
  out is zero everywhere if and only if no such object holds something in it (`ModData.NewSlotIsZero`), and
  otherwise the next name sees the data of the one before (`ModData.SecondNameSeesData`), as with a client that
  is noted in its handshake and becomes a server (`ModData.ServerKeepsData`).
- Module data that is registered again takes its new priority but keeps its place in the list: over every run the
  list is in order of priority if and only if none is registered again with a priority that is out of order
  between its neighbours (`ModData.OrderedInRuns`). Two names are enough (`ModData.RevivedOutOfOrder`).
- The parameter of a removed channel mode is freed but still pointed to by the channel. Over every run there
  is such a pointer if and only if a mode is removed that takes a parameter and has one on some channel
  (`ChannelModes.StaleInRuns`); lists of parameters are copied and freed soundly if and only if they have none
  in a slot in use (`ChannelModes.Table.DuplicateParams`, `ChannelModes.Table.FreeParams`,
  `ChannelModes.Table.DropChannel`). Registering, setting and removing one mode and registering another is
  enough to have one there (`ChannelModes.SecondFollowsFreed`).
- A marked channel mode can be registered again with another kind or number of parameters, and a new one with
  more than one: the tables and channels stay in order if and only if the request is one that
  `ChannelModes.AddExact` describes, for revivals by `ChannelModes.RevivalExact` and
  `ChannelModes.RevivalChannels`, and all states of a run are in order if and only if all its requests are
  (`ChannelModes.ValidInRuns`). Dropping the parameter of a mode in a rehash is enough to break that
  (`ChannelModes.RevivedOutOfOrder`).
- `addlettertomstring` does not look whether the letter is there. Over every run of edits no letter is held
  twice if and only if none is added that is held (`MemberModes.NoneTwiceInRuns`); a deletion takes a mode away
  if and only if it is held at most once (`MemberModes.DeleteTakesAway`); and over every run of the registry
  members have letters of member modes only if and only if no mode is removed that a member holds twice
  (`ChannelModes.LettersInRuns`). A doubled prefix in a join is enough (`ChannelModes.LetterStays`).
- A channel lasts as long as somebody is in it if and only if the hook never keeps one whose last user leaves,
  and none is made for a client that is not a user (`Channels.NoneEmptyInRuns`).
- Saved capability bits go through `int`: clearing is right if and only if the bit is below 2^31
  (`ClientCaps.ClearingExact`). Over a whole rehash all clients, whichever capabilities they have set, lose
  exactly those that are gone if and only if each of these was saved, among the first 79, with such a bit, or
  has a bit of at least 2^31 while a saved one with bit 2^31 is gone too, and in that case none that stays has
  such a bit (`ClientCaps.RehashExact`); otherwise the client with just the one capability in question is
  wrong (`ClientCaps.WrongForOne`).
- A capability that is removed outside a rehash stays on clients. No client ever has a bit that belongs to no
  capability if and only if nothing is removed in that way that a client has set, and no rehash removes one that
  a client has set and that is not among the first 79, or has a bit of at least 2^31 while no saved one with bit
  2^31 is gone (`ClientCaps.StaleInRuns`); otherwise the next capability is set on the client
  (`ClientCaps.SecondIsSet`).
- A negated module condition, or a module condition on a blacklisted module, is rejected in an early phase
  even if the module phase would accept it: the three phases equal the last one if and only if no entry
  that the last one keeps has such a condition (`Conditionals.PhasesInOrder`).
- A variable name longer than its buffer is looked up and printed cut, and a variable defined as `""` is printed
  as it is (`Defines.EmptyStays`): without a limit on its size the output would be the full substitution if and
  only if the item has no such names and variables (`Defines.PiecesSubstitute`). With the limit it has a known
  length (`Defines.CutFalls`), is a prefix of the full substitution if and only if it ends where the two still
  agree, which is at least up to the first of these (`Defines.AgreedExact`), and is all of it if and only if it
  also ends where that ends (`Defines.ReplaceIsSubstitution`); with a variable without a value in it, that takes
  a cut, and can happen (`Defines.CutWhereTheyAgree`).
- A comparison with a variable defined as `""` has no string to compare; it is not made if and only if a
  condition before it fails (`Conditionals.ResolveIf`). The copy of a list of conditions runs backwards and
  can lose that condition (`Conditionals.DuplicateUnguards`).
- A mask longer than 200 characters is stored cut and never recognised again (`ListModes.AddedTwice`,
  `ListModes.AddThenDelete`).
- A first 005 token of 379 bytes leaves the first line empty (`Packing.GreedyIsBest`, `ISupport.LinesSuffice`).
- An interval of an event may count as over up to 999 microseconds early (`Events.IntervalOver`), although
  the documentation of `EventAdd` says that events are never called early.
- `CmodeAdd` leaves an entry behind when it runs out of parameter slots (`ChannelModes.Table.Add`).
- `sort_character_lowercase_before_uppercase` goes in a circle through a lower case letter, an upper case
  letter and a character between `Z` and `a` (`LetterOrder.OrderHasACycle`): a sorted list stays sorted by an
  insertion if and only if it does not then have all three (`LetterOrder.InsertKeepsSorted`), and the lists of
  a run of either mode registry are all sorted if and only if none of them has (`UserModes.SortedInRuns`,
  `ChannelModes.SortedInRuns`).

## Model

| member | source | states |
|---|---|---|
| `Framing.ScanStep` | src/dbuf.c:152-177 | one byte of the three-phase scan keeps the relation between phase, counters and the scanned prefix, or ends the scan at the first byte of the next message |
| `Framing.ScanEnd` | src/dbuf.c:179-195 | at the end of the buffer only phase 2 has a message; otherwise exactly the leading blanks are dropped |
| `Framing.ExtractPreservesStream` | src/dbuf.c:132-195 | whatever bytes arrive later, one extraction takes exactly the first message (split at CR/LF, leading spaces stripped, empty lines dropped, cut) off the stream, or none |
| `Framing.ExtractNothing` | src/dbuf.c:132-195 | no message comes out exactly when none is complete, and then the buffer is the unterminated rest |
| `Framing.RunConservesStream` | src/dbuf.c:65-195 | for every interleaving of arrivals and extractions, delivered messages followed by those still buffered are the messages of the whole stream, and the unterminated rest is kept |
| `Framing.DeliveryDoesNotMatter` | src/dbuf.c:65-195 | once an extraction comes back empty, what was delivered and what is kept depend only on the concatenated stream, not on the chunks |
| `Framing.MessagesAreMessages` | src/dbuf.c:132-195 | no message has a CR or an LF in it, a space in front, no bytes, or more than 16382 |
| `Framing.LineIsDelivered` | src/dbuf.c:152-195 | a line that does not begin with a space and has a CR or an LF behind it is the next message, as far as 16382 bytes, whatever follows |
| `Framing.EolsAreTheSame` | src/dbuf.c:157-163 | putting CR for LF or LF for CR anywhere in a stream changes neither the messages nor the unterminated rest |
| `Dbuf.BlockCountBound` | include/dbuf.h:43 | n >= 2 blocks hold at least 2 + (n-2) * block size bytes; no blocks exactly when empty |
| `Dbuf.Block.Append` | src/dbuf.c:84-88 | copying bytes behind the contents of a block |
| `Dbuf.Block.Shift` | src/dbuf.c:118-120 | moving the rest of a block down drops exactly its first n bytes |
| `Dbuf.Queue.constructor` | src/dbuf.c:59-63 | a new queue is empty |
| `Dbuf.Queue.Alloc` | src/dbuf.c:33-46 | an empty block is linked in at the back of the ring; the other blocks keep their contents |
| `Dbuf.Queue.FreeFirst` | src/dbuf.c:51-57 | the first block is unlinked from the ring; the others keep their order and contents |
| `Dbuf.Queue.Walk` | include/list.h:504-507 | walking the ring visits exactly the blocks, in order, and ends at the head |
| `Dbuf.Queue.Put` | src/dbuf.c:65-94 | the flat contents get the bytes appended; lengths add up, no block is empty, inner blocks are full |
| `Dbuf.Queue.Delete` | src/dbuf.c:96-121 | the flat contents lose exactly the first n bytes, and the invariant of the blocks is kept |
| `Dbuf.Queue.GetMsg` | src/dbuf.c:132-195 | the scan across blocks returns the message, length, terminator and remaining contents of the flat extraction |
| `Dbuf.Queue.Get` | src/dbuf.c:202-224 | all contents, zero terminated, and an empty queue |
| `Dbuf.Queue.Execute` | src/dbuf.c:65-195 | any interleaving of puts and extractions on blocks behaves as on one flat string |
| `MemberModes.AddLetterToString` | src/api-channelmode.c:886-919 | the letter is inserted into the string value at the position its rank gives |
| `MemberModes.AddLetterToBuffer` | src/api-channelmode.c:886-919 | the same in place: the 8-byte buffer holds the new string and its terminator |
| `MemberModes.AddKeepsRanking` | src/api-channelmode.c:886-919 | adding keeps the string sorted by non-increasing rank and bounded, and adds exactly that letter |
| `MemberModes.AddGoesBefore` | src/api-channelmode.c:886-919 | for strings of any letters: a member mode goes in before the first letter whose mode ranks below it, while there are fewer than 7, and nothing else goes in |
| `MemberModes.DeleteKeepsRanking` | src/misc.c:2577-2590 | deleting removes one occurrence and keeps order and bound |
| `MemberModes.DeleteFirst` | src/misc.c:2577-2590 | the first of these letters is cut out, if there is one |
| `MemberModes.EditsKeepRanking` | src/api-channelmode.c:886-931 | no run of additions and deletions breaks order or bound |
| `MemberModes.NoneTwiceInRuns` | src/api-channelmode.c:886-931 | over every run of additions and deletions no letter is held twice if and only if none is added that is held while there is room |
| `MemberModes.DeleteTakesAway` | src/misc.c:2577-2590 | after a deletion the letter is not held if and only if it was held at most once |
| `MemberModes.AddedTwiceStays` | src/modules/sjoin.c:397-407 | any member mode that is added twice and deleted once is still held |
| `MemberModes.AddThenDelete` | src/api-channelmode.c:921-931 | adding a letter that is not held and deleting it again changes nothing |
| `MemberModes.JoinedLetters` | src/channel.c:550-552 | the letters of a join, added one by one: with unique letters the string has exactly the member mode letters among them, each as often as it was given, the first 7 if there are more; those of higher rank come first, and those of equal rank are in the order they were given |
| `MemberModes.LowestRankingMode` | src/api-channelmode.c:1138-1152 | the mode of the lowest rank among the letters asked for |
| `MemberModes.GenerateEqualOrGreater` | src/api-channelmode.c:1159-1174 | the letters of all member modes of at least the lowest rank asked for, as many as the buffer has room for |
| `MemberModes.RankedInOrder` | src/api-channelmode.c:1159-1174 | the letters come in registry order: at any place in the registry a member mode of at least the rank adds its letter there, and no other mode adds anything |
| `MemberModes.RankRoundTrip` | src/api-channelmode.c:1086-1102 | going from a rank to its mode and back gives the rank exactly when a member mode has it |
| `MemberModes.FirstOfRank` | src/api-channelmode.c:1086-1093 | of several member modes of a rank the first one is found |
| `MemberModes.CutExact` | src/api-channelmode.c:1159-1174 | the cut string gives everybody the same access as the uncut one if and only if the buffer had room for all letters, or there are none |
| `MemberModes.AccessUncut` | src/api-channelmode.c:820-849 | access by the uncut string holds if and only if a held member mode has at least the lowest rank asked for, and that rank is neither 0 nor the highest possible |
| `MemberModes.AccessExact` | src/api-channelmode.c:820-849 | access by the string in the buffer, when that had room for all letters, holds if and only if a held member mode has at least the lowest rank asked for, and that rank is neither 0 nor the highest possible |
| `MemberModes.AccessForMemberModes` | src/api-channelmode.c:1159-1174 | for member modes only, and a buffer with room: access if and only if some held mode ranks at least as high as some mode asked for that is below the highest possible rank |
| `Channels.Network.RefillMembers` | src/channel.c:113-132 | the batch allocation leaves a free struct and the whole graph valid |
| `Channels.Network.RefillMemberships` | src/channel.c:144-163 | the same for membership structs |
| `Channels.Network.AddUser` | src/channel.c:516-555 | a user gets one new matched pair at the front of both lists; with unique letters its modes are exactly the member mode letters among those asked for, each as often as given, the first 7 if there are more, by rank and then in the order given; every other struct is unchanged; the graph stays valid |
| `Channels.Network.RemoveUserWithMembership` | src/channel.c:567-606 | exactly that pair leaves both lists and goes back to the pools; an emptied channel leaves list, table and count exactly when the hook does not veto |
| `Channels.Network.RemoveUser` | src/channel.c:617-631 | afterwards the client has no membership of the channel; nothing happens if it had none; otherwise lists, table and structs are as after the removal of that membership |
| `Channels.Network.FindMembership` | src/channel.c:100-110 | the one membership of that channel, or none |
| `Channels.Network.Destroy` | src/channel.c:1059-1127 | an empty channel leaves the channel list, the name table and the count together |
| `Channels.Network.ChangeMemberMode` | src/api-channelmode.c:946-966 | both structs of the pair get the same edited mode string, others keep theirs; the graph stays valid |
| `Channels.Network.SetInvisible` | src/channel.c:1404-1424 | both structs of the pair get the flag, others keep theirs |
| `Channels.Network.MakeChannel` | src/channel.c:995-1042 | the channel with that folded name, or a new empty one in list, table and count |
| `Channels.CleanNameIs` | src/channel.c:1004-1017 | the name ends before the first control character, space, comma or colon, and after 32 characters |
| `Channels.Network.Run` | src/channel.c:516-631 | every run of connects, joins, removals, mode and invisibility changes on the structs is the run of the graph as a value (who has which modes and flag in which channel, and which channels there are, in order), and keeps the whole graph invariant, including well ranked mode strings |
| `Channels.Network.Step` | src/channel.c:516-1042 | the same for one command |
| `Channels.Network.ValueOk` | include/struct.h:2520-2556 | the value of a valid graph has distinct channel names, and seats in existing channels only |
| `Channels.Network.SeatIff` | src/channel.c:100-110 | a client has a seat in a channel if and only if it lists a membership of it |
| `Channels.Network.NobodyIff` | src/channel.c:567-606 | nobody has a seat in a channel if and only if its member list is empty |
| `Channels.NoneEmptyInRuns` | src/channel.c:567-606 | over every run there is somebody in every channel if and only if none is made that nobody joins, and none is kept by the hook when its last user leaves |
| `Channels.JoinTakesEffect` | src/channel.c:516-555 | after a join command a user has a seat in the channel, with the modes asked for and visible if it is new; the channel is in the list, in front if it is new; no other seat has changed |
| `Channels.PartTakesEffect` | src/channel.c:567-631 | after a removal the client has no seat there, exactly the name of the channel is gone if nobody else has a seat and the hook lets it go, and no other seat has changed |
| `Channels.ChangeTakesEffect` | src/api-channelmode.c:946-966 | a mode change edits the modes of the seat and a change of visibility sets its flag; no other seat changes, and nothing without a seat |
| `Channels.ConnectTakesEffect` | src/list.c:96-147 | a client who connects comes last, as what it is, and is in no channel |
| `Channels.Network.MatchedOneToOne` | include/struct.h:2520-2556 | in every valid graph `related` maps members of channels to memberships of clients and back, injective both ways, and matched structs agree on modes and invisibility |
| `Channels.Network.MembersRanked` | src/api-channelmode.c:886-966 | in every reachable state the mode string of every member of every channel is sorted by rank, has member modes only and fits its buffer, if no two modes share a letter |
| `Channels.Network.UsersEqualJoined` | src/channel.c:516-606 | the user counts of all channels and the join counts of all clients have the same sum |
| `Channels.Network.PoolsConserve` | src/channel.c:113-173 | every struct ever allocated is on its free list or in one live list, and the counts add up |
| `Channels.Network.LocalMembersExact` | src/channel.c:530-549 | `local_members` lists each member with a local client once, and nobody else |
| `ModeLine.ChannelModes` | src/channel.c:679-718 | the two buffers hold the printed line for the given sizes, or nothing for size 0; `ModeLine.PrintedAreSet` says what that line means |
| `ModeLine.PrintIsCut` | src/channel.c:679-718 | the buffers hold the full texts cut to their sizes |
| `ModeLine.ParseMode.Next` | src/channel.c:1164-1282 | each call of the iterator delivers the next item of the whole line, or ends it exactly when nothing is left; `ModeLine.ChangesReadBack` says what the items of a line are; whether the line stays inside the parameter buffer is decided by what is left of it |
| `ModeLine.ParseMode.All` | src/channel.c:1134-1162 | the loop of callers collects exactly the items of the line, and stays inside the parameter buffer if and only if no parameter is a long word followed by a space |
| `ModeLine.StoredFits` | src/channel.c:1256-1271 | the bytes stored for one parameter, terminator included, fit the buffer if and only if the word is not a long one with a space behind it |
| `ModeLine.LongBan` | src/channel.c:1256-1271 | a ban of 512 bytes with a space behind it takes 513 bytes of the buffer of 512, whatever modes are registered |
| `ModeLine.ShortParams` | src/channel.c:1164-1282 | parameters of at most 512 bytes in all always stay inside |
| `ModeLine.ReadBack` | src/channel.c:1164-1282 | letters of registered modes against their parameters read back as those modes |
| `ModeLine.ParseBounds` | src/channel.c:1164-1282 | at most one item per letter, and at most the non-space bytes as parameters |
| `ModeLine.PrintThenParse` | src/channel.c:679-718 | printing and reading back gives the set modes in registry order, all as additions, each with its own parameter |
| `ModeLine.PrintThenParseExact` | src/channel.c:1164-1282 | with parameters shown this holds if and only if the buffers are large enough |
| `ModeLine.PrintedAreSet` | src/channel.c:679-718 | with large enough buffers the line reads back as additions, in registry order, of exactly the registered modes whose bit is set on the channel, without local modes if these are hidden and without parameter modes if parameters are; each parameter mode has the parameter of the channel |
| `ModeLine.ChangesReadBack` | src/channel.c:1164-1282 | any list of additions and deletions, written with signs, letters and parameters, reads back as the same list, each change with its own parameter: b, e and I have one either way, a parameter mode when it is added, and when it is deleted if it is unset with one |
| `ModeLine.PassedOver` | src/channel.c:1208-1254 | a letter that nobody handles is passed over, and so is one that takes a parameter when none is left |
| `ModeLine.TakeAnyWord` | src/channel.c:1256-1271 | of a word with a space behind it 512 characters are taken as the parameter, of the last word 511, and the cursor is behind the space |
| `ModeLine.StripBehind` | src/channel.c:1256-1271 | what is behind a CR or an LF is no part of the parameter |
| `ListModes.BanList.Add` | src/channel.c:243-306 | over the list before: where an identical entry is first, it is replaced in its place unless it is as old or older, and nothing else changes; where there is none, the new one comes first unless the list is full; an entry has mask and setter, cut to their limits, and time; the outcome tells which |
| `ListModes.BanList.Del` | src/channel.c:324-344 | over the list before: the first identical entry is cut out and all others stay, in order; where there is none, nothing changes; the outcome tells which |
| `ListModes.MergeStep` | src/channel.c:243-306 | an add keeps one entry per folded mask, stored from one of the added bans, none of which is older |
| `ListModes.OldestWins` | src/channel.c:293-305 | after any adds an entry has the smallest time added for its mask, and is one of the added bans |
| `ListModes.OrderDoesNotMatter` | src/channel.c:243-306 | the same bans in any order give lists with the same masks and times, and the same entries when times differ |
| `ListModes.ServersConverge` | src/channel.c:243-306 | two servers that send each other their lists end up with lists that agree |
| `ListModes.LimitHolds` | src/channel.c:253-287 | no run of local adds and deletions pushes a list past the limit |
| `ListModes.RunKeepsUnique` | src/channel.c:243-344 | no run makes two entries with identical masks, as long as masks fit |
| `ListModes.AddedTwice` | src/channel.c:262-305 | a repeated add makes a second entry if and only if the mask is too long |
| `ListModes.AddThenDelete` | src/channel.c:324-344 | deletion undoes an add if and only if the mask was not too long |
| `ListModes.DeletedIsGone` | src/channel.c:324-344 | after a deletion no identical entry is left |
| `Runs.Throughout` | src/api-moddata.c:113-398 | for any state machine: from a good state all states of a run are good if and only if no command of it spoils one, when that is known of single commands |
| `Registry.RunIsRun` | src/api-usermode.c:175-364 | a state machine whose commands are operations of the registry goes, in every run, through tables that are a run of the registry |
| `Registry.RunKeepsDistinct` | src/api-usermode.c:175-284 | over every run of register, mark, revive and remove no two entries share an identifier |
| `Registry.NameKeepsId` | src/api-moddata.c:113-180 | a name keeps its identifier while it is in the table, through marking and revival |
| `Registry.IdStaysReserved` | src/api-clicap.c:113-300 | until an entry is removed nobody else gets its identifier |
| `UserModes.Table.Run` | src/api-usermode.c:175-429 | every run of registrations, removals, commits, new users and mode changes on the objects is the run of the state machine, and index and letter string agree with the list at the end |
| `ChannelModes.Table.Run` | src/api-channelmode.c:311-724 | the same for channel modes, with channels and members that come, go and change modes, for all requests: up to and with the first one that leaves the tables out of order |
| `ModData.Table.Run` | src/api-moddata.c:113-398 | the same for module data, with objects that come, go and are written to |
| `ClientCaps.Table.Run` | src/api-clicap.c:113-383 | the same for client capabilities, with clients that come, go and set them, and with the steps of a rehash |
| `UserModes.RunsAreRuns` | src/api-usermode.c:175-364 | in every run all states are valid, and the tables after each command are a run of the registry by the operations that the commands stand for |
| `UserModes.StaleInRuns` | src/api-usermode.c:326-352 | over every run no user has a bit that belongs to no mode if and only if no mode is removed that a user of another server has |
| `UserModes.NewBitIsUnset` | src/api-usermode.c:198-215 | a bit handed out in such a state is on no user at all |
| `UserModes.SendInRuns` | src/api-usermode.c:238-240 | over every run `SendUmodes` has exactly the bits of the global modes if and only if no global mode is removed, or revived as a local one |
| `UserModes.SecondIsSet` | src/api-usermode.c:326-352 | a run after which a user of another server has a mode that was never set, and a local mode is in `SendUmodes` |
| `UserModes.SortedInRuns` | src/api-usermode.c:124-161 | over every run the lists are all sorted if and only if none mixes the three kinds of characters |
| `UserModes.UnloadIs` | src/api-usermode.c:354-364 | the loop removes exactly the marked modes, and leaves bits on users or in `SendUmodes` if and only if one of them has some there |
| `ChannelModes.RunsAreRuns` | src/api-channelmode.c:311-591 | as for user modes, for runs of allowed requests, with bits, slots, both slot maps and all channels in order after each command |
| `ChannelModes.StaleInRuns` | src/api-channelmode.c:482-591 | over every run of allowed requests no channel points to a freed parameter if and only if no mode is removed that takes a parameter and has one on some channel |
| `ChannelModes.ValidInRuns` | src/api-channelmode.c:311-591 | all states of a run are in order if and only if every request on the way is allowed where it comes |
| `ChannelModes.RevivedOutOfOrder` | src/api-channelmode.c:390-437 | a run that leaves the tables out of order: a parameter mode that is registered again without a parameter |
| `ChannelModes.LettersInRuns` | src/api-channelmode.c:549-572 | over every run of allowed requests members have letters of member modes only if and only if no member mode is removed whose letter some member has twice |
| `ChannelModes.LetterStays` | src/api-channelmode.c:549-572 | a run after which a member has the letter of a mode that is gone |
| `ChannelModes.SecondFollowsFreed` | src/api-channelmode.c:482-546 | a run after which the list of a channel has a freed parameter in a slot in use |
| `ChannelModes.SortedInRuns` | src/api-channelmode.c:264-299 | as for user modes, for all requests |
| `ModData.RunsAreRuns` | src/api-moddata.c:113-398 | as for user modes |
| `ModData.StaleInRuns` | src/api-moddata.c:238-398 | over every run no object holds data in a slot that nobody owns if and only if no removal leaves some on an object that its loops do not reach |
| `ModData.NeverStaleExact` | src/api-moddata.c:238-334 | no run at all has such data if and only if the type is that of variables, channels or members |
| `ModData.SecondNameSeesData` | src/api-moddata.c:238-334 | for every type and every object that the loops miss: a run, with the move out of the handshake where there is one, after which the next name sees data of the one before |
| `ModData.ServerKeepsData` | src/modules/server.c:1581-1583 | the case of a client that is written to in its handshake and becomes a linked server |
| `ClientCaps.RunsAreRuns` | src/api-clicap.c:113-383 | as for user modes |
| `ClientCaps.StaleInRuns` | src/api-clicap.c:236-383 | over every run of whole rehashes and commands between them no client has a bit that belongs to no capability if and only if nothing is removed between rehashes that a client has set, and no rehash removes one that a client has set and that is below 2^31 and not among the first 79, or above while no saved one with bit 2^31 is gone |
| `ClientCaps.UnclearedExact` | src/api-clicap.c:330-383 | which of the capabilities that are gone the saved bits do not clear |
| `ClientCaps.NewBitIsUnset` | src/api-clicap.c:113-135 | a bit handed out in such a state is on no client |
| `ClientCaps.SecondIsSet` | src/api-clicap.c:236-261 | a run after which a client has a capability set that it never set |
| `Bits.FirstFreeBit` | src/api-usermode.c:198-215 | the loop finds the same bit as the recursion it is proved against |
| `Bits.FreeBitIs` | src/api-usermode.c:198-215 | the lowest power of two in range that is not in use, or 0 when all are |
| `Bits.AtMost` | src/api-channelmode.c:335-355 | distinct powers of two below 2^(first+n) number at most n |
| `LetterOrder.InsertKeepsSorted` | src/misc.c:2592-2602 | insertion before the first letter that sorts behind keeps a sorted list sorted if and only if the letters are then not mixed: lower case, upper case and between `Z` and `a` all at once |
| `LetterOrder.OrderHasACycle` | src/misc.c:2592-2602 | three characters of which each sorts before the next, in a circle |
| `LetterOrder.OrderIs` | src/misc.c:2592-2602 | all small letters sort before all capitals, and characters otherwise by their codes |
| `LetterOrder.MixedIsUnsorted` | src/misc.c:2592-2602 | no order of mixed letters is sorted |
| `LetterOrder.RemoveKeepsSorted` | src/api-usermode.c:326-352 | removal keeps a list sorted |
| `UserModes.Table.Add` | src/api-usermode.c:175-252 | revival with the old bit, refusal of an existing mode, or a new mode with the lowest bit that no entry owns, marked or not; both bit sets, index and letter string follow |
| `UserModes.AddedAsRequested` | src/api-usermode.c:175-252 | after a registration the letter has an unmarked entry with the bit handed out and both properties as requested, the bit is in the sets it belongs to, and no other mode, bit or user has changed |
| `UserModes.AddOutcome` | src/api-usermode.c:175-252 | when a registration is refused: the letter has an unmarked mode, or it is new and all bits are taken; nothing changes then; a marked mode gets its bit back |
| `UserModes.Table.Del` | src/api-usermode.c:260-284 | marks during a rehash, removes otherwise |
| `UserModes.Table.Commit` | src/api-usermode.c:326-352 | the mode and the bit of every local user are gone, nothing else changes, and index and letter string follow |
| `UserModes.RemoveTakesEffect` | src/api-usermode.c:260-352 | exactly the one mode leaves the list, and its bit exactly the local users; in a rehash it is marked and nothing else changes |
| `UserModes.UnloadTakesEffect` | src/api-usermode.c:354-364 | exactly the marked modes leave the list, and their bits exactly the local users |
| `UserModes.Table.UnloadAllUnused` | src/api-usermode.c:354-364 | the loop over the list, entry by entry; `UserModes.UnloadIs` says what it comes to |
| `UserModes.Table.SetOnUser` | src/api-usermode.c:409-429 | a mode is set on or taken from a user by the bit of its letter, and nothing changes for a letter without one |
| `UserModes.SetTakesEffect` | src/api-usermode.c:409-429 | a user has a mode after it is set and not after it is taken away, and no other bit or user changes |
| `UserModes.Table.Create` | src/api-usermode.c:124-161 | a new mode enters at its sorted position, in the index and in the letter string |
| `UserModes.Table.MakeString` | src/api-usermode.c:81-96 | the string lists all letters in order, and the index, which may lack entries that are not marked, points at all afterwards |
| `UserModes.Table.FindByScan` | src/api-usermode.c:409-429 | the bit of the first unmarked mode of that letter, or 0 |
| `UserModes.LookupsAgree` | src/api-usermode.c:409-429 | fast and scanning lookup agree if and only if the mode is not marked |
| `UserModes.Table.IndexFinds` | src/api-usermode.c:409-416 | the lookup through the index finds the bit of the mode of that letter in the list, marked or not, or 0 |
| `UserModes.Table.StringFits` | src/api-usermode.c:81-96 | bits run out before the letter string does |
| `ChannelModes.Table.Add` | src/api-channelmode.c:311-448 | every outcome of registration, for all requests: bit, slot, both slot maps, the revived record, and the entry left behind when slots run out; channels are unchanged |
| `ChannelModes.AddedAsRequested` | src/api-channelmode.c:311-448 | after a registration the handler found for the letter has kind, rank, parameters and flags as requested and the bit handed out, its slot is in both maps, and no other mode, slot or channel has changed |
| `ChannelModes.AddOutcome` | src/api-channelmode.c:311-388 | when a registration is refused and with which error: the letter has an unmarked mode; a new member mode lacks something; bits or, for a parameter mode, slots have run out; nothing changes then, except that in the last case an entry without parameter stays |
| `ChannelModes.AddExact` | src/api-channelmode.c:311-448 | tables and channels are in order after a request if and only if it is allowed: refused, or a new mode with 0 or 1 parameters, or a revival that fits the entry and the channels that have it set |
| `ChannelModes.Table.Del` | src/api-channelmode.c:454-474 | marks during a rehash, removes otherwise |
| `ChannelModes.Table.Commit` | src/api-channelmode.c:482-576 | entry and slot are gone; every channel loses exactly the bit of a normal mode, keeping a pointer to its freed parameter, or every member exactly the letter of a member mode; everything else on channels stays; no struct is freed twice if and only if none that it frees was free |
| `ChannelModes.RemoveTakesEffect` | src/api-channelmode.c:454-576 | exactly the one mode leaves the list, and its slot both maps; a channel loses the bit of a normal mode only, and its struct is still there, freed if the bit was set; a member loses the first letter of a member mode only; in a rehash the mode is marked and nothing else changes |
| `ChannelModes.Table.UnloadAllUnused` | src/api-channelmode.c:579-591 | the loop over the list, entry by entry; `ChannelModes.UnloadIs` says what it comes to |
| `ChannelModes.UnloadIs` | src/api-channelmode.c:579-591 | the loop removes exactly the marked modes; a pointer to freed memory is left if and only if one of them takes a parameter and has one on some channel |
| `ChannelModes.Table.DropChannel` | src/channel.c:1059-1127 | a channel that is destroyed has its parameters freed, none twice if and only if its list has no freed struct in a slot in use |
| `ChannelModes.CleanFreesOnce` | src/api-channelmode.c:510-546 | without pointers to freed memory a removal frees nothing twice |
| `ChannelModes.FreedTwiceExact` | src/api-channelmode.c:510-546 | a removal frees something twice if and only if a channel that has the mode set points, in its slot, to a struct that was left behind |
| `ChannelState.CommitLeavesStale` | src/api-channelmode.c:510-546 | one removal leaves a pointer to freed memory if and only if the mode takes a parameter and some channel points to one in its slot |
| `ChannelState.CommitLeavesLetters` | src/api-channelmode.c:549-572 | one removal leaves a letter with a member if and only if it is that of the removed member mode, and a member has it twice |
| `ChannelModes.FreeSlotIsEmpty` | src/api-channelmode.c:390-411 | a slot free to be handed out holds nothing on any channel but, at most, pointers to freed memory, and nothing at all when there are none of those |
| `ChannelModes.Table.SetMode` | src/api-channelmode.c:623-626 | a mode is set on a channel with its parameter in its own slot, written through the pointer that is there; no other channel, bit or slot changes |
| `ChannelModes.SetTakesEffect` | src/api-channelmode.c:623-626 | after a mode is set its bit is on the channel and the text in its slot, and no other bit, slot, member or channel has changed |
| `ChannelModes.Table.UnsetMode` | src/api-channelmode.c:632-637 | a mode is unset and its parameter freed, its slot cleared unless the mode keeps the struct; nothing is freed twice if and only if the struct was not freed |
| `ChannelModes.UnsetTakesEffect` | src/api-channelmode.c:632-637 | after it is unset its bit is gone and its slot empty unless the mode keeps the struct, and nothing else has changed |
| `ChannelModes.Table.ChangeMembers` | src/api-channelmode.c:946-966 | the mode string of a member is made, edited or goes |
| `ChannelModes.RevivalExact` | src/api-channelmode.c:390-437 | filling a marked entry from a request keeps bits, slots and both maps in order if and only if kind and parameters allow it |
| `ChannelModes.RevivalChannels` | src/api-channelmode.c:390-395 | the channels are in order afterwards if and only if those that have the mode set have something in the slot it now takes |
| `ChannelModes.ReviveKeepsSlots` | src/api-channelmode.c:390-395 | entering a revived mode's slot again changes neither slot map |
| `ChannelModes.Table.HandlerSlot` | src/api-channelmode.c:245-262 | the handler found through a slot has that slot: the two maps are inverse |
| `ChannelModes.Table.DuplicateParams` | src/api-channelmode.c:690-706 | every parameter set by a registered mode is copied, unused slots are untouched, and no freed struct is read if and only if the list has none in a slot in use |
| `ChannelModes.Table.FreeParams` | src/api-channelmode.c:711-724 | the parameter of every registered mode is cleared, and none is freed twice if and only if the list has no freed struct in a slot in use |
| `ChannelModes.Table.CleanIsSafe` | src/api-channelmode.c:690-724 | without pointers to freed memory the lists of all channels are copied and freed soundly |
| `ChannelModes.Table.MakeRows` | src/api-channelmode.c:54-85 | the rows of CHANMODES, each with room for its terminator |
| `ChannelModes.RowsPartition` | src/api-channelmode.c:54-85 | every normal mode is in exactly one row: unset with its parameter, set with one only, or without; member modes are in none |
| `ChannelModes.RowIs` | src/api-channelmode.c:54-85 | a row lists its modes in registry order |
| `ChannelModes.RowFits` | src/api-channelmode.c:54-85 | bits run out before a row does |
| `ModData.Table.Add` | src/api-moddata.c:113-180 | revival with the old slot, or the slot above the highest in use, or refusal at the limit |
| `ModData.AddedAsRequested` | src/api-moddata.c:113-180 | after a registration the name has an unmarked entry with the priority requested and the slot handed out, above all others and below the limit if it is new; no other entry has changed |
| `ModData.AddOutcome` | src/api-moddata.c:113-150 | when a registration is refused: the name has an unmarked entry, or it is new and an entry has the last slot below the limit or one behind it; nothing changes then; a marked entry gets its slot back |
| `ModData.WriteTakesEffect` | include/modules.h:163-169 | what is written to an object under an entry is in its slot afterwards, and no other slot, object or entry changes |
| `ModData.Table.Del` | src/api-moddata.c:341-374 | marks during a rehash, removes otherwise |
| `ModData.Table.Commit` | src/api-moddata.c:238-334 | exactly that entry leaves, its slot is zeroed on every object that is reached, nothing else changes |
| `ModData.RemoveTakesEffect` | src/api-moddata.c:238-374 | exactly the one entry leaves, and its slot is zero on the objects that are reached; no other slot or object changes; in a rehash the entry is marked and nothing else changes |
| `ModData.UnloadTakesEffect` | src/api-moddata.c:376-398 | the same for exactly the marked entries |
| `ModData.Table.ZeroSlot` | src/api-moddata.c:238-329 | the loops of a type, list by list, zero the slot on exactly the objects that are on one of its lists |
| `ModData.Table.ZeroOnList` | src/api-moddata.c:254-269 | one loop, over one list |
| `ModData.Table.MoveObject` | src/modules/nick.c:1166 | a client leaves the handshake with its data |
| `Holders.ReachedExact` | src/api-moddata.c:238-334 | which objects are on none of the lists that are walked for their type: servers, control clients and this server, memberships of remote users |
| `Holders.MissedStays` | src/proc_io_server.c:71-72 | only what is reached changes its lists, so nothing that is missed is reached later |
| `Holders.AllWalkedExact` | src/api-moddata.c:238-334 | the types of which every object is reached: variables, channels and members |
| `ModData.Table.UnloadAllUnused` | src/api-moddata.c:376-398 | exactly the marked entries leave, and their slots are zeroed on every object that is reached |
| `ModData.NewSlotIsZero` | src/api-moddata.c:238-334 | the slot that the next name gets is zero on all objects if and only if none that is missed holds something in it; always for variables, channels and members |
| `ModData.PrioritySplits` | src/list.c:515-555 | in a list in order of priority a new entry comes behind exactly those of lower priority |
| `ModData.OrderedInRuns` | src/api-moddata.c:113-180 | over every run the entries are in order of priority if and only if no marked one is registered again with a priority that is out of order between its neighbours |
| `ModData.RevivedOutOfOrder` | src/api-moddata.c:122-165 | a run after which they are not: the first of two names is registered again with the highest priority |
| `Holders.CommitKeepsHolders` | src/api-moddata.c:238-334 | zeroing keeps reached objects free of stale data, and leaves some if and only if an object that is missed holds it |
| `Holders.UnownedSlotIsZero` | src/api-moddata.c:238-334 | a slot nobody owns is zero on all objects if and only if none that is missed holds something in it |
| `ModData.SlotsFitArray` | src/api-moddata.c:37-46 | slots under the limit fit the arrays, for every type but memberships |
| `ModData.NewSlotOutside` | src/api-moddata.c:122-150 | in every table a new name is handed a slot outside the array if and only if the type is membership, a slot is left below the limit, and an entry has the last place or one behind it |
| `ModData.SlotsFitThroughout` | src/api-moddata.c:113-180 | over every run of commands all slots fit the array if and only if nothing is registered while its last place is taken |
| `ModData.HoleStays` | src/api-moddata.c:122-143 | removing any entry but the highest does not change the next slot |
| `ModData.FourNamesOverflow` | src/api-moddata.c:44 | after four additions and one removal the fourth name gets slot 4 of an array of 4 |
| `ModData.MembershipAddsOnly` | src/api-moddata.c:44 | with additions only, membership slots fit if and only if there are at most 4 names |
| `ClientCaps.Table.FindReal` | src/api-clicap.c:50-61 | the first capability with that folded name, or none |
| `Casemap.FoldIsSame` | src/match.c:272-301 | folds are equal exactly when the names have equal length and letter by letter are the same, or small and capital form of one of the 26 |
| `ClientCaps.SetTakesEffect` | src/api-clicap.c:103-111 | a client has a capability after it is set and not after it is cleared, and no other bit or client changes |
| `ClientCaps.Table.Add` | src/api-clicap.c:160-234 | revival with the old bit, or an abort when a capability that owns a bit is revived without wanting one; refusal; or a new capability with the lowest free bit if it wants one |
| `ClientCaps.AddedAsRequested` | src/api-clicap.c:160-234 | after a registration the name has an unmarked entry with the bit handed out, in front if it is new and with a bit exactly if one was wanted; no other capability has changed |
| `ClientCaps.AddOutcome` | src/api-clicap.c:113-234 | when a registration is refused or ends the server: the name has an unmarked entry; it is new, wants a bit and all are taken; it is marked with a bit that is not wanted; a marked one gets its bit back otherwise |
| `ClientCaps.Table.Del` | src/api-clicap.c:267-288 | marks during a rehash, removes otherwise |
| `ClientCaps.Table.Commit` | src/api-clicap.c:236-261 | exactly that entry leaves |
| `ClientCaps.RemoveTakesEffect` | src/api-clicap.c:236-300 | exactly the one capability leaves, or exactly the marked ones in an unload, and the clients keep what they have; in a rehash it is marked and nothing else changes |
| `ClientCaps.Table.UnloadAllUnused` | src/api-clicap.c:290-300 | exactly the marked capabilities are removed |
| `ClientCaps.ClearingExact` | src/api-clicap.c:303-345 | clearing through the saved `int` is clearing of that bit if and only if the bit is below 2^31 |
| `ClientCaps.ThroughIntClears` | src/api-clicap.c:330-345 | a bit that went through `int` clears exactly itself below bit 31, all bits from 31 on for bit 31, and none above |
| `ClientCaps.ClearedBits` | src/api-clicap.c:330-345 | what a client has after the saved copy of bit k was cleared: the bits it had, without bit k if that is below 31, without all from 31 on if it is 31, and all of them if it is higher |
| `ClientCaps.ClearsByNumber` | src/api-clicap.c:330-345 | the same relation on bits as numbers, as the tables use it |
| `ClientCaps.Table.PreRehash` | src/api-clicap.c:303-327 | names and bits of the first 79 capabilities are saved, in order |
| `ClientCaps.Table.CheckForChanges` | src/api-clicap.c:352-383 | every client loses what the saved bits of the names that are gone clear, and nothing else |
| `ClientCaps.CheckTakesEffect` | src/api-clicap.c:352-383 | a client keeps a bit if and only if it had it and no saved capability whose name is gone clears it; the saved lists are empty then |
| `ClientCaps.RehashIsRun` | src/api-clicap.c:290-383 | saving, any registrations and removals, unloading and comparing, as a run of commands, leaves the unmarked capabilities, and every client as compared with the list saved before |
| `ClientCaps.RehashExact` | src/api-clicap.c:303-383 | every client, whichever registered capabilities it has set, loses exactly those that are gone if and only if each that is gone was saved with a bit below 2^31, or has a higher one while a saved one with bit 2^31 is gone, and in that case none that stays has such a bit |
| `ClientCaps.WrongForOne` | src/api-clicap.c:303-383 | where a capability does not meet that, the client that has set just this one keeps or loses it wrongly |
| `ClientCaps.RehashClearsGone` | src/api-clicap.c:352-383 | with saved bits that fit, 0 included, a client keeps a bit if and only if every saved capability with it is still there |
| `Conditionals.ResolveIf` | src/conf_preprocessor.c:596-760 | true exactly when every condition of the list holds in the phase; no comparison lacks a string if and only if a failing condition stands before every comparison with a variable that has no value |
| `Conditionals.Comparisons` | src/conf_preprocessor.c:632-652 | the six operators against the order of the strings: each says which of the two is less, or that neither is |
| `Conditionals.MinimumIsGE` | src/conf_preprocessor.c:665-670 | a minimum version is the comparison of the server version by "greater or equal", in every phase |
| `Conditionals.TestsAsk` | src/conf_preprocessor.c:596-745 | each of the other tests passes when its name is there and fails when it is not, whatever else there is; before the module phase the tests on modules look at the blacklist only, or at nothing |
| `Conditionals.ComparesValue` | src/conf_preprocessor.c:675-745 | a comparison fails for a name that is not there, and otherwise compares what is there |
| `Conditionals.DuplicateList` | src/conf_preprocessor.c:563-580 | the copy runs backwards |
| `Conditionals.DuplicateMeansTheSame` | src/conf_preprocessor.c:563-580 | which resolves to the same |
| `Conditionals.DuplicateUnguards` | src/conf_preprocessor.c:563-580 | but a comparison that a failing condition guards in the list comes first in the copy |
| `Conditionals.PrunedTwice` | src/conf_preprocessor.c:762-790 | pruning by one set of phases and then another is pruning by both |
| `Conditionals.Idempotent` | src/conf_preprocessor.c:762-790 | pruning twice in a phase changes nothing more |
| `Conditionals.PrunedIs` | src/conf_preprocessor.c:762-790 | at any place in a list an entry stays if all its conditions hold, with name and conditions as they are and its items pruned, and goes otherwise; the entries before and behind it are pruned on their own and keep their order |
| `Conditionals.ThreePhases` | src/conf_preprocessor.c:602-630 | all phases together keep what the module phase keeps if and only if no entry it keeps has a condition that an early phase rejects |
| `Conditionals.PhasesInOrder` | src/conf.c:2500-2515 | the same for the phases one after the other |
| `Conditionals.NotNegated` | src/conf_preprocessor.c:602-630 | nothing is lost early without negated module conditions, if no loaded module is blacklisted |
| `Conditionals.NegatedModuleIsLost` | src/conf_preprocessor.c:748-752 | a negated module condition loses an entry that the module phase keeps |
| `ConfigTree.DropEntry` | src/conf_preprocessor.c:772-786 | an entry leaves the list by a new head or by its predecessor, at any position |
| `ConfigTree.ResolveItems` | src/conf_preprocessor.c:787-788 | the items of a kept entry are pruned in place, everything else stays linked |
| `ConfigTree.ResolveConditionals` | src/conf_preprocessor.c:762-790 | relinking in place gives the list of the pruned tree, in order; every entry is kept or freed, never both |
| `ConfigTree.ResolvePhases` | src/conf.c:2500-2511 | the three phases in memory give the tree pruned by all of them, which is what the module phase alone gives if and only if no entry that phase keeps has a condition that an early phase rejects |
| `Defines.ReplaceDefines` | src/conf_preprocessor.c:842-919 | the buffer holds the pieces of the item, variables without a value as they are, written out until the budget is used up |
| `Defines.SubstituteParts` | src/conf_preprocessor.c:855-916 | the full substitution of an item written as plain characters, `$$` and variables: characters stay, `$$` is a dollar sign, a defined variable is its value, another one stays as it is |
| `Defines.EmitIsPrefix` | src/conf_preprocessor.c:855-916 | the output is a prefix of the texts of the pieces and within the budget |
| `Defines.EmitComplete` | src/conf_preprocessor.c:907-913 | nothing is lost if and only if the budget covers every piece |
| `Defines.PiecesSubstitute` | src/conf_preprocessor.c:864-906 | the pieces spell the full substitution if and only if every name fits its buffer and every defined variable used has a value |
| `Defines.EmitNotLonger` | src/conf_preprocessor.c:869-872 | while no variable without a value is reached, the output is not longer than the substitution: a name that does not fit loses characters that nothing makes up for |
| `Defines.EmptyAddsDollar` | src/conf_preprocessor.c:889-904 | a variable without a value adds a dollar sign to the output that the substitution does not have |
| `Defines.EmitBefore` | src/conf_preprocessor.c:855-916 | while none is reached, for every budget: the output is the full substitution if and only if names and output before the first one fit and nothing but such variables follows |
| `Defines.ReplaceWithValues` | src/conf_preprocessor.c:842-919 | with a value for every defined variable used: the full substitution if and only if names and output fit |
| `Defines.EmptyStays` | src/conf_preprocessor.c:835-904 | with X defined as `""`, `$X` comes out as it is |
| `Defines.CutWhereTheyAgree` | src/conf_preprocessor.c:907-913 | an item with a variable without a value whose output is the full substitution all the same, by the cut |
| `Defines.ReplaceIsSubstitution` | src/conf_preprocessor.c:842-919 | the result has a known length and fits the buffer; it is a prefix of the full substitution if and only if it is not longer than the two agree, and all of it if and only if it also has its length; unless a variable without a value is reached, the latter holds if and only if names and output before the first one fit and nothing but such variables follows; when one is reached, not without a cut |
| `Defines.CutFalls` | src/conf_preprocessor.c:906-913 | the length of the output: all of it if the budget covers every piece, and otherwise the budget less one byte for each expansion begun |
| `Defines.AgreedExact` | src/conf_preprocessor.c:864-906 | how far output and substitution agree: throughout without long names and variables without a value; up to the first of these otherwise, 511 bytes further for a long name, and not beyond a variable without a value unless what follows it starts with a dollar sign |
| `Defines.PutPiece` | src/conf_preprocessor.c:858-913 | one round of the loop puts out a piece, cut to what is left of the budget |
| `Defines.NothingToSubstitute` | src/conf_preprocessor.c:852-853 | an item without a dollar sign is its own substitution |
| `Ring.MutualInverses` | include/list.h:38-40 | next and prev undo each other on every node of a list |
| `Ring.InitListHead` | include/list.h:57-61 | an empty list |
| `Ring.AddBetween` | include/list.h:69-77 | the entry comes between the two neighbours, at any position |
| `Ring.ListAdd` | include/list.h:87-90 | the entry comes first |
| `Ring.ListAddTail` | include/list.h:101-104 | the entry comes last |
| `Ring.ListDel` | include/list.h:125-134 | the entry leaves, the others keep their order, and it becomes an empty list |
| `Ring.LengthTests` | include/list.h:207-253 | the two tests tell lists of length 0 and 1 |
| `Ring.CutPosition` | include/list.h:255-265 | the entries up to the given one move, the rest stay, both in order |
| `Ring.ListCutPosition` | include/list.h:281-293 | the same with the special cases: empty list, single foreign entry, the head itself |
| `Ring.SpliceBetween` | include/list.h:295-306 | a whole list goes between two neighbours, at any position |
| `Ring.ListSplice` | include/list.h:314-319 | a list goes in front of another |
| `Ring.ListSpliceTail` | include/list.h:326-331 | a list goes behind another |
| `Ring.ListSpliceInit` | include/list.h:340-348 | in front, and the source list is empty |
| `Ring.CutThenSplice` | include/list.h:255-348 | cutting at any entry into an empty list and splicing back restores the order |
| `Packing.OverflowsExact` | src/api-isupport.c:292 | on a line with words, the test for a new line says exactly whether the next word does not fit |
| `Packing.GreedyPacks` | src/api-isupport.c:282-304 | the lines hold all words in order, each line within both limits |
| `Packing.GreedyFills` | src/api-isupport.c:292-299 | a line is full: the first word of the next one does not fit on it |
| `Packing.StaysAhead` | src/api-isupport.c:282-304 | at every word the greedy packing has used no more lines than any other packing |
| `Packing.GreedyIsBest` | src/api-isupport.c:282-304 | no packing has fewer lines, apart from an empty first line before a first word as long as a line |
| `Packing.SplitLines` | src/api-isupport.c:301-303 | splitting the lines at spaces gives back space-free words |
| `ISupport.Table.MakeStrings` | src/api-isupport.c:269-305 | the line array holds the greedy packing of the token texts, from which clients read back all tokens with names and values when no text is cut or has spaces; failure exactly when it needs more lines than there are |
| `ISupport.Table.Find` | src/api-isupport.c:152-162 | a token with that folded name, or none |
| `ISupport.Table.AddSorted` | src/api-isupport.c:307-340 | the token enters before the first greater name, and the list stays sorted and without duplicates |
| `ISupport.Table.Add` | src/api-isupport.c:174-235 | each outcome exactly when it applies, with the new tokens, and lines that read back as these |
| `ISupport.Table.SetValue` | src/api-isupport.c:139-143 | the value changes, and the lines read back as the new tokens |
| `ISupport.Table.Del` | src/api-isupport.c:243-263 | the token leaves, and the lines read back as the others |
| `ISupport.InsertKeepsSorted` | src/api-isupport.c:307-340 | insertion keeps the order of names |
| `ISupport.SortedIsCanonical` | src/api-isupport.c:307-340 | the list depends only on the set of tokens, not on the order of additions |
| `ISupport.LinesReadBack` | src/api-isupport.c:269-305 | lines are at most 379 bytes and 12 tokens, and splitting them gives back the texts of all tokens in order |
| `ISupport.TokensReadBack` | src/api-isupport.c:269-305 | splitting the lines at spaces and each word at its first equals sign gives back the tokens, with names and values, in order; a word has an equals sign exactly when its token has a value |
| `ISupport.AcceptedTokens` | src/api-isupport.c:185-217 | names are 1 to 20 letters, digits and slashes, values printable characters without spaces; clients read an accepted token back if and only if name and value have less than 379 characters together |
| `ISupport.WordsAreTokens` | src/api-isupport.c:282-290 | also when texts are cut: without spaces in values, each word is the name, or a prefix of name, equals sign and value that is complete or 379 bytes long |
| `ISupport.LinesSuffice` | src/api-isupport.c:291-299 | the lines suffice if and only if some packing has few enough lines |
| `Events.IntervalOver` | src/misc.c:2792-2812 | an interval counts as over exactly when the elapsed microseconds plus less than a millisecond of rounding reach it |
| `Events.EarlyByRounding` | src/misc.c:2792-2812 | an interval of a second that counts as over 999 microseconds early |
| `Events.RunsOnTime` | src/misc.c:2792-2812 | an event with an interval that is not modified runs on a visit only if the time since its last run has reached the interval, up to the rounding, and is due whenever it has; a run starts that time anew, and nothing else does unless its seconds are 0 |
| `Events.RunsApart` | src/api-event.c:184-213 | over every history of an event that is not modified, its interval passes between one run and the next, up to the rounding |
| `Events.Scheduler.EventAdd` | src/api-event.c:45-74 | refusal of negative arguments, or a new event at the front of the list |
| `Events.Scheduler.EventDel` | src/api-event.c:81-110 | only a mark, the list stays as it is |
| `Events.Scheduler.EventMod` | src/api-event.c:160-182 | exactly the fields that are flagged change, and the list stays as it is |
| `Events.Scheduler.RunEvent` | src/api-event.c:199-209 | one run; unless the callback modified the event, a positive count is down by one and the event marked when that reaches 0, and another count is as before |
| `Events.Scheduler.Visit` | src/api-event.c:188-210 | an event runs at most once, never when marked, and when not modified exactly when it is due |
| `Events.Scheduler.Walk` | src/api-event.c:184-211 | while callbacks add, delete and modify events, each event that was in the list is visited once, added ones are not, none is removed |
| `Events.Scheduler.CleanupEvents` | src/api-event.c:135-144 | exactly the marked events leave, in order |
| `Events.Scheduler.DoEvents` | src/api-event.c:184-213 | a whole pass; afterwards no listed event is marked or has used up its count |
| `Events.Scheduler.Loop` | src/api-event.c:184-213 | over every run an event does not run again after it was deleted |
| `Events.Scheduler.CountBound` | src/api-event.c:199-209 | in every reachable state an event added with a count and not modified has run at most that often, and is deleted when it has |

## Left out

- Dbuf: the `int` and `u_int` counters are unbounded, and blocks are allocated without the memory pool. That a `list_head` is a member of a block is a constant of the node, not an offset.
- Channels: the value of the graph has no order among the memberships of a client; lists are sequences of objects; the `prev` and `next` fields of `Member` and `Membership` are not modelled, nor are invites, topics, bans and module data of channels and members.
- Channels.Network.AddUser: the client must not be a member yet, as the function assumes.
- MemberModes.AddLetterToString: works on the string value, as the membership graph stores it; the buffer itself is in `MemberModes.AddLetterToBuffer`.
- ModeLine: extended ban conversion, parameter checks of modules and sending are not modelled. What the byte behind the parameter buffer overwrites is not either.
- UserModes.Table.Add: the letter is not NUL, at which the sorted insertion aborts.
- UserModes: whether a user may set a mode, and which modes a user loses with the oper status.
- ChannelModes.Table.Run: what happens after a request that `ChannelModes.AddExact` does not allow; the run ends with it.
- ChannelModes.Table.Commit: the MODE messages, and callbacks of the mode that free more than its parameter.
- ModData: serialisation and the messages that announce a removal; values are integers, and 0 stands for no data; the client that stands for a debug log is on no list and not modelled.
- ClientCaps.Table.CheckForChanges: the CAP NEW and CAP DEL messages of the second part.
- ListModes: sending of the list-full numeric; times are unbounded integers and the convergence theorems are about positive ones, as the code treats others as unset.
- Defines: the list of defines is a map from names; a name defined twice, and names that differ in case only, are not modelled.
- Conditionals: parsing of `@if` lines, `@else` and nesting levels; names of variables and modules are compared as they are.
- ConfigTree.ResolveConditionals: `config_entry_free` is modelled by the set of freed entries, not by storage.
- ISupport: the snapshot and change announcements, and tokens owned by modules.
- Events: names, owners and module objects of events; callbacks do not run the event loop themselves.
- Matching of bans, extended bans and masks; sending, logging and hooks.
- Socket polling, authentication, crash reports, RPC, history and message tag APIs: system calls, or registries that would repeat the theorems above without identifiers.
