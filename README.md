# Planning poker: a Dafny model of the voting state machine

The model covers the two browser clients of a planning-poker application.

- In the **local client** (`script.js`), one `PlanningPokerApp` object holds the whole session in its fields and changes them in place. The session is the participants, the items, the votes, the current item and the "revealed" flag.
- The **store-backed client** (`script-firebase.js`) has the same user actions, but it issues them as writes to a shared key-path store. Its local participants, items, votes, current item and revealed flag are replaced whenever the store delivers a new value for that node.

Each client is modelled twice:

- as pure transition functions on a state value (modules `LocalPoker` and `StorePoker`). These are the reference definitions, and the properties are proved about them;
- as a `class PlanningPokerApp` whose methods change its fields step by step (modules `LocalApp` and `StoreApp`). The `ensures` of each method states that the new fields and the outcome are exactly those of the reference transition.

The store is a record of maps, one per session node (`SessionStore`). Each write is the map update it amounts to. The connection object is a small class whose methods are those writes (`StoreConnection`).

Smaller pieces:

- `Sanitize`: the HTML escaping function.
- `Statistics`: the Pass / non-Pass statistics, with `parseFloat` on reals.
- `Tally`: the frequency-and-mode loops.
- `Text`: JavaScript `trim` and the upper-casing of session ids.
- `Common`: the item status text.

Modelling choices that matter:

- **The local current item may be a reference into the list.** `selectItem` stores the list's own object in `currentItem`, so a later status write changes the list entry too. `loadFromStorage` stores a parsed copy, so a later status write changes only the copy. The current item is `Linked(index)` or `Detached(copy)`, and `StatusWriteAliasing` states both cases.
- **An unknown voter throws.** In the local `selectCard`, `participants.get(userName).hasVoted = true` throws when the user is not in the map. By then the vote is already recorded. This is the outcome `TypeError` (`SelectCardUnknownVoter`).
- **A store `update` of a missing participant creates one.** The new record holds only `hasVoted`, so its admin flag reads as false (`SessionStore.UpdateParticipant`).
- **An empty store node reads back as `null`** (`Snapshot`). The participants and votes callbacks turn that into an empty map and the votesRevealed callback into `false`, while the currentItem callback keeps `null` as no current item (`ReadCurrentItem`, `OnCurrentItem`).
- **Iteration order is left open.** The entries of a `Map` or an object are picked in any order. Modes are therefore stated as a set (plus distinctness), not as an ordered list.
- **Time and randomness are parameters.** `Date.now()` and the push key the store hands out are supplied by the caller, and so is the stored record `localStorage` returns.

## Model

| member | source | states |
|---|---|---|
| Common.StatusText | script.js:410-417 | the text is one of the four labels, and it is "Unknown" exactly for a status other than pending, voting and completed |
| Common.StatusTextDistinct | script-firebase.js:560-567 | distinct known statuses get distinct labels |
| Common.IndexOf | script.js:629 | findIndex: -1 exactly when the value is absent; otherwise the first position holding it |
| Text.SkipForward | script.js:202 | the first non-whitespace position from k; everything skipped is whitespace |
| Text.SkipBack | script.js:202 | the last non-whitespace position before k; everything skipped is whitespace |
| Text.TrimStart | script-firebase.js:680 | the leading whitespace that parseFloat skips is dropped, and the result does not start with whitespace |
| Text.Trim | script.js:202-203 | the result is empty exactly when the input is all whitespace, and otherwise starts and ends with a non-whitespace character |
| Text.TrimIsInfix | script.js:202-203 | the trimmed text is the input with only whitespace removed at both ends |
| Text.ToUpper | script.js:203 | the same length, and each character is upper-cased |
| Text.ToUpperIdempotent | script-firebase.js:230 | upper-casing twice is upper-casing once, and no lower-case letter is left |
| Tally.CountPositive | script.js:525-528 | a value occurs in the list exactly when its count is positive |
| Tally.CountSnoc | script.js:525-528 | appending one vote adds one to that value's count and nothing to the others |
| Tally.Modes | script-firebase.js:698-712 | the frequency loop then the max-count loop: the result is empty exactly for no votes, has no duplicates, and holds exactly the values of maximum frequency |
| Tally.ValuesOf | script.js:517 | Array.from(votes.values()): one value per entry of the map, each key once |
| Tally.EnumeratesDropLast | script.js:517 | dropping the last entry enumerates the map without that key |
| Tally.EnumerationCounts | script.js:517-528 | a value's count in the listed values is the number of voters who chose it |
| Tally.EnumerationSize | script.js:517 | there are as many listed values as votes |
| Tally.EnumerationValues | script.js:517 | a value is listed exactly when some voter chose it |
| Tally.EnumerationModes | script.js:517-541 | a mode of the listed values is exactly a mode of the vote map |
| Tally.MapModes | script.js:516-541 | the modes over the vote map: none exactly when there are no votes, distinct, and exactly the most chosen values; Pass counts like any card |
| Statistics.NonPass | script-firebase.js:670 | Pass is removed, every other value keeps its count, the kept count plus the Pass count is the total, and the result is empty exactly when every vote is Pass |
| Statistics.NonPassMembers | script-firebase.js:670 | a value survives the filter exactly when it is not Pass and was voted |
| Statistics.NonPassModes | script-firebase.js:698-712 | the modes of the filtered votes are the non-Pass values of maximal frequency among the non-Pass values |
| Statistics.DigitRun | script-firebase.js:680 | the maximal run of leading digits |
| Statistics.Numbers | script-firebase.js:678-682 | one number per vote |
| Statistics.ParseFloat | script-firebase.js:680 | NaN exactly when, after leading whitespace and an optional sign, neither a digit nor a point followed by a digit comes next; an unsigned number is not negative |
| Statistics.NumericValue | script-firebase.js:678-682 | each deck card counts as follows: ½ for 0.5, a card written in digits for the integer it spells, and a card starting with a letter (a T-shirt size, Pass) for 0 |
| Statistics.ParseFloatOfInteger | script-firebase.js:680 | parseFloat reads a card written in digits as the integer it spells |
| Statistics.ParseFloatOfWord | script-firebase.js:680 | parseFloat reads a card starting with a letter, such as a T-shirt size, as NaN |
| Statistics.SumWithin | script-firebase.js:685 | the sum lies between n times a lower bound and n times an upper bound |
| Statistics.MeanWithin | script-firebase.js:685 | the mean lies between any lower and upper bound of the votes |
| Statistics.Mean | script-firebase.js:685 | the mean times the number of votes is their sum |
| Statistics.Insert | script-firebase.js:688 | inserting into a sorted list keeps it sorted and adds exactly that element |
| Statistics.InsertKeepsHead | script-firebase.js:688 | inserting above the head keeps the head first and the list sorted |
| Statistics.Sort | script-firebase.js:688 | the sort is sorted and a permutation of its input |
| Statistics.SortCons | script-firebase.js:688 | sorting x :: xs is inserting x into the sorted xs |
| Statistics.InsertFront | script-firebase.js:688 | an element not above the head goes in front |
| Statistics.InsertAfterOne | script-firebase.js:688 | an element above a single element goes after it |
| Statistics.MultisetTail | script-firebase.js:688 | the tail's multiset is the list's minus its head |
| Statistics.SortedSameHead | script-firebase.js:688 | two sorted permutations of each other start with the same element |
| Statistics.SortedUnique | script-firebase.js:688 | two sorted permutations of each other are equal, so the median does not depend on how the sort is done |
| Statistics.MedianWithin | script-firebase.js:688-695 | the median lies between any bounds of the votes, and for an odd count it is one of the votes |
| Statistics.Median | script-firebase.js:688-695 | the median lies between the smallest and the largest vote, and for an odd count it is one of the votes |
| Statistics.Calculate | script-firebase.js:668-736 | no statistics exactly when every vote is Pass; otherwise the vote and Pass counts add up to the total, the modes are distinct, are not Pass and are exactly the most frequent values left by the filter, and the mean and median are those of the numeric votes |
| Statistics.ExampleThreeFiveThree | script-firebase.js:670 | votes 3, 5, 3: nothing is filtered and no Pass is counted |
| Statistics.ExampleThreeFiveThreeNumbers | script-firebase.js:678-682 | votes 3, 5, 3 are the numbers 3, 5, 3 |
| Statistics.ExampleThreeFiveThreeMean | script-firebase.js:685 | their mean is 11/3 |
| Statistics.SortPair | script-firebase.js:688 | two elements out of order are swapped |
| Statistics.SortThree | script-firebase.js:688 | the sort of three elements whose last two are out of order |
| Statistics.ExampleThreeFiveThreeSorted | script-firebase.js:688 | 3, 5, 3 sorts to 3, 3, 5 |
| Statistics.ExampleThreeFiveThreeMedian | script-firebase.js:688-695 | their median is 3 |
| Statistics.ExampleThreeFiveThreeMode | script-firebase.js:698-712 | their only mode is "3" |
| Statistics.ExamplePassEight | script-firebase.js:670 | votes Pass and 8: the filter keeps "8" and counts one Pass |
| Statistics.ExamplePassEightStats | script-firebase.js:678-712 | mean 8, median 8 and mode "8" |
| Statistics.ExampleHalfPoint | script-firebase.js:670 | votes ½ and 1: nothing is filtered |
| Statistics.ExampleHalfPointNumbers | script-firebase.js:678-682 | the ½ card counts for 0.5 and "1" for 1 |
| Statistics.ExampleHalfPointStats | script-firebase.js:685-695 | votes ½ and 1: mean and median 0.75 |
| Sanitize.SanitizeHTML | script-firebase.js:115-123 | a missing input gives the empty string; any other input is escaped character by character |
| Sanitize.Escape | script-firebase.js:117-122 | escaping never shortens the text and gives the empty string only for the empty string |
| Sanitize.Unescape | script-firebase.js:117-122 | decoding the entities never lengthens the text (the inverse used for the round trip) |
| Sanitize.ReplaceAllConcat | script-firebase.js:117 | a global replace distributes over concatenation |
| Sanitize.ReplaceAllAbsent | script-firebase.js:117 | replacing an absent character changes nothing |
| Sanitize.ReplaceAllSingle | script-firebase.js:117 | replacing in a one-character string |
| Sanitize.ReplaceFromConcat | script-firebase.js:117-122 | the remaining replace chain distributes over concatenation |
| Sanitize.ChainConcat | script-firebase.js:117-122 | the whole chain distributes over concatenation |
| Sanitize.ReplaceFromAbsent | script-firebase.js:117-122 | the remaining chain leaves a string without its characters alone |
| Sanitize.ReplaceFromChar | script-firebase.js:117-122 | on one character, the remaining chain gives that character's escape, since no later replacement touches an entity's characters |
| Sanitize.ChainChar | script-firebase.js:117-122 | the six replaces on one character give its escape |
| Sanitize.ChainIsEscape | script-firebase.js:117-122 | the chain of six replaces equals escaping each character |
| Sanitize.SafeConcat | script-firebase.js:115-123 | safe strings stay safe when joined |
| Sanitize.StartsWithExtends | script-firebase.js:115-123 | an entity at the start survives appending |
| Sanitize.EscapeCharSafe | script-firebase.js:117-122 | each character's escape is safe |
| Sanitize.EscapeSafe | script-firebase.js:117-122 | an escaped string is safe |
| Sanitize.SanitizedIsSafe | script-firebase.js:115-123 | the output has none of < > " ' /, and every & in it begins one of the six entities |
| Sanitize.SanitizeIdentity | script-firebase.js:115-123 | a string without any of the six special characters comes back unchanged |
| Sanitize.DiffersAt | script-firebase.js:115-123 | a string that differs from a prefix at some position does not start with it |
| Sanitize.UnescapeChar | script-firebase.js:117-122 | decoding one character's escape gives that character back |
| Sanitize.SanitizeRoundTrip | script-firebase.js:115-123 | decoding the entities of the output gives back the input, so no information is lost |
| SessionStore.UpdateParticipant | firebase-config.js:76-78 | an update merges hasVoted into the record: the record is created when missing with no admin flag, the admin flag is kept, and the other participants and nodes are untouched |
| SessionStore.AddParticipant | firebase-config.js:67-74 | `set` gives the name a fresh non-voting record with the given admin flag; all else is kept |
| SessionStore.AddItem | firebase-config.js:84-86 | a push stores the item under its key; other items and nodes are kept |
| SessionStore.UpdateItem | firebase-config.js:88-90 | the item's record is rewritten with the new status; other items and nodes are kept |
| SessionStore.SetVote | firebase-config.js:96-98 | the name's vote is set; other votes and nodes are kept |
| SessionStore.RemoveVote | firebase-config.js:100-102 | the name's vote is gone; other votes and nodes are kept |
| SessionStore.SetCurrentItem | firebase-config.js:104-106 | the current item node holds the item; nothing else changes |
| SessionStore.SetVotesRevealed | firebase-config.js:108-110 | the revealed node holds the flag; nothing else changes |
| SessionStore.Snapshot | script-firebase.js:303 | a node reads as null exactly when it is empty |
| SessionStore.SnapshotOrEmpty | script-firebase.js:303 | `val() \|\| {}` gives the node back whether or not it was empty |
| SessionStore.ClearVotesForStep | script-firebase.js:540-543 | one more name's updateParticipant and removeVote turn the closed form for the done names into the one for the done names plus that name |
| SessionStore.ClearVotesFor | script-firebase.js:540-543 | the closed form of the clearing loop: every looped name has a record with hasVoted false and no vote, and the items, current item and flag are kept |
| SessionStore.ClearVotesForEffect | script-firebase.js:540-543 | after the loop, every looped name has no vote and hasVoted false, keeps its admin flag, and every other vote, participant and node is unchanged |
| StoreConnection.StoreHandle.constructor | firebase-config.js:19-29 | the connection to a session starts on the store as it then is |
| StoreConnection.StoreHandle.AddParticipant | firebase-config.js:67-74 | the record is replaced by a non-voting one with the given admin flag |
| StoreConnection.StoreHandle.UpdateParticipant | firebase-config.js:76-78 | the store becomes SessionStore.UpdateParticipant of itself |
| StoreConnection.StoreHandle.AddItem | firebase-config.js:84-86 | the item is stored under the key |
| StoreConnection.StoreHandle.UpdateItem | firebase-config.js:88-90 | the item's whole record is written with the new status |
| StoreConnection.StoreHandle.SetVote | firebase-config.js:96-98 | the vote is written under the name |
| StoreConnection.StoreHandle.RemoveVote | firebase-config.js:100-102 | the name's vote is deleted |
| StoreConnection.StoreHandle.SetCurrentItem | firebase-config.js:104-106 | the current item node is written |
| StoreConnection.StoreHandle.SetVotesRevealed | firebase-config.js:108-110 | the revealed flag node is written |
| LocalPoker.WithCurrentStatus | script.js:492 | writing the status through currentItem keeps the state well formed |
| LocalPoker.Ids | script.js:629 | one id per item |
| LocalPoker.SelectCard | script.js:310-341 | the transition keeps the state well formed, never touches the items, the current item, the user, the session or the deck, and ends Done, TypeError or refused |
| LocalPoker.SelectItem | script.js:367-408 | the transition keeps the state well formed and never edits the list, the user, the session or the deck |
| LocalPoker.RevealVotes | script.js:472-514 | the transition keeps the votes, the participants, the list length, the user, the session and the deck |
| LocalPoker.ResetVotes | script.js:584-621 | the transition keeps the participant names, the list length, the user, the session and the deck |
| LocalPoker.NextItem | script.js:623-637 | the transition never edits the list, the user, the session or the deck |
| LocalPoker.AddItem | script.js:343-365 | the old list is a prefix of the new one, and the user, session and deck are kept |
| LocalPoker.SaveToStorage | script.js:79-94 | a record exactly when there is a non-empty session id, carrying that id and the current item shown |
| LocalPoker.LoadFromStorage | script.js:96-112 | the user, session and admin flag are kept, and a set deck stays set |
| LocalPoker.JoinSession | script.js:201-234 | ends Done or refused, and a refusal changes nothing |
| LocalPoker.CurrentIndex | script.js:629 | findIndex on the current id lies in -1 up to the last position |
| LocalPoker.Enrol | script.js:215-225 | after the join writes, the user is the named non-admin of the session and is in the participants map |
| LocalPoker.StartSession | script.js:236-261 | a non-admin with items and nothing current is shown the first item, with no votes; for the admin, an empty list, or a non-admin who already has a current item (selectItem refuses, script.js:369-376) nothing changes; the user, session, deck and participant names are kept in every case |
| LocalPoker.SelectCardRefused | script.js:311-319 | once votes are revealed, or with no current item, the vote is refused and nothing changes; otherwise it is not refused |
| LocalPoker.SelectCardRecords | script.js:328-336 | an accepted vote overwrites the voter's vote and marks them voted; every other vote and participant, the items and the current item stay as they were |
| LocalPoker.SelectCardUnknownVoter | script.js:328-336 | for a voter missing from the map the vote is recorded, then the write to hasVoted throws, and the participants are untouched |
| LocalPoker.SelectItemGate | script.js:369-376 | accepted exactly for the admin or with nothing current; a no-op exactly for a non-admin choosing the current item; refused exactly for a non-admin choosing another; the state is unchanged unless accepted |
| LocalPoker.SelectItemStartsRound | script.js:378-386 | after an accepted selection the chosen entry is current, nothing is revealed, there are no votes and no selected card, nobody has voted, the admin flags are kept, the list is unchanged, and the user, session and deck are kept |
| LocalPoker.RevealResetRefused | script.js:473-481 | reveal and reset by a non-admin, or with nothing current, are refused (NotAdmin for a non-admin) and change nothing |
| LocalPoker.RevealEndsVoting | script.js:483-493 | an accepted reveal sets the flag, keeps the votes, participants, selected card, user, session and deck, marks the current item completed and changes no other list entry |
| LocalPoker.RevealBlocksVotes | script.js:311-314 | after an accepted reveal every vote is refused with VotingEnded |
| LocalPoker.ResetClearsRound | script.js:595-614 | an accepted reset empties the votes, clears the flag, the selected card and every hasVoted, sets the current status to voting, changes no other list entry, and keeps the user, session and deck |
| LocalPoker.StatusWriteAliasing | script.js:483-493 | a status write through a current item taken from the list changes that entry, for reveal (completed, script.js:492) and reset (voting, script.js:613); through the copy loaded from storage both leave the list alone |
| LocalPoker.NextItemFromNothing | script.js:629-636 | with nothing current, nextItem selects the first item |
| LocalPoker.NextItemAdvances | script.js:629-636 | the admin moves to the entry after the current id's first position, and nothing changes at the end of the list |
| LocalPoker.AddItemAppends | script.js:344-357 | a blank description changes nothing; otherwise exactly one trimmed pending item is appended and the earlier items and all other fields are kept |
| LocalPoker.SaveLoadRoundTrip | script.js:79-112 | loading the saved record gives back the participants, items, votes, deck, flag and shown current item |
| LocalPoker.LoadIgnoresOtherSession | script.js:104 | a record of another session changes nothing |
| LocalPoker.JoinSessionEnrols | script.js:201-234 | refused with EmptyName exactly for a blank name, and with EmptySessionId exactly for a blank id after that; a refusal changes nothing; a join makes the user the trimmed-name non-admin participant of the trimmed, upper-cased session |
| LocalPoker.RefusedChangesNothing | script.js:310-637 | a refused action, and re-selecting the current item, leave the state unchanged |
| LocalPoker.OnlyAdminSteers | script.js:367-637 | a non-admin's reveal, reset and next change nothing, and no action of theirs changes which item is current once one is |
| LocalApp.PlanningPokerApp.constructor | script.js:4-14 | the fresh object holds the initial session |
| LocalApp.PlanningPokerApp.ClearVotedFlags | script.js:384-386 | the loop over the participants leaves every hasVoted false and changes nothing else |
| LocalApp.PlanningPokerApp.SetCurrentStatus | script.js:492 | the status write through currentItem, by the reference model of what it aliases |
| LocalApp.PlanningPokerApp.SelectCard | script.js:310-341 | fields and outcome are those of LocalPoker.SelectCard |
| LocalApp.PlanningPokerApp.SelectItem | script.js:367-408 | fields and outcome are those of LocalPoker.SelectItem |
| LocalApp.PlanningPokerApp.RevealVotes | script.js:472-514 | fields and outcome are those of LocalPoker.RevealVotes |
| LocalApp.PlanningPokerApp.ResetVotes | script.js:584-621 | fields and outcome are those of LocalPoker.ResetVotes |
| LocalApp.PlanningPokerApp.FindCurrentIndex | script.js:629 | the search loop returns the first position carrying the current id, or -1 when nothing is current or no entry carries it |
| LocalApp.PlanningPokerApp.NextItem | script.js:623-637 | fields and outcome are those of LocalPoker.NextItem |
| LocalApp.PlanningPokerApp.AddItem | script.js:343-365 | fields and outcome are those of LocalPoker.AddItem |
| LocalApp.PlanningPokerApp.SaveToStorage | script.js:79-94 | nothing without a session id; otherwise the record of this session, with its votes |
| LocalApp.PlanningPokerApp.LoadFromStorage | script.js:96-112 | the fields become LocalPoker.LoadFromStorage of the stored record |
| LocalApp.PlanningPokerApp.JoinSession | script.js:201-234 | fields and outcome are those of LocalPoker.JoinSession |
| LocalApp.PlanningPokerApp.StartSession | script.js:236-261 | the fields become LocalPoker.StartSession of the old ones |
| LocalApp.PlanningPokerApp.CalculateModes | script.js:516-541 | none exactly when there are no votes; otherwise distinct modes that are exactly the most chosen values, Pass included |
| StorePoker.Ids | script-firebase.js:787 | one id per item |
| StorePoker.CurrentIndex | script-firebase.js:787 | findIndex on the current id lies in -1 up to the last position |
| StorePoker.SelectCard | script-firebase.js:467-498 | the local copies of the store's nodes and the user are kept; a refusal changes and writes nothing; without a connection nothing is written |
| StorePoker.SelectItem | script-firebase.js:523-558 | the local copies and the user are kept; unless accepted nothing changes or is written; without a connection nothing is written |
| StorePoker.RevealVotes | script-firebase.js:640-666 | no local field changes; a refusal writes nothing; without a connection nothing is written |
| StorePoker.ResetVotes | script-firebase.js:742-779 | the local copies and the user are kept; a refusal changes and writes nothing; without a connection nothing is written |
| StorePoker.NextItem | script-firebase.js:781-795 | the local copies and the user are kept; a refusal changes and writes nothing; without a connection nothing is written |
| StorePoker.AddItem | script-firebase.js:500-521 | no local field changes; a refusal writes nothing; without a connection nothing is written |
| StorePoker.JoinSession | script-firebase.js:228-271 | the local copies of the store's nodes are kept; only a successful join writes, adding the user's name to the session's participants |
| StorePoker.ReadParticipants | script-firebase.js:376-386 | only the participants change: to the snapshot's entries, or empty for null |
| StorePoker.ReadVotes | script-firebase.js:402-412 | only the votes change: to the snapshot's entries, or empty for null |
| StorePoker.ReadCurrentItem | script-firebase.js:415-428 | only the current item changes, to the snapshot's value |
| StorePoker.ReadVotesRevealed | script-firebase.js:431-442 | only the flag changes: true exactly when the snapshot holds true |
| StorePoker.Refresh | script-firebase.js:376-442 | after the callbacks the participants, votes and current item are the store's, and the items, selected card and user are kept |
| StorePoker.RestoreDecision | script-firebase.js:45-76 | a restored session has a session id, a user name and a deck; an unreadable entry is removed |
| StorePoker.SaveSession | script-firebase.js:30-42 | a record exactly when the session id and user name are set, carrying them and the time |
| StorePoker.SelectCardRefused | script-firebase.js:468-476 | with votes revealed or nothing current the vote is refused, no field changes and nothing is written |
| StorePoker.SelectCardWrites | script-firebase.js:485-495 | an accepted vote writes exactly the voter's vote and hasVoted, keeping the voter's admin flag (none when the record is created), and locally only the selected card changes |
| StorePoker.SelectItemGate | script-firebase.js:525-532 | the same admin gate as the local client; nothing happens unless accepted |
| StorePoker.SelectItemWrites | script-firebase.js:535-548 | the store gets the item as current, the flag false, and no vote or hasVoted for any name in the local participants map, with their admin flags kept; the votes and records of other names and the items are kept, and no vote appears for a name that had none |
| StorePoker.SelectItemThenRefresh | script-firebase.js:535-548 | once delivered, the client shows the chosen item, unrevealed, with no vote from anyone it listed |
| StorePoker.RevealWrites | script-firebase.js:640-666 | accepted exactly for the admin with a current item; it writes the flag and the completed status only, keeping the votes, the participants and the current item node, and no local field changes |
| StorePoker.RevealThenVoteRefused | script-firebase.js:641-657 | once the reveal is delivered, every vote is refused |
| StorePoker.ResetWrites | script-firebase.js:742-779 | needs the admin only; writes the voting status only when an item is current, and always clears the local participants' votes and hasVoted, keeping their admin flags; other names' votes and records, and the current item node, are unchanged, and no vote appears for a name that had none |
| StorePoker.NextItemAdvances | script-firebase.js:781-795 | the admin selects the entry after the current one when there is one and otherwise nothing happens; with nothing current it picks the first |
| StorePoker.AddItemWrites | script-firebase.js:500-521 | a blank description is refused; otherwise the trimmed pending item is stored under the push key, which adds exactly one item when the key is fresh, as the keys `push` mints are; nothing else is written or changed |
| StorePoker.RefreshShowsStore | script-firebase.js:376-442 | after the callbacks the client holds exactly the store's participants, votes, current item and flag; null reads as empty and an unset flag as false |
| StorePoker.JoinSessionEnrols | script-firebase.js:228-271 | refused exactly for a blank name or id, changing nothing; without the store library the user, session id and admin flag are still set and nothing is written; a join puts the user into the session's store as a non-voting non-admin |
| StorePoker.RestoreRule | script-firebase.js:45-76 | restored exactly from a readable record younger than 86,400,000 ms with a session id and a user name; nothing saved means no session; any other entry is removed |
| StorePoker.SaveRestoreRoundTrip | script-firebase.js:30-76 | a saved session comes back as saved while it is under a day old, and is removed after |
| StorePoker.RefusedWritesNothing | script-firebase.js:467-795 | a refused action writes nothing and changes no local field; no action changes the local copies the store owns; without a connection nothing is written |
| StoreApp.PlanningPokerApp.constructor | script-firebase.js:4-15 | the fresh object holds the initial view and no connection |
| StoreApp.PlanningPokerApp.SelectCard | script-firebase.js:467-498 | fields, writes and outcome are those of StorePoker.SelectCard |
| StoreApp.PlanningPokerApp.ClearParticipantVotes | script-firebase.js:540-543 | the write loop over the local participants leaves the store as StorePoker's closed form ClearVotesFor |
| StoreApp.PlanningPokerApp.SelectItem | script-firebase.js:523-558 | fields, writes and outcome are those of StorePoker.SelectItem |
| StoreApp.PlanningPokerApp.RevealVotes | script-firebase.js:640-666 | fields, writes and outcome are those of StorePoker.RevealVotes |
| StoreApp.PlanningPokerApp.ResetVotes | script-firebase.js:742-779 | fields, writes and outcome are those of StorePoker.ResetVotes |
| StoreApp.PlanningPokerApp.FindCurrentIndex | script-firebase.js:787 | the search loop computes StorePoker.CurrentIndex |
| StoreApp.PlanningPokerApp.NextItem | script-firebase.js:781-795 | fields, writes and outcome are those of StorePoker.NextItem |
| StoreApp.PlanningPokerApp.AddItem | script-firebase.js:500-521 | writes and outcome are those of StorePoker.AddItem |
| StoreApp.PlanningPokerApp.JoinSession | script-firebase.js:228-271 | fields, writes and outcome are those of StorePoker.JoinSession, with a null manager for a missing store library; the new connection is kept only on success |
| StoreApp.PlanningPokerApp.Connect | script-firebase.js:247-256 | the connection is kept and the user is added to its store as a non-admin; no other field changes |
| StoreApp.PlanningPokerApp.OnParticipants | script-firebase.js:376-386 | the loop over the snapshot replaces the participants with exactly its entries (none for null) |
| StoreApp.PlanningPokerApp.OnVotes | script-firebase.js:402-412 | the loop over the snapshot replaces the votes with exactly its entries (none for null) |
| StoreApp.PlanningPokerApp.OnItems | script-firebase.js:389-399 | the list is rebuilt with one `{ id, ...data }` per entry of the snapshot (none for null), and nothing else changes |
| StoreApp.PlanningPokerApp.OnCurrentItem | script-firebase.js:415-428 | the current item becomes the snapshot's value |
| StoreApp.PlanningPokerApp.OnVotesRevealed | script-firebase.js:431-442 | the flag becomes the snapshot's value, false for null |
| StoreApp.PlanningPokerApp.CalculateAndDisplayMode | script-firebase.js:668-736 | lists every vote once; no statistics exactly when every vote is Pass; otherwise the Pass count is the number of Pass voters, the counts add up to the number of votes, and the modes are exactly the non-Pass values chosen by the most voters |
| StoreApp.PlanningPokerApp.SaveSessionToStorage | script-firebase.js:30-42 | a record with the session and the time only when the session id and the user name are set |
| StoreApp.PlanningPokerApp.RestoreSessionFromStorage | script-firebase.js:45-76 | the decision of the 24-hour rule, and the saved fields are taken back only when it restores |
| StoreApp.ListedItemsCount | script-firebase.js:393-396 | a list of distinct keys covering the node, each entry matching, is a listing of the node |
| StoreApp.DistinctCardinality | script-firebase.js:393-396 | distinct keys are as many as the set they form |
| StoreApp.AllPassEnumeration | script-firebase.js:668-672 | every listed value is Pass exactly when every vote is Pass |

## Left out

- Rendering, toasts, card styling, clipboard and the admin panel are not modelled: they only display state.
- URL and history handling, the `storage` event and the timers are browser I/O, so they are not modelled.
- localStorage reads and writes are not modelled as I/O. The stored record is a parameter of the load and restore operations, and the saved record is the result of the save operations.
- saveToStorage's `lastUpdated` field is dropped, because nothing reads it.
- `generateSessionId` and `createSession` draw on `Math.random` in both clients, so they are not modelled. The model starts from a joined or initial state.
- `reconnectToSession`, the listener setup and the Firebase SDK calls are I/O. The store is a value, and each callback is a method taking the delivered snapshot.
- firebase-debug.js and the configuration objects are diagnostics and data.
- The mode display of script.js:549-566 is left out. It shows the single mode itself. On a tie it shows instead the median of the modes that parse as numbers, or, when none does, the text `Tie: ` followed by the modes joined with `, `. The joined text depends on the mode order the model leaves open, and the median needs the number formatting of the page. The `toFixed(2)` formatting of the mean and median is left out too, as floating-point display.
- Statistics.ParseFloat reads an optional sign, digits and a fraction. Exponents and `Infinity` are not recognised, and no deck card uses them.
- The mean and median are exact reals, not IEEE doubles.
- Text.ToUpper upper-cases ASCII letters only, not the full Unicode case mapping.
- Tally.Modes, Tally.MapModes, Statistics.Calculate, LocalApp.PlanningPokerApp.CalculateModes and StoreApp.PlanningPokerApp.CalculateAndDisplayMode state the modes as a set plus distinctness. The `Object.entries` order of the list is not modelled.
- Tally.ValuesOf, StoreApp.PlanningPokerApp.OnParticipants, OnVotes and OnItems visit entries in an order the model leaves open, not the source's insertion order.
- LocalPoker.LoadFromStorage compares an absent stored session id and a `null` one alike, because both are None here.
- Duplicate keys in a stored JSON list are not modelled. The stored participants and votes are maps.
- The participant's display name and join time fields are not modelled. The name is the map key, and nothing else reads the join time.
- A participant record without `isAdmin` reads as not admin, as JavaScript's `undefined` does in a boolean test. StorePoker.RestoreDecision reads a saved session without `isAdmin` the same way (`GetOr(false)`), where the source assigns the `undefined` value itself; every later test of the flag treats it as false.
- StorePoker.Refresh leaves out the items callback, whose order is open. OnItems states that callback via ListsItems.
- Concurrency between clients, the order in which the store delivers listeners, and last-write-wins races are not modelled.
- The mis-encoded ½ card in the script.js deck is treated as an opaque string, and so are the other deck values.
