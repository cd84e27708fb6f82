/** The single-browser client (script.js): one `PlanningPokerApp` object holding the
    whole session in its fields and changing them in place.

    The state machine is given twice: as pure transition functions on a `State` value
    (the reference definition, about which the properties are proved), and as the class
    whose methods update their fields step by step and are proved to agree with it. */
module LocalPoker {
  import opened Common
  import opened Text
  import opened Tally

  datatype Item = Item(id: int, description: string, status: string)

  /** What `currentItem` points at. selectItem stores an object taken from `items`, so
      later status writes through currentItem also change that list entry (`Linked`).
      loadFromStorage stores the object parsed from JSON, a copy that no list entry
      shares (`Detached`). */
  datatype Current = Linked(index: nat) | Detached(copy: Item)

  datatype State = State(
    sessionId: Option<string>,
    isAdmin: bool,
    userName: string,
    current: Option<Current>,
    participants: map<string, Participant>,
    items: seq<Item>,
    votes: map<string, string>,
    deckType: string,
    selectedCard: Option<string>,
    votesRevealed: bool)

  /** The state a fresh app starts in (the constructor's assignments). */
  const Initial: State := State(None, false, "", None, map[], [], map[], "modified", None, false)

  /** A linked current item is an entry of the list. */
  ghost predicate WellFormed(s: State) {
    s.current.Some? && s.current.value.Linked? ==> s.current.value.index < |s.items|
  }

  /** The object currentItem refers to. */
  function CurrentItem(s: State): Option<Item>
    requires WellFormed(s)
  {
    match s.current
    case None => None
    case Some(Linked(k)) => Some(s.items[k])
    case Some(Detached(item)) => Some(item)
  }

  /** `this.currentItem.status = status`: writes through to the list when linked. */
  function WithCurrentStatus(s: State, status: string): (r: State)
    requires WellFormed(s) && s.current.Some?
    ensures WellFormed(r)
  {
    match s.current.value
    case Linked(k) => s.(items := s.items[k := s.items[k].(status := status)])
    case Detached(item) => s.(current := Some(Detached(item.(status := status))))
  }

  /** `participants.forEach(p => p.hasVoted = false)`. */
  function Unvoted(ps: map<string, Participant>): map<string, Participant> {
    map n | n in ps :: ps[n].(hasVoted := false)
  }

  function Ids(items: seq<Item>): (ids: seq<int>)
    ensures |ids| == |items|
  {
    seq(|items|, i requires 0 <= i < |items| => items[i].id)
  }

  datatype Step = Step(state: State, outcome: Outcome)

  /** Who the user is, which session, and the deck: no voting action changes these. */
  predicate SameUser(s: State, t: State) {
    t.sessionId == s.sessionId && t.userName == s.userName && t.isAdmin == s.isAdmin && t.deckType == s.deckType
  }

  // ---- the transitions ---------------------------------------------------------------

  /** selectCard(value). */
  function SelectCard(s: State, value: string): (r: Step)
    requires WellFormed(s)
    ensures WellFormed(r.state) && SameUser(s, r.state)
    ensures r.state.items == s.items && r.state.current == s.current
    ensures r.outcome == Done || r.outcome == TypeError || r.outcome.Rejected?
  {
    if s.votesRevealed then Step(s, Rejected(VotingEnded))
    else if s.current.None? then Step(s, Rejected(NoItemSelected))
    else
      var recorded := s.(selectedCard := Some(value), votes := s.votes[s.userName := value]);
      if s.userName in s.participants then
        var p := s.participants[s.userName];
        Step(recorded.(participants := s.participants[s.userName := p.(hasVoted := true)]), Done)
      else
        // participants.get(userName) is undefined: the hasVoted write throws after votes.set ran
        Step(recorded, TypeError)
  }

  /** selectItem(items[k]): every caller passes an entry of the list. */
  function SelectItem(s: State, k: nat): (r: Step)
    requires WellFormed(s) && k < |s.items|
    ensures WellFormed(r.state) && SameUser(s, r.state)
    ensures r.state.items == s.items
  {
    if !s.isAdmin && s.current.Some? && CurrentItem(s).value.id == s.items[k].id then
      Step(s, AlreadySelected)
    else if !s.isAdmin && s.current.Some? then
      Step(s, Rejected(AdminOnlyChange))
    else
      Step(s.(current := Some(Linked(k)), selectedCard := None, votesRevealed := false,
              votes := map[], participants := Unvoted(s.participants)), Done)
  }

  /** revealVotes(). */
  function RevealVotes(s: State): (r: Step)
    requires WellFormed(s)
    ensures WellFormed(r.state) && SameUser(s, r.state)
    ensures r.state.votes == s.votes && r.state.participants == s.participants
    ensures |r.state.items| == |s.items|
  {
    if !s.isAdmin then Step(s, Rejected(NotAdmin))
    else if s.current.None? then Step(s, Rejected(NoItemSelected))
    else Step(WithCurrentStatus(s.(votesRevealed := true), Completed), Done)
  }

  /** resetVotes(). */
  function ResetVotes(s: State): (r: Step)
    requires WellFormed(s)
    ensures WellFormed(r.state) && SameUser(s, r.state)
    ensures r.state.participants.Keys == s.participants.Keys
    ensures |r.state.items| == |s.items|
  {
    if !s.isAdmin then Step(s, Rejected(NotAdmin))
    else if s.current.None? then Step(s, Rejected(NoItemSelected))
    else
      var cleared := s.(votes := map[], votesRevealed := false, selectedCard := None,
                        participants := Unvoted(s.participants));
      Step(WithCurrentStatus(cleared, Voting), Done)
  }

  /** findIndex(item => item.id === currentItem?.id): -1 when nothing is current. */
  function CurrentIndex(s: State): (i: int)
    requires WellFormed(s)
    ensures -1 <= i < |s.items|
  {
    match CurrentItem(s)
    case None => -1
    case Some(item) => IndexOf(Ids(s.items), item.id)
  }

  /** nextItem(). */
  function NextItem(s: State): (r: Step)
    requires WellFormed(s)
    ensures WellFormed(r.state) && SameUser(s, r.state)
    ensures r.state.items == s.items
  {
    if !s.isAdmin then Step(s, Rejected(NotAdmin))
    else
      var i := CurrentIndex(s);
      if i < |s.items| - 1 then SelectItem(s, i + 1)
      else Step(s, Rejected(NoMoreItems))
  }

  /** addItem(): `now` is the Date.now() used as the new id. */
  function AddItem(s: State, input: string, now: int): (r: Step)
    requires WellFormed(s)
    ensures WellFormed(r.state) && SameUser(s, r.state)
    ensures s.items <= r.state.items
  {
    var description := Trim(input);
    if description == "" then Step(s, Rejected(EmptyDescription))
    else Step(s.(items := s.items + [Item(now, description, Pending)]), Done)
  }

  // ---- the localStorage record -----------------------------------------------------

  /** The parsed JSON record; a field that is absent or null is None. */
  datatype StoredSession = StoredSession(
    sessionId: Option<string>,
    participants: Option<map<string, Participant>>,
    items: Option<seq<Item>>,
    votes: Option<map<string, string>>,
    deckType: Option<string>,
    currentItem: Option<Item>,
    votesRevealed: Option<bool>)

  /** saveToStorage(): nothing is written without a (non-empty) session id. */
  function SaveToStorage(s: State): (r: Option<StoredSession>)
    requires WellFormed(s)
    ensures r.Some? <==> s.sessionId.Some? && s.sessionId.value != ""
    ensures r.Some? ==> r.value.sessionId == s.sessionId && r.value.currentItem == CurrentItem(s)
  {
    if s.sessionId.None? || s.sessionId.value == "" then None
    else Some(StoredSession(s.sessionId, Some(s.participants), Some(s.items), Some(s.votes),
                            Some(s.deckType), CurrentItem(s), Some(s.votesRevealed)))
  }

  /** loadFromStorage(): `stored` is the parsed record, None when there is none or it does
      not parse. A record of another session is ignored; otherwise the fields are
      replaced, with `|| []`, `|| 'modified'` and `|| false` for missing parts. */
  function LoadFromStorage(s: State, stored: Option<StoredSession>): (r: State)
    requires WellFormed(s)
    ensures WellFormed(r)
    ensures r.sessionId == s.sessionId && r.userName == s.userName && r.isAdmin == s.isAdmin
    ensures s.deckType != "" ==> r.deckType != ""
  {
    match stored
    case None => s
    case Some(d) =>
      if d.sessionId != s.sessionId then s
      else s.(participants := d.participants.GetOr(map[]),
              items := d.items.GetOr([]),
              votes := d.votes.GetOr(map[]),
              deckType := if d.deckType.GetOr("") == "" then "modified" else d.deckType.value,
              current := match d.currentItem { case None => None case Some(item) => Some(Detached(item)) },
              votesRevealed := d.votesRevealed.GetOr(false))
  }

  /** The part of joinSession after the input checks: take the session id and name, load
      the stored session, and add the user unless the map already holds that name. */
  function Enrol(s: State, name: string, id: string, stored: Option<StoredSession>): (r: State)
    requires WellFormed(s)
    ensures WellFormed(r)
    ensures r.userName == name && r.sessionId == Some(id) && !r.isAdmin && name in r.participants
  {
    var loaded := LoadFromStorage(s.(sessionId := Some(id), userName := name, isAdmin := false), stored);
    if name in loaded.participants then loaded
    else loaded.(participants := loaded.participants[name := Participant(false, false)])
  }

  /** startSession(): a participant who is not the admin is shown the first item; when one
      is already current, selectItem refuses and nothing changes. */
  function StartSession(s: State): (r: State)
    requires WellFormed(s)
    ensures WellFormed(r) && SameUser(s, r)
    ensures r.participants.Keys == s.participants.Keys
    ensures !s.isAdmin && |s.items| > 0 && s.current.None? ==> CurrentItem(r) == Some(s.items[0]) && r.votes == map[]
    ensures s.isAdmin || |s.items| == 0 ==> r == s
    ensures !s.isAdmin && s.current.Some? ==> r == s
  {
    if !s.isAdmin && |s.items| > 0 then SelectItem(s, 0).state else s
  }

  /** joinSession(): `stored` is what loadFromStorage finds once the session id is set. */
  function JoinSession(s: State, nameInput: string, sessionInput: string, stored: Option<StoredSession>): (r: Step)
    requires WellFormed(s)
    ensures WellFormed(r.state)
    ensures r.outcome == Done || r.outcome.Rejected?
    ensures r.outcome.Rejected? ==> r.state == s
  {
    var name := Trim(nameInput);
    var id := ToUpper(Trim(sessionInput));
    if name == "" then Step(s, Rejected(EmptyName))
    else if id == "" then Step(s, Rejected(EmptySessionId))
    else Step(StartSession(Enrol(s, name, id, stored)), Done)
  }

  // ---- properties ----------------------------------------------------------------------

  /** A vote is refused once votes are revealed or while no item is current, and then
      nothing changes. */
  lemma SelectCardRefused(s: State, value: string)
    requires WellFormed(s)
    ensures s.votesRevealed ==> SelectCard(s, value) == Step(s, Rejected(VotingEnded))
    ensures !s.votesRevealed && s.current.None? ==> SelectCard(s, value) == Step(s, Rejected(NoItemSelected))
    ensures SelectCard(s, value).outcome.Rejected? <==> s.votesRevealed || s.current.None?
  {
  }

  /** An accepted vote overwrites the voter's earlier vote and marks them as voted; every
      other vote and participant stays as it was. */
  lemma SelectCardRecords(s: State, value: string)
    requires WellFormed(s) && !s.votesRevealed && s.current.Some? && s.userName in s.participants
    ensures var r := SelectCard(s, value);
      && r.outcome == Done
      && r.state.votes.Keys == s.votes.Keys + {s.userName}
      && r.state.votes[s.userName] == value
      && (forall n :: n in s.votes && n != s.userName ==> r.state.votes[n] == s.votes[n])
      && r.state.participants.Keys == s.participants.Keys
      && r.state.participants[s.userName] == s.participants[s.userName].(hasVoted := true)
      && (forall n :: n in s.participants && n != s.userName ==> r.state.participants[n] == s.participants[n])
      && r.state.selectedCard == Some(value)
      && r.state.items == s.items && r.state.current == s.current
  {
  }

  /** A voter missing from the participants map makes the hasVoted write throw: the vote
      is already recorded, the participants are not touched. */
  lemma SelectCardUnknownVoter(s: State, value: string)
    requires WellFormed(s) && !s.votesRevealed && s.current.Some? && s.userName !in s.participants
    ensures var r := SelectCard(s, value);
      r.outcome == TypeError && r.state.votes == s.votes[s.userName := value] && r.state.participants == s.participants
  {
  }

  /** A participant cannot move away from the current item; re-selecting it is a silent
      no-op. An admin, or anyone while nothing is current, always gets through. */
  lemma SelectItemGate(s: State, k: nat)
    requires WellFormed(s) && k < |s.items|
    ensures var r := SelectItem(s, k);
      && (r.outcome == Done <==> s.isAdmin || s.current.None?)
      && (r.outcome == AlreadySelected <==> !s.isAdmin && s.current.Some? && CurrentItem(s).value.id == s.items[k].id)
      && (r.outcome == Rejected(AdminOnlyChange) <==> !s.isAdmin && s.current.Some? && CurrentItem(s).value.id != s.items[k].id)
      && (r.outcome != Done ==> r.state == s)
  {
  }

  /** After an accepted selectItem the chosen entry is current and voting starts afresh. */
  lemma SelectItemStartsRound(s: State, k: nat)
    requires WellFormed(s) && k < |s.items| && SelectItem(s, k).outcome == Done
    ensures var t := SelectItem(s, k).state;
      && CurrentItem(t) == Some(s.items[k])
      && SameUser(s, t)
      && !t.votesRevealed && t.votes == map[] && t.selectedCard == None
      && t.participants.Keys == s.participants.Keys
      && (forall n :: n in t.participants ==> !t.participants[n].hasVoted && t.participants[n].isAdmin == s.participants[n].isAdmin)
      && t.items == s.items
  {
  }

  /** Reveal and reset are for the admin and need a current item; refused, they change nothing. */
  lemma RevealResetRefused(s: State)
    requires WellFormed(s) && (!s.isAdmin || s.current.None?)
    ensures RevealVotes(s).state == s && RevealVotes(s).outcome.Rejected?
    ensures ResetVotes(s).state == s && ResetVotes(s).outcome.Rejected?
    ensures !s.isAdmin ==> RevealVotes(s).outcome == Rejected(NotAdmin) && ResetVotes(s).outcome == Rejected(NotAdmin)
  {
  }

  /** An accepted reveal ends voting and marks the current item completed, and keeps the votes. */
  lemma RevealEndsVoting(s: State)
    requires WellFormed(s) && s.isAdmin && s.current.Some?
    ensures var t := RevealVotes(s).state;
      && RevealVotes(s).outcome == Done
      && SameUser(s, t) && t.selectedCard == s.selectedCard
      && t.votesRevealed && t.votes == s.votes && t.participants == s.participants
      && CurrentItem(t) == Some(CurrentItem(s).value.(status := Completed))
      && |t.items| == |s.items|
      && (forall j :: 0 <= j < |s.items| && s.current != Some(Linked(j)) ==> t.items[j] == s.items[j])
  {
  }

  /** After an accepted reveal no vote is taken until the round is reset or another item chosen. */
  lemma RevealBlocksVotes(s: State, value: string)
    requires WellFormed(s) && RevealVotes(s).outcome == Done
    ensures SelectCard(RevealVotes(s).state, value) == Step(RevealVotes(s).state, Rejected(VotingEnded))
  {
  }

  /** An accepted reset clears the round and puts the current item back to voting. */
  lemma ResetClearsRound(s: State)
    requires WellFormed(s) && s.isAdmin && s.current.Some?
    ensures var t := ResetVotes(s).state;
      && ResetVotes(s).outcome == Done
      && SameUser(s, t)
      && !t.votesRevealed && t.votes == map[] && t.selectedCard == None
      && t.participants == Unvoted(s.participants)
      && CurrentItem(t) == Some(CurrentItem(s).value.(status := Voting))
      && |t.items| == |s.items|
      && (forall j :: 0 <= j < |s.items| && s.current != Some(Linked(j)) ==> t.items[j] == s.items[j])
  {
  }

  /** The current item's status is written through to the list only when it is a list
      entry; after loadFromStorage it is a copy and the list keeps the old status. */
  lemma StatusWriteAliasing(s: State)
    requires WellFormed(s) && s.isAdmin && s.current.Some?
    ensures s.current.value.Linked? ==>
      RevealVotes(s).state.items == s.items[s.current.value.index := CurrentItem(s).value.(status := Completed)]
    ensures s.current.value.Linked? ==>
      ResetVotes(s).state.items == s.items[s.current.value.index := CurrentItem(s).value.(status := Voting)]
    ensures s.current.value.Detached? ==>
      RevealVotes(s).state.items == s.items && ResetVotes(s).state.items == s.items
  {
  }

  /** nextItem with nothing current starts at the first entry. */
  lemma NextItemFromNothing(s: State)
    requires WellFormed(s) && s.isAdmin && s.current.None? && |s.items| > 0
    ensures NextItem(s).outcome == Done && CurrentItem(NextItem(s).state) == Some(s.items[0])
  {
  }

  /** nextItem moves to the entry after the first one carrying the current id, and does
      nothing at the end of the list (or for an empty list). */
  lemma NextItemAdvances(s: State)
    requires WellFormed(s) && s.isAdmin
    ensures var i := CurrentIndex(s);
      && (i < |s.items| - 1 ==> NextItem(s).outcome == Done && CurrentItem(NextItem(s).state) == Some(s.items[i + 1]))
      && (i == |s.items| - 1 ==> NextItem(s) == Step(s, Rejected(NoMoreItems)))
    ensures CurrentIndex(s) >= 0 ==> s.items[CurrentIndex(s)].id == CurrentItem(s).value.id
  {
    var i := CurrentIndex(s);
    if i >= 0 {
      assert Ids(s.items)[i] == s.items[i].id;
    }
  }

  /** addItem ignores a blank description and otherwise appends exactly one pending item. */
  lemma AddItemAppends(s: State, input: string, now: int)
    requires WellFormed(s)
    ensures var r := AddItem(s, input, now);
      && (r.outcome == Done <==> !AllWhitespace(input))
      && (r.outcome != Done ==> r.state == s)
      && (r.outcome == Done ==>
            && |r.state.items| == |s.items| + 1
            && r.state.items[..|s.items|] == s.items
            && r.state.items[|s.items|] == Item(now, Trim(input), Pending)
            && r.state == s.(items := r.state.items))
  {
    var r := AddItem(s, input, now);
    if r.outcome == Done {
      assert r.state.items[..|s.items|] == s.items;
    }
  }

  /** Loading what saveToStorage wrote gives back the same session, except that the
      current item becomes a copy of the one shown. */
  lemma SaveLoadRoundTrip(s: State)
    requires WellFormed(s) && s.sessionId.Some? && s.sessionId.value != "" && s.deckType != ""
    ensures SaveToStorage(s).Some?
    ensures var t := LoadFromStorage(s, SaveToStorage(s));
      && t.participants == s.participants && t.items == s.items && t.votes == s.votes
      && t.deckType == s.deckType && t.votesRevealed == s.votesRevealed
      && CurrentItem(t) == CurrentItem(s)
      && t == s.(current := t.current)
  {
  }

  /** A record of another session is ignored. */
  lemma LoadIgnoresOtherSession(s: State, d: StoredSession)
    requires WellFormed(s) && d.sessionId != s.sessionId
    ensures LoadFromStorage(s, Some(d)) == s
  {
  }

  /** A successful join makes the user a non-admin participant of the upper-cased session. */
  lemma JoinSessionEnrols(s: State, nameInput: string, sessionInput: string, stored: Option<StoredSession>)
    requires WellFormed(s)
    ensures var r := JoinSession(s, nameInput, sessionInput, stored);
      && (r.outcome == Rejected(EmptyName) <==> AllWhitespace(nameInput))
      && (r.outcome == Rejected(EmptySessionId) <==> !AllWhitespace(nameInput) && AllWhitespace(sessionInput))
      && (r.outcome.Rejected? ==> r.state == s)
      && (r.outcome == Done ==>
            && r.state.userName == Trim(nameInput)
            && r.state.sessionId == Some(ToUpper(Trim(sessionInput)))
            && !r.state.isAdmin
            && r.state.userName in r.state.participants)
    ensures var r := JoinSession(s, nameInput, sessionInput, stored);
      r.outcome.Rejected? || r.outcome == Done
  {
    var id := ToUpper(Trim(sessionInput));
    assert id == "" <==> Trim(sessionInput) == "" by {
      assert |id| == |Trim(sessionInput)|;
    }
  }

  /** Every user action of the local client. */
  datatype Action =
    | CastVote(value: string)
    | ChooseItem(index: nat)
    | Reveal
    | Reset
    | Next
    | NewItem(input: string, now: int)

  function Apply(s: State, a: Action): (r: Step)
    requires WellFormed(s)
    requires a.ChooseItem? ==> a.index < |s.items|
    ensures WellFormed(r.state)
  {
    match a
    case CastVote(value) => SelectCard(s, value)
    case ChooseItem(k) => SelectItem(s, k)
    case Reveal => RevealVotes(s)
    case Reset => ResetVotes(s)
    case Next => NextItem(s)
    case NewItem(input, now) => AddItem(s, input, now)
  }

  /** A refused action, and re-selecting the current item, change nothing. */
  lemma RefusedChangesNothing(s: State, a: Action)
    requires WellFormed(s) && (a.ChooseItem? ==> a.index < |s.items|)
    ensures Apply(s, a).outcome.Rejected? || Apply(s, a).outcome == AlreadySelected ==> Apply(s, a).state == s
  {
  }

  /** Only the admin reveals, resets or moves on, and a participant who is not the admin
      never changes the current item once one is current. */
  lemma OnlyAdminSteers(s: State, a: Action)
    requires WellFormed(s) && (a.ChooseItem? ==> a.index < |s.items|) && !s.isAdmin
    ensures a.Reveal? || a.Reset? || a.Next? ==> Apply(s, a).state == s
    ensures s.current.Some? ==>
      CurrentItem(Apply(s, a).state).Some? && CurrentItem(Apply(s, a).state).value.id == CurrentItem(s).value.id
  {
  }
}
