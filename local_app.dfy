/** The `PlanningPokerApp` object of script.js: its fields are the session, and each
    method changes them step by step. Every method is proved to agree with the
    transition function of the same name in LocalPoker. */
module LocalApp {
  import opened Common
  import opened Text
  import opened Tally
  import opened LocalPoker

  class PlanningPokerApp {
    var sessionId: Option<string>
    var isAdmin: bool
    var userName: string
    var currentItem: Option<Current>
    var participants: map<string, Participant>
    var items: seq<Item>
    var votes: map<string, string>
    var deckType: string
    var selectedCard: Option<string>
    var votesRevealed: bool

    function State(): LocalPoker.State
      reads this
    {
      LocalPoker.State(sessionId, isAdmin, userName, currentItem, participants, items, votes,
                       deckType, selectedCard, votesRevealed)
    }

    ghost predicate Valid()
      reads this
    {
      WellFormed(State())
    }

    constructor()
      ensures Valid() && State() == Initial
    {
      sessionId := None;
      isAdmin := false;
      userName := "";
      currentItem := None;
      participants := map[];
      items := [];
      votes := map[];
      deckType := "modified";
      selectedCard := None;
      votesRevealed := false;
    }

    /** `participants.forEach(participant => participant.hasVoted = false)`. */
    method ClearVotedFlags()
      modifies this
      ensures State() == old(State()).(participants := Unvoted(old(participants)))
    {
      var pending := participants.Keys;
      while pending != {}
        invariant pending <= participants.Keys == old(participants).Keys
        invariant forall n :: n in participants ==>
          participants[n] == if n in pending then old(participants)[n] else old(participants)[n].(hasVoted := false)
        invariant State() == old(State()).(participants := participants)
        decreases pending
      {
        var name :| name in pending;
        participants := participants[name := participants[name].(hasVoted := false)];
        pending := pending - {name};
      }
      assert participants == Unvoted(old(participants));
    }

    /** Writes `status` into the object currentItem refers to. */
    method SetCurrentStatus(status: string)
      requires Valid() && currentItem.Some?
      modifies this
      ensures Valid() && State() == WithCurrentStatus(old(State()), status)
    {
      match currentItem.value {
        case Linked(k) =>
          items := items[k := items[k].(status := status)];
        case Detached(item) =>
          currentItem := Some(Detached(item.(status := status)));
      }
    }

    method SelectCard(value: string) returns (outcome: Outcome)
      requires Valid()
      modifies this
      ensures Valid() && Step(State(), outcome) == LocalPoker.SelectCard(old(State()), value)
    {
      if votesRevealed {
        return Rejected(VotingEnded);
      }
      if currentItem.None? {
        return Rejected(NoItemSelected);
      }
      selectedCard := Some(value);
      votes := votes[userName := value];
      if userName !in participants {
        return TypeError;
      }
      participants := participants[userName := participants[userName].(hasVoted := true)];
      outcome := Done;
    }

    /** selectItem(items[k]). */
    method SelectItem(k: nat) returns (outcome: Outcome)
      requires Valid() && k < |items|
      modifies this
      ensures Valid() && Step(State(), outcome) == LocalPoker.SelectItem(old(State()), k)
    {
      if !isAdmin && currentItem.Some? {
        var shown := match currentItem.value { case Linked(j) => items[j] case Detached(item) => item };
        if shown.id == items[k].id {
          return AlreadySelected;
        }
        return Rejected(AdminOnlyChange);
      }
      currentItem := Some(Linked(k));
      selectedCard := None;
      votesRevealed := false;
      votes := map[];
      ClearVotedFlags();
      outcome := Done;
    }

    method RevealVotes() returns (outcome: Outcome)
      requires Valid()
      modifies this
      ensures Valid() && Step(State(), outcome) == LocalPoker.RevealVotes(old(State()))
    {
      if !isAdmin {
        return Rejected(NotAdmin);
      }
      if currentItem.None? {
        return Rejected(NoItemSelected);
      }
      votesRevealed := true;
      SetCurrentStatus(Completed);
      outcome := Done;
    }

    method ResetVotes() returns (outcome: Outcome)
      requires Valid()
      modifies this
      ensures Valid() && Step(State(), outcome) == LocalPoker.ResetVotes(old(State()))
    {
      if !isAdmin {
        return Rejected(NotAdmin);
      }
      if currentItem.None? {
        return Rejected(NoItemSelected);
      }
      votes := map[];
      votesRevealed := false;
      selectedCard := None;
      ClearVotedFlags();
      SetCurrentStatus(Voting);
      outcome := Done;
    }

    /** The position of the first entry whose id is the current item's, or -1. */
    method FindCurrentIndex() returns (index: int)
      requires Valid()
      ensures index == CurrentIndex(State())
      ensures -1 <= index < |items|
      ensures 0 <= index ==> items[index].id == CurrentItem(State()).value.id
      ensures index == -1 ==> currentItem.None? || forall j :: 0 <= j < |items| ==> items[j].id != CurrentItem(State()).value.id
    {
      if currentItem.None? {
        return -1;
      }
      var id := CurrentItem(State()).value.id;
      index := 0;
      while index < |items| && items[index].id != id
        invariant 0 <= index <= |items|
        invariant forall j :: 0 <= j < index ==> items[j].id != id
      {
        index := index + 1;
      }
      var ids := Ids(items);
      if index == |items| {
        index := -1;
        assert forall j :: 0 <= j < |ids| ==> ids[j] != id;
      } else {
        assert ids[index] == id && forall j :: 0 <= j < index ==> ids[j] != id;
      }
    }

    method NextItem() returns (outcome: Outcome)
      requires Valid()
      modifies this
      ensures Valid() && Step(State(), outcome) == LocalPoker.NextItem(old(State()))
    {
      if !isAdmin {
        return Rejected(NotAdmin);
      }
      var currentIndex := FindCurrentIndex();
      if currentIndex < |items| - 1 {
        outcome := SelectItem(currentIndex + 1);
      } else {
        outcome := Rejected(NoMoreItems);
      }
    }

    method AddItem(input: string, now: int) returns (outcome: Outcome)
      requires Valid()
      modifies this
      ensures Valid() && Step(State(), outcome) == LocalPoker.AddItem(old(State()), input, now)
    {
      var description := Trim(input);
      if description == "" {
        return Rejected(EmptyDescription);
      }
      items := items + [Item(now, description, Pending)];
      outcome := Done;
    }

    method SaveToStorage() returns (record: Option<StoredSession>)
      requires Valid()
      ensures record == LocalPoker.SaveToStorage(State())
      ensures record.Some? ==> record.value.sessionId == sessionId && record.value.votes == Some(votes)
    {
      if sessionId.None? || sessionId.value == "" {
        return None;
      }
      record := Some(StoredSession(sessionId, Some(participants), Some(items), Some(votes),
                                   Some(deckType), CurrentItem(State()), Some(votesRevealed)));
    }

    method LoadFromStorage(stored: Option<StoredSession>)
      requires Valid()
      modifies this
      ensures Valid() && State() == LocalPoker.LoadFromStorage(old(State()), stored)
    {
      if stored.None? || stored.value.sessionId != sessionId {
        return;
      }
      var data := stored.value;
      participants := data.participants.GetOr(map[]);
      items := data.items.GetOr([]);
      votes := data.votes.GetOr(map[]);
      deckType := data.deckType.GetOr("");
      if deckType == "" {
        deckType := "modified";
      }
      currentItem := match data.currentItem { case None => None case Some(item) => Some(Detached(item)) };
      votesRevealed := data.votesRevealed.GetOr(false);
    }

    method JoinSession(nameInput: string, sessionInput: string, stored: Option<StoredSession>) returns (outcome: Outcome)
      requires Valid()
      modifies this
      ensures Valid() && Step(State(), outcome) == LocalPoker.JoinSession(old(State()), nameInput, sessionInput, stored)
    {
      var name := Trim(nameInput);
      var id := ToUpper(Trim(sessionInput));
      if name == "" {
        return Rejected(EmptyName);
      }
      if id == "" {
        return Rejected(EmptySessionId);
      }
      ghost var before := State();
      sessionId := Some(id);
      userName := name;
      isAdmin := false;
      assert State() == before.(sessionId := Some(id), userName := name, isAdmin := false);
      LoadFromStorage(stored);
      ghost var loaded := State();
      if name !in participants {
        participants := participants[name := Participant(false, false)];
        assert State() == loaded.(participants := loaded.participants[name := Participant(false, false)]);
      }
      assert State() == Enrol(before, name, id, stored);
      StartSession();
      outcome := Done;
    }

    method StartSession()
      requires Valid()
      modifies this
      ensures Valid() && State() == LocalPoker.StartSession(old(State()))
    {
      if !isAdmin && |items| > 0 {
        var shown := SelectItem(0);
      }
    }

    /** calculateAndDisplayMode(): the most frequent vote strings, Pass included. */
    method CalculateModes() returns (modes: seq<string>)
      ensures modes == [] <==> votes == map[]
      ensures Distinct(modes)
      ensures forall v :: v in modes <==> IsMode(votes, v)
    {
      modes := MapModes(votes);
    }
  }
}
