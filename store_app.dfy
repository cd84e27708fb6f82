/** The `PlanningPokerApp` object of script-firebase.js. Its fields are the local view, and
    `firebaseManager` is the connection (null until the user joins). Its methods issue
    their writes one at a time and rebuild the local collections entry by entry. Each is
    proved to agree with the transition function of the same name in StorePoker. */
module StoreApp {
  import opened Common
  import opened Text
  import opened Tally
  import opened Statistics
  import opened SessionStore
  import opened StoreConnection
  import opened StorePoker

  /** The vote values listed in some order, as Array.from(votes.values()) does. */
  ghost predicate ListsValues(values: seq<string>, m: map<string, string>) {
    exists names :: Enumerates(names, values, m)
  }

  class PlanningPokerApp {
    var sessionId: Option<string>
    var isAdmin: bool
    var userName: string
    var currentItem: Option<Item>
    var participants: map<string, Participant>
    var items: seq<Item>
    var votes: map<string, string>
    var deckType: string
    var selectedCard: Option<string>
    var votesRevealed: bool
    var firebaseManager: StoreHandle?

    function State(): Client
      reads this
    {
      Client(sessionId, isAdmin, userName, currentItem, participants, items, votes, deckType,
             selectedCard, votesRevealed)
    }

    /** The store as this client can write it: None without a connection. */
    function Link(): Option<Store>
      reads this, firebaseManager
    {
      if firebaseManager == null then None else Some(firebaseManager.data)
    }

    constructor()
      ensures State() == StorePoker.Initial && firebaseManager == null
    {
      sessionId := None;
      isAdmin := false;
      userName := "";
      currentItem := None;
      participants := map[];
      items := [];
      votes := map[];
      deckType := "modified";
      selectedCard := None;
      votesRevealed := false;
      firebaseManager := null;
    }

    method SelectCard(value: string) returns (outcome: Outcome)
      modifies this, firebaseManager
      ensures firebaseManager == old(firebaseManager)
      ensures Step(State(), Link(), outcome) == StorePoker.SelectCard(old(State()), old(Link()), value)
    {
      if votesRevealed {
        return Rejected(VotingEnded);
      }
      if currentItem.None? {
        return Rejected(NoItemSelected);
      }
      selectedCard := Some(value);
      if firebaseManager != null {
        firebaseManager.SetVote(userName, value);
        firebaseManager.UpdateParticipant(userName, true);
      }
      outcome := Done;
    }

    /** `this.participants.forEach((participant, name) => { updateParticipant(name,
        { hasVoted: false }); removeVote(name); })`. */
    method ClearParticipantVotes()
      requires firebaseManager != null
      modifies firebaseManager
      ensures firebaseManager.data == ClearVotesFor(old(firebaseManager.data), participants.Keys)
    {
      var pending := participants.Keys;
      ghost var done: set<string> := {};
      assert ClearVotesFor(old(firebaseManager.data), done) == old(firebaseManager.data) by {
        var st := old(firebaseManager.data);
        assert ClearVotesFor(st, {}).participants == st.participants;
        assert ClearVotesFor(st, {}).votes == st.votes;
      }
      while pending != {}
        invariant pending <= participants.Keys && done == participants.Keys - pending
        invariant firebaseManager.data == ClearVotesFor(old(firebaseManager.data), done)
        decreases pending
      {
        var name :| name in pending;
        ClearVotesForStep(old(firebaseManager.data), done, name);
        firebaseManager.UpdateParticipant(name, false);
        firebaseManager.RemoveVote(name);
        pending := pending - {name};
        done := done + {name};
      }
    }

    /** selectItem(items[k]). */
    method SelectItem(k: nat) returns (outcome: Outcome)
      requires k < |items|
      modifies this, firebaseManager
      ensures firebaseManager == old(firebaseManager)
      ensures Step(State(), Link(), outcome) == StorePoker.SelectItem(old(State()), old(Link()), k)
    {
      var item := items[k];
      if !isAdmin && currentItem.Some? {
        if currentItem.value.id == item.id {
          return AlreadySelected;
        }
        return Rejected(AdminOnlyChange);
      }
      if firebaseManager != null {
        firebaseManager.SetCurrentItem(item);
        firebaseManager.SetVotesRevealed(false);
        ClearParticipantVotes();
      }
      selectedCard := None;
      votesRevealed := false;
      outcome := Done;
    }

    method RevealVotes() returns (outcome: Outcome)
      modifies this, firebaseManager
      ensures firebaseManager == old(firebaseManager)
      ensures Step(State(), Link(), outcome) == StorePoker.RevealVotes(old(State()), old(Link()))
    {
      if !isAdmin {
        return Rejected(NotAdmin);
      }
      if currentItem.None? {
        return Rejected(NoItemSelected);
      }
      if firebaseManager != null {
        firebaseManager.SetVotesRevealed(true);
        firebaseManager.UpdateItem(currentItem.value, Completed);
      }
      outcome := Done;
    }

    method ResetVotes() returns (outcome: Outcome)
      modifies this, firebaseManager
      ensures firebaseManager == old(firebaseManager)
      ensures Step(State(), Link(), outcome) == StorePoker.ResetVotes(old(State()), old(Link()))
    {
      if !isAdmin {
        return Rejected(NotAdmin);
      }
      if firebaseManager != null {
        firebaseManager.SetVotesRevealed(false);
        if currentItem.Some? {
          firebaseManager.UpdateItem(currentItem.value, Voting);
        }
        ClearParticipantVotes();
      }
      votesRevealed := false;
      selectedCard := None;
      outcome := Done;
    }

    method FindCurrentIndex() returns (index: int)
      ensures index == CurrentIndex(State())
    {
      if currentItem.None? {
        return -1;
      }
      var id := currentItem.value.id;
      index := 0;
      while index < |items| && items[index].id != id
        invariant 0 <= index <= |items|
        invariant forall j :: 0 <= j < index ==> items[j].id != id
      {
        index := index + 1;
      }
      var ids := Ids(items);
      if index == |items| {
        index := -1;
        assert forall j :: 0 <= j < |ids| ==> ids[j] != id;
      } else {
        assert ids[index] == id && forall j :: 0 <= j < index ==> ids[j] != id;
      }
    }

    method NextItem() returns (outcome: Outcome)
      modifies this, firebaseManager
      ensures firebaseManager == old(firebaseManager)
      ensures Step(State(), Link(), outcome) == StorePoker.NextItem(old(State()), old(Link()))
    {
      if !isAdmin {
        return Rejected(NotAdmin);
      }
      var currentIndex := FindCurrentIndex();
      var nextIndex := currentIndex + 1;
      if nextIndex < |items| {
        outcome := SelectItem(nextIndex);
      } else {
        outcome := Rejected(NoMoreItems);
      }
    }

    /** addItem(): `key` is the push key the store hands out. */
    method AddItem(input: string, key: string) returns (outcome: Outcome)
      modifies firebaseManager
      ensures Step(State(), Link(), outcome) == StorePoker.AddItem(old(State()), old(Link()), input, key)
    {
      var description := Trim(input);
      if description == "" {
        return Rejected(EmptyDescription);
      }
      if firebaseManager != null {
        firebaseManager.AddItem(key, ItemData(description, Pending));
      }
      outcome := Done;
    }

    /** joinSession(): `manager` is the new connection to the session, null when
        FirebaseSessionManager is not defined. */
    method JoinSession(nameInput: string, sessionInput: string, manager: StoreHandle?) returns (outcome: Outcome)
      modifies this, manager
      ensures outcome == Done ==> firebaseManager == manager
      ensures outcome != Done ==> firebaseManager == old(firebaseManager)
      ensures outcome != Done && manager != null ==> manager.data == old(manager.data)
      ensures Step(State(), Link(), outcome) ==
        StorePoker.JoinSession(old(State()), old(Link()), nameInput, sessionInput,
                               if manager == null then None else Some(old(manager.data)))
    {
      ghost var before := State();
      ghost var link := Link();
      ghost var remote := if manager == null then None else Some(manager.data);
      ghost var expected := StorePoker.JoinSession(before, link, nameInput, sessionInput, remote);
      var name := Trim(nameInput);
      var id := ToUpper(Trim(sessionInput));
      if name == "" {
        assert expected == Step(before, link, Rejected(EmptyName));
        return Rejected(EmptyName);
      }
      if id == "" {
        assert expected == Step(before, link, Rejected(EmptySessionId));
        return Rejected(EmptySessionId);
      }
      ghost var joined := before.(sessionId := Some(id), userName := name, isAdmin := false);
      sessionId := Some(id);
      userName := name;
      isAdmin := false;
      assert State() == joined;
      if manager == null {
        assert expected == Step(joined, link, NoConnection);
        return NoConnection;
      }
      assert expected == Step(joined, Some(SessionStore.AddParticipant(remote.value, name, false)), Done);
      Connect(manager, name);
      outcome := Done;
    }

    /** `this.firebaseManager = new FirebaseSessionManager(...)`, then addParticipantToFirebase. */
    method Connect(manager: StoreHandle, name: string)
      modifies this, manager
      ensures State() == old(State())
      ensures firebaseManager == manager
      ensures manager.data == SessionStore.AddParticipant(old(manager.data), name, false)
    {
      firebaseManager := manager;
      manager.AddParticipant(name, false);
    }

    /** The participants callback: a new map filled from the snapshot's entries. */
    method OnParticipants(snapshot: Option<map<string, Participant>>)
      modifies this
      ensures firebaseManager == old(firebaseManager)
      ensures State() == ReadParticipants(old(State()), snapshot)
    {
      var entries := snapshot.GetOr(map[]);
      participants := map[];
      var pending := entries.Keys;
      while pending != {}
        invariant pending <= entries.Keys
        invariant forall n :: n in participants <==> n in entries && n !in pending
        invariant forall n :: n in participants ==> participants[n] == entries[n]
        invariant State() == old(State()).(participants := participants)
        invariant firebaseManager == old(firebaseManager)
        decreases pending
      {
        var name :| name in pending;
        participants := participants[name := entries[name]];
        pending := pending - {name};
      }
      assert participants == entries;
    }

    /** The votes callback. */
    method OnVotes(snapshot: Option<map<string, string>>)
      modifies this
      ensures firebaseManager == old(firebaseManager)
      ensures State() == ReadVotes(old(State()), snapshot)
    {
      var entries := snapshot.GetOr(map[]);
      votes := map[];
      var pending := entries.Keys;
      while pending != {}
        invariant pending <= entries.Keys
        invariant forall n :: n in votes <==> n in entries && n !in pending
        invariant forall n :: n in votes ==> votes[n] == entries[n]
        invariant State() == old(State()).(votes := votes)
        invariant firebaseManager == old(firebaseManager)
        decreases pending
      {
        var name :| name in pending;
        votes := votes[name := entries[name]];
        pending := pending - {name};
      }
      assert votes == entries;
    }

    /** The items callback: the list rebuilt with one `{ id, ...data }` per entry. */
    method OnItems(snapshot: Option<map<string, ItemData>>)
      modifies this
      ensures firebaseManager == old(firebaseManager)
      ensures ListsItems(items, snapshot.GetOr(map[]))
      ensures State() == old(State()).(items := items)
    {
      var entries := snapshot.GetOr(map[]);
      items := [];
      var pending := entries.Keys;
      while pending != {}
        invariant pending <= entries.Keys
        invariant Distinct(Ids(items))
        invariant forall key :: key in entries <==> key in Ids(items) || key in pending
        invariant forall key :: key in Ids(items) ==> key !in pending
        invariant forall i :: 0 <= i < |items| ==>
          items[i].id in entries && entries[items[i].id] == ItemData(items[i].description, items[i].status)
        invariant State() == old(State()).(items := items)
        invariant firebaseManager == old(firebaseManager)
        decreases pending
      {
        var id :| id in pending;
        var data := entries[id];
        ghost var before := Ids(items);
        items := items + [Item(id, data.description, data.status)];
        assert Ids(items) == before + [id];
        pending := pending - {id};
      }
      ListedItemsCount(items, entries);
    }

    /** The currentItem callback. */
    method OnCurrentItem(snapshot: Option<Item>)
      modifies this
      ensures firebaseManager == old(firebaseManager)
      ensures State() == ReadCurrentItem(old(State()), snapshot)
    {
      currentItem := snapshot;
    }

    /** The votesRevealed callback. */
    method OnVotesRevealed(snapshot: Option<bool>)
      modifies this
      ensures firebaseManager == old(firebaseManager)
      ensures State() == ReadVotesRevealed(old(State()), snapshot)
    {
      votesRevealed := snapshot.GetOr(false);
    }

    /** calculateAndDisplayMode(): the statistics of the votes this client holds. */
    method CalculateAndDisplayMode() returns (voteValues: seq<string>, stats: Option<Stats>)
      ensures ListsValues(voteValues, votes)
      ensures stats.None? <==> forall n :: n in votes ==> votes[n] == PassVote
      ensures stats.Some? ==>
        && stats.value.passCount == |Voters(votes, PassVote)|
        && stats.value.voteCount + stats.value.passCount == |votes|
        && Distinct(stats.value.modes)
        && (forall v :: v in stats.value.modes <==>
              v != PassVote && v in votes.Values &&
              forall w :: w != PassVote && w in votes.Values ==> |Voters(votes, w)| <= |Voters(votes, v)|)
        && stats.value.mean == Mean(Numbers(NonPass(voteValues)))
        && stats.value.median == Median(Numbers(NonPass(voteValues)))
    {
      var names;
      names, voteValues := ValuesOf(votes);
      stats := Calculate(voteValues);
      EnumerationSize(names, voteValues, votes);
      EnumerationCounts(names, voteValues, votes, PassVote);
      forall v ensures (v in voteValues <==> v in votes.Values) && Count(voteValues, v) == |Voters(votes, v)| {
        EnumerationValues(names, voteValues, votes, v);
        EnumerationCounts(names, voteValues, votes, v);
      }
      forall v ensures IsModeOf(NonPass(voteValues), v) <==>
        v != PassVote && v in votes.Values &&
        forall w :: w != PassVote && w in votes.Values ==> |Voters(votes, w)| <= |Voters(votes, v)|
      {
        NonPassModes(voteValues, v);
      }
      assert (forall i :: 0 <= i < |voteValues| ==> voteValues[i] == PassVote) <==>
             (forall n :: n in votes ==> votes[n] == PassVote) by {
        AllPassEnumeration(names, voteValues, votes);
      }
    }

    /** saveSessionToStorage(): the record written, if any. */
    method SaveSessionToStorage(now: int) returns (record: Option<SavedSession>)
      ensures record == SaveSession(State(), now)
      ensures record.Some? ==> record.value.sessionId == sessionId && record.value.timestamp == Some(now)
    {
      if sessionId.GetOr("") != "" && userName != "" {
        record := Some(SavedSession(sessionId, Some(userName), Some(isAdmin), Some(deckType), Some(now)));
      } else {
        record := None;
      }
    }

    /** restoreSessionFromStorage(): takes the saved fields back when the rule allows it. */
    method RestoreSessionFromStorage(saved: Saved, now: int) returns (decision: Restore)
      modifies this
      ensures decision == RestoreDecision(saved, now)
      ensures firebaseManager == old(firebaseManager)
      ensures decision.Restored? ==> State() == old(State()).(sessionId := Some(decision.sessionId),
        userName := decision.userName, isAdmin := decision.isAdmin, deckType := decision.deckType)
      ensures !decision.Restored? ==> State() == old(State())
    {
      decision := RestoreDecision(saved, now);
      if decision.Restored? {
        sessionId := Some(decision.sessionId);
        userName := decision.userName;
        isAdmin := decision.isAdmin;
        deckType := decision.deckType;
      }
    }
  }

  lemma ListedItemsCount(items: seq<Item>, m: map<string, ItemData>)
    requires Distinct(Ids(items))
    requires forall key :: key in m <==> key in Ids(items)
    requires forall i :: 0 <= i < |items| ==> items[i].id in m && m[items[i].id] == ItemData(items[i].description, items[i].status)
    ensures ListsItems(items, m)
  {
    var ids := Ids(items);
    assert m.Keys == set i | 0 <= i < |ids| :: ids[i];
    DistinctCardinality(ids);
  }

  /** A list of distinct keys has as many elements as its set. */
  lemma {:induction false} DistinctCardinality(ids: seq<string>)
    requires Distinct(ids)
    ensures |set i | 0 <= i < |ids| :: ids[i]| == |ids|
  {
    if ids != [] {
      var init := ids[..|ids| - 1];
      assert Distinct(init);
      DistinctCardinality(init);
      var s := set i | 0 <= i < |ids| :: ids[i];
      var t := set i | 0 <= i < |init| :: init[i];
      assert s == t + {ids[|ids| - 1]};
      assert ids[|ids| - 1] !in t;
    }
  }

  /** Every listed value is Pass exactly when every vote is Pass. */
  lemma AllPassEnumeration(names: seq<string>, values: seq<string>, m: map<string, string>)
    requires Enumerates(names, values, m)
    ensures (forall i :: 0 <= i < |values| ==> values[i] == PassVote) <==> (forall n :: n in m ==> m[n] == PassVote)
  {
    if forall i :: 0 <= i < |values| ==> values[i] == PassVote {
      forall n | n in m ensures m[n] == PassVote {
        var i :| 0 <= i < |names| && names[i] == n;
      }
    }
  }
}
