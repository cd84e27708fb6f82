/** The store-backed client (script-firebase.js). Its fields are a local view of the shared
    store: a user action issues writes to the store and touches only a few local fields,
    and the local copies of participants, items, votes, the current item and the
    revealed flag are replaced when the store delivers a new value of that node.

    As for the local client, the transitions are pure functions here (the reference
    definition); the object in StoreApp is proved to agree with them. */
module StorePoker {
  import opened Common
  import opened Text
  import opened Tally
  import opened SessionStore
  import opened Statistics

  datatype Client = Client(
    sessionId: Option<string>,
    isAdmin: bool,
    userName: string,
    current: Option<Item>,
    participants: map<string, Participant>,
    items: seq<Item>,
    votes: map<string, string>,
    deckType: string,
    selectedCard: Option<string>,
    votesRevealed: bool)

  const Initial: Client := Client(None, false, "", None, map[], [], map[], "modified", None, false)

  /** The result of an action: the new local fields, the store as written (None when the
      client has no connection, so that no write is issued), and the outcome. */
  datatype Step = Step(client: Client, link: Option<Store>, outcome: Outcome)

  /** The local copies of the store's nodes: only the store's callbacks replace them. */
  predicate SameCopies(c: Client, t: Client) {
    t.participants == c.participants && t.items == c.items && t.votes == c.votes && t.current == c.current
  }

  /** Who the user is, which session, and the deck: no voting action changes these. */
  predicate SameUser(c: Client, t: Client) {
    t.sessionId == c.sessionId && t.userName == c.userName && t.isAdmin == c.isAdmin && t.deckType == c.deckType
  }

  // ---- user actions ----------------------------------------------------------------

  /** selectCard(value): the vote and the voted flag are written to the store. */
  function SelectCard(c: Client, link: Option<Store>, value: string): (r: Step)
    ensures SameCopies(c, r.client) && SameUser(c, r.client)
    ensures r.outcome == Done || r.outcome.Rejected?
    ensures r.outcome.Rejected? ==> r.client == c && r.link == link
    ensures link.None? ==> r.link.None?
  {
    if c.votesRevealed then Step(c, link, Rejected(VotingEnded))
    else if c.current.None? then Step(c, link, Rejected(NoItemSelected))
    else
      var written := match link
        case None => None
        case Some(st) => Some(UpdateParticipant(SetVote(st, c.userName, value), c.userName, true));
      Step(c.(selectedCard := Some(value)), written, Done)
  }

  /** selectItem(items[k]): the store gets the new current item, the revealed flag off and
      the votes of every name in the LOCAL participants map cleared. */
  function SelectItem(c: Client, link: Option<Store>, k: nat): (r: Step)
    requires k < |c.items|
    ensures SameCopies(c, r.client) && SameUser(c, r.client)
    ensures r.outcome != Done ==> r.client == c && r.link == link
    ensures link.None? ==> r.link.None?
  {
    var item := c.items[k];
    if !c.isAdmin && c.current.Some? && c.current.value.id == item.id then Step(c, link, AlreadySelected)
    else if !c.isAdmin && c.current.Some? then Step(c, link, Rejected(AdminOnlyChange))
    else
      var written := match link
        case None => None
        case Some(st) => Some(ClearVotesFor(SetVotesRevealed(SetCurrentItem(st, item), false), c.participants.Keys));
      Step(c.(selectedCard := None, votesRevealed := false), written, Done)
  }

  /** revealVotes(): only store writes; the local flag follows when the store delivers it. */
  function RevealVotes(c: Client, link: Option<Store>): (r: Step)
    ensures r.client == c
    ensures r.outcome.Rejected? ==> r.link == link
    ensures link.None? ==> r.link.None?
  {
    if !c.isAdmin then Step(c, link, Rejected(NotAdmin))
    else if c.current.None? then Step(c, link, Rejected(NoItemSelected))
    else
      var written := match link
        case None => None
        case Some(st) => Some(UpdateItem(SetVotesRevealed(st, true), c.current.value, Completed));
      Step(c, written, Done)
  }

  /** resetVotes(): needs the admin but no current item; the status is written only when
      an item is current. */
  function ResetVotes(c: Client, link: Option<Store>): (r: Step)
    ensures SameCopies(c, r.client) && SameUser(c, r.client)
    ensures r.outcome.Rejected? ==> r.client == c && r.link == link
    ensures link.None? ==> r.link.None?
  {
    if !c.isAdmin then Step(c, link, Rejected(NotAdmin))
    else
      var written := match link
        case None => None
        case Some(st) =>
          var hidden := SetVotesRevealed(st, false);
          var restarted := if c.current.Some? then UpdateItem(hidden, c.current.value, Voting) else hidden;
          Some(ClearVotesFor(restarted, c.participants.Keys));
      Step(c.(votesRevealed := false, selectedCard := None), written, Done)
  }

  /** addItem(input): a blank description is refused; otherwise one pending item is pushed
      under `key`, the key the store chooses. The local list follows when the store
      delivers the items node. */
  function AddItem(c: Client, link: Option<Store>, input: string, key: string): (r: Step)
    ensures r.client == c
    ensures r.outcome.Rejected? ==> r.link == link
    ensures link.None? ==> r.link.None?
  {
    var description := Trim(input);
    if description == "" then Step(c, link, Rejected(EmptyDescription))
    else
      var written := match link
        case None => None
        case Some(st) => Some(SessionStore.AddItem(st, key, ItemData(description, Pending)));
      Step(c, written, Done)
  }

  /** The ids of the list. The local client's items are a different record whose id is the
      Date.now() number, so LocalPoker has its own Ids over that record; here the id is the
      store's push key. */
  function Ids(items: seq<Item>): (ids: seq<string>)
    ensures |ids| == |items|
  {
    seq(|items|, i requires 0 <= i < |items| => items[i].id)
  }

  /** findIndex(item => item.id === currentItem?.id). */
  function CurrentIndex(c: Client): (i: int)
    ensures -1 <= i < |c.items|
  {
    match c.current
    case None => -1
    case Some(item) => IndexOf(Ids(c.items), item.id)
  }

  /** nextItem(). */
  function NextItem(c: Client, link: Option<Store>): (r: Step)
    ensures SameCopies(c, r.client) && SameUser(c, r.client)
    ensures r.outcome.Rejected? ==> r.client == c && r.link == link
    ensures link.None? ==> r.link.None?
  {
    if !c.isAdmin then Step(c, link, Rejected(NotAdmin))
    else
      var next := CurrentIndex(c) + 1;
      if next < |c.items| then SelectItem(c, link, next)
      else Step(c, link, Rejected(NoMoreItems))
  }

  /** joinSession(): `remote` is the session as the new connection finds it, None when
      FirebaseSessionManager is not defined. The user is set first; with a connection they
      are added to the session as a participant who is not the admin, and without one the
      join stops there and the old connection stays. */
  function JoinSession(c: Client, link: Option<Store>, nameInput: string, sessionInput: string, remote: Option<Store>): (r: Step)
    ensures r.client.participants == c.participants && r.client.items == c.items
    ensures r.client.votes == c.votes && r.client.current == c.current
    ensures r.outcome == Done ==> remote.Some? && r.link.Some? && r.link.value.participants.Keys == remote.value.participants.Keys + {r.client.userName}
    ensures r.outcome != Done ==> r.link == link
  {
    var name := Trim(nameInput);
    var id := ToUpper(Trim(sessionInput));
    if name == "" then Step(c, link, Rejected(EmptyName))
    else if id == "" then Step(c, link, Rejected(EmptySessionId))
    else
      var joined := c.(sessionId := Some(id), userName := name, isAdmin := false);
      match remote
      case None => Step(joined, link, NoConnection)
      case Some(st) => Step(joined, Some(AddParticipant(st, name, false)), Done)
  }

  // ---- what the store delivers --------------------------------------------------------

  /** The participants and votes callbacks: `snapshot.val() || {}` replaces the map. */
  function ReadParticipants(c: Client, snapshot: Option<map<string, Participant>>): (r: Client)
    ensures r == c.(participants := r.participants)
    ensures snapshot.None? ==> r.participants == map[]
    ensures snapshot.Some? ==> r.participants == snapshot.value
  {
    c.(participants := snapshot.GetOr(map[]))
  }

  function ReadVotes(c: Client, snapshot: Option<map<string, string>>): (r: Client)
    ensures r == c.(votes := r.votes)
    ensures snapshot.None? ==> r.votes == map[]
    ensures snapshot.Some? ==> r.votes == snapshot.value
  {
    c.(votes := snapshot.GetOr(map[]))
  }

  /** The currentItem callback: `snapshot.val()`, null included. */
  function ReadCurrentItem(c: Client, snapshot: Option<Item>): (r: Client)
    ensures r == c.(current := r.current)
    ensures r.current == snapshot
  {
    c.(current := snapshot)
  }

  /** The votesRevealed callback: `snapshot.val() || false`. */
  function ReadVotesRevealed(c: Client, snapshot: Option<bool>): (r: Client)
    ensures r == c.(votesRevealed := r.votesRevealed)
    ensures r.votesRevealed <==> snapshot == Some(true)
  {
    c.(votesRevealed := snapshot.GetOr(false))
  }

  /** The items callback rebuilds the list from the entries of the node, `{ id, ...data }`
      for each; the order of the entries is left open. */
  ghost predicate ListsItems(items: seq<Item>, m: map<string, ItemData>) {
    && |items| == |m|
    && Distinct(Ids(items))
    && (forall key :: key in m <==> key in Ids(items))
    && (forall i :: 0 <= i < |items| ==> items[i].id in m && m[items[i].id] == ItemData(items[i].description, items[i].status))
  }

  /** The client once every callback but the items one has delivered the store's state. */
  function Refresh(c: Client, st: Store): (r: Client)
    ensures SameUser(c, r) && r.items == c.items && r.selectedCard == c.selectedCard
    ensures r.participants == st.participants && r.votes == st.votes && r.current == st.currentItem
  {
    var c1 := ReadParticipants(c, Snapshot(st.participants));
    var c2 := ReadVotes(c1, Snapshot(st.votes));
    var c3 := ReadCurrentItem(c2, st.currentItem);
    ReadVotesRevealed(c3, st.votesRevealed)
  }

  // ---- the saved session (localStorage) --------------------------------------------

  const MaxAge: int := 24 * 60 * 60 * 1000

  /** The parsed record; a missing field is None. */
  datatype SavedSession = SavedSession(
    sessionId: Option<string>,
    userName: Option<string>,
    isAdmin: Option<bool>,
    deckType: Option<string>,
    timestamp: Option<int>)

  /** What localStorage holds under the key: nothing, text that does not parse, or a record. */
  datatype Saved = NothingSaved | Unreadable | Entry(record: SavedSession)

  datatype Restore =
    | NoSession
    | Restored(sessionId: string, userName: string, isAdmin: bool, deckType: string)
    | Removed    // the entry is deleted

  /** restoreSessionFromStorage(): `now` is Date.now(). A record without a timestamp is
      too old (NaN < maxAge is false). */
  function RestoreDecision(saved: Saved, now: int): (r: Restore)
    ensures r.Restored? ==> r.sessionId != "" && r.userName != "" && r.deckType != ""
    ensures saved.Unreadable? ==> r == Removed
  {
    match saved
    case NothingSaved => NoSession
    case Unreadable => Removed
    case Entry(d) =>
      var young := d.timestamp.Some? && now - d.timestamp.value < MaxAge;
      if young && d.sessionId.GetOr("") != "" && d.userName.GetOr("") != "" then
        Restored(d.sessionId.value, d.userName.value, d.isAdmin.GetOr(false),
                 if d.deckType.GetOr("") == "" then "modified" else d.deckType.value)
      else Removed
  }

  /** saveSessionToStorage(): written only with a session id and a user name. */
  function SaveSession(c: Client, now: int): (r: Option<SavedSession>)
    ensures r.Some? <==> c.sessionId.Some? && c.sessionId.value != "" && c.userName != ""
    ensures r.Some? ==> r.value.sessionId == c.sessionId && r.value.userName == Some(c.userName) && r.value.timestamp == Some(now)
  {
    if c.sessionId.GetOr("") != "" && c.userName != "" then
      Some(SavedSession(c.sessionId, Some(c.userName), Some(c.isAdmin), Some(c.deckType), Some(now)))
    else None
  }

  // ---- properties ----------------------------------------------------------------------

  /** A refused vote issues no write. */
  lemma SelectCardRefused(c: Client, link: Option<Store>, value: string)
    requires c.votesRevealed || c.current.None?
    ensures SelectCard(c, link, value).outcome.Rejected?
    ensures SelectCard(c, link, value).client == c && SelectCard(c, link, value).link == link
  {
  }

  /** An accepted vote writes exactly the vote and the voter's flag. */
  lemma SelectCardWrites(c: Client, st: Store, value: string)
    requires !c.votesRevealed && c.current.Some?
    ensures var r := SelectCard(c, Some(st), value);
      && r.outcome == Done && r.link.Some?
      && r.link.value.votes == st.votes[c.userName := value]
      && r.link.value.participants.Keys == st.participants.Keys + {c.userName}
      && r.link.value.participants[c.userName].hasVoted
      && r.link.value.participants[c.userName].isAdmin == (c.userName in st.participants && st.participants[c.userName].isAdmin)
      && (forall n :: n in st.participants && n != c.userName ==> r.link.value.participants[n] == st.participants[n])
      && r.link.value.items == st.items && r.link.value.currentItem == st.currentItem
      && r.link.value.votesRevealed == st.votesRevealed
      && r.client == c.(selectedCard := Some(value))
  {
  }

  /** The same gate as the local client: a participant stays on the current item. */
  lemma SelectItemGate(c: Client, link: Option<Store>, k: nat)
    requires k < |c.items|
    ensures var r := SelectItem(c, link, k);
      && (r.outcome == Done <==> c.isAdmin || c.current.None?)
      && (r.outcome == AlreadySelected <==> !c.isAdmin && c.current.Some? && c.current.value.id == c.items[k].id)
      && (r.outcome == Rejected(AdminOnlyChange) <==> !c.isAdmin && c.current.Some? && c.current.value.id != c.items[k].id)
      && (r.outcome != Done ==> r.client == c && r.link == link)
  {
  }

  /** An accepted selectItem: the store has the new current item, the flag off, and no vote
      of a name in the local participants map; votes and records of other names are kept,
      listed names keep their admin flag, and no vote appears. */
  lemma SelectItemWrites(c: Client, st: Store, k: nat)
    requires k < |c.items| && (c.isAdmin || c.current.None?)
    ensures var r := SelectItem(c, Some(st), k);
      && r.outcome == Done && r.link.Some?
      && r.link.value.currentItem == Some(c.items[k])
      && r.link.value.votesRevealed == Some(false)
      && (forall n :: n in c.participants ==> n !in r.link.value.votes && !r.link.value.participants[n].hasVoted)
      && (forall n :: n in st.votes && n !in c.participants ==> n in r.link.value.votes && r.link.value.votes[n] == st.votes[n])
      && (forall n :: n in r.link.value.votes ==> n in st.votes)
      && (forall n :: n in st.participants && n !in c.participants ==> r.link.value.participants[n] == st.participants[n])
      && (forall n :: n in st.participants && n in c.participants ==> r.link.value.participants[n].isAdmin == st.participants[n].isAdmin)
      && r.link.value.items == st.items
      && r.client == c.(selectedCard := None, votesRevealed := false)
  {
    var item := c.items[k];
    ClearVotesForEffect(SetVotesRevealed(SetCurrentItem(st, item), false), c.participants.Keys);
  }

  /** Once the store has delivered the writes of an accepted selectItem, the client shows
      the new item, unrevealed, with no vote from anybody it listed. */
  lemma SelectItemThenRefresh(c: Client, st: Store, k: nat)
    requires k < |c.items| && (c.isAdmin || c.current.None?)
    ensures var r := SelectItem(c, Some(st), k);
      var seen := Refresh(r.client, r.link.value);
      && seen.current == Some(c.items[k])
      && !seen.votesRevealed
      && (forall n :: n in c.participants ==> n !in seen.votes && n in seen.participants && !seen.participants[n].hasVoted)
  {
    var r := SelectItem(c, Some(st), k);
    SelectItemWrites(c, st, k);
    SnapshotOrEmpty(r.link.value.participants);
    SnapshotOrEmpty(r.link.value.votes);
  }

  /** Reveal needs the admin and a current item; then it writes the flag and the status. */
  lemma RevealWrites(c: Client, link: Option<Store>)
    ensures var r := RevealVotes(c, link);
      && (r.outcome == Done <==> c.isAdmin && c.current.Some?)
      && (r.outcome != Done ==> r.link == link)
      && r.client == c
      && (r.outcome == Done && link.Some? ==>
            && r.link.value.votesRevealed == Some(true)
            && r.link.value.items == link.value.items[c.current.value.id := ItemData(c.current.value.description, Completed)]
            && r.link.value.votes == link.value.votes
            && r.link.value.participants == link.value.participants
            && r.link.value.currentItem == link.value.currentItem)
  {
  }

  /** Once the reveal is delivered, the client refuses further votes. */
  lemma RevealThenVoteRefused(c: Client, st: Store, value: string)
    requires c.isAdmin && c.current.Some?
    ensures var r := RevealVotes(c, Some(st));
      var seen := Refresh(r.client, r.link.value);
      seen.votesRevealed && SelectCard(seen, r.link, value) == Step(seen, r.link, Rejected(VotingEnded))
  {
  }

  /** Reset needs the admin only; the status is written only when an item is current, and
      the local participants' votes are always cleared. */
  lemma ResetWrites(c: Client, st: Store)
    ensures var r := ResetVotes(c, Some(st));
      && (r.outcome == Done <==> c.isAdmin)
      && (r.outcome != Done ==> r.link == Some(st) && r.client == c)
      && (r.outcome == Done ==>
            && r.link.Some?
            && r.link.value.votesRevealed == Some(false)
            && (c.current.Some? ==> r.link.value.items == st.items[c.current.value.id := ItemData(c.current.value.description, Voting)])
            && (c.current.None? ==> r.link.value.items == st.items)
            && (forall n :: n in c.participants ==> n !in r.link.value.votes && !r.link.value.participants[n].hasVoted)
            && (forall n :: n in st.votes && n !in c.participants ==> n in r.link.value.votes && r.link.value.votes[n] == st.votes[n])
            && (forall n :: n in r.link.value.votes ==> n in st.votes)
            && (forall n :: n in st.participants && n !in c.participants ==> r.link.value.participants[n] == st.participants[n])
            && (forall n :: n in st.participants && n in c.participants ==> r.link.value.participants[n].isAdmin == st.participants[n].isAdmin)
            && r.link.value.currentItem == st.currentItem
            && r.client == c.(votesRevealed := false, selectedCard := None))
  {
    if c.isAdmin {
      var hidden := SetVotesRevealed(st, false);
      var restarted := if c.current.Some? then UpdateItem(hidden, c.current.value, Voting) else hidden;
      ClearVotesForEffect(restarted, c.participants.Keys);
    }
  }

  /** nextItem selects the entry after the current one when there is one. */
  lemma NextItemAdvances(c: Client, link: Option<Store>)
    requires c.isAdmin
    ensures var next := CurrentIndex(c) + 1;
      && (next < |c.items| ==> NextItem(c, link) == SelectItem(c, link, next) && NextItem(c, link).outcome == Done)
      && (next == |c.items| ==> NextItem(c, link) == Step(c, link, Rejected(NoMoreItems)))
    ensures c.current.None? && |c.items| > 0 ==>
      NextItem(c, link).outcome == Done && (link.Some? ==> NextItem(c, link).link.value.currentItem == Some(c.items[0]))
  {
  }

  /** A null snapshot reads as an empty map, an unset flag as false, and in every case the
      client ends up with exactly what the store holds. */
  lemma RefreshShowsStore(c: Client, st: Store)
    ensures var seen := Refresh(c, st);
      && seen.participants == st.participants && seen.votes == st.votes
      && seen.current == st.currentItem
      && (seen.votesRevealed <==> st.votesRevealed == Some(true))
      && seen.items == c.items && seen.selectedCard == c.selectedCard && seen.userName == c.userName
    ensures ReadParticipants(c, None).participants == map[] && ReadVotes(c, None).votes == map[]
    ensures !ReadVotesRevealed(c, None).votesRevealed
  {
    SnapshotOrEmpty(st.participants);
    SnapshotOrEmpty(st.votes);
  }

  /** A successful join makes the user a listed, non-admin participant of the session.
      Without the store library the user is still set, but nothing is written. */
  lemma JoinSessionEnrols(c: Client, link: Option<Store>, nameInput: string, sessionInput: string, remote: Option<Store>)
    ensures var r := JoinSession(c, link, nameInput, sessionInput, remote);
      && (r.outcome.Rejected? <==> AllWhitespace(nameInput) || AllWhitespace(sessionInput))
      && (r.outcome.Rejected? ==> r.client == c && r.link == link)
      && (r.outcome == NoConnection <==> !r.outcome.Rejected? && remote.None?)
      && (r.outcome == NoConnection ==>
            && r.link == link
            && r.client == c.(sessionId := Some(ToUpper(Trim(sessionInput))), userName := Trim(nameInput), isAdmin := false))
      && (r.outcome == Done ==>
            && r.client.userName == Trim(nameInput) && !r.client.isAdmin
            && r.link.Some? && r.link.value.participants[r.client.userName] == Participant(false, false)
            && Refresh(r.client, r.link.value).participants[r.client.userName] == Participant(false, false))
  {
    var id := ToUpper(Trim(sessionInput));
    assert |id| == |Trim(sessionInput)|;
    var r := JoinSession(c, link, nameInput, sessionInput, remote);
    if r.outcome == Done {
      SnapshotOrEmpty(r.link.value.participants);
    }
  }

  /** The 24-hour rule: a session comes back only from a readable record younger than a
      day with a session id and a user name; any other entry is removed. */
  lemma RestoreRule(saved: Saved, now: int)
    ensures RestoreDecision(saved, now).Restored? <==>
      && saved.Entry?
      && saved.record.timestamp.Some? && now - saved.record.timestamp.value < MaxAge
      && saved.record.sessionId.Some? && saved.record.sessionId.value != ""
      && saved.record.userName.Some? && saved.record.userName.value != ""
    ensures RestoreDecision(saved, now) == NoSession <==> saved == NothingSaved
    ensures RestoreDecision(saved, now).Restored? ==>
      Some(RestoreDecision(saved, now).sessionId) == saved.record.sessionId &&
      Some(RestoreDecision(saved, now).userName) == saved.record.userName
  {
  }

  /** addItem ignores a blank description and otherwise pushes exactly one pending item,
      trimmed, and writes nothing else. */
  lemma AddItemWrites(c: Client, link: Option<Store>, input: string, key: string)
    ensures var r := AddItem(c, link, input, key);
      && (r.outcome == Done <==> !AllWhitespace(input))
      && (r.outcome != Done ==> r.link == link)
      && r.client == c
      && (r.outcome == Done && link.Some? ==>
            && r.link.Some?
            && r.link.value.items == link.value.items[key := ItemData(Trim(input), Pending)]
            && (key !in link.value.items ==> |r.link.value.items| == |link.value.items| + 1)
            && r.link.value == link.value.(items := r.link.value.items))
  {
  }

  /** A saved session is restored, as saved, until it is a day old, and removed after. */
  lemma SaveRestoreRoundTrip(c: Client, savedAt: int, now: int)
    requires SaveSession(c, savedAt).Some? && c.deckType != ""
    ensures now - savedAt < MaxAge ==>
      RestoreDecision(Entry(SaveSession(c, savedAt).value), now) ==
        Restored(c.sessionId.value, c.userName, c.isAdmin, c.deckType)
    ensures now - savedAt >= MaxAge ==> RestoreDecision(Entry(SaveSession(c, savedAt).value), now) == Removed
  {
  }

  /** Every user action of the store-backed client. */
  datatype Action =
    | CastVote(value: string)
    | ChooseItem(index: nat)
    | Reveal
    | Reset
    | Next
    | NewItem(input: string, key: string)

  function Apply(c: Client, link: Option<Store>, a: Action): Step
    requires a.ChooseItem? ==> a.index < |c.items|
  {
    match a
    case CastVote(value) => SelectCard(c, link, value)
    case ChooseItem(k) => SelectItem(c, link, k)
    case Reveal => RevealVotes(c, link)
    case Reset => ResetVotes(c, link)
    case Next => NextItem(c, link)
    case NewItem(input, key) => AddItem(c, link, input, key)
  }

  /** A refused action issues no write and changes no local field; an action never
      changes the local copies the store owns (participants, items, votes, current item). */
  lemma RefusedWritesNothing(c: Client, link: Option<Store>, a: Action)
    requires a.ChooseItem? ==> a.index < |c.items|
    ensures var r := Apply(c, link, a);
      (r.outcome.Rejected? || r.outcome == AlreadySelected ==> r.client == c && r.link == link)
    ensures var r := Apply(c, link, a);
      && r.client.participants == c.participants && r.client.items == c.items
      && r.client.votes == c.votes && r.client.current == c.current
    ensures link.None? ==> Apply(c, link, a).link.None?
  {
  }
}
