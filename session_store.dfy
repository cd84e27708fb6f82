/** The shared session store the second client talks to, reduced to the session's five
    child nodes, and the writes the client issues to them; each write is
    the map update it amounts to. The connection object wraps those writes as the client
    uses them, in StoreConnection. */
module SessionStore {
  import opened Common

  /** An item node as stored under its push key. */
  datatype ItemData = ItemData(description: string, status: string)

  /** An item as the client holds it: `{ id, ...data }`, the key joined to the node. */
  datatype Item = Item(id: string, description: string, status: string)

  /** The session's children: participants, items, votes, currentItem, votesRevealed. A
      node that was never written is absent (None / no key). */
  datatype Store = Store(
    participants: map<string, Participant>,
    items: map<string, ItemData>,
    votes: map<string, string>,
    currentItem: Option<Item>,
    votesRevealed: Option<bool>)

  const EmptyStore: Store := Store(map[], map[], map[], None, None)

  /** addParticipant(name, isAdmin): `set` replaces the whole record. */
  function AddParticipant(st: Store, name: string, isAdmin: bool): (r: Store)
    ensures r.participants.Keys == st.participants.Keys + {name}
    ensures r.participants[name] == Participant(isAdmin, false)
    ensures forall n :: n in st.participants && n != name ==> r.participants[n] == st.participants[n]
    ensures r == st.(participants := r.participants)
  {
    st.(participants := st.participants[name := Participant(isAdmin, false)])
  }

  /** updateParticipant(name, {hasVoted}): `update` merges into the record, and creates
      one holding only hasVoted (so no admin flag) when there is none. */
  function UpdateParticipant(st: Store, name: string, hasVoted: bool): (r: Store)
    ensures r.participants.Keys == st.participants.Keys + {name}
    ensures r.participants[name].hasVoted == hasVoted
    ensures r.participants[name].isAdmin == (name in st.participants && st.participants[name].isAdmin)
    ensures forall n :: n in st.participants && n != name ==> r.participants[n] == st.participants[n]
    ensures r == st.(participants := r.participants)
  {
    var p := if name in st.participants then st.participants[name] else Participant(false, false);
    st.(participants := st.participants[name := p.(hasVoted := hasVoted)])
  }

  /** addItem(item): a push under a key the store chooses. */
  function AddItem(st: Store, key: string, data: ItemData): (r: Store)
    ensures r.items.Keys == st.items.Keys + {key} && r.items[key] == data
    ensures forall k :: k in st.items && k != key ==> r.items[k] == st.items[k]
    ensures r == st.(items := r.items)
  {
    st.(items := st.items[key := data])
  }

  /** updateItem(id, {...item, status}): every field of the record is written. */
  function UpdateItem(st: Store, item: Item, status: string): (r: Store)
    ensures r.items.Keys == st.items.Keys + {item.id}
    ensures r.items[item.id] == ItemData(item.description, status)
    ensures forall k :: k in st.items && k != item.id ==> r.items[k] == st.items[k]
    ensures r == st.(items := r.items)
  {
    st.(items := st.items[item.id := ItemData(item.description, status)])
  }

  function SetVote(st: Store, name: string, value: string): (r: Store)
    ensures r.votes.Keys == st.votes.Keys + {name} && r.votes[name] == value
    ensures forall n :: n in st.votes && n != name ==> r.votes[n] == st.votes[n]
    ensures r == st.(votes := r.votes)
  {
    st.(votes := st.votes[name := value])
  }

  function RemoveVote(st: Store, name: string): (r: Store)
    ensures r.votes.Keys == st.votes.Keys - {name}
    ensures forall n :: n in r.votes ==> r.votes[n] == st.votes[n]
    ensures r == st.(votes := r.votes)
  {
    st.(votes := st.votes - {name})
  }

  function SetCurrentItem(st: Store, item: Item): (r: Store)
    ensures r.currentItem == Some(item) && r == st.(currentItem := r.currentItem)
  {
    st.(currentItem := Some(item))
  }

  function SetVotesRevealed(st: Store, revealed: bool): (r: Store)
    ensures r.votesRevealed == Some(revealed) && r == st.(votesRevealed := r.votesRevealed)
  {
    st.(votesRevealed := Some(revealed))
  }

  /** `snapshot.val()`: an empty node reads as null. */
  function Snapshot<T>(m: map<string, T>): (r: Option<map<string, T>>)
    ensures r.None? <==> m == map[]
  {
    if m == map[] then None else Some(m)
  }

  /** `snapshot.val() || {}` gives back the node, whether or not it was empty. */
  lemma SnapshotOrEmpty<T>(m: map<string, T>)
    ensures Snapshot(m).GetOr(map[]) == m
  {
  }

  /** The two writes selectItem and resetVotes issue for each participant name. */
  function ClearVote(st: Store, name: string): Store {
    RemoveVote(UpdateParticipant(st, name, false), name)
  }

  /** The store after ClearVote for every name of `names`: their votes gone, their
      hasVoted false (a record created where there was none), all else as before. */
  function ClearVotesFor(st: Store, names: set<string>): (r: Store)
    ensures r.items == st.items && r.currentItem == st.currentItem && r.votesRevealed == st.votesRevealed
    ensures r.participants.Keys == st.participants.Keys + names
    ensures forall n :: n in names ==> n !in r.votes && !r.participants[n].hasVoted
  {
    st.(participants := map n | n in st.participants.Keys + names ::
                          if n in names then (if n in st.participants then st.participants[n] else Participant(false, false)).(hasVoted := false)
                          else st.participants[n],
        votes := map n | n in st.votes && n !in names :: st.votes[n])
  }

  /** The writes commute into the closed form one name at a time. */
  lemma ClearVotesForStep(st: Store, done: set<string>, name: string)
    requires name !in done
    ensures ClearVote(ClearVotesFor(st, done), name) == ClearVotesFor(st, done + {name})
  {
    var before := ClearVotesFor(st, done);
    var after := ClearVote(before, name);
    var expected := ClearVotesFor(st, done + {name});
    assert after.participants.Keys == expected.participants.Keys;
    forall n | n in after.participants ensures after.participants[n] == expected.participants[n] {
    }
    assert after.participants == expected.participants;
    assert after.votes.Keys == expected.votes.Keys;
    assert after.votes == expected.votes;
  }

  /** What clearing votes for a set of names guarantees. */
  lemma ClearVotesForEffect(st: Store, names: set<string>)
    ensures var r := ClearVotesFor(st, names);
      && (forall n :: n in names ==> n !in r.votes && n in r.participants && !r.participants[n].hasVoted)
      && (forall n :: n in st.votes && n !in names ==> n in r.votes && r.votes[n] == st.votes[n])
      && (forall n :: n in r.votes ==> n in st.votes && n !in names)
      && (forall n :: n in st.participants && n !in names ==> r.participants[n] == st.participants[n])
      && (forall n :: n in st.participants && n in names ==> r.participants[n].isAdmin == st.participants[n].isAdmin)
      && r.items == st.items && r.currentItem == st.currentItem && r.votesRevealed == st.votesRevealed
  {
  }
}
