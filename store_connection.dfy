/** FirebaseSessionManager (firebase-config.js) seen as an abstract store interface: one
    object per session connection, whose write methods change the stored data by the
    update functions of SessionStore. */
module StoreConnection {
  import opened Common
  import opened SessionStore

  /** The connection to one session (FirebaseSessionManager): each method is one write. */
  class StoreHandle {
    var data: Store

    constructor(initial: Store)
      ensures data == initial
    {
      data := initial;
    }

    method AddParticipant(name: string, isAdmin: bool)
      modifies this
      ensures data == SessionStore.AddParticipant(old(data), name, isAdmin)
    {
      data := data.(participants := data.participants[name := Participant(isAdmin, false)]);
    }

    method UpdateParticipant(name: string, hasVoted: bool)
      modifies this
      ensures data == SessionStore.UpdateParticipant(old(data), name, hasVoted)
    {
      var p := if name in data.participants then data.participants[name] else Participant(false, false);
      data := data.(participants := data.participants[name := p.(hasVoted := hasVoted)]);
    }

    method AddItem(key: string, item: ItemData)
      modifies this
      ensures data == SessionStore.AddItem(old(data), key, item)
    {
      data := data.(items := data.items[key := item]);
    }

    method UpdateItem(item: Item, status: string)
      modifies this
      ensures data == SessionStore.UpdateItem(old(data), item, status)
    {
      data := data.(items := data.items[item.id := ItemData(item.description, status)]);
    }

    method SetVote(name: string, value: string)
      modifies this
      ensures data == SessionStore.SetVote(old(data), name, value)
    {
      data := data.(votes := data.votes[name := value]);
    }

    method RemoveVote(name: string)
      modifies this
      ensures data == SessionStore.RemoveVote(old(data), name)
    {
      data := data.(votes := data.votes - {name});
    }

    method SetCurrentItem(item: Item)
      modifies this
      ensures data == SessionStore.SetCurrentItem(old(data), item)
    {
      data := data.(currentItem := Some(item));
    }

    method SetVotesRevealed(revealed: bool)
      modifies this
      ensures data == SessionStore.SetVotesRevealed(old(data), revealed)
    {
      data := data.(votesRevealed := Some(revealed));
    }
  }
}
