/** Values shared by both client variants of the planning-poker app. */
module Common {

  datatype Option<T> = None | Some(value: T) {
    /** `x || d` in the source: the value when present, the default otherwise. */
    function GetOr(default: T): T {
      match this
      case Some(v) => v
      case None => default
    }
  }

  /** A participant record; the display name is the key of the map holding it. */
  datatype Participant = Participant(isAdmin: bool, hasVoted: bool)

  /** Why an operation was refused (the toast the source shows). */
  datatype Reason =
    | NotAdmin          // "Only admin can ..."
    | NoItemSelected    // "Please select an item first" / "No item selected"
    | VotingEnded       // "Voting has ended for this item"
    | EmptyName         // "Please enter your name"
    | EmptySessionId    // "Please enter a session ID"
    | EmptyDescription  // "Please enter an item description"
    | NoMoreItems       // "This is the last item" / "No more items"
    | AdminOnlyChange   // "Only admin can change items"

  /** The result of one user action. A `Rejected` action changes nothing. */
  datatype Outcome =
    | Done
    | AlreadySelected       // selectItem on the current item by a non-admin: silent no-op
    | Rejected(reason: Reason)
    | TypeError             // the source throws after a partial update
    | NoConnection          // the store library is missing: the join stops after setting the user

  const Pending: string := "pending"
  const Voting: string := "voting"
  const Completed: string := "completed"

  predicate KnownStatus(status: string) {
    status == Pending || status == Voting || status == Completed
  }

  /** getItemStatusText: the label shown for an item status. */
  function StatusText(status: string): (text: string)
    ensures text == "Pending" || text == "Voting in progress" || text == "Completed" || text == "Unknown"
    ensures text == "Unknown" <==> !KnownStatus(status)
  {
    if status == Pending then "Pending"
    else if status == Voting then "Voting in progress"
    else if status == Completed then "Completed"
    else "Unknown"
  }

  /** The three known statuses get three different labels. */
  lemma StatusTextDistinct(a: string, b: string)
    requires KnownStatus(a) && KnownStatus(b) && a != b
    ensures StatusText(a) != StatusText(b)
  {
  }

  /** Array.prototype.findIndex with `===`: the first position holding x, or -1. */
  function IndexOf<T(==)>(xs: seq<T>, x: T): (r: int)
    ensures -1 <= r < |xs|
    ensures r == -1 <==> x !in xs
    ensures 0 <= r ==> xs[r] == x && forall j :: 0 <= j < r ==> xs[j] != x
  {
    if xs == [] then -1
    else if xs[0] == x then 0
    else
      var rest := IndexOf(xs[1..], x);
      if rest == -1 then -1 else rest + 1
  }
}
