/** The "Create Group Chat" dialog: the participant toggle, the list of
    candidates, and the validated submit that asks the chat store to create
    the group, refreshes the group list and closes the dialog. The stores'
    `createGroupChat` and `getGroups` are not part of this model: each call is
    an effect recorded in a trace, and whether it succeeds is a parameter. */
module GroupChatModal {
  import opened Entities
  import opened Sequences
  import opened Strings

  /** The updater passed to `setSelectedParticipants`: remove every
      occurrence of a selected id, or append an unselected one at the end. */
  function Toggle<Id(==)>(prev: seq<Id>, userId: Id): (r: seq<Id>)
    ensures userId in r <==> userId !in prev
    ensures forall i :: 0 <= i < |prev| && prev[i] != userId ==> prev[i] in r
    ensures forall i :: 0 <= i < |r| && r[i] != userId ==> r[i] in prev
    ensures userId !in prev ==> |r| == |prev| + 1 && r[..|prev|] == prev && r[|prev|] == userId
  {
    if userId in prev then Without(prev, userId) else prev + [userId]
  }

  /** The users listed as possible participants: all but the signed-in one
      (`user._id !== authUser?._id`; with nobody signed in, all of them). */
  function CandidateTest<Id(==)>(authUser: Option<User<Id>>): User<Id> -> bool
  {
    (u: User<Id>) => authUser.None? || u.id != authUser.value.id
  }

  function Candidates<Id(==)>(users: seq<User<Id>>, authUser: Option<User<Id>>): seq<User<Id>>
  {
    Filter(users, CandidateTest(authUser))
  }

  /** A candidate row's checkbox: `selectedParticipants.includes(user._id)`. */
  predicate IsChecked<Id(==)>(selectedParticipants: seq<Id>, userId: Id)
  {
    userId in selectedParticipants
  }

  /** What submitting does that can be observed: the validation alert, the two
      store calls (in the order they are awaited), closing the dialog, and a
      logged failure. */
  datatype Effect<Id> =
    | Rejected
    | CreateGroupChat(groupName: string, members: seq<Id>)
    | GetGroups
    | Close
    | Failed

  /** The guard of `handleCreateGroup`: a name that is not blank once trimmed,
      and at least one participant. */
  predicate CanSubmit<Id>(groupName: string, participants: seq<Id>)
  {
    Trim(groupName) != "" && |participants| > 0
  }

  /** The effects of one submit, given whether `createGroupChat` and
      `getGroups` succeed. */
  function SubmitEffects<Id(==)>(groupName: string, participants: seq<Id>,
                                 createSucceeds: bool, refreshSucceeds: bool): (r: seq<Effect<Id>>)
    ensures 1 <= |r| <= 3
    ensures r[0] == Rejected <==> !CanSubmit(groupName, participants)
  {
    if !CanSubmit(groupName, participants) then [Rejected]
    else if !createSucceeds then [CreateGroupChat(groupName, participants), Failed]
    else if !refreshSucceeds then [CreateGroupChat(groupName, participants), GetGroups, Failed]
    else [CreateGroupChat(groupName, participants), GetGroups, Close]
  }

  /** The dialog's two `useState` hooks, `groupName` and
      `selectedParticipants`, with the effects it has made so far. */
  class ModalState<Id(==)>
  {
    var groupName: string
    var selectedParticipants: seq<Id>
    /** Everything the dialog has done so far, oldest first. */
    var trace: seq<Effect<Id>>

    /** The selection never lists an id twice: every handler keeps it so. */
    predicate Valid()
      reads this
    {
      NoDup(selectedParticipants)
    }

    /** The dialog opens with an empty name and no participants. */
    constructor ()
      ensures groupName == "" && selectedParticipants == [] && trace == []
      ensures Valid()
    {
      groupName := "";
      selectedParticipants := [];
      trace := [];
    }

    /** Typing in the name field. */
    method SetGroupName(value: string)
      requires Valid()
      modifies this`groupName
      ensures groupName == value
      ensures Valid()
    {
      groupName := value;
    }

    /** `handleSelectParticipant`: ticking or unticking a candidate's checkbox. */
    method HandleSelectParticipant(userId: Id)
      requires Valid()
      modifies this`selectedParticipants
      ensures selectedParticipants == Toggle(old(selectedParticipants), userId)
      ensures IsChecked(selectedParticipants, userId) <==> !IsChecked(old(selectedParticipants), userId)
      ensures Valid()
    {
      ToggleNoDup(selectedParticipants, userId);
      selectedParticipants := Toggle(selectedParticipants, userId);
    }

    /** `handleCreateGroup`: reject a blank name or an empty selection;
        otherwise await `createGroupChat` with the name as typed and the
        selection, then `getGroups`, then close, stopping at the first failure.
        The name and the selection are left as they were on every path. */
    method HandleCreateGroup(createSucceeds: bool, refreshSucceeds: bool)
      requires Valid()
      modifies this`trace
      ensures groupName == old(groupName) && selectedParticipants == old(selectedParticipants)
      ensures trace == old(trace) + SubmitEffects(groupName, selectedParticipants, createSucceeds, refreshSucceeds)
      ensures Valid()
    {
      if !CanSubmit(groupName, selectedParticipants) {
        trace := trace + [Rejected];
        return;
      }
      trace := trace + [CreateGroupChat(groupName, selectedParticipants)];
      if !createSucceeds {
        trace := trace + [Failed];
        return;
      }
      trace := trace + [GetGroups];
      if !refreshSucceeds {
        trace := trace + [Failed];
        return;
      }
      trace := trace + [Close];
    }
  }

  /** Removing a selected id keeps every other id, in order, as often as it
      occurred, and drops every occurrence of the removed one. */
  lemma TogglePresent<Id>(prev: seq<Id>, userId: Id)
    requires userId in prev
    ensures IsSubsequence(Toggle(prev, userId), prev)
    ensures forall x :: multiset(Toggle(prev, userId))[x] == if x == userId then 0 else multiset(prev)[x]
  {
    FilterSubsequence(prev, Differs(userId));
    forall x ensures multiset(Toggle(prev, userId))[x] == if x == userId then 0 else multiset(prev)[x] {
      FilterMultiset(prev, Differs(userId), x);
    }
  }

  /** Toggling an unselected id twice gives back exactly the same selection. */
  lemma ToggleTwiceAbsent<Id>(prev: seq<Id>, userId: Id)
    requires userId !in prev
    ensures Toggle(Toggle(prev, userId), userId) == prev
  {
    var p := Differs(userId);
    FilterConcat(prev, [userId], p);
    FilterKeepsAll(prev, p);
    assert Filter([userId], p) == [];
  }

  /** Toggling a selected id twice in a list without duplicates moves it from
      its position to the end; it stays put only if it was already last. */
  lemma ToggleTwicePresent<Id>(prev: seq<Id>, userId: Id, k: nat)
    requires NoDup(prev)
    requires k < |prev| && prev[k] == userId
    ensures Toggle(Toggle(prev, userId), userId) == prev[..k] + prev[k + 1..] + [userId]
    ensures Toggle(Toggle(prev, userId), userId) == prev <==> k == |prev| - 1
  {
    WithoutAt(prev, k);
    var once := prev[..k] + prev[k + 1..];
    assert Toggle(prev, userId) == once;
    var twice := once + [userId];
    if k < |prev| - 1 {
      assert twice[k] == prev[k + 1] != prev[k];
    } else {
      assert prev == prev[..k] + [userId];
    }
  }

  /** Two toggles of the same id always give back the same set of ids. */
  lemma ToggleTwiceSameIds<Id>(prev: seq<Id>, userId: Id, x: Id)
    ensures x in Toggle(Toggle(prev, userId), userId) <==> x in prev
  {
  }

  /** A toggle keeps the selection free of duplicates. */
  lemma ToggleNoDup<Id>(prev: seq<Id>, userId: Id)
    ensures NoDup(prev) ==> NoDup(Toggle(prev, userId))
  {
    if NoDup(prev) {
      if userId in prev {
        FilterNoDup(prev, Differs(userId));
      } else {
        var r := prev + [userId];
        forall i, j | 0 <= i < j < |r| ensures r[i] != r[j] {
          if j == |prev| {
            assert r[i] == prev[i];
          } else {
            assert r[i] == prev[i] && r[j] == prev[j];
          }
        }
      }
    }
  }

  /** The candidates are, in order, exactly the users whose id is not the
      signed-in user's; with nobody signed in they are all the users. */
  lemma CandidatesSpec<Id>(users: seq<User<Id>>, authUser: Option<User<Id>>)
    ensures authUser.None? ==> Candidates(users, authUser) == users
    ensures IsSubsequence(Candidates(users, authUser), users)
    ensures authUser.Some? ==>
      forall u :: multiset(Candidates(users, authUser))[u] ==
        if u.id == authUser.value.id then 0 else multiset(users)[u]
  {
    var p := CandidateTest(authUser);
    FilterSubsequence(users, p);
    if authUser.None? {
      FilterKeepsAll(users, p);
    } else {
      forall u ensures multiset(Filter(users, p))[u] == if u.id == authUser.value.id then 0 else multiset(users)[u] {
        FilterMultiset(users, p, u);
      }
    }
  }

  /** An all-white-space name (the empty one included) is rejected, with no
      store call and no closing. */
  lemma BlankNameRejected<Id>(groupName: string, participants: seq<Id>,
                              createSucceeds: bool, refreshSucceeds: bool)
    requires IsBlank(groupName)
    ensures SubmitEffects(groupName, participants, createSucceeds, refreshSucceeds) == [Rejected]
  {
  }

  /** A name with a visible character and a non-empty selection is sent as
      typed, untrimmed. */
  lemma VisibleNameSubmitted<Id>(groupName: string, participants: seq<Id>,
                                 createSucceeds: bool, refreshSucceeds: bool)
    requires !IsBlank(groupName) && participants != []
    ensures SubmitEffects(groupName, participants, createSucceeds, refreshSucceeds)[0] ==
      CreateGroupChat(groupName, participants)
  {
  }

  /** A submit that fails validation makes no store call and does not close;
      a valid one sends the untrimmed name and the selection to
      `createGroupChat` first, refreshes the groups only after that succeeded,
      closes only after both succeeded, and makes each effect at most once. */
  lemma SubmitOutcomes<Id>(groupName: string, participants: seq<Id>,
                           createSucceeds: bool, refreshSucceeds: bool)
    ensures var r := SubmitEffects(groupName, participants, createSucceeds, refreshSucceeds);
      (r == [Rejected] <==> !CanSubmit(groupName, participants)) &&
      (CanSubmit(groupName, participants) ==>
        r[0] == CreateGroupChat(groupName, participants) && Rejected !in r) &&
      (GetGroups in r <==> CanSubmit(groupName, participants) && createSucceeds) &&
      (Close in r <==> CanSubmit(groupName, participants) && createSucceeds && refreshSucceeds) &&
      (Close in r ==> r == [CreateGroupChat(groupName, participants), GetGroups, Close]) &&
      (Failed in r <==> CanSubmit(groupName, participants) && !(createSucceeds && refreshSucceeds)) &&
      NoDup(r)
  {
    var create := CreateGroupChat(groupName, participants);
    var r := SubmitEffects(groupName, participants, createSucceeds, refreshSucceeds);
    if !CanSubmit(groupName, participants) {
      assert r == [Rejected];
    } else if !createSucceeds {
      assert r == [create, Failed];
    } else if !refreshSucceeds {
      assert r == [create, GetGroups, Failed];
    } else {
      assert r == [create, GetGroups, Close];
    }
  }

  /** Whatever the outcomes, `createGroupChat` can only be the first effect
      (never a second call, whatever its arguments), `getGroups` only the
      second, and a failure is logged only as the last effect. */
  lemma SubmitOrder<Id>(groupName: string, participants: seq<Id>,
                        createSucceeds: bool, refreshSucceeds: bool)
    ensures var r := SubmitEffects(groupName, participants, createSucceeds, refreshSucceeds);
      (forall i :: 1 <= i < |r| ==> !r[i].CreateGroupChat?) &&
      (forall i :: 0 <= i < |r| && r[i] == GetGroups ==> i == 1) &&
      (forall i :: 0 <= i < |r| && r[i] == Failed ==> i == |r| - 1)
  {
    var create := CreateGroupChat(groupName, participants);
    var r := SubmitEffects(groupName, participants, createSucceeds, refreshSucceeds);
    if !CanSubmit(groupName, participants) {
      assert r == [Rejected];
    } else if !createSucceeds {
      assert r == [create, Failed];
    } else if !refreshSucceeds {
      assert r == [create, GetGroups, Failed];
    } else {
      assert r == [create, GetGroups, Close];
    }
  }
}
