/** The contact list's per-render view logic: from the store's users, groups,
    online ids and selected chat, and the component's `showOnlineOnly` flag,
    which rows are listed, which are highlighted, which show as online, and
    which notices and sections appear. Everything here is recomputed on each
    render; nothing is stored. */
module Sidebar {
  import opened Entities
  import opened Sequences

  /** What one render reads: the chat store's `users`, `groups`, `selectedChat`
      and `isUsersLoading`, the auth store's `onlineUsers`, and the component's
      own `showOnlineOnly` checkbox. */
  datatype SidebarInputs<Id> = SidebarInputs(
    users: seq<User<Id>>,
    groups: seq<Group<Id>>,
    onlineUsers: seq<Id>,
    selectedChat: Option<Chat<Id>>,
    showOnlineOnly: bool,
    isUsersLoading: bool)

  /** One button of the Groups section. */
  datatype GroupRow<Id> = GroupRow(group: Group<Id>, highlighted: bool, memberCount: nat)

  /** One button of the Contacts section: the avatar's green indicator, the
      colour of the status line and its text are three separate checks in the
      component. */
  datatype ContactRow<Id> = ContactRow(
    user: User<Id>,
    highlighted: bool,
    indicator: bool,
    greenLabel: bool,
    statusLabel: string)

  /** What a render produces: the skeleton while users load, otherwise the
      panel with its "(n online)" figure, the Groups section (absent when
      there are no groups), the contact rows and the "No users found" notice. */
  datatype SidebarView<Id> =
    | Skeleton
    | Panel(
        onlineCount: int,
        groupsSection: Option<seq<GroupRow<Id>>>,
        contacts: seq<ContactRow<Id>>,
        noUsersFound: bool)

  /** The online-only filter's test, `user => onlineUsers.includes(user._id)`. */
  function UserIsOnline<Id(==)>(onlineUsers: seq<Id>): User<Id> -> bool
  {
    (u: User<Id>) => u.id in onlineUsers
  }

  /** `filteredUsers`: every user, or with the checkbox ticked only those whose
      id is among the online ids. */
  function FilteredUsers<Id(==)>(users: seq<User<Id>>, onlineUsers: seq<Id>, showOnlineOnly: bool): seq<User<Id>>
  {
    if showOnlineOnly then Filter(users, UserIsOnline(onlineUsers)) else users
  }

  /** The "(n online)" figure: one less than the number of online ids,
      without a floor, so an empty feed shows -1. */
  function OnlineCount<Id>(onlineUsers: seq<Id>): (n: int)
    ensures n >= -1
    ensures n == -1 <==> onlineUsers == []
  {
    |onlineUsers| - 1
  }

  /** `selectedChat?._id === rowId`: only ids are compared, never whether
      the selection and the row are both users or both groups. */
  predicate IsHighlighted<Id(==)>(selectedChat: Option<Chat<Id>>, rowId: Id)
  {
    selectedChat.Some? && selectedChat.value.ChatId() == rowId
  }

  /** `onlineUsers.includes(id)`. */
  predicate IsOnline<Id(==)>(onlineUsers: seq<Id>, id: Id)
  {
    id in onlineUsers
  }

  /** The text of a contact's status line. */
  function StatusLabel(online: bool): string
  {
    if online then "Online" else "Offline"
  }

  function GroupRowOf<Id(==)>(g: Group<Id>, selectedChat: Option<Chat<Id>>): GroupRow<Id>
  {
    GroupRow(g, IsHighlighted(selectedChat, g.id), |g.members|)
  }

  function ContactRowOf<Id(==)>(u: User<Id>, onlineUsers: seq<Id>, selectedChat: Option<Chat<Id>>): ContactRow<Id>
  {
    ContactRow(u, IsHighlighted(selectedChat, u.id), IsOnline(onlineUsers, u.id),
               IsOnline(onlineUsers, u.id), StatusLabel(IsOnline(onlineUsers, u.id)))
  }

  /** One render of the sidebar. */
  function Render<Id(==)>(inputs: SidebarInputs<Id>): SidebarView<Id>
  {
    if inputs.isUsersLoading then Skeleton
    else
      var shown := FilteredUsers(inputs.users, inputs.onlineUsers, inputs.showOnlineOnly);
      var groups := inputs.groups;
      Panel(
        OnlineCount(inputs.onlineUsers),
        if |groups| > 0
        then Some(seq(|groups|, j requires 0 <= j < |groups| => GroupRowOf(groups[j], inputs.selectedChat)))
        else None,
        seq(|shown|, i requires 0 <= i < |shown| => ContactRowOf(shown[i], inputs.onlineUsers, inputs.selectedChat)),
        |shown| == 0)
  }

  /** With the checkbox clear, the contacts are the users themselves, in order;
      with it ticked, they are the order-preserving subsequence of the users
      made of every occurrence of each user whose id is online, and nothing else. */
  lemma FilteredUsersSpec<Id>(users: seq<User<Id>>, onlineUsers: seq<Id>, showOnlineOnly: bool)
    ensures !showOnlineOnly ==> FilteredUsers(users, onlineUsers, showOnlineOnly) == users
    ensures |FilteredUsers(users, onlineUsers, showOnlineOnly)| <= |users|
    ensures showOnlineOnly ==>
      var r := FilteredUsers(users, onlineUsers, showOnlineOnly);
      IsSubsequence(r, users) &&
      (forall u :: multiset(r)[u] == if u.id in onlineUsers then multiset(users)[u] else 0) &&
      (forall i :: 0 <= i < |r| ==> r[i] in users && r[i].id in onlineUsers) &&
      (forall i :: 0 <= i < |users| && users[i].id in onlineUsers ==> users[i] in r)
  {
    if showOnlineOnly {
      var p := UserIsOnline(onlineUsers);
      FilterSubsequence(users, p);
      forall u ensures multiset(Filter(users, p))[u] == if u.id in onlineUsers then multiset(users)[u] else 0 {
        FilterMultiset(users, p, u);
      }
    }
  }

  /** The online filter is the only order-preserving subsequence of the users
      holding exactly the online users' occurrences. */
  lemma FilteredUsersUnique<Id>(r: seq<User<Id>>, users: seq<User<Id>>, onlineUsers: seq<Id>)
    requires IsSubsequence(r, users)
    requires forall u :: multiset(r)[u] == if u.id in onlineUsers then multiset(users)[u] else 0
    ensures r == FilteredUsers(users, onlineUsers, true)
  {
    FilterUnique(r, users, UserIsOnline(onlineUsers));
  }

  /** The "(n online)" figure counts the feed entries other than the own id
      (duplicates counted) correctly only when the own id occurs exactly once
      in the feed: it is off by one for each missing or extra occurrence of it. */
  lemma OnlineCountAccounting<Id>(onlineUsers: seq<Id>, self: Id)
    ensures OnlineCount(onlineUsers) == |Without(onlineUsers, self)| + multiset(onlineUsers)[self] - 1
    ensures multiset(onlineUsers)[self] == 1 ==> OnlineCount(onlineUsers) == |Without(onlineUsers, self)|
    ensures self !in onlineUsers ==> OnlineCount(onlineUsers) == |Without(onlineUsers, self)| - 1
  {
    WithoutCount(onlineUsers, self);
  }

  /** While users load, the skeleton is all that is produced. */
  lemma RenderLoading<Id>(inputs: SidebarInputs<Id>)
    ensures Render(inputs).Skeleton? <==> inputs.isUsersLoading
  {
  }

  /** The panel's online figure, "No users found" notice and Groups section
      appear exactly under the component's conditions, and its rows list the
      groups and the filtered users in order, each group with its member count. */
  lemma RenderSections<Id>(inputs: SidebarInputs<Id>)
    requires !inputs.isUsersLoading
    ensures var v := Render(inputs);
      var shown := FilteredUsers(inputs.users, inputs.onlineUsers, inputs.showOnlineOnly);
      v.Panel? &&
      v.onlineCount == |inputs.onlineUsers| - 1 &&
      (v.noUsersFound <==> shown == []) &&
      (v.groupsSection.Some? <==> inputs.groups != []) &&
      (v.groupsSection.Some? ==>
        |v.groupsSection.value| == |inputs.groups| &&
        forall j :: 0 <= j < |inputs.groups| ==>
          v.groupsSection.value[j].group == inputs.groups[j] &&
          v.groupsSection.value[j].memberCount == |inputs.groups[j].members|) &&
      |v.contacts| == |shown| &&
      (forall i :: 0 <= i < |shown| ==> v.contacts[i].user == shown[i])
  {
  }

  /** A contact shows the green dot, a green status line and the word
      "Online" exactly when its id is online, and "Offline" otherwise. */
  lemma ContactPresence<Id>(inputs: SidebarInputs<Id>, i: nat)
    requires !inputs.isUsersLoading
    requires i < |Render(inputs).contacts|
    ensures var c := Render(inputs).contacts[i];
      (c.indicator <==> c.user.id in inputs.onlineUsers) &&
      c.greenLabel == c.indicator &&
      (c.statusLabel == "Online" <==> c.indicator) &&
      (c.statusLabel == "Offline" <==> !c.indicator) &&
      (c.statusLabel == "Online" || c.statusLabel == "Offline")
  {
  }

  /** A row is highlighted exactly when there is a selection and its id is the
      row's id; with no selection nothing is highlighted. */
  lemma Highlighting<Id>(inputs: SidebarInputs<Id>)
    requires !inputs.isUsersLoading
    ensures var v := Render(inputs);
      (forall i :: 0 <= i < |v.contacts| ==>
        (v.contacts[i].highlighted <==>
          inputs.selectedChat.Some? && inputs.selectedChat.value.ChatId() == v.contacts[i].user.id)) &&
      (v.groupsSection.Some? ==> forall j :: 0 <= j < |v.groupsSection.value| ==>
        (v.groupsSection.value[j].highlighted <==>
          inputs.selectedChat.Some? && inputs.selectedChat.value.ChatId() == v.groupsSection.value[j].group.id))
    ensures inputs.selectedChat.None? ==>
      var v := Render(inputs);
      (forall i :: 0 <= i < |v.contacts| ==> !v.contacts[i].highlighted) &&
      (v.groupsSection.Some? ==> forall j :: 0 <= j < |v.groupsSection.value| ==> !v.groupsSection.value[j].highlighted)
  {
  }

  /** A contact and a group that share an id are highlighted together, whether
      the selection is that user, that group, or anything else. */
  lemma SharedIdHighlightedTogether<Id>(inputs: SidebarInputs<Id>, i: nat, j: nat)
    requires !inputs.isUsersLoading
    requires i < |Render(inputs).contacts|
    requires Render(inputs).groupsSection.Some? && j < |Render(inputs).groupsSection.value|
    requires Render(inputs).contacts[i].user.id == Render(inputs).groupsSection.value[j].group.id
    ensures Render(inputs).contacts[i].highlighted == Render(inputs).groupsSection.value[j].highlighted
    ensures inputs.selectedChat == Some(GroupChat(Render(inputs).groupsSection.value[j].group)) ==>
      Render(inputs).contacts[i].highlighted
    ensures inputs.selectedChat == Some(UserChat(Render(inputs).contacts[i].user)) ==>
      Render(inputs).groupsSection.value[j].highlighted
  {
  }

  /** The contacts list does not leave out the signed-in user: with users
      a (self), b, c and online ids a, b, ticking "Show online only" lists
      a and b, and the figure reads 1. */
  lemma SelfListedAmongContacts()
    ensures var a := User("a", "Self", "");
      var b := User("b", "B", "");
      var c := User("c", "C", "");
      FilteredUsers([a, b, c], ["a", "b"], true) == [a, b] &&
      OnlineCount(["a", "b"]) == 1
  {
  }
}
