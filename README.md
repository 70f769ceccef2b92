# Chat front end: contact list and group creation

A model of the two React components of a chat client that carry logic:

- **Sidebar** (`src/components/Sidebar.jsx`) derives, on every render, the
  contact list from the chat store's `users`, `groups`, `selectedChat` and
  `isUsersLoading`, the auth store's `onlineUsers` and its own
  `showOnlineOnly` checkbox: which users are listed, the "(n online)" figure,
  which rows are highlighted, which contacts show as online, and when the
  skeleton, the Groups section and the "No users found" notice appear. It is
  modelled as pure functions (`Sidebar.Render` and the functions it uses) with
  lemmas about them.
- **GroupChatModal** (`src/components/GroupChatModal.jsx`) lets the user name
  a group, tick participants and submit. The participant toggle and the
  candidate filter are pure functions; the component's two state hooks are the
  fields of the class `GroupChatModal.ModalState`, whose `HandleCreateGroup`
  appends the effects of a submit to a `trace` field and leaves both hooks as
  they were.

Ids are a type parameter `Id` that is only compared for equality. Users,
groups and a selected chat are datatypes carrying an id (module `Entities`).
JavaScript's `Array.prototype.filter` is `Sequences.Filter`, and
`String.prototype.trim` is `Strings.Trim` over the ECMAScript WhiteSpace and
LineTerminator characters. The chat and auth stores are not part of this
model: their collections are inputs, and `createGroupChat` and `getGroups`
are effects in the trace whose success or failure is a parameter of the
submit.

The model follows the code as written; in particular:

- the online figure is `|onlineUsers| - 1` with no floor at zero, so it reads
  -1 for an empty feed (`Sidebar.OnlineCount`, `Sidebar.OnlineCountAccounting`);
- the contact list does not leave out the signed-in user; only the candidate
  list of the dialog does (`Sidebar.SelfListedAmongContacts`);
- highlighting compares ids only, so a user and a group that share an id are
  highlighted together (`Sidebar.SharedIdHighlightedTogether`);
- the selected participants are a list that the toggle keeps free of
  duplicates, not a set, and toggling a present id twice moves it to the end
  (`GroupChatModal.ToggleTwicePresent`).

## Model

| member | source | states |
|---|---|---|
| `Sidebar.FilteredUsersSpec` | src/components/Sidebar.jsx:28-30 | unticked, the contacts are exactly the users in order; ticked, they are an order-preserving subsequence of the users holding every occurrence of each user whose id is online and nothing else; never longer than the users |
| `Sidebar.FilteredUsersUnique` | src/components/Sidebar.jsx:29 | the online filter is the only order-preserving subsequence of the users with exactly the online users' occurrences |
| `Sidebar.OnlineCount` | src/components/Sidebar.jsx:67 | the figure is never below -1 and is -1 exactly when the online feed is empty |
| `Sidebar.OnlineCountAccounting` | src/components/Sidebar.jsx:67 | the figure equals the number of feed entries other than the own id (duplicates counted) plus the occurrences of the own id minus one: right when the own id occurs once, one too low when it is absent |
| `Sidebar.RenderLoading` | src/components/Sidebar.jsx:32 | the render is the skeleton exactly when users are loading |
| `Sidebar.RenderSections` | src/components/Sidebar.jsx:73-150 | once loaded: the Groups section appears iff there are groups, listing them in order with their member counts; the contact rows are the filtered users in order; "No users found" appears iff the filtered list is empty |
| `Sidebar.ContactPresence` | src/components/Sidebar.jsx:124-140 | a contact shows the dot, the green line and "Online" iff its id is online, and "Offline" otherwise; exactly one of the two labels |
| `Sidebar.Highlighting` | src/components/Sidebar.jsx:82-116 | a group or contact row is highlighted iff a chat is selected and its id is the row's id; with no selection no row is highlighted |
| `Sidebar.SharedIdHighlightedTogether` | src/components/Sidebar.jsx:81-113 | a contact and a group with the same id are highlighted together; selecting either highlights both |
| `Sidebar.SelfListedAmongContacts` | src/components/Sidebar.jsx:28-30 | with users a (self), b, c and online ids a, b, the online-only list is a, b and the figure is 1 |
| `Strings.TrimStart` | src/components/GroupChatModal.jsx:21 | the result is a suffix of the input, everything cut off is white space, and it does not start with white space |
| `Strings.TrimEnd` | src/components/GroupChatModal.jsx:21 | the result is a prefix of the input, everything cut off is white space, and it does not end with white space |
| `Strings.TrimEmptyIff` | src/components/GroupChatModal.jsx:21 | `trim()` yields the empty string iff every character is white space |
| `GroupChatModal.Toggle` | src/components/GroupChatModal.jsx:12-18 | the toggled id's membership flips, every other id keeps its membership, and an absent id is appended at the end with the earlier entries untouched |
| `GroupChatModal.TogglePresent` | src/components/GroupChatModal.jsx:15 | removing a present id drops all its occurrences and keeps every other id, as often as before, in its relative order |
| `GroupChatModal.ToggleTwiceAbsent` | src/components/GroupChatModal.jsx:12-17 | toggling an absent id twice restores the exact original list |
| `GroupChatModal.ToggleTwicePresent` | src/components/GroupChatModal.jsx:12-17 | in a duplicate-free list, toggling a present id twice moves it from its position to the end; the list is unchanged iff it was last |
| `GroupChatModal.ToggleTwiceSameIds` | src/components/GroupChatModal.jsx:12-17 | two toggles of the same id always restore the same set of ids |
| `GroupChatModal.ToggleNoDup` | src/components/GroupChatModal.jsx:12-17 | a toggle keeps the list free of duplicates |
| `GroupChatModal.CandidatesSpec` | src/components/GroupChatModal.jsx:64-65 | the candidates are the users in order without the ones whose id is the signed-in user's; with nobody signed in, all users |
| `GroupChatModal.SubmitEffects` | src/components/GroupChatModal.jsx:20-33 | a submit has one to three effects and starts with the rejection exactly when the name trims to empty or no participant is selected |
| `GroupChatModal.SubmitOutcomes` | src/components/GroupChatModal.jsx:20-33 | an invalid submit is only rejected; a valid one first calls `createGroupChat` with the untrimmed name and the selection, calls `getGroups` iff that succeeded, closes iff both succeeded (then the trace is create, refresh, close), reports a failure otherwise, and makes no effect twice |
| `GroupChatModal.SubmitOrder` | src/components/GroupChatModal.jsx:26-32 | on every path `createGroupChat` can only be the first effect (no second call, whatever its arguments), `getGroups` only the second, and a logged failure only the last |
| `GroupChatModal.BlankNameRejected` | src/components/GroupChatModal.jsx:21-24 | an empty or all-white-space name is rejected with no store call |
| `GroupChatModal.VisibleNameSubmitted` | src/components/GroupChatModal.jsx:21-27 | a name with a visible character and a non-empty selection go to `createGroupChat` as typed |
| `GroupChatModal.ModalState.constructor` | src/components/GroupChatModal.jsx:8-9 | the dialog starts with an empty name, no participants and no effects, in a valid (duplicate-free) state |
| `GroupChatModal.ModalState.SetGroupName` | src/components/GroupChatModal.jsx:55 | typing sets the name and nothing else |
| `GroupChatModal.ModalState.HandleSelectParticipant` | src/components/GroupChatModal.jsx:12-18 | the selection becomes its toggle, the id's checkbox flips, duplicate-freeness (`Valid`) is kept, the name is untouched |
| `GroupChatModal.ModalState.HandleCreateGroup` | src/components/GroupChatModal.jsx:20-33 | the submit's effects are appended to the trace, and the name and the selection are unchanged on every path |

## Left out

- JSX markup, CSS classes, icons, `SidebarSkeleton`, avatars and the opening and closing of dialogs: presentation. `CreateGroupModal`, which the sidebar renders, is not part of this model.
- The mount effect that calls `getUsers` and `getGroups` (src/components/Sidebar.jsx:23-26): fetch scheduling and transport; the fetched collections are inputs of each render.
- Clicking a row (`setSelectedChat`, src/components/Sidebar.jsx:81 and 111): the store's selection is not part of this model; the selected chat is an input, and highlighting is stated for every possible selection.
- The internals of the chat and auth stores and `src/lib/axios.js`: not part of this model; the store calls are effects that succeed or fail.
- `alert` and `console.error`: user-facing I/O, recorded only as `Rejected` and `Failed` in the trace.
- Asynchrony: the two awaits of a submit are modelled as one atomic step, so state changes by other handlers while a submit is pending, and re-render scheduling, are not captured.
- `GroupChatModal.ModalState.HandleCreateGroup`: takes the outcomes of `createGroupChat` and `getGroups` as two booleans; their return values and error objects are not modelled.
