/** The records the components receive from the chat and auth stores. Ids are
    an opaque type parameter `Id` that the components only compare for equality. */
module Entities {

  /** A JavaScript value that may be `null`. */
  datatype Option<T> = None | Some(value: T)

  /** A contact as the chat store lists it (`_id`, `fullName`, `profilePic`;
      an empty `profilePic` stands for "unset", shown as the placeholder avatar). */
  datatype User<Id> = User(id: Id, fullName: string, profilePic: string)

  /** A group conversation as the chat store lists it. */
  datatype Group<Id> = Group(id: Id, groupName: string, members: seq<Id>)

  /** What `setSelectedChat` is given: the clicked user or group object itself.
      The components only ever read its `_id`, whichever kind it is. */
  datatype Chat<Id> = UserChat(user: User<Id>) | GroupChat(group: Group<Id>)
  {
    /** `selectedChat._id`. */
    function ChatId(): Id
    {
      match this
      case UserChat(u) => u.id
      case GroupChat(g) => g.id
    }
  }
}
