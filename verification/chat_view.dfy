/** What the chat page shows: the data of the active chat (a room, or the
    other participant of a direct chat) and its messages in order. */
module ChatView {
  import opened Wrappers
  import opened Seqs
  import opened Text
  import opened EntityAdapter
  import opened ChatStore
  import opened ChatUsers

  datatype ChatData = RoomData(room: Room) | UserData(user: ChatUser)

  /** The key a JavaScript property lookup uses: `undefined` becomes `"undefined"`. */
  function PropertyKey(k: Option<Id>): Id {
    match k
    case None => "undefined"
    case Some(id) => id
  }

  /** `const [user1Id, user2Id] = id.split('-')` and the choice of whichever
      is not `me`; a missing second half is `undefined`. */
  function OtherParticipant(chatId: Id, me: Id): (r: Option<Id>)
    ensures var parts := Split(chatId, '-');
      && (parts[0] != me ==> r == Some(parts[0]))
      && (parts[0] == me && |parts| > 1 ==> r == Some(parts[1]))
      && (parts[0] == me && |parts| == 1 ==> r == None)
  {
    var parts := Split(chatId, '-');
    if parts[0] == me then (if |parts| > 1 then Some(parts[1]) else None)
    else Some(parts[0])
  }

  /** Decoding a direct-chat id built from two ids without `'-'` gives the
      participant who is not `me`. */
  lemma OtherParticipantOfDirectChat(a: Id, b: Id, me: Id)
    requires '-' !in a && '-' !in b
    requires me == a || me == b
    ensures OtherParticipant(DirectChatId(a, b), me) == Some(if me == a then b else a)
  {
    DirectChatIdSplits(a, b);
    LexLessTotal(a, b);
  }

  /** `getCurrentChatData`. The direct branch reads the signed-in user's id,
      which throws when nobody is signed in. */
  function CurrentChatData(st: ChatState, users: map<Id, ChatUser>, me: Option<Id>): (r: Option<ChatData>)
    requires st.activeChat.Some? && st.activeChat.value.kind == "direct" ==> me.Some?
    ensures st.activeChat.None? ==> r.None?
    ensures st.activeChat.Some? && st.activeChat.value.kind == "room" ==>
      (r.Some? <==> st.activeChat.value.id in st.rooms)
      && (r.Some? ==> r == Some(RoomData(st.rooms[st.activeChat.value.id])))
    ensures st.activeChat.Some? && st.activeChat.value.kind == "direct" ==>
      var other := PropertyKey(OtherParticipant(st.activeChat.value.id, me.value));
      (r.Some? <==> other in users) && (r.Some? ==> r == Some(UserData(users[other])))
    ensures st.activeChat.Some? && st.activeChat.value.kind != "room" && st.activeChat.value.kind != "direct" ==> r.None?
  {
    match st.activeChat
    case None => None
    case Some(chat) =>
      if chat.kind == "room" then
        if chat.id in st.rooms then Some(RoomData(st.rooms[chat.id])) else None
      else if chat.kind == "direct" then
        var other := PropertyKey(OtherParticipant(chat.id, me.value));
        if other in users then Some(UserData(users[other])) else None
      else None
  }

  /** In a direct chat between `me` and someone else, the page shows that
      someone, when known. */
  lemma DirectChatShowsPartner(st: ChatState, users: map<Id, ChatUser>, me: Id, other: Id)
    requires '-' !in me && '-' !in other
    requires st.activeChat == Some(ActiveChat(DirectChatId(me, other), "direct"))
    requires other in users
    ensures CurrentChatData(st, users, Some(me)) == Some(UserData(users[other]))
  {
    OtherParticipantOfDirectChat(me, other, me);
  }

  /** `byId[id]` for each id of an index, `undefined` where the id is missing. */
  function Resolve(ids: seq<Id>, messages: map<Id, Message>): (r: seq<Option<Message>>)
    ensures |r| == |ids|
    ensures forall i | 0 <= i < |ids| :: (r[i].Some? <==> ids[i] in messages)
    ensures forall i | 0 <= i < |ids| && ids[i] in messages :: r[i] == Some(messages[ids[i]])
  {
    seq(|ids|, i requires 0 <= i < |ids| => if ids[i] in messages then Some(messages[ids[i]]) else None)
  }

  /** `getCurrentMessages`: the active room's or direct chat's index mapped
      through the message store, in order; `[]` with no active chat or no
      index. */
  function CurrentMessages(st: ChatState): (r: seq<Option<Message>>)
    ensures st.activeChat.None? ==> r == []
    ensures st.activeChat.Some? && st.activeChat.value.kind == "room" ==>
      r == (if st.activeChat.value.id in st.byRoom then Resolve(st.byRoom[st.activeChat.value.id], st.messages) else [])
    ensures st.activeChat.Some? && st.activeChat.value.kind == "direct" ==>
      r == (if st.activeChat.value.id in st.byDirectChat then Resolve(st.byDirectChat[st.activeChat.value.id], st.messages) else [])
    ensures st.activeChat.Some? && st.activeChat.value.kind != "room" && st.activeChat.value.kind != "direct" ==> r == []
  {
    match st.activeChat
    case None => []
    case Some(chat) =>
      if chat.kind == "room" && chat.id in st.byRoom then Resolve(st.byRoom[chat.id], st.messages)
      else if chat.kind == "direct" && chat.id in st.byDirectChat then Resolve(st.byDirectChat[chat.id], st.messages)
      else []
  }

  /** In a consistent store every shown message exists. */
  lemma CurrentMessagesResolve(st: ChatState)
    requires ChatInv(st)
    ensures forall i | 0 <= i < |CurrentMessages(st)| :: CurrentMessages(st)[i].Some?
  {
  }

  /** After a message is added to the active room, it is the last one shown. */
  lemma AddedMessageShownLast(st: ChatState, m: Message, now: int)
    requires st.activeChat.Some? && st.activeChat.value.kind == "room"
    requires m.roomId == Some(st.activeChat.value.id) && Truthy(m.roomId)
    ensures var shown := CurrentMessages(AddMessage(st, m, now));
      |shown| > 0 && shown[|shown| - 1] == Some(m)
  {
  }
}
