/** The chat app's `chat` slice: rooms, messages indexed by room and by direct
    chat, the direct chats themselves, the active chat and the typing
    indicators. A direct chat between two users is named by their ids,
    sorted and joined with `'-'`. Clock readings are parameters. */
module ChatStore {
  import opened Wrappers
  import opened Seqs
  import opened Text
  import opened EntityAdapter

  datatype Room = Room(id: Id, name: string, description: string, kind: string, createdAt: int)

  /** `roomId`, `senderId` and `receiverId` are optional; the embedded
      `sender` summary is not modelled. */
  datatype Message = Message(
    id: Id, roomId: Option<Id>, senderId: Option<Id>, receiverId: Option<Id>,
    content: string, timestamp: int, status: string)

  datatype DirectChat = DirectChat(id: Id, participants: seq<Id>, createdAt: int)

  datatype ActiveChat = ActiveChat(id: Id, kind: string)

  datatype ChatState = ChatState(
    rooms: map<Id, Room>, roomIds: seq<Id>,
    messages: map<Id, Message>, messageIds: seq<Id>,
    byRoom: map<Id, seq<Id>>, byDirectChat: map<Id, seq<Id>>,
    directChats: map<Id, DirectChat>, directChatIds: seq<Id>,
    activeChat: Option<ActiveChat>, typing: map<Id, map<Id, int>>,
    loading: bool, error: Option<string>)

  function RoomKey(r: Room): Id { r.id }
  function MessageKey(m: Message): Id { m.id }

  /** The three public rooms of the initial state, created at `now`. */
  function DefaultRooms(now: int): seq<Room> {
    [ Room("general", "General", "General chat room for everyone", "public", now),
      Room("random", "Random", "Random discussions and off-topic chat", "public", now),
      Room("tech", "Tech", "Technology discussions", "public", now) ]
  }

  function InitialChat(now: int): (r: ChatState)
    ensures r.roomIds == ["general", "random", "tech"]
    ensures r.rooms.Keys == {"general", "random", "tech"} && r.byRoom.Keys == r.rooms.Keys
    ensures forall k | k in r.byRoom :: r.byRoom[k] == []
    ensures r.messages == map[] && r.messageIds == [] && r.byDirectChat == map[]
    ensures r.activeChat == Some(ActiveChat("general", "room"))
    ensures !r.loading && r.error == None
  {
    var rs := DefaultRooms(now);
    ChatState(
      map["general" := rs[0], "random" := rs[1], "tech" := rs[2]], ["general", "random", "tech"],
      map[], [], map["general" := [], "random" := [], "tech" := []], map[],
      map[], [], Some(ActiveChat("general", "room")), map[], false, None)
  }

  // ---------------------------------------------------------------------------
  // Direct-chat ids

  /** `[a, b].sort().join('-')`. */
  function DirectChatId(a: Id, b: Id): (r: Id)
    ensures r == Join(SortedPair(a, b), '-')
  {
    Join(SortedPair(a, b), '-')
  }

  /** `[a, b].sort()`: the default sort orders strings character by character. */
  function SortedPair(a: Id, b: Id): (r: seq<Id>)
    ensures |r| == 2 && multiset(r) == multiset([a, b])
    ensures !LexLess(r[1], r[0])
  {
    LexLessTotal(a, b);
    if LexLess(b, a) then [b, a] else [a, b]
  }

  /** Either direction of a conversation names the same direct chat. */
  lemma DirectChatIdSymmetric(a: Id, b: Id)
    ensures DirectChatId(a, b) == DirectChatId(b, a)
  {
    LexLessTotal(a, b);
  }

  /** For ids without `'-'`, splitting a direct-chat id gives back the sorted
      pair. */
  lemma DirectChatIdSplits(a: Id, b: Id)
    requires '-' !in a && '-' !in b
    ensures Split(DirectChatId(a, b), '-') == SortedPair(a, b)
  {
    var p := SortedPair(a, b);
    assert p[0] in multiset([a, b]) && p[1] in multiset([a, b]);
    SplitJoin(p, '-');
  }

  // ---------------------------------------------------------------------------
  // Consistency of the indexes

  /** `messageIds` lists every stored message exactly once. */
  predicate MessagesListed(st: ChatState) {
    && NoDup(st.messageIds)
    && (forall i | 0 <= i < |st.messageIds| :: st.messageIds[i] in st.messages)
    && (forall k | k in st.messages :: k in st.messageIds)
  }

  /** Every id in a room's or a direct chat's index is a stored message. */
  predicate IndexesResolve(st: ChatState) {
    && (forall r | r in st.byRoom :: forall i | 0 <= i < |st.byRoom[r]| :: st.byRoom[r][i] in st.messages)
    && (forall c | c in st.byDirectChat :: forall i | 0 <= i < |st.byDirectChat[c]| :: st.byDirectChat[c][i] in st.messages)
  }

  /** Every direct-chat index has its direct chat, stored under its own id
      and listed once in `directChatIds`. */
  predicate DirectChatsListed(st: ChatState) {
    && (forall c | c in st.byDirectChat :: c in st.directChats)
    && NoDup(st.directChatIds)
    && (forall i | 0 <= i < |st.directChatIds| :: st.directChatIds[i] in st.directChats)
    && (forall c | c in st.directChats :: c in st.directChatIds && st.directChats[c].id == c)
  }

  /** `roomIds` and the room map have the same ids. */
  predicate RoomsListed(st: ChatState) {
    && (forall i | 0 <= i < |st.roomIds| :: st.roomIds[i] in st.rooms)
    && (forall k | k in st.rooms :: k in st.roomIds)
  }

  /** The chat store's consistency. */
  predicate ChatInv(st: ChatState) {
    MessagesListed(st) && IndexesResolve(st) && DirectChatsListed(st) && RoomsListed(st)
  }

  lemma InitialChatInv(now: int)
    ensures ChatInv(InitialChat(now))
  {
  }

  // ---------------------------------------------------------------------------
  // Reducers

  /** `fetchRoomsStart` and `fetchMessagesStart`. */
  function FetchStart(st: ChatState): (r: ChatState)
    ensures r.loading && r.error == None
    ensures r.(loading := st.loading, error := st.error) == st
  {
    st.(loading := true, error := None)
  }

  /** `fetchRoomsFailure` and `fetchMessagesFailure`. */
  function FetchFailure(st: ChatState, message: Option<string>): (r: ChatState)
    ensures !r.loading && r.error == message
    ensures r.(loading := st.loading, error := st.error) == st
  {
    st.(loading := false, error := message)
  }

  /** `fetchRoomsSuccess`: the room map rebuilt from the payload (a later
      room with the same id wins) and `roomIds` the payload's ids in order. */
  function FetchRoomsSuccess(st: ChatState, rooms: seq<Room>): (r: ChatState)
    ensures r.roomIds == Map(rooms, RoomKey)
    ensures forall k :: k in r.rooms <==> k in r.roomIds
    ensures forall i | 0 <= i < |rooms| && (forall j | i < j < |rooms| :: rooms[j].id != rooms[i].id) ::
      r.rooms[rooms[i].id] == rooms[i]
    ensures !r.loading && r.error == st.error
    ensures r.(rooms := st.rooms, roomIds := st.roomIds, loading := st.loading) == st
  {
    var byId := IndexBy(map[], rooms, RoomKey);
    var ids := Map(rooms, RoomKey);
    assert forall k :: k in byId <==> k in ids by {
      forall k ensures k in byId <==> k in ids {
        if k in byId {
          var i :| 0 <= i < |rooms| && RoomKey(rooms[i]) == k;
          assert ids[i] == k;
        }
      }
    }
    st.(rooms := byId, roomIds := ids, loading := false)
  }

  /** `fetchMessagesSuccess`: merge the fetched messages into the store, add
      their ids to `messageIds` with first-occurrence deduplication, and make
      them the room's whole index. */
  function FetchMessagesSuccess(st: ChatState, roomId: Id, msgs: seq<Message>): (r: ChatState)
    ensures r.byRoom == st.byRoom[roomId := Map(msgs, MessageKey)]
    ensures r.messageIds == Dedup(st.messageIds + Map(msgs, MessageKey))
    ensures NoDup(st.messageIds) ==> |st.messageIds| <= |r.messageIds| && r.messageIds[..|st.messageIds|] == st.messageIds
    ensures forall k :: k in r.messages <==> k in st.messages || k in Map(msgs, MessageKey)
    ensures forall i | 0 <= i < |msgs| && (forall j | i < j < |msgs| :: msgs[j].id != msgs[i].id) ::
      r.messages[msgs[i].id] == msgs[i]
    ensures forall k | k in st.messages && k !in Map(msgs, MessageKey) :: r.messages[k] == st.messages[k]
    ensures !r.loading
    ensures r.(messages := st.messages, messageIds := st.messageIds, byRoom := st.byRoom, loading := st.loading) == st
  {
    var ids := Map(msgs, MessageKey);
    var fetched := IndexBy(map[], msgs, MessageKey);
    assert NoDup(st.messageIds) ==>
      |st.messageIds| <= |Dedup(st.messageIds + ids)| && Dedup(st.messageIds + ids)[..|st.messageIds|] == st.messageIds by {
      if NoDup(st.messageIds) {
        DedupKeepsPrefix(st.messageIds, ids);
      }
    }
    assert forall k :: k in fetched <==> k in ids by {
      forall k ensures k in fetched <==> k in ids {
        if k in fetched {
          var i :| 0 <= i < |msgs| && MessageKey(msgs[i]) == k;
          assert ids[i] == k;
        }
      }
    }
    st.(messages := st.messages + fetched, messageIds := Dedup(st.messageIds + ids),
        byRoom := st.byRoom[roomId := ids], loading := false)
  }

  /** The message store and id list after `addMessage` has stored `m`. */
  function StoreMessage(st: ChatState, m: Message): (r: ChatState)
    ensures r.messages == st.messages[m.id := m]
    ensures m.id in r.messageIds
    ensures NoDup(st.messageIds) ==> NoDup(r.messageIds)
    ensures forall x :: x in r.messageIds <==> x in st.messageIds || x == m.id
    ensures r.(messages := st.messages, messageIds := st.messageIds) == st
  {
    st.(messages := st.messages[m.id := m],
        messageIds := PushNew(st.messageIds, m.id))
  }

  /** `addMessage`: store the message, then file its id under its room, or,
      for a message between two users, under their direct chat, creating the
      direct chat (participants in sender, receiver order) the first time. */
  function AddMessage(st: ChatState, m: Message, now: int): (r: ChatState)
    ensures r.messages == st.messages[m.id := m]
    ensures forall x :: x in r.messageIds <==> x in st.messageIds || x == m.id
    ensures NoDup(st.messageIds) ==> NoDup(r.messageIds)
    ensures Truthy(m.roomId) ==>
      && r.byRoom == st.byRoom[m.roomId.value := Lookup(st.byRoom, m.roomId.value, []) + [m.id]]
      && r.byDirectChat == st.byDirectChat && r.directChats == st.directChats && r.directChatIds == st.directChatIds
    ensures !Truthy(m.roomId) && Truthy(m.senderId) && Truthy(m.receiverId) ==>
      var c := DirectChatId(m.senderId.value, m.receiverId.value);
      && r.byRoom == st.byRoom
      && r.byDirectChat == st.byDirectChat[c := Lookup(st.byDirectChat, c, []) + [m.id]]
      && (c in st.directChats ==> r.directChats == st.directChats && r.directChatIds == st.directChatIds)
      && (c !in st.directChats ==>
            && r.directChats == st.directChats[c := DirectChat(c, [m.senderId.value, m.receiverId.value], now)]
            && forall x :: x in r.directChatIds <==> x in st.directChatIds || x == c)
      && (NoDup(st.directChatIds) ==> NoDup(r.directChatIds))
    ensures !Truthy(m.roomId) && !(Truthy(m.senderId) && Truthy(m.receiverId)) ==>
      r.byRoom == st.byRoom && r.byDirectChat == st.byDirectChat
      && r.directChats == st.directChats && r.directChatIds == st.directChatIds
    ensures r.rooms == st.rooms && r.roomIds == st.roomIds && r.activeChat == st.activeChat
    ensures r.typing == st.typing && r.loading == st.loading && r.error == st.error
  {
    var s1 := StoreMessage(st, m);
    if Truthy(m.roomId) then
      var room := m.roomId.value;
      s1.(byRoom := st.byRoom[room := Lookup(st.byRoom, room, []) + [m.id]])
    else if Truthy(m.senderId) && Truthy(m.receiverId) then
      var c := DirectChatId(m.senderId.value, m.receiverId.value);
      var s2 := s1.(byDirectChat := st.byDirectChat[c := Lookup(st.byDirectChat, c, []) + [m.id]]);
      if c in st.directChats then s2
      else
        s2.(directChats := st.directChats[c := DirectChat(c, [m.senderId.value, m.receiverId.value], now)],
            directChatIds := PushNew(st.directChatIds, c))
    else s1
  }

  /** A reply files under the same direct chat as the message it answers. */
  lemma ReplySharesDirectChat(st: ChatState, m: Message, reply: Message, now: int, later: int)
    requires !Truthy(m.roomId) && Truthy(m.senderId) && Truthy(m.receiverId)
    requires reply.roomId == m.roomId && reply.senderId == m.receiverId && reply.receiverId == m.senderId
    ensures var s1 := AddMessage(st, m, now);
      var s2 := AddMessage(s1, reply, later);
      var c := DirectChatId(m.senderId.value, m.receiverId.value);
      s2.byDirectChat[c] == Lookup(st.byDirectChat, c, []) + [m.id, reply.id]
      && s2.directChats[c] == s1.directChats[c]
  {
    DirectChatIdSymmetric(m.senderId.value, m.receiverId.value);
  }

  /** `updateMessageStatus`: only the status of an existing message changes. */
  function UpdateMessageStatus(st: ChatState, messageId: Id, status: string): (r: ChatState)
    ensures messageId !in st.messages ==> r == st
    ensures messageId in st.messages ==>
      r.messages == st.messages[messageId := st.messages[messageId].(status := status)]
    ensures r.(messages := st.messages) == st
  {
    if messageId in st.messages then
      st.(messages := st.messages[messageId := st.messages[messageId].(status := status)])
    else st
  }

  /** `setActiveChat`. */
  function SetActiveChat(st: ChatState, chat: Option<ActiveChat>): (r: ChatState)
    ensures r.activeChat == chat && r.(activeChat := st.activeChat) == st
  {
    st.(activeChat := chat)
  }

  /** `setUserTyping`: record when `userId` started typing in `chatId`, or
      delete exactly that entry. The chat's (possibly empty) table exists
      afterwards either way. */
  function SetUserTyping(st: ChatState, chatId: Id, userId: Id, isTyping: bool, now: int): (r: ChatState)
    ensures forall c :: c in r.typing <==> c in st.typing || c == chatId
    ensures forall c | c in st.typing && c != chatId :: r.typing[c] == st.typing[c]
    ensures isTyping ==> r.typing[chatId] == Lookup(st.typing, chatId, map[])[userId := now]
    ensures !isTyping ==> r.typing[chatId] == Lookup(st.typing, chatId, map[]) - {userId}
    ensures r.(typing := st.typing) == st
  {
    var table := Lookup(st.typing, chatId, map[]);
    st.(typing := st.typing[chatId := if isTyping then table[userId := now] else table - {userId}])
  }

  /** A user who starts and then stops typing leaves the chat's table as it
      was, less any earlier entry of theirs. */
  lemma TypingThenStopped(st: ChatState, chatId: Id, userId: Id, now: int, later: int)
    ensures SetUserTyping(SetUserTyping(st, chatId, userId, true, now), chatId, userId, false, later).typing[chatId]
         == Lookup(st.typing, chatId, map[]) - {userId}
  {
    var table := Lookup(st.typing, chatId, map[]);
    assert table[userId := now] - {userId} == table - {userId};
  }

  /** `createRoom`: store the room, append its id (even when it is already
      listed) and start it with an empty message index. */
  function CreateRoom(st: ChatState, room: Room): (r: ChatState)
    ensures r.rooms == st.rooms[room.id := room]
    ensures r.roomIds == st.roomIds + [room.id]
    ensures r.byRoom == st.byRoom[room.id := []]
    ensures r.(rooms := st.rooms, roomIds := st.roomIds, byRoom := st.byRoom) == st
  {
    st.(rooms := st.rooms[room.id := room], roomIds := st.roomIds + [room.id], byRoom := st.byRoom[room.id := []])
  }

  // ---------------------------------------------------------------------------
  // The reducers keep the indexes consistent

  lemma FetchRoomsSuccessInv(st: ChatState, rooms: seq<Room>)
    requires ChatInv(st)
    ensures ChatInv(FetchRoomsSuccess(st, rooms))
  {
  }

  lemma FetchMessagesSuccessInv(st: ChatState, roomId: Id, msgs: seq<Message>)
    requires ChatInv(st)
    ensures ChatInv(FetchMessagesSuccess(st, roomId, msgs))
  {
    var r := FetchMessagesSuccess(st, roomId, msgs);
    FetchMessagesListed(st, roomId, msgs);
    FetchMessagesIndexes(st, roomId, msgs);
    assert r.byDirectChat == st.byDirectChat && r.directChats == st.directChats && r.directChatIds == st.directChatIds;
    assert r.rooms == st.rooms && r.roomIds == st.roomIds;
  }

  lemma FetchMessagesListed(st: ChatState, roomId: Id, msgs: seq<Message>)
    requires MessagesListed(st)
    ensures MessagesListed(FetchMessagesSuccess(st, roomId, msgs))
  {
    var r := FetchMessagesSuccess(st, roomId, msgs);
    var ids := Map(msgs, MessageKey);
    assert r.messageIds == Dedup(st.messageIds + ids);
    forall i | 0 <= i < |r.messageIds| ensures r.messageIds[i] in r.messages {
      var x := r.messageIds[i];
      assert x in st.messageIds + ids;
      if x !in st.messageIds {
        assert x in ids;
      }
    }
    forall k | k in r.messages ensures k in r.messageIds {
      assert k in st.messageIds + ids;
    }
  }

  lemma FetchMessagesIndexes(st: ChatState, roomId: Id, msgs: seq<Message>)
    requires IndexesResolve(st)
    ensures IndexesResolve(FetchMessagesSuccess(st, roomId, msgs))
  {
    var r := FetchMessagesSuccess(st, roomId, msgs);
    var ids := Map(msgs, MessageKey);
    forall x, i | x in r.byRoom && 0 <= i < |r.byRoom[x]| ensures r.byRoom[x][i] in r.messages {
      if x == roomId {
        assert r.byRoom[x][i] == ids[i] && ids[i] in ids;
      } else {
        assert r.byRoom[x] == st.byRoom[x];
      }
    }
    assert r.byDirectChat == st.byDirectChat;
  }

  lemma AddMessageInv(st: ChatState, m: Message, now: int)
    requires ChatInv(st)
    ensures ChatInv(AddMessage(st, m, now))
  {
    AddMessageIndexes(st, m, now);
    AddMessageDirectChats(st, m, now);
    AddMessageListed(st, m, now);
    AddMessageRooms(st, m, now);
  }

  lemma AddMessageListed(st: ChatState, m: Message, now: int)
    requires MessagesListed(st)
    ensures MessagesListed(AddMessage(st, m, now))
  {
    var r := AddMessage(st, m, now);
    forall i | 0 <= i < |r.messageIds| ensures r.messageIds[i] in r.messages {
      assert r.messageIds[i] in r.messageIds;
    }
  }

  lemma AddMessageRooms(st: ChatState, m: Message, now: int)
    requires RoomsListed(st)
    ensures RoomsListed(AddMessage(st, m, now))
  {
  }

  lemma AddMessageIndexes(st: ChatState, m: Message, now: int)
    requires IndexesResolve(st)
    ensures IndexesResolve(AddMessage(st, m, now))
  {
    var r := AddMessage(st, m, now);
    forall x, i | x in r.byRoom && 0 <= i < |r.byRoom[x]| ensures r.byRoom[x][i] in r.messages {
      if Truthy(m.roomId) && x == m.roomId.value && i == |r.byRoom[x]| - 1 {
        assert r.byRoom[x][i] == m.id;
      } else if Truthy(m.roomId) && x == m.roomId.value {
        assert r.byRoom[x][i] == Lookup(st.byRoom, x, [])[i];
      } else {
        assert r.byRoom[x] == st.byRoom[x];
      }
    }
    forall x, i | x in r.byDirectChat && 0 <= i < |r.byDirectChat[x]| ensures r.byDirectChat[x][i] in r.messages {
      if x in st.byDirectChat && r.byDirectChat[x] == st.byDirectChat[x] {
      } else {
        assert !Truthy(m.roomId) && Truthy(m.senderId) && Truthy(m.receiverId);
        var c := DirectChatId(m.senderId.value, m.receiverId.value);
        assert x == c;
        if i == |r.byDirectChat[x]| - 1 {
          assert r.byDirectChat[x][i] == m.id;
        } else {
          assert r.byDirectChat[x][i] == Lookup(st.byDirectChat, x, [])[i];
        }
      }
    }
  }

  lemma AddMessageDirectChats(st: ChatState, m: Message, now: int)
    requires DirectChatsListed(st)
    ensures DirectChatsListed(AddMessage(st, m, now))
  {
  }

  lemma UpdateMessageStatusInv(st: ChatState, messageId: Id, status: string)
    requires ChatInv(st)
    ensures ChatInv(UpdateMessageStatus(st, messageId, status))
  {
  }

  lemma CreateRoomInv(st: ChatState, room: Room)
    requires ChatInv(st)
    ensures ChatInv(CreateRoom(st, room))
  {
  }

  /** The reducers that touch no index. */
  lemma StatusReducersInv(st: ChatState, message: Option<string>, chat: Option<ActiveChat>)
    requires ChatInv(st)
    ensures ChatInv(FetchStart(st)) && ChatInv(FetchFailure(st, message)) && ChatInv(SetActiveChat(st, chat))
  {
    assert FetchStart(st).(loading := st.loading, error := st.error) == st;
  }

  lemma SetUserTypingInv(st: ChatState, chatId: Id, userId: Id, isTyping: bool, now: int)
    requires ChatInv(st)
    ensures ChatInv(SetUserTyping(st, chatId, userId, isTyping, now))
  {
    var r := SetUserTyping(st, chatId, userId, isTyping, now);
    assert r.messages == st.messages && r.messageIds == st.messageIds && r.byRoom == st.byRoom;
    assert r.byDirectChat == st.byDirectChat && r.directChats == st.directChats && r.directChatIds == st.directChatIds;
    assert r.rooms == st.rooms && r.roomIds == st.roomIds;
  }
}
