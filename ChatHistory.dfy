/**
 * The browser's chat list (`ChatStorage`): every chat kept as one JSON array
 * under a localStorage key, newest first and at most 100 long. `JSON.parse`
 * and `JSON.stringify` are taken to be inverse on chat arrays, so the stored
 * item is held as what parsing it yields.
 */
module ChatHistory {
  import opened Wrappers
  import PySlice

  datatype Message = Message(role: string, content: string)

  datatype ModelName = Claude | Glm | Mako

  datatype Chat = Chat(id: string, title: string, messages: seq<Message>, model: ModelName,
                       createdAt: int, updatedAt: int)

  /**
   * The item under the storage key as `getAllChats` sees it: missing or the
   * empty string, text that does not parse, a JSON value that is not an
   * array, or an array of chats.
   */
  datatype StoredItem = Absent | Unparsable | NotAnArray | ChatArray(chats: seq<Chat>)

  const StorageKey := "ai-stack-chats"

  /** `saveChat` keeps at most this many chats. */
  const MaxChats := 100

  /** The position of the first chat with this id (`findIndex`; -1 is `None`). */
  function FindChatIndex(chats: seq<Chat>, id: string): (r: Option<nat>)
    ensures r.Some? ==> r.value < |chats| && chats[r.value].id == id
    ensures r.Some? ==> forall j :: 0 <= j < r.value ==> chats[j].id != id
    ensures r.None? ==> forall j :: 0 <= j < |chats| ==> chats[j].id != id
  {
    if chats == [] then None
    else if chats[0].id == id then Some(0)
    else match FindChatIndex(chats[1..], id)
      case Some(i) => Some(i + 1)
      case None => None
  }

  /**
   * The list `saveChat` stores: the chat replaces the first entry with its id,
   * stamped with `now`, or goes in front when no entry has its id; then the
   * list is cut to its first `MaxChats` entries.
   */
  function Upserted(chats: seq<Chat>, chat: Chat, now: int): seq<Chat>
  {
    match FindChatIndex(chats, chat.id)
    case Some(i) => PySlice.Take(chats[i := chat.(updatedAt := now)], MaxChats)
    case None => PySlice.Take([chat] + chats, MaxChats)
  }

  /** The chats `deleteChat` keeps: every chat whose id differs, in their order. */
  function WithoutChat(chats: seq<Chat>, id: string): (r: seq<Chat>)
    ensures forall c :: c in r <==> c in chats && c.id != id
    ensures |r| <= |chats|
  {
    if chats == [] then []
    else (if chats[0].id == id then [] else [chats[0]]) + WithoutChat(chats[1..], id)
  }

  /** The position of the first user message (`messages.find(m => m.role === 'user')`). */
  function FirstUserIndex(messages: seq<Message>): (r: Option<nat>)
    ensures r.Some? ==> r.value < |messages| && messages[r.value].role == "user"
    ensures r.Some? ==> forall j :: 0 <= j < r.value ==> messages[j].role != "user"
    ensures r.None? ==> forall j :: 0 <= j < |messages| ==> messages[j].role != "user"
  {
    if messages == [] then None
    else if messages[0].role == "user" then Some(0)
    else match FirstUserIndex(messages[1..])
      case Some(i) => Some(i + 1)
      case None => None
  }

  class ChatStorage {
    /** `typeof window !== 'undefined'`: false when running on the server. */
    const hasWindow: bool
    /** The localStorage item under `StorageKey`. */
    var stored: StoredItem

    constructor (hasWindow: bool, stored: StoredItem)
      ensures this.hasWindow == hasWindow && this.stored == stored
    {
      this.hasWindow := hasWindow;
      this.stored := stored;
    }

    /** `getAllChats()`: the stored array, or `[]` without a window or a stored array. */
    function GetAllChats(): (chats: seq<Chat>)
      reads this
      ensures hasWindow && stored.ChatArray? ==> chats == stored.chats
      ensures !hasWindow || !stored.ChatArray? ==> chats == []
    {
      if !hasWindow then []
      else match stored
        case ChatArray(cs) => cs
        case _ => []
    }

    /** `getChat(id)`: the first chat with that id, or `None` (null). */
    function GetChat(id: string): (r: Option<Chat>)
      reads this
      ensures r.Some? ==> r.value.id == id && r.value in GetAllChats()
      ensures r.Some? ==> var i := FindChatIndex(GetAllChats(), id).value;
        GetAllChats()[i] == r.value
      ensures r.None? <==> forall c :: c in GetAllChats() ==> c.id != id
    {
      var chats := GetAllChats();
      match FindChatIndex(chats, id)
      case Some(i) => Some(chats[i])
      case None => None
    }

    /** `saveChat(chat)` at time `now`. */
    method SaveChat(chat: Chat, now: int)
      modifies this
      ensures !hasWindow ==> stored == old(stored)
      ensures hasWindow ==> stored == ChatArray(Upserted(old(GetAllChats()), chat, now))
    {
      if !hasWindow {
        return;
      }
      var chats := GetAllChats();
      var existingIndex := FindChatIndex(chats, chat.id);
      if existingIndex.Some? {
        chats := chats[existingIndex.value := chat.(updatedAt := now)];
      } else {
        chats := [chat] + chats;
      }
      var trimmedChats := PySlice.Take(chats, MaxChats);
      stored := ChatArray(trimmedChats);
    }

    /** `deleteChat(id)` */
    method DeleteChat(id: string)
      modifies this
      ensures !hasWindow ==> stored == old(stored)
      ensures hasWindow ==> stored == ChatArray(WithoutChat(old(GetAllChats()), id))
    {
      if !hasWindow {
        return;
      }
      var chats := GetAllChats();
      var filtered := WithoutChat(chats, id);
      stored := ChatArray(filtered);
    }

    /**
     * `generateTitle(messages)`: "New Chat" without a user message, else the
     * first 50 characters of the first one, with "..." exactly when it was cut.
     */
    static function GenerateTitle(messages: seq<Message>): (title: string)
      ensures FirstUserIndex(messages).None? ==> title == "New Chat"
      ensures FirstUserIndex(messages).Some? ==>
        var content := messages[FirstUserIndex(messages).value].content;
        && (|content| <= 50 ==> title == content)
        && (|content| > 50 ==> title == content[..50] + "...")
    {
      match FirstUserIndex(messages)
      case None => "New Chat"
      case Some(i) =>
        var content := messages[i].content;
        var title := PySlice.Take(content, 50);
        if |title| < |content| then title + "..." else title
    }
  }

  // ---------------------------------------------------- properties of saves

  /** The stored list never exceeds `MaxChats`, and holds at least one chat. */
  lemma UpsertedBounded(chats: seq<Chat>, chat: Chat, now: int)
    ensures 0 < |Upserted(chats, chat, now)| <= MaxChats
  {
  }

  /**
   * Saving a chat whose id is present replaces that entry in place, stamped
   * with `now`; every other entry keeps its position.
   */
  lemma UpsertExisting(chats: seq<Chat>, chat: Chat, now: int, i: nat)
    requires FindChatIndex(chats, chat.id) == Some(i) && i < MaxChats
    ensures var r := Upserted(chats, chat, now);
      && |r| == (if |chats| <= MaxChats then |chats| else MaxChats)
      && r[i] == chat.(updatedAt := now)
      && forall j :: 0 <= j < |r| && j != i ==> r[j] == chats[j]
  {
  }

  /** Saving a chat with a new id puts it first, ahead of the chats already stored. */
  lemma UpsertNew(chats: seq<Chat>, chat: Chat, now: int)
    requires FindChatIndex(chats, chat.id).None?
    ensures var r := Upserted(chats, chat, now);
      && r[0] == chat
      && |r| == (if |chats| < MaxChats then |chats| + 1 else MaxChats)
      && forall j :: 1 <= j < |r| ==> r[j] == chats[j - 1]
  {
  }

  /** After a save, looking the chat up finds what was saved. */
  lemma {:induction false} SavedChatIsFound(chats: seq<Chat>, chat: Chat, now: int)
    requires match FindChatIndex(chats, chat.id) case Some(i) => i < MaxChats case None => true
    ensures var r := Upserted(chats, chat, now);
      FindChatIndex(r, chat.id).Some?
      && r[FindChatIndex(r, chat.id).value]
           == (if FindChatIndex(chats, chat.id).Some? then chat.(updatedAt := now) else chat)
  {
    var r := Upserted(chats, chat, now);
    match FindChatIndex(chats, chat.id)
    case Some(i) =>
      UpsertExisting(chats, chat, now, i);
      assert r[i].id == chat.id;
      assert FindChatIndex(r, chat.id) == Some(i);
    case None =>
      UpsertNew(chats, chat, now);
      assert FindChatIndex(r, chat.id) == Some(0);
  }

  // -------------------------------------------------- properties of deletes

  /** Filtering distributes over concatenation: the kept chats stay in their relative order. */
  lemma {:induction false} WithoutChatAppend(a: seq<Chat>, b: seq<Chat>, id: string)
    ensures WithoutChat(a + b, id) == WithoutChat(a, id) + WithoutChat(b, id)
    decreases |a|
  {
    if a == [] {
      assert a + b == b;
    } else {
      assert (a + b)[1..] == a[1..] + b;
      WithoutChatAppend(a[1..], b, id);
    }
  }

  /** Deleting an id no chat has leaves the list as it is. */
  lemma {:induction false} WithoutAbsentChat(chats: seq<Chat>, id: string)
    requires forall c :: c in chats ==> c.id != id
    ensures WithoutChat(chats, id) == chats
    decreases |chats|
  {
    if chats != [] {
      WithoutAbsentChat(chats[1..], id);
    }
  }
}
