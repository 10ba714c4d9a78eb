/**
 * `ConversationManager`: saving, loading, deleting and listing transcripts in
 * the chat directory, the preview of a transcript, and the retention cleanup
 * that keeps only the newest conversations.
 */
module Conversations {
  import opened Wrappers
  import opened Text
  import opened ChatDir
  import PySlice

  /** `config.MAX_CHAT_HISTORY` with the environment variable unset. */
  const DefaultMaxChats := 10

  /** `max_chats or config.MAX_CHAT_HISTORY`: 0 (or `None`) falls back to the default. */
  function EffectiveMaxChats(maxChats: int): (m: int)
    ensures maxChats != 0 ==> m == maxChats
    ensures maxChats == 0 ==> m == DefaultMaxChats
  {
    if maxChats != 0 then maxChats else DefaultMaxChats
  }

  /** The position of the first message whose role is "user". */
  function FirstUserIndex(messages: seq<Message>): (r: Option<nat>)
    ensures r.Some? ==> r.value < |messages| && messages[r.value].role == "user"
    ensures r.Some? ==> forall j :: 0 <= j < r.value ==> messages[j].role != "user"
    ensures r.None? ==> forall j :: 0 <= j < |messages| ==> messages[j].role != "user"
  {
    if messages == [] then None
    else if messages[0].role == "user" then Some(0)
    else match FirstUserIndex(messages[1..])
      case Some(i) => Some(i + 1)
      case None => None
  }

  /** `msg.get('content', 'Empty chat')` */
  function ContentOr(m: Message): string
  {
    if m.content.Some? then m.content.value else "Empty chat"
  }

  /** The sorted names of the `.json` conversations whose files are to go in a cleanup. */
  ghost function Doomed(files: Directory, maxChats: int): seq<string>
  {
    PySlice.Drop(SortedJsonNames(files.Keys), EffectiveMaxChats(maxChats))
  }

  class ConversationManager {
    /** The chat directory. */
    var files: Directory

    constructor (files: Directory)
      ensures this.files == files
    {
      this.files := files;
    }

    /** `load_conversation(chat_id)`: the saved messages, or `None` when the file is absent. */
    function LoadConversation(chatId: string): (r: Option<seq<Message>>)
      reads this
      ensures r.None? <==> chatId !in files
      ensures r.Some? ==> r.value == files[chatId]
    {
      if chatId in files then Some(files[chatId]) else None
    }

    /** `save_conversation(chat_id, messages)`: the file is written whole; a later load returns the messages. */
    method SaveConversation(chatId: string, messages: seq<Message>) returns (ok: bool)
      modifies this
      ensures ok
      ensures files == old(files)[chatId := messages]
      ensures LoadConversation(chatId) == Some(messages)
      ensures forall other :: other != chatId ==> LoadConversation(other) == old(LoadConversation(other))
    {
      files := files[chatId := messages];
      ok := true;
    }

    /** `delete_conversation(chat_id)`: true exactly when the file existed; only that file goes. */
    method DeleteConversation(chatId: string) returns (existed: bool)
      modifies this
      ensures existed <==> chatId in old(files)
      ensures files == old(files) - {chatId}
    {
      if chatId in files {
        files := files - {chatId};
        return true;
      }
      existed := false;
    }

    /** `list_conversations(limit)`: the `.json` names, newest first, cut to a truthy limit. */
    method ListConversations(limit: int) returns (chats: seq<string>)
      ensures chats == Limit(SortedJsonNames(files.Keys), limit)
      ensures Descending(chats)
      ensures forall x :: x in chats ==> x in files && IsJsonName(x)
      ensures limit == 0 ==> forall x :: x in files && IsJsonName(x) ==> x in chats
    {
      chats := JsonNamesDescending(files.Keys);
      LimitDescending(chats, limit);
      chats := Limit(chats, limit);
    }

    /**
     * `get_conversation_preview(chat_id, preview_length)`: "Empty chat" for a
     * missing or empty conversation, else the first `previewLength`
     * characters of the first user message, or of the first message when no
     * message is from the user.
     */
    method GetConversationPreview(chatId: string, previewLength: int) returns (preview: string)
      ensures chatId !in files || files[chatId] == [] ==> preview == "Empty chat"
      ensures chatId in files && files[chatId] != [] ==>
        var messages := files[chatId];
        preview == PySlice.Take(ContentOr(messages[
          match FirstUserIndex(messages) case Some(i) => i case None => 0]), previewLength)
    {
      var loaded := LoadConversation(chatId);
      if loaded.None? || loaded.value == [] {
        return "Empty chat";
      }
      var messages := loaded.value;
      var i := 0;
      while i < |messages|
        invariant 0 <= i <= |messages|
        invariant forall j :: 0 <= j < i ==> messages[j].role != "user"
      {
        var msg := messages[i];
        if msg.role == "user" {
          var content := ContentOr(msg);
          assert FirstUserIndex(messages) == Some(i);
          return PySlice.Take(content, previewLength);
        }
        i := i + 1;
      }
      var content := ContentOr(messages[0]);
      preview := PySlice.Take(content, previewLength);
    }

    /**
     * `cleanup_old_chats(max_chats)`: when there are more `.json`
     * conversations than the limit, deletes those after position `max_chats`
     * of the newest-first listing and returns how many it deleted.
     */
    method CleanupOldChats(maxChats: int) returns (deleted: nat)
      modifies this
      ensures var listing := SortedJsonNames(old(files).Keys);
        |listing| <= EffectiveMaxChats(maxChats) ==> deleted == 0 && files == old(files)
      ensures var listing := SortedJsonNames(old(files).Keys);
        |listing| > EffectiveMaxChats(maxChats) ==>
          && deleted == |Doomed(old(files), maxChats)|
          && files == old(files) - (set x | x in Doomed(old(files), maxChats))
    {
      var m := EffectiveMaxChats(maxChats);
      var chats := ListConversations(0);
      if |chats| <= m {
        return 0;
      }
      ghost var start := files;
      var doomed := PySlice.Drop(chats, m);
      assert forall k :: 0 <= k < |doomed| ==> doomed[k] == chats[|chats| - |doomed| + k];
      deleted := 0;
      var i := 0;
      while i < |doomed|
        invariant 0 <= i <= |doomed|
        invariant deleted == i
        invariant files == start - (set x | x in doomed[..i])
      {
        assert doomed[i] !in doomed[..i] by {
          forall k | 0 <= k < i ensures doomed[k] != doomed[i] {
            DescendingDistinct(chats, |chats| - |doomed| + k, |chats| - |doomed| + i);
          }
        }
        var ok := DeleteConversation(doomed[i]);
        assert doomed[..i + 1] == doomed[..i] + [doomed[i]];
        if ok {
          deleted := deleted + 1;
        }
        i := i + 1;
      }
      assert doomed[..i] == doomed;
    }
  }

  /**
   * After a cleanup with a positive limit `m`, the `.json` conversations left
   * are exactly the `m` newest, in the same order, and every deleted one is
   * older than every one kept.
   */
  lemma CleanupKeepsNewest(files: Directory, maxChats: int)
    requires EffectiveMaxChats(maxChats) > 0
    requires |SortedJsonNames(files.Keys)| > EffectiveMaxChats(maxChats)
    ensures var listing := SortedJsonNames(files.Keys);
      var m := EffectiveMaxChats(maxChats);
      var left := files - (set x | x in Doomed(files, maxChats));
      && SortedJsonNames(left.Keys) == listing[..m]
      && |SortedJsonNames(left.Keys)| == m
      && forall a, b :: a in Doomed(files, maxChats) && b in left && IsJsonName(b) ==> Less(a, b)
  {
    var listing := SortedJsonNames(files.Keys);
    var m := EffectiveMaxChats(maxChats);
    var doomed := Doomed(files, maxChats);
    assert doomed == listing[m..];
    var left := files - (set x | x in doomed);
    var kept := listing[..m];
    forall x ensures x in kept <==> x in left.Keys && IsJsonName(x) {
      if x in kept {
        var i :| 0 <= i < m && listing[i] == x;
        forall j | m <= j < |listing| ensures listing[j] != x {
          DescendingDistinct(listing, i, j);
        }
      }
    }
    DescendingUnique(kept, SortedJsonNames(left.Keys));
    forall a, b | a in doomed && b in left && IsJsonName(b) ensures Less(a, b) {
      var j :| m <= j < |listing| && listing[j] == a;
      var i :| 0 <= i < |listing| && listing[i] == b;
      DescendingOrdered(listing, i, j);
    }
  }

  /** Eleven conversations and the default limit: the single oldest goes, ten stay. */
  lemma CleanupRemovesOldestOfEleven(files: Directory)
    requires |SortedJsonNames(files.Keys)| == 11
    ensures Doomed(files, 0) == [SortedJsonNames(files.Keys)[10]]
    ensures |SortedJsonNames((files - (set x | x in Doomed(files, 0))).Keys)| == 10
  {
    CleanupKeepsNewest(files, 0);
  }
}
