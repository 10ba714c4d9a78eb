/**
 * The storage backends of `storage_backend.py`: the file backend over the
 * chat directory, the database backend whose operations are not implemented
 * yet, and the factory that picks one by name.
 */
module Storage {
  import opened Wrappers
  import opened Text
  import opened ChatDir

  /** `FileStorageBackend` over its storage directory. */
  class FileStorageBackend {
    var files: Directory

    constructor (files: Directory)
      ensures this.files == files
    {
      this.files := files;
    }

    /** `exists(conversation_id)` */
    predicate Exists(conversationId: string)
      reads this
    {
      conversationId in files
    }

    /** A `.json` conversation exists exactly when `list()` without a limit shows it. */
    lemma ExistsIffListed(conversationId: string)
      requires IsJsonName(conversationId)
      ensures Exists(conversationId) <==> conversationId in Limit(SortedJsonNames(files.Keys), 0)
    {
    }

    /** `load(conversation_id)`: the saved messages, or `None` when there is no such file. */
    function Load(conversationId: string): (r: Option<seq<Message>>)
      reads this
      ensures r.None? <==> !Exists(conversationId)
      ensures r.Some? ==> r.value == files[conversationId]
    {
      if conversationId in files then Some(files[conversationId]) else None
    }

    /** `save(conversation_id, messages)`: a full rewrite of that one file. */
    method Save(conversationId: string, messages: seq<Message>) returns (ok: bool)
      modifies this
      ensures ok
      ensures files == old(files)[conversationId := messages]
      ensures Load(conversationId) == Some(messages)
    {
      files := files[conversationId := messages];
      ok := true;
    }

    /** `delete(conversation_id)`: true exactly when it existed; afterwards it does not. */
    method Delete(conversationId: string) returns (existed: bool)
      modifies this
      ensures existed <==> old(Exists(conversationId))
      ensures !Exists(conversationId)
      ensures files == old(files) - {conversationId}
    {
      if conversationId in files {
        files := files - {conversationId};
        return true;
      }
      existed := false;
    }

    /** `list(limit)`: the `.json` names, newest first, cut to a truthy limit. */
    method List(limit: int) returns (conversations: seq<string>)
      ensures conversations == Limit(SortedJsonNames(files.Keys), limit)
      ensures Descending(conversations)
      ensures forall x :: x in conversations ==> Exists(x) && IsJsonName(x)
      ensures limit == 0 ==> forall x :: Exists(x) && IsJsonName(x) ==> x in conversations
    {
      conversations := JsonNamesDescending(files.Keys);
      LimitDescending(conversations, limit);
      conversations := Limit(conversations, limit);
    }
  }

  /**
   * `DatabaseStorageBackend`: every operation is a stub that reports failure
   * or absence. It holds no conversations, so none of them changes anything.
   */
  class DatabaseStorageBackend {
    const connectionString: string

    constructor (connectionString: string)
      ensures this.connectionString == connectionString
    {
      this.connectionString := connectionString;
    }

    method Save(conversationId: string, messages: seq<Message>) returns (ok: bool)
      ensures !ok
    {
      ok := false;
    }

    method Load(conversationId: string) returns (r: Option<seq<Message>>)
      ensures r.None?
    {
      r := None;
    }

    method Delete(conversationId: string) returns (existed: bool)
      ensures !existed
    {
      existed := false;
    }

    method List(limit: int) returns (conversations: seq<string>)
      ensures conversations == []
    {
      conversations := [];
    }

    method Exists(conversationId: string) returns (b: bool)
      ensures !b
    {
      b := false;
    }
  }

  /** The backend class a factory name selects. */
  datatype BackendKind = FileBackend | DatabaseBackend

  /**
   * `get_storage_backend(backend_type)`: "file" selects the file backend,
   * "database" and "db" the database backend, in any letter case; any other
   * name raises ValueError.
   */
  function GetStorageBackend(backendType: string): (r: Result<BackendKind>)
    ensures r.Ok? <==> Lower(backendType) in {"file", "database", "db"}
    ensures r.Ok? ==> (r.value == FileBackend <==> Lower(backendType) == "file")
    ensures r.Err? ==> r.error == "Unknown storage backend: " + backendType
  {
    var backends := map["file" := FileBackend, "database" := DatabaseBackend, "db" := DatabaseBackend];
    var name := Lower(backendType);
    if name in backends then Ok(backends[name])
    else Err("Unknown storage backend: " + backendType)
  }
}
