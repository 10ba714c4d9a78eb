# chromebook-ai-stack: verified model of the chat and memory core

This project is a Dafny model of the list, map and string routines behind the
chat assistant. It covers these parts:

- **Fact memory.** The Streamlit app's silent memory engine (`ai.py`):
  - reads a window of the 20 most recent facts;
  - decides from the turn's text whether to forget, remember or auto-learn;
  - cuts a fenced JSON block out of the provider's reply;
  - replaces the fact list, or merges new facts into it without duplicates;
  - rewrites the memory file.
- **Response cache.** The in-memory cache (`cache_manager.py`) is a bounded
  dictionary in insertion order. It evicts the oldest key when full,
  expires entries by TTL, and has a hit-or-compute operation.
- **Conversation stores.** `conversation_manager.py` and
  `storage_backend.py` sit over a chat directory and provide:
  - save, load, delete and exists;
  - a `.json` listing, newest first;
  - the preview of a conversation;
  - a retention cleanup that keeps only the newest `max_chats`;
  - the stub database backend and the backend factory.
- **Browser chat list.** `lib/chatHistory.ts`: chats are upserted or
  prepended, capped at 100, deleted by id, found by id, and titled from the
  first user message.
- **Memory injection.** The memory context is put in front of the first user
  message only (`lib/memory.ts`).
- **Code blocks.** A message is split into text and fenced code blocks
  (`components/ChatMessage.tsx`). The same file decides whether a block gets
  a Run button and which language name is sent.
- **Request validation.** The execution server's request check and the
  falsy case of its output scrubbing (`server/utils/validator.js`).

Each core file keeps its own form in the model:

- State that the source updates in place becomes a Dafny `class`: the
  memory file, the cache dictionary, the chat directory and the browser's
  storage item. Its methods carry `modifies` clauses, and each is proved
  against a specification function of the old state.
- Loops in the source become `while` loops with invariants. These are the
  merge loops of `update_memory`, the preview search, the cleanup loop, the
  sorted listing and the `regex.exec` loop of `extractCodeBlocks`.
- Pure code stays functions and lemmas.

Things outside the program become parameters:

- The clock becomes `now`.
- The provider's reply becomes `reply: Option<string>`, which is `None` when
  the call raised.
- `json.loads` becomes a parse oracle `parse: string -> Option<Json<T>>`.
- `compute_fn` becomes the value it returns.
- The regex rewriting of `sanitizeOutput` becomes a function parameter.
- The memory file and the chat files are held as their parsed values: writing
  a list and reading it back gives the same list.

Modules and files:

| file | module | models |
|---|---|---|
| Wrappers.dfy | Wrappers | `Option`, `Result` |
| PySlice.dfy | PySlice | Python's `s[:n]` and `s[n:]` for any integer `n` |
| Seqs.dfy | Seqs | lists without repeats, the first position of an element, removal at a position |
| Text.dfy | Text | ASCII lower-casing, Python's `strip` and JavaScript's `trim`, substring search, `str.split`, lexicographic order |
| FactMemory.dfy | FactMemory | `ai.py`: `get_memory`, `update_memory`, `trim_history` |
| Cache.dfy | Cache | `cache_manager.py`: `InMemoryCacheBackend`, `CacheManager` |
| ChatDir.dfy | ChatDir | the chat directory and its descending `.json` listing |
| Conversations.dfy | Conversations | `conversation_manager.py` |
| Storage.dfy | Storage | `storage_backend.py` |
| ChatHistory.dfy | ChatHistory | `lib/chatHistory.ts` |
| MemoryInject.dfy | MemoryInject | `lib/memory.ts`: `injectMemoryContext` |
| Validator.dfy | Validator | `server/utils/validator.js` |
| CodeBlocks.dfy | CodeBlocks | `components/ChatMessage.tsx`: `extractCodeBlocks`, `canRun`, the language mapping |

Lower-casing and whitespace cover ASCII only. Python's `strip()` removes the
six ASCII whitespace characters and the separators 0x1C to 0x1F; JavaScript's
`trim()` removes only the six. String lengths are counted in characters.

One behaviour is captured rather than fixed: the window hazard of
`update_memory`. Every mode that writes starts from the 20-fact window of
`get_memory` (ai.py:70, ai.py:73), so any write persists only that window.
`FactMemory.RememberFailureDropsOlderFacts` states that a remember turn whose
provider call fails still deletes every fact older than the window.

## Model

| member | source | states |
|---|---|---|
| PySlice.Bound | ai.py:58 | A Python slice bound: a negative bound counts from the end, and every bound is clipped to the sequence |
| Text.Lower | ai.py:71 | Lower-casing keeps the length and maps each character on its own |
| Text.TrimmedShape | ai.py:89 | `strip()` and `trim()` cut only whitespace, of their own kind, from either end, and the result neither starts nor ends with such whitespace |
| Text.StripVersusTrim | ai.py:89 | `strip()` removes a leading 0x1C separator, which `trim()` (components/ChatMessage.tsx:29) keeps |
| Text.IndexFrom | ai.py:76 | The first occurrence at or after `from`: it occurs there, nowhere earlier, or nowhere at all |
| Text.ContainsIff | ai.py:76 | The `in` test on strings holds exactly when some position holds an occurrence |
| Text.Split | ai.py:90 | `str.split(sep)` gives at least one part, at least two when the separator occurs, and no part contains the separator |
| Text.SplitJoin | ai.py:90 | Joining the parts of a split with the separator gives back the string |
| Text.LessTotal | conversation_manager.py:68 | String order is total, so the descending sort is determined |
| Text.LessTransitive | conversation_manager.py:68 | String order is transitive |
| FactMemory.GetMemory | ai.py:53-61 | Gives `[]` without a readable stored list. Otherwise it gives the last `min(n, 20)` facts, in stored order, and the list is some prefix followed by them |
| FactMemory.ClassifyMode | ai.py:71-100 | Forget exactly when the lower-cased turn mentions forget, delete or erase. Remember exactly when it does not, but mentions remember, new name is or my name is. Auto-learn otherwise |
| FactMemory.ClassifyIgnoresCase | ai.py:71 | Inputs that agree up to letter case get the same mode |
| FactMemory.ForgetBeatsRemember | ai.py:76-100 | A turn mentioning both forget and remember is a forget turn |
| FactMemory.TaggedFenceBodyIsBetweenFences | ai.py:89-90 | With a "```json" fence, the parsed text is the text after the first "```json" up to the next "```". A fence of four or more backticks is the one exception. With no next "```", the parsed text runs to the end |
| FactMemory.AnyFenceBodyUntagged | ai.py:142-146 | Without a "```json" fence, auto-learn parses the text strictly between the first two "```" |
| FactMemory.MergeShape | ai.py:117-119 | The old list is a prefix of the merge. Each appended fact was extracted, was not in the old list, and is not appended twice. The appended facts keep the order of their first extraction. Every extracted fact ends up in the list |
| FactMemory.MergeKeepsNoDuplicates | ai.py:154-156 | A list without duplicates keeps none after merging |
| FactMemory.MergeNothingNew | ai.py:117-119 | Merging only facts already present changes nothing |
| FactMemory.MergeIdempotent | ai.py:154-156 | Merging the same extracted list twice is the same as once |
| FactMemory.AppendMissing | ai.py:154-156 | The in-place append loop computes the merge |
| FactMemory.MemoryBank.UpdateMemory | ai.py:63-162 | The file after the update is the specification `Updated` of the old file, the mode of the turn, the reply and the parse |
| FactMemory.ForgetFailureKeepsFacts | ai.py:83-96 | A failed call or parse in forget mode writes exactly the pre-call window |
| FactMemory.ForgetReplaces | ai.py:88-96 | A successful forget writes the parsed value wholesale |
| FactMemory.MergingModesExtendWindow | ai.py:112-159 | Remember and auto-learn write the window followed by new, non-repeated facts. A parsed value that is not a list, or a failed parse, adds nothing |
| FactMemory.AutoLearnFailureWritesNothing | ai.py:136-162 | Auto-learn leaves the file untouched when the provider raises |
| FactMemory.RepeatedMergeIsStable | ai.py:117-159 | Repeating a remember or auto-learn turn with the same reply changes nothing while the written list fits the window |
| FactMemory.RememberFailureDropsOlderFacts | ai.py:70-125 | With more than 20 stored facts, a failed remember turn rewrites the file with only the last 20 |
| FactMemory.RememberScenario | ai.py:100-125 | A remembered fact is appended after the stored ones |
| FactMemory.RememberScenarioMode | ai.py:100 | "remember my name is Sam" is a remember turn unless the turn also mentions a forget word |
| FactMemory.TrimHistory | ai.py:199-200 | `messages[-limit:]` is the last `min(limit, n)` messages for a positive limit. A limit of 0 keeps all of them, because `-0` is `0` |
| Cache.ExpiryFor | cache_manager.py:70-72 | The expiry is `now + ttl` exactly when the TTL is truthy, none otherwise |
| Cache.Without | cache_manager.py:59 | Deleting a key removes it from the insertion order and nothing else. In an order without repeats, the result is the order with the key's one position cut out, so the rest keep their order |
| Cache.InMemoryCache.constructor | cache_manager.py:49-51 | An empty cache with the given bound |
| Cache.InMemoryCache.Get | cache_manager.py:53-62 | An absent key gives `None` with no change. An expired entry is deleted and gives `None`. A live entry gives its value with no change. An expiry of 0 never expires |
| Cache.InMemoryCache.Set | cache_manager.py:64-75 | When full, evicts the first-inserted key, even when the key being set is present. Then it stores the value and its expiry, and a present key keeps its place. The map never exceeds `max_size`. With `max_size <= 0` the eviction raises and nothing changes |
| Cache.InMemoryCache.Delete | cache_manager.py:77-81 | True exactly when the key was present; only that key goes |
| Cache.InMemoryCache.Clear | cache_manager.py:83-85 | Empties the map and returns true |
| Cache.InMemoryCache.Exists | cache_manager.py:87-88 | True exactly when `get` would return a value, with the same effect on an expired entry |
| Cache.CacheManager.constructor | cache_manager.py:169-170 | The given backend, or a fresh one holding up to 1000 entries |
| Cache.CacheManager.GetCachedOrCompute | cache_manager.py:172-187 | A hit returns the cached value without computing and changes nothing. On a miss, `get` first drops an expired entry. Then a computed value is stored as `set` does: the oldest key is evicted when full, the value goes in with its expiry and the key keeps or takes its place in the order. When `max_size <= 0` makes `set` raise (`None`), the backend stays as `get` left it |
| ChatDir.DescendingOrdered | conversation_manager.py:68 | In a descending listing every later name is smaller than every earlier one |
| ChatDir.DescendingUnique | conversation_manager.py:67-68 | Two descending listings of the same names are equal: the sorted listing is unique |
| ChatDir.ListingExists | conversation_manager.py:67-68 | Every directory has a descending listing of its `.json` names |
| ChatDir.Insert | conversation_manager.py:68 | Inserting a new name into a descending listing keeps it descending and adds exactly that name |
| ChatDir.JsonNamesDescending | storage_backend.py:91-95 | The listing loop gives exactly the `.json` names, each once, in descending order |
| ChatDir.Limit | conversation_manager.py:69-70 | A truthy limit cuts the listing to a prefix of the Python slice length. A limit of 0, like `None`, keeps it whole |
| ChatDir.LimitDescending | conversation_manager.py:69-70 | A cut listing stays descending |
| Conversations.EffectiveMaxChats | conversation_manager.py:101 | A falsy `max_chats` falls back to the default of 10 (config.py:30) |
| Conversations.FirstUserIndex | conversation_manager.py:84-85 | The position of the first message whose role is "user", or none when there is no such message |
| Conversations.ConversationManager.LoadConversation | conversation_manager.py:38-49 | `None` exactly when the file is absent, else the saved messages |
| Conversations.ConversationManager.SaveConversation | conversation_manager.py:26-36 | A later load returns the saved messages, and no other conversation changes |
| Conversations.ConversationManager.DeleteConversation | conversation_manager.py:51-62 | True exactly when the conversation existed; only it is removed |
| Conversations.ConversationManager.ListConversations | conversation_manager.py:64-74 | Only `.json` names, all of them for a falsy limit, newest first, cut to a truthy limit |
| Conversations.ConversationManager.GetConversationPreview | conversation_manager.py:76-97 | "Empty chat" for a missing or empty conversation. Otherwise the first `preview_length` characters of the first user message, or of the first message when none is from the user |
| Conversations.ConversationManager.CleanupOldChats | conversation_manager.py:99-113 | Deletes nothing and returns 0 when the listing is within the limit. Otherwise deletes exactly the names after position `max_chats` of the listing and returns their number |
| Conversations.CleanupKeepsNewest | conversation_manager.py:104-110 | After a cleanup the listing is the newest `max_chats` names, in order, and every deleted name is older than every kept one |
| Conversations.CleanupRemovesOldestOfEleven | conversation_manager.py:99-113 | Eleven conversations under the default limit lose exactly the oldest one |
| Storage.FileStorageBackend.Load | storage_backend.py:65-75 | `None` exactly when the conversation does not exist, else the saved messages |
| Storage.FileStorageBackend.Save | storage_backend.py:54-63 | A later load returns the saved messages |
| Storage.FileStorageBackend.ExistsIffListed | storage_backend.py:103-104 | A `.json` conversation exists exactly when a listing without a limit shows it |
| Storage.FileStorageBackend.Delete | storage_backend.py:77-87 | True exactly when it existed; afterwards `exists` is false, and nothing else changes |
| Storage.FileStorageBackend.List | storage_backend.py:89-101 | Only existing `.json` names, newest first, cut to a truthy limit |
| Storage.DatabaseStorageBackend.Save | storage_backend.py:115-118 | The stub reports failure and changes nothing |
| Storage.DatabaseStorageBackend.Load | storage_backend.py:120-123 | The stub returns `None` |
| Storage.DatabaseStorageBackend.Delete | storage_backend.py:125-128 | The stub returns false |
| Storage.DatabaseStorageBackend.List | storage_backend.py:130-133 | The stub returns `[]` |
| Storage.DatabaseStorageBackend.Exists | storage_backend.py:135-137 | The stub returns false |
| Storage.GetStorageBackend | storage_backend.py:140-152 | Succeeds exactly for file, database or db in any letter case, choosing the file backend only for file. Any other name is the ValueError "Unknown storage backend: " followed by the name |
| ChatHistory.FindChatIndex | lib/chatHistory.ts:55 | The position of the first chat with the id, or none when no chat has it |
| ChatHistory.WithoutChat | lib/chatHistory.ts:82 | Keeps exactly the chats whose id differs |
| ChatHistory.FirstUserIndex | lib/chatHistory.ts:107 | The position of the first user message, or none |
| ChatHistory.ChatStorage.GetAllChats | lib/chatHistory.ts:24-37 | The stored chat array, or `[]` on the server, for a missing item, for text that does not parse and for a value that is not an array |
| ChatHistory.ChatStorage.GetChat | lib/chatHistory.ts:42-45 | The first chat with the id, or null exactly when none has it |
| ChatHistory.ChatStorage.SaveChat | lib/chatHistory.ts:50-72 | On the server nothing changes. Otherwise the stored list becomes the upsert of the chat (replaced in place with `updatedAt` now, or prepended), cut to 100 |
| ChatHistory.ChatStorage.DeleteChat | lib/chatHistory.ts:77-87 | Stores the chats whose id differs |
| ChatHistory.ChatStorage.GenerateTitle | lib/chatHistory.ts:106-113 | "New Chat" without a user message. Otherwise the first 50 characters of the first one, followed by "..." exactly when it was longer |
| ChatHistory.UpsertedBounded | lib/chatHistory.ts:65-66 | The saved list has between 1 and 100 chats |
| ChatHistory.UpsertExisting | lib/chatHistory.ts:55-59 | A present id is replaced at its index, stamped with now, and every other chat keeps its position |
| ChatHistory.UpsertNew | lib/chatHistory.ts:60-63 | A new id goes to index 0 ahead of the chats already stored |
| ChatHistory.SavedChatIsFound | lib/chatHistory.ts:42-68 | After a save, looking the id up finds the chat just saved |
| ChatHistory.WithoutChatAppend | lib/chatHistory.ts:82 | The delete filter distributes over concatenation, so the kept chats keep their relative order |
| ChatHistory.WithoutAbsentChat | lib/chatHistory.ts:82 | Deleting an id no chat has changes nothing |
| MemoryInject.InjectMemoryContext | lib/memory.ts:74-91 | Same length. Unchanged for empty memory, for no messages and for no user message. Otherwise only the first user message changes, to the memory, the separator and its old content |
| MemoryInject.InjectionRecoverable | lib/memory.ts:81-88 | The first user message stays where it was, and its original text follows the memory and the separator |
| MemoryInject.SameRolesSameFirstUser | lib/memory.ts:81 | Lists with the same roles have their first user message in the same place |
| MemoryInject.InjectTwice | lib/memory.ts:83-88 | Injecting twice puts the memory in front twice |
| Validator.ValidateExecutionRequest | server/utils/validator.js:4-25 | `Ok(true)` exactly when every check passes. Otherwise the message of the first failing check, in source order: code, then language, then supported language, then size |
| Validator.ValidationIgnoresCase | server/utils/validator.js:14 | Languages equal up to case are accepted alike |
| Validator.SizeLimitBoundary | server/utils/validator.js:19-20 | 10240 characters are accepted, 10241 are not |
| Validator.SanitizeOutput | server/utils/validator.js:30-42 | Falsy output becomes ""; other output goes through the rewriting |
| CodeBlocks.WordRun | components/ChatMessage.tsx:19 | The greedy `\w*` run is all word characters and stops at the first non-word character or the end |
| CodeBlocks.MatchFound | components/ChatMessage.tsx:19 | A match's newline ends the word run, and its closing fence is the first fence after that newline |
| CodeBlocks.MatchDeterminedByStart | components/ChatMessage.tsx:19 | At most one match starts at any position |
| CodeBlocks.MatchAtCorrect | components/ChatMessage.tsx:19 | Reading the pattern at a position finds a match of it, or none exactly when no match starts there |
| CodeBlocks.NextMatchCorrect | components/ChatMessage.tsx:23 | `regex.exec` from `lastIndex` gives the leftmost match at or after it, or none when no match starts there or later |
| CodeBlocks.ScanValid | components/ChatMessage.tsx:23-36 | The message is cut into text in which no match starts, and matches |
| CodeBlocks.ScanTiles | components/ChatMessage.tsx:23-36 | The segments lie end to end up to the end of the message, with never two texts in a row |
| CodeBlocks.ExtractCodeBlocks | components/ChatMessage.tsx:17-39 | The loop returns, for each match in turn, the text before it (when not empty) and its block, and then the text after the last match (when not empty) |
| CodeBlocks.PartsAreRenderedScan | components/ChatMessage.tsx:17-39 | Those parts are the segments of the scan, each rendered in turn |
| CodeBlocks.ScanCoversMessage | components/ChatMessage.tsx:23-36 | The segments spell out the whole message in order: nothing is lost or repeated |
| CodeBlocks.NoFenceOnlyText | components/ChatMessage.tsx:34-36 | Without any match the result is `[content]`, or `[]` for an empty message |
| CodeBlocks.PartsAreTextOrBlocks | components/ChatMessage.tsx:24-30 | Each part is a non-empty stretch of the message in which no match starts, or a block whose language is its tag (or "javascript" for an empty tag) and whose code is its body after `trim()` |
| CodeBlocks.NoAdjacentText | components/ChatMessage.tsx:24-32 | Two text parts never follow each other |
| CodeBlocks.BlockOf | components/ChatMessage.tsx:28 | A block's language is never empty |
| CodeBlocks.SentLanguage | components/ChatMessage.tsx:57 | "py" is shown and sent as "python"; every other language as it is |
| CodeBlocks.CanRunIgnoresCase | components/ChatMessage.tsx:80 | A language gets a Run button exactly when its lower-cased form does |
| CodeBlocks.RunButtonForServerLanguages | components/ChatMessage.tsx:79-80 | "python" and "javascript" get a Run button and "sql" does not |
| CodeBlocks.RunnableButRejected | components/ChatMessage.tsx:79-80 | "js" and "PY" get a Run button, but the server rejects the language they are sent with, whatever the code |
| CodeBlocks.SentLanguageFixed | components/ChatMessage.tsx:57 | The intended mapping: every runnable language is sent as a name the server supports |
| CodeBlocks.RunnableIsAccepted | components/ChatMessage.tsx:80 | With the intended mapping, a runnable block with code of 1 to 10240 characters passes validation |

## Left out

- The Streamlit UI, sidebar, session state and chat-file handling of `ai.py`, and all React rendering: user interface with no logic to state.
- The provider HTTP calls and the prompts sent with them: the reply is a parameter.
- `json.loads` and `json.dumps`: parsing is an oracle, and stored files are held as parsed values.
- FactMemory.GetMemory: a stored JSON value that is not a list is the payload-free `JOther` and is read as `[]`. Python reads `[]` for a number, a boolean or null, whose `len` raises, and for a dict of more than 20 keys, whose slice raises. It returns any other dict as it is, and a string cut to its last 20 characters.
- FactMemory.MemoryBank.UpdateMemory: after a forget turn has stored a dict or a string, Python starts a later remember or auto-learn turn from that value, as `get_memory` returns it. Any new fact then makes the merge raise. Remember mode writes the value back (ai.py:119-124), and auto-learn mode skips the write (ai.py:156-161). The model starts from `[]` and writes the merged list, because `JOther` does not hold the value.
- FactMemory.MergeShape: facts are compared with Dafny equality, which stands for Python's `==` on parsed JSON values.
- File-system and storage failures (permission errors, a full disk, localStorage quota): the `except` and `catch` paths that only log are not modelled, and saves always succeed.
- `FileCacheBackend`, `invalidate_pattern`, `stats` and `get_cache_manager`: disk files, hashing and module globals outside the in-memory cache.
- Cache.CacheManager.GetCachedOrCompute: a cached value of `None` reads as a miss in Python; the model's values are never `None`.
- `create_chat_id`, `generateId` and `createNewChat`: they only read the clock or a random source to build a record.
- `loadMemory` and `readMemoryFile`: file reads; `MemoryContext` is given.
- MemoryInject.InjectMemoryContext: a message is its role and content; other fields, which the spread keeps, are not modelled.
- Conversations.ConversationManager.GetConversationPreview: the "Error loading preview" path, reached when content is not a string, is not modelled.
- Storage.GetStorageBackend: the keyword arguments passed to the chosen constructor are not modelled; the result names the backend class.
- Validator.SanitizeOutput: the path and token regexes are a parameter; only the falsy case is stated.
- Validator.ValidateExecutionRequest: `code` or `language` of a type other than string is `None`.
- Unicode case mapping and whitespace: `lower()`, `toLowerCase()`, `strip()` and `trim()` are exact on ASCII, and non-ASCII letters and spaces (such as U+00A0) are left as they are. JavaScript lengths count characters, not UTF-16 code units.
- ChatHistory.ChatStorage.GetAllChats: a stored array is a list of chats. An array holding something else, such as `[null]`, is not modelled; `getChat` then throws a TypeError at `chat.id` (lib/chatHistory.ts:44).
- The archive summarisation: no code for it exists beyond a file name.

## Findings

| source | as written | input that shows it | evidently intended | confidence | as-written member | corrected member |
|---|---|---|---|---|---|---|
| components/ChatMessage.tsx:57 | A block is runnable when its lower-cased language is javascript, js, python or py (line 80). Only the exact "py" is renamed to "python" before sending. | A block tagged "js" (or "PY", "Js") shows a Run button; the server rejects "js" and "PY" as unsupported languages | Every runnable short name, in any case, is sent as the server's name: "js" as "javascript", "py" as "python" | not executed | CodeBlocks.RunnableButRejected | CodeBlocks.SentLanguageFixed |
