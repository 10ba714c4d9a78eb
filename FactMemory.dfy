/**
 * The silent fact-memory engine of the Streamlit app: reading the window of
 * recent facts, choosing an update mode from the turn's text, cleaning the
 * provider's reply of a fenced code block, and replacing or merging the fact
 * list before rewriting the memory file.
 *
 * The provider call is a parameter (`reply`, `None` when the call raised),
 * and `json.loads` is an oracle `parse` from text to a parsed value. The memory
 * file is held as its parsed value: writing a list and reading it back gives
 * the same list.
 */
module FactMemory {
  import opened Wrappers
  import opened Text
  import opened Seqs
  import PySlice

  /** The number of most recent facts `get_memory` returns. */
  const WindowSize := 20

  /** A parsed JSON value, as far as the engine looks at it: a list of facts, or anything else. */
  datatype Json<T> = JList(items: seq<T>) | JOther

  /** The memory file: absent, unreadable or not JSON, or holding a JSON value. */
  datatype MemoryFile<T> = Missing | Unreadable | Holds(value: Json<T>)

  datatype Mode = Forget | Remember | AutoLearn

  // ------------------------------------------------------------ get_memory

  /** The stored list, when the file holds one. */
  predicate HoldsList<T>(file: MemoryFile<T>)
  {
    file.Holds? && file.value.JList?
  }

  /**
   * `get_memory`: the last `WindowSize` facts of the stored list, in their
   * stored order; the empty list when there is no file or it cannot be read.
   */
  function GetMemory<T>(file: MemoryFile<T>): (facts: seq<T>)
    ensures |facts| <= WindowSize
    ensures !HoldsList(file) ==> facts == []
    ensures HoldsList(file) ==>
      var xs := file.value.items;
      && |facts| == (if |xs| <= WindowSize then |xs| else WindowSize)
      && xs == xs[..|xs| - |facts|] + facts
  {
    match file
    case Holds(JList(xs)) =>
      if |xs| > WindowSize then PySlice.Drop(xs, -WindowSize) else xs
    case _ => []
  }

  // ------------------------------------------------------- classification

  const ForgetWords: seq<string> := ["forget", "delete", "erase"]
  const RememberWords: seq<string> := ["remember", "new name is", "my name is"]

  predicate MentionsAny(text: string, words: seq<string>)
  {
    exists k :: 0 <= k < |words| && Contains(text, words[k])
  }

  /** The text the mode is decided on: both sides of the turn, lower-cased. */
  function TurnText(userInput: string, aiResponse: string): string
  {
    Lower(userInput + " " + aiResponse)
  }

  /**
   * The update mode: forget when the turn mentions a forget word, otherwise
   * remember when it mentions a remember word, otherwise auto-learn.
   */
  function ClassifyMode(userInput: string, aiResponse: string): (mode: Mode)
    ensures mode == Forget <==> MentionsAny(TurnText(userInput, aiResponse), ForgetWords)
    ensures mode == Remember <==>
      !MentionsAny(TurnText(userInput, aiResponse), ForgetWords)
      && MentionsAny(TurnText(userInput, aiResponse), RememberWords)
  {
    var text := TurnText(userInput, aiResponse);
    assert ForgetWords[0] == "forget" && ForgetWords[1] == "delete" && ForgetWords[2] == "erase";
    assert RememberWords[0] == "remember" && RememberWords[1] == "new name is" && RememberWords[2] == "my name is";
    if Contains(text, "forget") || Contains(text, "delete") || Contains(text, "erase") then
      Forget
    else if Contains(text, "remember") || Contains(text, "new name is") || Contains(text, "my name is") then
      Remember
    else
      AutoLearn
  }

  /** The test is case-insensitive: only the lower-cased turn matters. */
  lemma ClassifyIgnoresCase(u1: string, a1: string, u2: string, a2: string)
    requires Lower(u1) == Lower(u2) && Lower(a1) == Lower(a2)
    ensures ClassifyMode(u1, a1) == ClassifyMode(u2, a2)
  {
    assert Lower(u1 + " " + a1) == Lower(u1) + " " + Lower(a1);
    assert Lower(u2 + " " + a2) == Lower(u2) + " " + Lower(a2);
  }

  /** A word that begins the user's input is found in the turn text. */
  lemma MentionedAtStart(userInput: string, aiResponse: string, word: string)
    requires |word| <= |userInput| && Lower(userInput)[..|word|] == word
    ensures Contains(TurnText(userInput, aiResponse), word)
  {
    var text := TurnText(userInput, aiResponse);
    assert text[..|word|] == Lower(userInput)[..|word|];
    ContainsIff(text, word);
    assert OccursAt(text, word, 0);
  }

  /** Forget is tested first: a turn asking both to forget and to remember forgets. */
  lemma {:induction false} ForgetBeatsRemember(userInput: string, aiResponse: string)
    requires Contains(TurnText(userInput, aiResponse), "forget")
    requires Contains(TurnText(userInput, aiResponse), "remember")
    ensures ClassifyMode(userInput, aiResponse) == Forget
  {
    assert ForgetWords[0] == "forget";
  }

  // --------------------------------------------------------- fence stripping

  const JsonFence := "```json"

  /**
   * `clean.split("```json")[1].split("```")[0]` when the text holds a tagged
   * fence, the text itself otherwise: what forget and remember modes parse.
   */
  function TaggedFenceBody(clean: string): string
  {
    if Contains(clean, JsonFence) then Split(Split(clean, JsonFence)[1], Fence)[0] else clean
  }

  /**
   * What auto-learn mode parses: the body of a tagged fence, else the text
   * between the first two untagged fences, else the text itself.
   */
  function AnyFenceBody(clean: string): string
  {
    if Contains(clean, JsonFence) then Split(Split(clean, JsonFence)[1], Fence)[0]
    else if Contains(clean, Fence) then Split(Split(clean, Fence)[1], Fence)[0]
    else clean
  }

  /** Every "```json" begins with "```". */
  lemma JsonFenceStartsWithFence(s: string, j: nat)
    requires OccursAt(s, JsonFence, j)
    ensures OccursAt(s, Fence, j)
  {
    assert s[j..j + 3] == s[j..j + 7][..3];
  }

  /** Nothing before the first "```" of `rest` holds a "```". */
  lemma NoFenceBeforeFirst(rest: string, n: nat)
    requires n <= |rest|
    requires match IndexOf(rest, Fence) case Some(k) => n <= k case None => true
    ensures !Contains(rest[..n], Fence)
  {
    if Contains(rest[..n], Fence) {
      OccursInPrefix(rest, Fence, n, IndexOf(rest[..n], Fence).value);
    }
  }

  /** A prefix long enough to hold the first "```" finds it at the same place. */
  lemma FirstFenceInPrefix(rest: string, k: nat, n: nat)
    requires IndexOf(rest, Fence) == Some(k) && k + 3 <= n <= |rest|
    ensures IndexOf(rest[..n], Fence) == Some(k)
  {
    assert rest[..n][k..k + 3] == rest[k..k + 3];
    assert OccursAt(rest[..n], Fence, k);
    forall m | 0 <= m < k ensures !OccursAt(rest[..n], Fence, m) {
      if OccursAt(rest[..n], Fence, m) {
        OccursInPrefix(rest, Fence, n, m);
      }
    }
  }

  /** A "```json" starting inside a "```" run means the run has a fourth backtick. */
  lemma OverlappingFences(rest: string, k: nat, j: nat)
    requires OccursAt(rest, Fence, k) && OccursAt(rest, JsonFence, j) && k < j < k + 3
    ensures k + 3 < |rest| && rest[k + 3] == '`'
  {
    assert rest[k + 3] == rest[j..j + 7][k + 3 - j];
  }

  /** The part of `rest` before its first "```json" (`rest.split("```json")[0]`), and where it ends. */
  lemma TaggedPart(rest: string)
    ensures var p := Split(rest, JsonFence)[0];
      && |p| <= |rest| && p == rest[..|p|]
      && (IndexOf(rest, JsonFence).None? ==> p == rest)
      && (IndexOf(rest, JsonFence).Some? ==>
            |p| == IndexOf(rest, JsonFence).value && OccursAt(rest, Fence, |p|))
  {
    SplitHead(rest, JsonFence);
    if IndexOf(rest, JsonFence).Some? {
      JsonFenceStartsWithFence(rest, IndexOf(rest, JsonFence).value);
    }
  }

  /**
   * The tagged-fence body is a prefix of the text after the first "```json"
   * that holds no "```". It ends at the next "```" unless that fence is a run of
   * more than three backticks, or the text after it if there is no "```".
   */
  lemma TaggedFenceBodyIsBetweenFences(clean: string, i: nat)
    requires IndexOf(clean, JsonFence) == Some(i)
    ensures var rest := clean[i + |JsonFence|..];
      var r := TaggedFenceBody(clean);
      && |r| <= |rest| && r == rest[..|r|]
      && !Contains(r, Fence)
      && (IndexOf(rest, Fence).None? ==> r == rest)
      && (IndexOf(rest, Fence).Some? ==>
            var k := IndexOf(rest, Fence).value;
            (k + 3 == |rest| || rest[k + 3] != '`') ==> r == rest[..k])
  {
    SplitSecond(clean, JsonFence, i);
    FenceBodyOfRest(clean[i + |JsonFence|..]);
  }

  /** The text after a tagged fence, cut at the next "```json" and then at the next "```". */
  lemma FenceBodyOfRest(rest: string)
    ensures var r := Split(Split(rest, JsonFence)[0], Fence)[0];
      && |r| <= |rest| && r == rest[..|r|]
      && !Contains(r, Fence)
      && (IndexOf(rest, Fence).None? ==> r == rest)
      && (IndexOf(rest, Fence).Some? ==>
            var k := IndexOf(rest, Fence).value;
            (k + 3 == |rest| || rest[k + 3] != '`') ==> r == rest[..k])
  {
    var p := Split(rest, JsonFence)[0];
    TaggedPart(rest);
    SplitHead(p, Fence);
    var r := Split(p, Fence)[0];
    assert |r| <= |p| && r == p[..|r|];
    PrefixOfPrefix(rest, |p|, |r|);
    if IndexOf(rest, Fence).None? {
      assert p == rest;
    } else {
      var k := IndexOf(rest, Fence).value;
      if k + 3 == |rest| || rest[k + 3] != '`' {
        FenceBodyAtFirstFence(rest, k);
      }
    }
  }

  /** When the first "```" is not followed by another backtick, the body ends at it. */
  lemma FenceBodyAtFirstFence(rest: string, k: nat)
    requires IndexOf(rest, Fence) == Some(k)
    requires k + 3 == |rest| || rest[k + 3] != '`'
    ensures Split(Split(rest, JsonFence)[0], Fence)[0] == rest[..k]
  {
    var p := Split(rest, JsonFence)[0];
    TaggedPart(rest);
    assert p == rest[..|p|];
    if IndexOf(rest, JsonFence).Some? {
      assert OccursAt(rest, Fence, |p|);
    }
    assert k <= |p|;
    if |p| == k {
      NoFenceBeforeFirst(rest, k);
      SplitWithoutSeparator(p, Fence);
    } else {
      if |p| < k + 3 {
        OverlappingFences(rest, k, |p|);
        assert false;
      }
      FirstFenceInPrefix(rest, k, |p|);
      SplitHead(p, Fence);
      PrefixOfPrefix(rest, |p|, k);
    }
  }

  /** Without a tagged fence, auto-learn parses the text strictly between the first two "```". */
  lemma AnyFenceBodyUntagged(clean: string, i: nat)
    requires !Contains(clean, JsonFence) && IndexOf(clean, Fence) == Some(i)
    ensures var rest := clean[i + |Fence|..];
      AnyFenceBody(clean) == match IndexOf(rest, Fence) case Some(k) => rest[..k] case None => rest
  {
    var rest := clean[i + |Fence|..];
    SplitSecond(clean, Fence, i);
    SplitHead(rest, Fence);
    var p := Split(clean, Fence)[1];
    SplitWithoutSeparator(p, Fence);
  }

  // -------------------------------------------------------------- merging

  /**
   * The merge loop of remember and auto-learn modes: each extracted fact, in
   * order, appended unless the list already holds it.
   */
  function Merge<T(==)>(facts: seq<T>, extracted: seq<T>): seq<T>
    decreases |extracted|
  {
    if extracted == [] then facts
    else
      var m := Merge(facts, extracted[..|extracted| - 1]);
      var x := extracted[|extracted| - 1];
      if x in m then m else m + [x]
  }

  /**
   * The old list is a prefix of the merge; what follows it are extracted
   * facts that were not in the old list, none of them twice, in the order of
   * their first extraction; and every extracted fact ends up in the list.
   */
  lemma {:induction false} MergeShape<T>(facts: seq<T>, extracted: seq<T>)
    ensures var m := Merge(facts, extracted);
      && |facts| <= |m| && m[..|facts|] == facts
      && (forall i :: |facts| <= i < |m| ==> m[i] in extracted && m[i] !in facts)
      && Distinct(m[|facts|..])
      && (forall i, j :: |facts| <= i < j < |m| ==> IndexIn(extracted, m[i]) < IndexIn(extracted, m[j]))
      && (forall x :: x in m <==> x in facts || x in extracted)
    decreases |extracted|
  {
    if extracted != [] {
      var init := extracted[..|extracted| - 1];
      MergeShape(facts, init);
      var m := Merge(facts, init);
      var x := extracted[|extracted| - 1];
      assert extracted == init + [x];
      forall y | y in init
        ensures IndexIn(extracted, y) == IndexIn(init, y)
      {
        IndexInExtended(init, [x], y);
      }
      if x !in m {
        assert (m + [x])[|facts|..] == m[|facts|..] + [x];
        assert x !in init;
        assert IndexIn(extracted, x) == |init|;
      }
    }
  }

  /** Without duplicates before, there are none after. */
  lemma MergeKeepsNoDuplicates<T>(facts: seq<T>, extracted: seq<T>)
    requires Distinct(facts)
    ensures Distinct(Merge(facts, extracted))
  {
    MergeShape(facts, extracted);
    var m := Merge(facts, extracted);
    forall i, j | 0 <= i < j < |m| ensures m[i] != m[j] {
      if j >= |facts| && i < |facts| {
        assert m[i] in facts;
      } else if i >= |facts| {
        assert m[|facts|..][i - |facts|] == m[i] && m[|facts|..][j - |facts|] == m[j];
      }
    }
  }

  /** Merging facts the list already holds changes nothing. */
  lemma {:induction false} MergeNothingNew<T>(facts: seq<T>, extracted: seq<T>)
    requires forall x :: x in extracted ==> x in facts
    ensures Merge(facts, extracted) == facts
    decreases |extracted|
  {
    if extracted != [] {
      MergeNothingNew(facts, extracted[..|extracted| - 1]);
    }
  }

  /** Merging the same extraction a second time leaves the list as it is. */
  lemma MergeIdempotent<T>(facts: seq<T>, extracted: seq<T>)
    ensures Merge(Merge(facts, extracted), extracted) == Merge(facts, extracted)
  {
    MergeShape(facts, extracted);
    MergeNothingNew(Merge(facts, extracted), extracted);
  }

  /** `new_facts`: a parsed list as it is, any other parsed value as the empty list. */
  function ListOrEmpty<T>(v: Json<T>): seq<T>
  {
    match v
    case JList(xs) => xs
    case JOther => []
  }

  // ------------------------------------------------------------- the update

  /**
   * The memory file after `update_memory`, the specification of
   * `MemoryBank.UpdateMemory`. Every mode works from the window `get_memory`
   * returns, so any write persists that window rather than the whole list.
   */
  function Updated<T(==)>(file: MemoryFile<T>, mode: Mode, reply: Option<string>,
                          parse: string -> Option<Json<T>>): MemoryFile<T>
  {
    var window := GetMemory(file);
    match mode
    case Forget =>
      if reply.Some? && parse(TaggedFenceBody(Strip(reply.value))).Some? then
        Holds(parse(TaggedFenceBody(Strip(reply.value))).value)
      else
        Holds(JList(window))
    case Remember =>
      if reply.Some? && parse(TaggedFenceBody(Strip(reply.value))).Some? then
        Holds(JList(Merge(window, ListOrEmpty(parse(TaggedFenceBody(Strip(reply.value))).value))))
      else
        Holds(JList(window))
    case AutoLearn =>
      if reply.None? then file
      else
        var parsed := parse(AnyFenceBody(Strip(reply.value)));
        Holds(JList(Merge(window, if parsed.Some? then ListOrEmpty(parsed.value) else [])))
  }

  /** The merge loop of `update_memory`, run on a copy of the list. */
  method AppendMissing<T(==)>(facts: seq<T>, newFacts: seq<T>) returns (updated: seq<T>)
    ensures updated == Merge(facts, newFacts)
  {
    updated := facts;
    var i := 0;
    while i < |newFacts|
      invariant 0 <= i <= |newFacts|
      invariant updated == Merge(facts, newFacts[..i])
    {
      var fact := newFacts[i];
      assert newFacts[..i + 1][..i] == newFacts[..i];
      if fact !in updated {
        updated := updated + [fact];
      }
      i := i + 1;
    }
    assert newFacts[..i] == newFacts;
  }

  /** The memory file and the engine that rewrites it. */
  class MemoryBank<T(==)> {
    var file: MemoryFile<T>

    constructor (initial: MemoryFile<T>)
      ensures file == initial
    {
      file := initial;
    }

    /**
     * `update_memory(user_input, ai_response)` given the provider's reply to
     * the mode's prompt.
     */
    method UpdateMemory(userInput: string, aiResponse: string, reply: Option<string>,
                        parse: string -> Option<Json<T>>)
      modifies this
      ensures file == Updated(old(file), ClassifyMode(userInput, aiResponse), reply, parse)
    {
      var existingFacts := GetMemory(file);
      var mode := ClassifyMode(userInput, aiResponse);
      var updatedMemory := existingFacts;
      if mode == Forget {
        var written: Json<T> := JList(updatedMemory);
        if reply.Some? {
          var clean := Strip(reply.value);
          if Contains(clean, JsonFence) {
            clean := Split(Split(clean, JsonFence)[1], Fence)[0];
          }
          var parsed := parse(clean);
          if parsed.Some? {
            written := parsed.value;
          }
        }
        file := Holds(written);
        return;
      }
      if mode == Remember {
        if reply.Some? {
          var clean := Strip(reply.value);
          if Contains(clean, JsonFence) {
            clean := Split(Split(clean, JsonFence)[1], Fence)[0];
          }
          var parsed := parse(clean);
          if parsed.Some? {
            var newFacts := ListOrEmpty(parsed.value);
            updatedMemory := AppendMissing(updatedMemory, newFacts);
          }
        }
        file := Holds(JList(updatedMemory));
        return;
      }
      if reply.Some? {
        var cleanJson := Strip(reply.value);
        if Contains(cleanJson, JsonFence) {
          cleanJson := Split(Split(cleanJson, JsonFence)[1], Fence)[0];
        } else if Contains(cleanJson, Fence) {
          cleanJson := Split(Split(cleanJson, Fence)[1], Fence)[0];
        }
        var parsed := parse(cleanJson);
        var newFacts := if parsed.Some? then ListOrEmpty(parsed.value) else [];
        updatedMemory := AppendMissing(updatedMemory, newFacts);
        file := Holds(JList(updatedMemory));
      }
    }
  }

  // ------------------------------------------------ properties of the update

  /** When the forget-mode provider call or parse fails, the facts seen afterwards are the facts seen before. */
  lemma ForgetFailureKeepsFacts<T>(file: MemoryFile<T>, reply: Option<string>,
                                       parse: string -> Option<Json<T>>)
    requires reply.None? || parse(TaggedFenceBody(Strip(reply.value))).None?
    ensures GetMemory(Updated(file, Forget, reply, parse)) == GetMemory(file)
    ensures Updated(file, Forget, reply, parse) == Holds(JList(GetMemory(file)))
  {
  }

  /** A successful forget replaces the list wholesale with what the provider returned. */
  lemma ForgetReplaces<T>(file: MemoryFile<T>, reply: string, parse: string -> Option<Json<T>>,
                              kept: seq<T>)
    requires parse(TaggedFenceBody(Strip(reply))) == Some(JList(kept))
    ensures Updated(file, Forget, Some(reply), parse) == Holds(JList(kept))
  {
  }

  /**
   * Remember and auto-learn write the old window followed by the new facts
   * not already in it, with no fact of the window repeated; a parsed value
   * that is not a list adds nothing.
   */
  lemma MergingModesExtendWindow<T>(file: MemoryFile<T>, mode: Mode, reply: string,
                                        parse: string -> Option<Json<T>>)
    requires mode != Forget
    ensures var after := Updated(file, mode, Some(reply), parse);
      var w := GetMemory(file);
      && HoldsList(after)
      && |w| <= |after.value.items| && after.value.items[..|w|] == w
      && (forall i :: |w| <= i < |after.value.items| ==> after.value.items[i] !in w)
      && Distinct(after.value.items[|w|..])
    ensures var parsed := parse(if mode == Remember then TaggedFenceBody(Strip(reply))
                                else AnyFenceBody(Strip(reply)));
      (parsed.None? || parsed.value.JOther?) ==> Updated(file, mode, Some(reply), parse) == Holds(JList(GetMemory(file)))
  {
    var w := GetMemory(file);
    var parsed := parse(if mode == Remember then TaggedFenceBody(Strip(reply))
                        else AnyFenceBody(Strip(reply)));
    var extracted := if parsed.Some? then ListOrEmpty(parsed.value) else [];
    MergeShape(w, extracted);
  }

  /** Auto-learn writes nothing when the provider call raises. */
  lemma AutoLearnFailureWritesNothing<T>(file: MemoryFile<T>, parse: string -> Option<Json<T>>)
    ensures Updated(file, AutoLearn, None, parse) == file
  {
  }

  /**
   * Repeating a remember or auto-learn turn with the same reply changes
   * nothing, as long as the list it wrote fits in the window.
   */
  lemma RepeatedMergeIsStable<T>(file: MemoryFile<T>, mode: Mode, reply: Option<string>,
                                     parse: string -> Option<Json<T>>)
    requires mode != Forget
    requires var after := Updated(file, mode, reply, parse);
      !HoldsList(after) || |after.value.items| <= WindowSize
    ensures Updated(Updated(file, mode, reply, parse), mode, reply, parse) == Updated(file, mode, reply, parse)
  {
    var after := Updated(file, mode, reply, parse);
    if reply.Some? {
      var w := GetMemory(file);
      assert GetMemory(after) == after.value.items;
      if mode == Remember {
        var parsed := parse(TaggedFenceBody(Strip(reply.value)));
        if parsed.Some? {
          MergeIdempotent(w, ListOrEmpty(parsed.value));
        }
      } else {
        var parsed := parse(AnyFenceBody(Strip(reply.value)));
        MergeIdempotent(w, if parsed.Some? then ListOrEmpty(parsed.value) else []);
      }
    }
  }

  /**
   * The window hazard: with more than `WindowSize` facts stored, a remember
   * turn whose provider call fails still rewrites the file, and every fact
   * older than the window is gone from it.
   */
  lemma RememberFailureDropsOlderFacts<T>(xs: seq<T>, parse: string -> Option<Json<T>>)
    requires |xs| > WindowSize
    ensures Updated(Holds(JList(xs)), Remember, None, parse) == Holds(JList(xs[|xs| - WindowSize..]))
    ensures |Updated(Holds(JList(xs)), Remember, None, parse).value.items| < |xs|
  {
  }

  /** A remembered fact is appended to the facts already stored. */
  lemma RememberScenario(reply: string, parse: string -> Option<Json<string>>)
    requires parse(TaggedFenceBody(Strip(reply))) == Some(JList(["Name is Sam"]))
    ensures Updated(Holds(JList(["likes tea"])), Remember, Some(reply), parse)
            == Holds(JList(["likes tea", "Name is Sam"]))
  {
    assert Updated(Holds(JList(["likes tea"])), Remember, Some(reply), parse)
           == Holds(JList(Merge(["likes tea"], ["Name is Sam"])));
    MergeNewFact();
  }

  lemma MergeNewFact()
    ensures Merge(["likes tea"], ["Name is Sam"]) == ["likes tea", "Name is Sam"]
  {
    var extracted := ["Name is Sam"];
    assert extracted[..0] == [];
    assert Merge(["likes tea"], extracted[..0]) == ["likes tea"];
    assert "Name is Sam" != "likes tea" by { assert "Name is Sam"[0] != "likes tea"[0]; }
  }

  /** The first user message of the remember scenario above is classified as remember. */
  lemma RememberScenarioMode(aiResponse: string)
    requires !MentionsAny(TurnText("remember my name is Sam", aiResponse), ForgetWords)
    ensures ClassifyMode("remember my name is Sam", aiResponse) == Remember
  {
    MentionedAtStart("remember my name is Sam", aiResponse, "remember");
    assert RememberWords[0] == "remember";
  }

  // ---------------------------------------------------------- trim_history

  /**
   * `trim_history(messages, limit)`, that is `messages[-limit:]`: the last
   * `limit` messages for a positive limit; but `-0` is `0` in Python, so a
   * limit of 0 keeps every message.
   */
  function TrimHistory<T>(messages: seq<T>, limit: int): (r: seq<T>)
    ensures |r| <= |messages| && r == messages[|messages| - |r|..]
    ensures limit > 0 ==> |r| == (if limit <= |messages| then limit else |messages|)
    ensures limit == 0 ==> r == messages
  {
    PySlice.Drop(messages, -limit)
  }
}
