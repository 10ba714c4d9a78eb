/**
 * Splitting a chat message into text and fenced code blocks, as the message
 * view does with the global pattern ```` ```(\w*)\n([\s\S]*?)``` ````, and the
 * decision whether a block gets a Run button and what language it is sent as.
 */
module CodeBlocks {
  import opened Wrappers
  import opened Text
  import Validator
  import opened Seqs

  /** `\w`: an ASCII letter, digit or underscore. */
  predicate IsWordChar(c: char)
  {
    ('a' <= c <= 'z') || ('A' <= c <= 'Z') || ('0' <= c <= '9') || c == '_'
  }

  /** Where the run of word characters starting at `i` ends (greedy `\w*`). */
  function WordEnd(s: string, i: nat): (j: nat)
    requires i <= |s|
    ensures i <= j <= |s|
    decreases |s| - i
  {
    if i < |s| && IsWordChar(s[i]) then WordEnd(s, i + 1) else i
  }

  /** The run is all word characters, and the character after it is not one. */
  lemma {:induction false} WordRun(s: string, i: nat)
    requires i <= |s|
    ensures forall k :: i <= k < WordEnd(s, i) ==> IsWordChar(s[k])
    ensures WordEnd(s, i) == |s| || !IsWordChar(s[WordEnd(s, i)])
    decreases |s| - i
  {
    if i < |s| && IsWordChar(s[i]) {
      WordRun(s, i + 1);
    }
  }

  /**
   * A match of the pattern: the opening fence at `start`, the language tag up
   * to the newline at `newline`, the body up to the closing fence at `close`.
   */
  datatype Match = Match(start: nat, newline: nat, close: nat)

  /** `match.index + match[0].length` */
  function MatchEnd(m: Match): nat
  {
    m.close + |Fence|
  }

  /**
   * What it means for `m` to be a match in `s`: a fence, word characters, a
   * newline, and the body running to the first fence after the newline
   * (the lazy `[\s\S]*?`).
   */
  predicate IsMatch(s: string, m: Match)
  {
    && m.start + 3 <= m.newline < m.close
    && OccursAt(s, Fence, m.start)
    && OccursAt(s, Fence, m.close)
    && (forall k :: m.start + 3 <= k < m.newline ==> IsWordChar(s[k]))
    && s[m.newline] == '\n'
    && (forall k :: m.newline < k < m.close ==> !OccursAt(s, Fence, k))
  }

  /**
   * A match is found by reading the pattern left to right: its newline is where
   * the word run after the opening fence ends, and its closing fence is the
   * first fence after that newline.
   */
  lemma MatchFound(s: string, m: Match)
    requires IsMatch(s, m)
    ensures m.newline == WordEnd(s, m.start + 3)
    ensures IndexFrom(s, Fence, m.newline + 1) == Some(m.close)
  {
    var j := WordEnd(s, m.start + 3);
    WordRun(s, m.start + 3);
    assert !IsWordChar(s[m.newline]);
    assert j == |s| || !IsWordChar(s[j]);
  }

  /** A match is fixed by where it starts: there is no choice in the pattern's greedy and lazy parts. */
  lemma MatchDeterminedByStart(s: string, m1: Match, m2: Match)
    requires IsMatch(s, m1) && IsMatch(s, m2) && m1.start == m2.start
    ensures m1 == m2
  {
    MatchFound(s, m1);
    MatchFound(s, m2);
  }

  /** The positions of a match lie in order within `s`. */
  predicate WellPlaced(s: string, m: Match)
  {
    m.start + 3 <= m.newline < m.close && m.close + 3 <= |s|
  }

  /** The match of the pattern that starts exactly at `i`, if any. */
  function MatchAt(s: string, i: nat): (r: Option<Match>)
    requires i <= |s|
    ensures r.Some? ==> r.value.start == i && WellPlaced(s, r.value)
  {
    if !OccursAt(s, Fence, i) then None
    else
      var j := WordEnd(s, i + 3);
      if j < |s| && s[j] == '\n' then
        match IndexFrom(s, Fence, j + 1)
        case Some(k) => Some(Match(i, j, k))
        case None => None
      else None
  }

  /** `MatchAt` finds a match exactly when one starts at `i`. */
  lemma MatchAtCorrect(s: string, i: nat)
    requires i <= |s|
    ensures MatchAt(s, i).Some? ==> IsMatch(s, MatchAt(s, i).value)
    ensures MatchAt(s, i).None? ==> forall m: Match :: m.start == i ==> !IsMatch(s, m)
  {
    if MatchAt(s, i).None? {
      forall m: Match | m.start == i
        ensures !IsMatch(s, m)
      {
        if IsMatch(s, m) {
          MatchFound(s, m);
        }
      }
    } else {
      var m := MatchAt(s, i).value;
      WordRun(s, i + 3);
    }
  }

  /** `regex.exec(content)` with `regex.lastIndex == from`: the leftmost match starting at or after `from`. */
  function NextMatch(s: string, from: nat): (r: Option<Match>)
    requires from <= |s|
    ensures r.Some? ==> from <= r.value.start && WellPlaced(s, r.value)
    decreases |s| - from
  {
    match MatchAt(s, from)
    case Some(m) => Some(m)
    case None => if from < |s| then NextMatch(s, from + 1) else None
  }

  /**
   * `NextMatch` is the leftmost match at or after `from`, and finds none exactly
   * when no match starts at or after `from`.
   */
  lemma {:induction false} NextMatchCorrect(s: string, from: nat)
    requires from <= |s|
    ensures var r := NextMatch(s, from);
      && (r.Some? ==> IsMatch(s, r.value))
      && (r.Some? ==> forall m: Match :: from <= m.start < r.value.start ==> !IsMatch(s, m))
      && (r.None? ==> forall m: Match :: from <= m.start ==> !IsMatch(s, m))
    decreases |s| - from
  {
    MatchAtCorrect(s, from);
    if MatchAt(s, from).None? {
      if from < |s| {
        NextMatchCorrect(s, from + 1);
      } else {
        forall m: Match | from <= m.start
          ensures !IsMatch(s, m)
        {
        }
      }
    }
  }

  datatype CodeBlock = CodeBlock(language: string, code: string)

  /** An element of `extractCodeBlocks`' result: a string or a code block. */
  datatype Part = TextPart(text: string) | BlockPart(block: CodeBlock)

  /** A stretch of the message: plain text between `lo` and `hi`, or a match. */
  datatype Segment = Gap(lo: nat, hi: nat) | Fenced(m: Match)

  function SegStart(g: Segment): nat
  {
    match g
    case Gap(lo, _) => lo
    case Fenced(m) => m.start
  }

  function SegEnd(g: Segment): nat
  {
    match g
    case Gap(_, hi) => hi
    case Fenced(m) => MatchEnd(m)
  }

  /** The positions of a segment lie within `s`, in order. */
  predicate InBounds(s: string, g: Segment)
  {
    if g.Gap? then g.lo <= g.hi <= |s|
    else WellPlaced(s, g.m)
  }

  /** A gap holds text and no match starts inside it; a fenced segment is a match. */
  ghost predicate ValidSegment(s: string, g: Segment)
  {
    if g.Gap? then g.lo < g.hi <= |s| && NoMatchStarts(s, g.lo, g.hi)
    else IsMatch(s, g.m)
  }

  /** No match of the pattern starts at a position in `[lo, hi)`. */
  ghost predicate NoMatchStarts(s: string, lo: nat, hi: nat)
  {
    forall m: Match :: lo <= m.start < hi ==> !IsMatch(s, m)
  }

  /** The segments lie end to end, from `from` to `to`, and never two gaps in a row. */
  predicate Tiles(segs: seq<Segment>, from: nat, to: nat)
    decreases |segs|
  {
    if segs == [] then from == to
    else
      && SegStart(segs[0]) == from
      && from < SegEnd(segs[0]) <= to
      && (|segs| > 1 && segs[0].Gap? ==> segs[1].Fenced?)
      && Tiles(segs[1..], SegEnd(segs[0]), to)
  }

  /** How the loop cuts the message from `from` on into text and matches. */
  function Scan(s: string, from: nat): (segs: seq<Segment>)
    requires from <= |s|
    ensures forall i :: 0 <= i < |segs| ==> InBounds(s, segs[i])
    decreases |s| - from
  {
    match NextMatch(s, from)
    case None => if from < |s| then [Gap(from, |s|)] else []
    case Some(m) =>
      var here := [Fenced(m)] + Scan(s, MatchEnd(m));
      if m.start > from then [Gap(from, m.start)] + here else here
  }

  /** The scan cuts the message into valid segments: text in which no match starts, and matches. */
  lemma {:induction false} ScanValid(s: string, from: nat)
    requires from <= |s|
    ensures forall i :: 0 <= i < |Scan(s, from)| ==> ValidSegment(s, Scan(s, from)[i])
    decreases |s| - from
  {
    NextMatchCorrect(s, from);
    match NextMatch(s, from)
    case None =>
    case Some(m) =>
      var rest := Scan(s, MatchEnd(m));
      ScanValid(s, MatchEnd(m));
      var here := [Fenced(m)] + rest;
      assert forall i :: 0 < i < |here| ==> here[i] == rest[i - 1];
      if m.start > from {
        var all := [Gap(from, m.start)] + here;
        assert forall i :: 0 < i < |all| ==> all[i] == here[i - 1];
      }
  }

  /** The segments of the scan lie end to end up to the end of the message, never two texts in a row. */
  lemma {:induction false} ScanTiles(s: string, from: nat)
    requires from <= |s|
    ensures Tiles(Scan(s, from), from, |s|)
    decreases |s| - from
  {
    match NextMatch(s, from)
    case None =>
    case Some(m) =>
      var rest := Scan(s, MatchEnd(m));
      ScanTiles(s, MatchEnd(m));
      var here := [Fenced(m)] + rest;
      assert here[1..] == rest;
      assert Tiles(here, m.start, |s|);
      if m.start > from {
        assert ([Gap(from, m.start)] + here)[1..] == here;
      }
  }

  /** The code block a match yields: the tag or "javascript", and the trimmed body. */
  function BlockOf(s: string, m: Match): (b: CodeBlock)
    requires WellPlaced(s, m)
    ensures b.language != ""
  {
    var tag := s[m.start + 3..m.newline];
    CodeBlock(if tag == "" then "javascript" else tag, Trim(s[m.newline + 1..m.close]))
  }

  function Render(s: string, g: Segment): Part
    requires InBounds(s, g)
  {
    match g
    case Gap(lo, hi) => TextPart(s[lo..hi])
    case Fenced(m) => BlockPart(BlockOf(s, m))
  }

  function RenderAll(s: string, segs: seq<Segment>): (parts: seq<Part>)
    requires forall i :: 0 <= i < |segs| ==> InBounds(s, segs[i])
    ensures |parts| == |segs|
    decreases |segs|
  {
    if segs == [] then [] else [Render(s, segs[0])] + RenderAll(s, segs[1..])
  }

  /** Each segment is rendered into the part at its own position. */
  lemma {:induction false} RenderAllAt(s: string, segs: seq<Segment>, i: nat)
    requires forall k :: 0 <= k < |segs| ==> InBounds(s, segs[k])
    requires i < |segs|
    ensures RenderAll(s, segs)[i] == Render(s, segs[i])
    decreases i
  {
    if i > 0 {
      RenderAllAt(s, segs[1..], i - 1);
    }
  }

  /**
   * What `extractCodeBlocks` returns for the message after `from`: the text
   * before the next match, if any, its block, and the parts after it; or the
   * rest of the text when no match follows.
   */
  function PartsFrom(s: string, from: nat): seq<Part>
    requires from <= |s|
    decreases |s| - from
  {
    match NextMatch(s, from)
    case None => if from < |s| then [TextPart(s[from..])] else []
    case Some(m) =>
      var here := [BlockPart(BlockOf(s, m))] + PartsFrom(s, MatchEnd(m));
      if m.start > from then [TextPart(s[from..m.start])] + here else here
  }

  /** What `extractCodeBlocks(content)` returns. */
  function Parts(content: string): seq<Part>
  {
    PartsFrom(content, 0)
  }

  /** Rendering a segment in front of others puts its part in front of theirs. */
  lemma RenderAllCons(s: string, g: Segment, rest: seq<Segment>)
    requires InBounds(s, g)
    requires forall i :: 0 <= i < |rest| ==> InBounds(s, rest[i])
    ensures forall i :: 0 <= i < |[g] + rest| ==> InBounds(s, ([g] + rest)[i])
    ensures RenderAll(s, [g] + rest) == [Render(s, g)] + RenderAll(s, rest)
  {
    assert ([g] + rest)[1..] == rest;
  }

  /** The last step of the scan: the text after the last match, if any. */
  lemma ScanLast(s: string, from: nat)
    requires from <= |s| && NextMatch(s, from).None?
    ensures RenderAll(s, Scan(s, from)) == (if from < |s| then [TextPart(s[from..])] else [])
  {
    if from < |s| {
      assert Scan(s, from) == [Gap(from, |s|)];
      assert s[from..|s|] == s[from..];
    }
  }

  /** After the last match: the rest of the text, if any. */
  lemma PartsFromLast(s: string, from: nat)
    requires from <= |s| && NextMatch(s, from).None?
    ensures PartsFrom(s, from) == (if from < |s| then [TextPart(s[from..])] else [])
  {
  }

  /** The loop's invariant survives one turn: the parts pushed so far, then the parts still to come. */
  lemma LoopStep(s: string, whole: seq<Part>, done: seq<Part>, pushed: seq<Part>, from: nat, m: Match)
    requires from <= |s| && NextMatch(s, from) == Some(m)
    requires done + PartsFrom(s, from) == whole
    requires pushed == if m.start > from
      then done + [TextPart(s[from..m.start])] + [BlockPart(BlockOf(s, m))]
      else done + [BlockPart(BlockOf(s, m))]
    ensures pushed + PartsFrom(s, MatchEnd(m)) == whole
  {
    var block := [BlockPart(BlockOf(s, m))];
    var rest := PartsFrom(s, MatchEnd(m));
    if m.start > from {
      var text := [TextPart(s[from..m.start])];
      assert PartsFrom(s, from) == text + (block + rest);
      Regroup(done, text, block + rest);
      Regroup(done + text, block, rest);
    } else {
      assert PartsFrom(s, from) == block + rest;
      Regroup(done, block, rest);
    }
  }

  /** `extractCodeBlocks(content)` */
  method ExtractCodeBlocks(content: string) returns (parts: seq<Part>)
    ensures parts == Parts(content)
  {
    parts := [];
    var lastIndex := 0;
    var found := NextMatch(content, lastIndex);
    while found.Some?
      invariant lastIndex <= |content|
      invariant found == NextMatch(content, lastIndex)
      invariant parts + PartsFrom(content, lastIndex) == Parts(content)
      decreases |content| - lastIndex
    {
      var m := found.value;
      ghost var done := parts;
      if m.start > lastIndex {
        parts := parts + [TextPart(content[lastIndex..m.start])];
      }
      parts := parts + [BlockPart(BlockOf(content, m))];
      LoopStep(content, Parts(content), done, parts, lastIndex, m);
      lastIndex := MatchEnd(m);
      found := NextMatch(content, lastIndex);
    }
    PartsFromLast(content, lastIndex);
    if lastIndex < |content| {
      parts := parts + [TextPart(content[lastIndex..])];
    }
  }

  /** The parts are the segments of the scan, each rendered in turn. */
  lemma {:induction false} PartsAreRenderedScan(s: string, from: nat)
    requires from <= |s|
    ensures PartsFrom(s, from) == RenderAll(s, Scan(s, from))
    decreases |s| - from
  {
    match NextMatch(s, from)
    case None => ScanLast(s, from);
    case Some(m) =>
      var rest := Scan(s, MatchEnd(m));
      PartsAreRenderedScan(s, MatchEnd(m));
      RenderAllCons(s, Fenced(m), rest);
      if m.start > from {
        RenderAllCons(s, Gap(from, m.start), [Fenced(m)] + rest);
      }
  }

  // -------------------------------------------------- properties of the parts

  /** The text the segments cover, read back from the message. */
  function Spelled(s: string, segs: seq<Segment>, from: nat): string
    requires from <= |s| && Tiles(segs, from, |s|)
    decreases |segs|
  {
    if segs == [] then "" else s[from..SegEnd(segs[0])] + Spelled(s, segs[1..], SegEnd(segs[0]))
  }

  /** Nothing of the message is lost or repeated: the segments spell it out in order. */
  lemma {:induction false} ScanCoversMessage(s: string, segs: seq<Segment>, from: nat)
    requires from <= |s| && Tiles(segs, from, |s|)
    ensures Spelled(s, segs, from) == s[from..]
    decreases |segs|
  {
    if segs != [] {
      ScanCoversMessage(s, segs[1..], SegEnd(segs[0]));
      assert s[from..SegEnd(segs[0])] + s[SegEnd(segs[0])..] == s[from..];
    }
  }

  /** A message in which the pattern never matches comes back as one string, or nothing when empty. */
  lemma NoFenceOnlyText(content: string)
    requires forall m: Match :: !IsMatch(content, m)
    ensures Parts(content) == (if content == "" then [] else [TextPart(content)])
  {
    NextMatchCorrect(content, 0);
    assert NextMatch(content, 0).None?;
  }

  /**
   * `p` is what segment `g` of `s` shows: a non-empty stretch of text read
   * straight from the message, in which no match starts, or the block of a
   * match: its tag (or "javascript" when the tag is empty) and its trimmed body.
   */
  ghost predicate ShowsSegment(s: string, g: Segment, p: Part)
  {
    && (g.Gap? ==>
          && g.lo < g.hi <= |s|
          && p == TextPart(s[g.lo..g.hi])
          && NoMatchStarts(s, g.lo, g.hi))
    && (g.Fenced? ==>
          var m := g.m;
          && IsMatch(s, m)
          && var tag := s[m.start + 3..m.newline];
          && p.BlockPart?
          && p.block.language == (if tag == "" then "javascript" else tag)
          && p.block.code == Trim(s[m.newline + 1..m.close]))
  }

  /** Each part shows its segment of the scan: text, or the block of a match. */
  lemma PartsAreTextOrBlocks(content: string, i: nat)
    requires i < |Scan(content, 0)|
    ensures |Parts(content)| == |Scan(content, 0)|
    ensures ShowsSegment(content, Scan(content, 0)[i], Parts(content)[i])
  {
    PartAt(content, i);
    RenderedSegment(content, Scan(content, 0)[i], Parts(content)[i]);
  }

  /** The part at position `i` is the rendering of the segment at `i`, which is valid. */
  lemma PartAt(content: string, i: nat)
    requires i < |Scan(content, 0)|
    ensures |Parts(content)| == |Scan(content, 0)|
    ensures InBounds(content, Scan(content, 0)[i]) && ValidSegment(content, Scan(content, 0)[i])
    ensures Parts(content)[i] == Render(content, Scan(content, 0)[i])
  {
    var segs := Scan(content, 0);
    PartsAreRenderedScan(content, 0);
    ScanValid(content, 0);
    RenderAllAt(content, segs, i);
  }

  /** A valid segment shows as its rendering. */
  lemma RenderedSegment(s: string, g: Segment, p: Part)
    requires InBounds(s, g) && ValidSegment(s, g) && p == Render(s, g)
    ensures ShowsSegment(s, g, p)
  {
  }

  /** Two text parts never follow each other: between any two there is a block. */
  lemma {:induction false} NoAdjacentText(segs: seq<Segment>, from: nat, to: nat, i: nat)
    requires Tiles(segs, from, to) && i + 1 < |segs| && segs[i].Gap?
    ensures segs[i + 1].Fenced?
    decreases i
  {
    if i > 0 {
      NoAdjacentText(segs[1..], SegEnd(segs[0]), to, i - 1);
    }
  }

  // ----------------------------------------------- running a block's code

  /** The language shown on the block and sent for execution: "py" is renamed "python". */
  function SentLanguage(language: string): (sent: string)
    ensures language == "py" ==> sent == "python"
    ensures language != "py" ==> sent == language
  {
    if language == "py" then "python" else language
  }

  const RunnableLanguages := ["javascript", "js", "python", "py"]

  /** Whether the block shows a Run button: its language, lower-cased, is one of four names. */
  predicate CanRun(language: string)
  {
    Lower(language) in RunnableLanguages
  }

  /** The Run button depends only on the lower-cased language. */
  lemma CanRunIgnoresCase(language: string)
    ensures CanRun(language) <==> CanRun(Lower(language))
  {
    LowerIdempotent(language);
  }

  /** Of the languages the server runs, python and javascript show a Run button and sql does not. */
  lemma RunButtonForServerLanguages()
    ensures CanRun("python") && CanRun("javascript") && !CanRun("sql")
  {
    assert Lower("python") == "python" && Lower("javascript") == "javascript" && Lower("sql") == "sql";
    assert RunnableLanguages[0] == "javascript" && RunnableLanguages[2] == "python";
  }

  /**
   * As written, a block tagged "js" (or "JS", "PY", ...) gets a Run button, but
   * the language it is sent with is rejected by the execution server whatever
   * the code.
   */
  lemma RunnableButRejected(code: string)
    ensures CanRun("js") && CanRun("PY")
    ensures Validator.ValidateExecutionRequest(Some(code), Some(SentLanguage("js"))).Err?
    ensures Validator.ValidateExecutionRequest(Some(code), Some(SentLanguage("PY"))).Err?
  {
    assert Lower("js") == "js";
    assert Lower("PY") == "py";
    assert RunnableLanguages[1] == "js" && RunnableLanguages[3] == "py";
  }

  /** The intended mapping: the two short names, in any case, become the server's names. */
  function SentLanguageFixed(language: string): (sent: string)
    ensures CanRun(language) ==> Lower(sent) in Validator.SupportedLanguages
  {
    var l := Lower(language);
    assert Lower("python") == "python" && Lower("javascript") == "javascript";
    if l == "py" then "python"
    else if l == "js" then "javascript"
    else language
  }

  /** With the intended mapping, every block that shows a Run button passes the language check. */
  lemma RunnableIsAccepted(code: string, language: string)
    requires CanRun(language) && code != "" && |code| <= Validator.MaxCodeSize
    ensures Validator.ValidateExecutionRequest(Some(code), Some(SentLanguageFixed(language))) == Ok(true)
  {
  }
}
