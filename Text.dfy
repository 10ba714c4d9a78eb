/**
 * String helpers shared by the Python and the TypeScript parts of the model:
 * ASCII lower-casing, whitespace stripping, substring search, Python's
 * `str.split` with a separator, and the code-point order Python and
 * JavaScript use to compare strings.
 */
module Text {
  import opened Wrappers

  // ---------------------------------------------------------------- case

  function LowerChar(c: char): char
  {
    if 'A' <= c <= 'Z' then (c as int + 32) as char else c
  }

  /** `s.lower()` / `s.toLowerCase()`, restricted to ASCII letters. */
  function Lower(s: string): (r: string)
    ensures |r| == |s|
    ensures forall i :: 0 <= i < |s| ==> r[i] == LowerChar(s[i])
  {
    seq(|s|, i requires 0 <= i < |s| => LowerChar(s[i]))
  }

  /** Lower-casing twice is lower-casing once. */
  lemma LowerIdempotent(s: string)
    ensures Lower(Lower(s)) == Lower(s)
  {
  }

  // ---------------------------------------------------------- whitespace

  /** Whose whitespace a trim removes: Python's `str.strip()` or JavaScript's `trim()`. */
  datatype Whitespace = PythonSpace | JavaScriptSpace

  /**
   * ASCII whitespace. Both languages count tab, line feed, vertical tab, form
   * feed, carriage return and space; Python's `str.isspace` also counts the
   * separators 0x1C to 0x1F, which JavaScript's `trim()` keeps.
   */
  predicate IsSpace(w: Whitespace, c: char)
  {
    || c == ' ' || c == '\t' || c == '\n' || c == '\r' || c == '\U{000B}' || c == '\U{000C}'
    || (w == PythonSpace && '\U{001C}' <= c <= '\U{001F}')
  }

  function TrimStart(w: Whitespace, s: string): (r: string)
    ensures |r| <= |s| && r == s[|s| - |r|..]
    ensures r == [] || !IsSpace(w, r[0])
    ensures forall i :: 0 <= i < |s| - |r| ==> IsSpace(w, s[i])
  {
    if |s| > 0 && IsSpace(w, s[0]) then TrimStart(w, s[1..]) else s
  }

  function TrimEnd(w: Whitespace, s: string): (r: string)
    ensures |r| <= |s| && r == s[..|r|]
    ensures r == [] || !IsSpace(w, r[|r| - 1])
    ensures forall i :: |r| <= i < |s| ==> IsSpace(w, s[i])
  {
    if |s| > 0 && IsSpace(w, s[|s| - 1]) then TrimEnd(w, s[..|s| - 1]) else s
  }

  /** The number of whitespace characters a trim cuts from the front of `s`. */
  function LeadingSpaces(w: Whitespace, s: string): nat
  {
    |s| - |TrimStart(w, s)|
  }

  /** Whitespace cut from both ends. */
  function Trimmed(w: Whitespace, s: string): string
  {
    TrimEnd(w, TrimStart(w, s))
  }

  /** `s.strip()` */
  function Strip(s: string): string
  {
    Trimmed(PythonSpace, s)
  }

  /** `s.trim()` */
  function Trim(s: string): string
  {
    Trimmed(JavaScriptSpace, s)
  }

  /**
   * A trim yields the longest slice of `s` that neither starts nor ends with
   * whitespace, with only whitespace cut away on either side.
   */
  lemma TrimmedShape(w: Whitespace, s: string)
    ensures var r := Trimmed(w, s);
      && LeadingSpaces(w, s) + |r| <= |s|
      && r == s[LeadingSpaces(w, s)..LeadingSpaces(w, s) + |r|]
      && (forall k :: 0 <= k < LeadingSpaces(w, s) ==> IsSpace(w, s[k]))
      && (forall k :: LeadingSpaces(w, s) + |r| <= k < |s| ==> IsSpace(w, s[k]))
      && (r == [] || (!IsSpace(w, r[0]) && !IsSpace(w, r[|r| - 1])))
  {
    var t := TrimStart(w, s);
    assert t == s[LeadingSpaces(w, s)..];
  }

  /** The two trims differ on the separators 0x1C to 0x1F: `strip()` removes them and `trim()` keeps them. */
  lemma StripVersusTrim()
    ensures Strip("\U{001C}x") == "x"
    ensures Trim("\U{001C}x") == "\U{001C}x"
  {
    var s := "\U{001C}x";
    assert |s| == 2 && s[0] == '\U{001C}' && s[1] == 'x' && s[1..] == "x" && s[..1] == "\U{001C}";
    assert IsSpace(PythonSpace, s[0]) && !IsSpace(PythonSpace, 'x');
    assert TrimStart(PythonSpace, "x") == "x" && TrimEnd(PythonSpace, "x") == "x";
    assert TrimStart(PythonSpace, s) == "x";
    assert !IsSpace(JavaScriptSpace, s[0]) && !IsSpace(JavaScriptSpace, s[1]);
    assert TrimStart(JavaScriptSpace, s) == s && TrimEnd(JavaScriptSpace, s) == s;
  }

  // ------------------------------------------------------------ search

  /** The three backticks that open and close a Markdown code fence. */
  const Fence := "```"

  /** `pat` occurs in `s` starting at position `i`. */
  predicate OccursAt(s: string, pat: string, i: nat)
  {
    i + |pat| <= |s| && s[i..i + |pat|] == pat
  }

  /** The first occurrence of `pat` in `s` at or after `from` (`s.find(pat, from)`). */
  function IndexFrom(s: string, pat: string, from: nat): (r: Option<nat>)
    requires from <= |s|
    ensures r.Some? ==> from <= r.value && OccursAt(s, pat, r.value)
    ensures r.Some? ==> forall j :: from <= j < r.value ==> !OccursAt(s, pat, j)
    ensures r.None? ==> forall j :: from <= j <= |s| ==> !OccursAt(s, pat, j)
    decreases |s| - from
  {
    if from + |pat| > |s| then None
    else if s[from..from + |pat|] == pat then Some(from)
    else if from == |s| then None
    else IndexFrom(s, pat, from + 1)
  }

  function IndexOf(s: string, pat: string): Option<nat>
  {
    IndexFrom(s, pat, 0)
  }

  /** `pat in s` */
  predicate Contains(s: string, pat: string)
  {
    IndexOf(s, pat).Some?
  }

  /** An occurrence inside a prefix of `s` is an occurrence in `s`. */
  lemma OccursInPrefix(s: string, pat: string, n: nat, j: nat)
    requires n <= |s| && OccursAt(s[..n], pat, j)
    ensures OccursAt(s, pat, j)
  {
    assert s[..n][j..j + |pat|] == s[j..j + |pat|];
  }

  /** `Contains` holds exactly when `pat` occurs somewhere in `s`. */
  lemma ContainsIff(s: string, pat: string)
    ensures Contains(s, pat) <==> exists j :: 0 <= j <= |s| && OccursAt(s, pat, j)
  {
    if Contains(s, pat) {
      assert OccursAt(s, pat, IndexOf(s, pat).value);
    }
  }

  // ------------------------------------------------------------- split

  /** Python's `s.split(sep)` for a non-empty separator. */
  function Split(s: string, sep: string): (parts: seq<string>)
    requires sep != []
    ensures |parts| >= 1
    ensures Contains(s, sep) ==> |parts| >= 2
    ensures forall k :: 0 <= k < |parts| ==> !Contains(parts[k], sep)
    decreases |s|
  {
    match IndexOf(s, sep)
    case None => [s]
    case Some(i) =>
      var head := s[..i];
      assert !Contains(head, sep) by {
        if Contains(head, sep) {
          var j := IndexOf(head, sep).value;
          OccursInPrefix(s, sep, i, j);
        }
      }
      [head] + Split(s[i + |sep|..], sep)
  }

  /** `sep.join(parts)` */
  function Join(parts: seq<string>, sep: string): string
  {
    if |parts| == 0 then ""
    else if |parts| == 1 then parts[0]
    else parts[0] + sep + Join(parts[1..], sep)
  }

  /** Splitting and joining back with the same separator is the identity. */
  lemma {:induction false} SplitJoin(s: string, sep: string)
    requires sep != []
    ensures Join(Split(s, sep), sep) == s
    decreases |s|
  {
    match IndexOf(s, sep)
    case None =>
    case Some(i) =>
      var rest := s[i + |sep|..];
      SplitJoin(rest, sep);
      assert Split(s, sep) == [s[..i]] + Split(rest, sep);
      assert s == s[..i] + sep + rest;
  }

  /** A string with no separator in it splits into itself alone. */
  lemma SplitWithoutSeparator(s: string, sep: string)
    requires sep != [] && !Contains(s, sep)
    ensures Split(s, sep) == [s]
  {
  }

  /** The first part of a split is the text before the first separator. */
  lemma SplitHead(s: string, sep: string)
    requires sep != []
    ensures Split(s, sep)[0] == match IndexOf(s, sep) case Some(i) => s[..i] case None => s
  {
  }

  /** The second part of a split is the text between the first and the second separator. */
  lemma SplitSecond(s: string, sep: string, i: nat)
    requires sep != [] && IndexOf(s, sep) == Some(i)
    ensures Split(s, sep)[1] == Split(s[i + |sep|..], sep)[0]
  {
  }

  // --------------------------------------------------------- suffixes

  /** `s.endswith(suffix)` / `s.endsWith(suffix)` */
  predicate EndsWith(s: string, suffix: string)
  {
    |suffix| <= |s| && s[|s| - |suffix|..] == suffix
  }

  // -------------------------------------------------------------- order

  /**
   * Python's `a < b` on strings: lexicographic on code points, a proper
   * prefix being smaller.
   */
  predicate Less(a: string, b: string)
    decreases |a|
  {
    if a == [] then b != []
    else if b == [] then false
    else if a[0] != b[0] then a[0] < b[0]
    else Less(a[1..], b[1..])
  }

  lemma {:induction false} LessIrreflexive(a: string)
    ensures !Less(a, a)
    decreases |a|
  {
    if a != [] { LessIrreflexive(a[1..]); }
  }

  lemma {:induction false} LessTransitive(a: string, b: string, c: string)
    requires Less(a, b) && Less(b, c)
    ensures Less(a, c)
    decreases |a|
  {
    if a != [] && a[0] == b[0] && b[0] == c[0] {
      LessTransitive(a[1..], b[1..], c[1..]);
    }
  }

  /** Any two distinct strings are ordered one way or the other, and not both. */
  lemma {:induction false} LessTotal(a: string, b: string)
    requires a != b
    ensures Less(a, b) != Less(b, a)
    decreases |a|
  {
    if a != [] && b != [] && a[0] == b[0] {
      assert a == [a[0]] + a[1..] && b == [b[0]] + b[1..];
      LessTotal(a[1..], b[1..]);
    }
  }
}
