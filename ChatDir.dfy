/**
 * The chat directory both conversation stores keep: one JSON file of
 * role-tagged messages per conversation, here a map from file name to the
 * messages it holds, and the directory listing both stores share:
 * `[f for f in os.listdir(dir) if f.endswith('.json')]`, sorted with
 * `sort(reverse=True)` and cut to a truthy limit. The directory's names are a
 * set with no order of their own; the listing is characterised by its result,
 * which the two properties below determine uniquely.
 */
module ChatDir {
  import opened Wrappers
  import opened Text
  import PySlice

  /**
   * One `{"role": ..., "content": ...}` object of a transcript. A message
   * without a `content` key has `content == None`.
   */
  datatype Message = Message(role: string, content: Option<string>)

  /** The directory: file name to the messages that file holds. */
  type Directory = map<string, seq<Message>>

  predicate IsJsonName(name: string)
  {
    EndsWith(name, ".json")
  }

  /** Each name is greater than the next one (newest timestamp first). */
  predicate Descending(s: seq<string>)
  {
    forall i :: 0 <= i < |s| - 1 ==> Less(s[i + 1], s[i])
  }

  /** In a descending listing every later name is smaller than every earlier one. */
  lemma {:induction false} DescendingOrdered(s: seq<string>, i: nat, j: nat)
    requires Descending(s) && i < j < |s|
    ensures Less(s[j], s[i])
    decreases j - i
  {
    if j > i + 1 {
      DescendingOrdered(s, i + 1, j);
      LessTransitive(s[j], s[i + 1], s[i]);
    }
  }

  /** A descending listing names each entry once. */
  lemma DescendingDistinct(s: seq<string>, i: nat, j: nat)
    requires Descending(s) && i < j < |s|
    ensures s[i] != s[j]
  {
    DescendingOrdered(s, i, j);
    if s[i] == s[j] {
      LessIrreflexive(s[i]);
    }
  }

  lemma SameNamesBothEmpty(s: seq<string>, t: seq<string>)
    requires forall x :: x in s <==> x in t
    ensures s == [] <==> t == []
  {
    if s != [] { assert s[0] in t; }
    if t != [] { assert t[0] in s; }
  }

  /** Two descending listings of the same names are the same listing. */
  lemma {:induction false} DescendingUnique(s: seq<string>, t: seq<string>)
    requires Descending(s) && Descending(t)
    requires forall x :: x in s <==> x in t
    ensures s == t
    decreases |s|
  {
    if s != [] && t != [] {
      if s[0] != t[0] {
        assert t[0] in s && s[0] in t;
        var i :| 0 <= i < |s| && s[i] == t[0];
        var j :| 0 <= j < |t| && t[j] == s[0];
        DescendingOrdered(s, 0, i);
        DescendingOrdered(t, 0, j);
        LessTotal(s[0], t[0]);
        assert false;
      }
      forall x ensures x in s[1..] <==> x in t[1..] {
        if x in s[1..] {
          var i :| 1 <= i < |s| && s[i] == x;
          DescendingDistinct(s, 0, i);
          assert x in t && x != t[0];
        }
        if x in t[1..] {
          var j :| 1 <= j < |t| && t[j] == x;
          DescendingDistinct(t, 0, j);
          assert x in s && x != s[0];
        }
      }
      DescendingUnique(s[1..], t[1..]);
    } else {
      SameNamesBothEmpty(s, t);
    }
  }

  /** `x` placed into a descending listing that does not hold it. */
  function Insert(s: seq<string>, x: string): (r: seq<string>)
    requires Descending(s) && x !in s
    ensures Descending(r)
    ensures forall y :: y in r <==> y in s || y == x
    ensures |r| == |s| + 1
  {
    if s == [] then [x]
    else if Less(s[0], x) then [x] + s
    else
      var rest := Insert(s[1..], x);
      LessTotal(s[0], x);
      assert rest != [] && (rest[0] == x || rest[0] in s[1..]);
      assert Less(rest[0], s[0]) by {
        if rest[0] != x {
          var j :| 1 <= j < |s| && s[j] == rest[0];
          DescendingOrdered(s, 0, j);
        }
      }
      [s[0]] + rest
  }

  /** Every set of names has a descending listing of its `.json` names. */
  lemma {:induction false} ListingExists(names: set<string>)
    ensures exists r :: Descending(r) && forall x :: x in r <==> x in names && IsJsonName(x)
    decreases names
  {
    if names == {} {
      assert Descending([]);
    } else {
      var f :| f in names;
      ListingExists(names - {f});
      var r :| Descending(r) && forall x :: x in r <==> x in names - {f} && IsJsonName(x);
      if IsJsonName(f) {
        var r' := Insert(r, f);
        assert forall x :: x in r' <==> x in names && IsJsonName(x);
      } else {
        assert forall x :: x in r <==> x in names && IsJsonName(x);
      }
    }
  }

  /** The `.json` names among `names`, sorted with `sort(reverse=True)`. */
  ghost function SortedJsonNames(names: set<string>): (r: seq<string>)
    ensures Descending(r)
    ensures forall x :: x in r <==> x in names && IsJsonName(x)
  {
    ListingExists(names);
    var r :| Descending(r) && forall x :: x in r <==> x in names && IsJsonName(x);
    r
  }

  /** The `.json` names of the directory, newest (greatest) first. */
  method JsonNamesDescending(names: set<string>) returns (r: seq<string>)
    ensures Descending(r)
    ensures forall x :: x in r <==> x in names && IsJsonName(x)
    ensures r == SortedJsonNames(names)
  {
    r := [];
    var pending := names;
    while pending != {}
      invariant pending <= names
      invariant Descending(r)
      invariant forall x :: x in r <==> x in names - pending && IsJsonName(x)
      decreases pending
    {
      var f :| f in pending;
      pending := pending - {f};
      if IsJsonName(f) {
        r := Insert(r, f);
      }
    }
    DescendingUnique(r, SortedJsonNames(names));
  }

  /** `chats[:limit]` when `limit` is truthy; a limit of 0 stands for `None` too. */
  function Limit(chats: seq<string>, limit: int): (r: seq<string>)
    ensures limit == 0 ==> r == chats
    ensures limit > 0 ==> |r| == (if limit <= |chats| then limit else |chats|)
    ensures limit < 0 ==> |r| == (if -limit <= |chats| then |chats| + limit else 0)
    ensures |r| <= |chats| && r == chats[..|r|]
  {
    if limit != 0 then PySlice.Take(chats, limit) else chats
  }

  /** Cutting a descending listing keeps it descending. */
  lemma LimitDescending(chats: seq<string>, limit: int)
    requires Descending(chats)
    ensures Descending(Limit(chats, limit))
  {
  }
}
