/** The list of components/ExtensionManager.tsx: the search filter over the
    extension list, the order it is shown in (enabled entries first, then by
    name), and the flag the toggle button asks for. */
module ExtensionManager {
  import opened Text
  import opened Extensions

  // ---------------------------------------------------------------------------
  // The search filter
  // ---------------------------------------------------------------------------

  /** The entry's lower-cased name or description contains the lower-cased
      query. */
  predicate Matches(e: ExtensionInfo, query: string) {
    Contains(Lower(e.name), Lower(query)) || Contains(Lower(e.description), Lower(query))
  }

  /** `extensions.filter(...)`, in list order. */
  function Matching(exts: seq<ExtensionInfo>, query: string): (r: seq<ExtensionInfo>)
    ensures |r| <= |exts|
    decreases |exts|
  {
    if |exts| == 0 then []
    else
      var rest := Matching(exts[1..], query);
      if Matches(exts[0], query) then [exts[0]] + rest else rest
  }

  /** The filter keeps exactly the matching entries, each as often as it
      occurs in the list. */
  lemma {:induction false} MatchingCounts(exts: seq<ExtensionInfo>, query: string, e: ExtensionInfo)
    ensures multiset(Matching(exts, query))[e] == if Matches(e, query) then multiset(exts)[e] else 0
    decreases |exts|
  {
    if |exts| > 0 {
      MatchingCounts(exts[1..], query, e);
      assert exts == [exts[0]] + exts[1..];
    }
  }

  /** Every text contains the empty text. */
  lemma ContainsEmpty(s: string)
    ensures Contains(s, "")
  {
    assert StartsWith(s[0..], "");
  }

  /** An empty search keeps the whole list, in order. */
  lemma {:induction false} EmptyQueryKeepsAll(exts: seq<ExtensionInfo>)
    ensures Matching(exts, "") == exts
    decreases |exts|
  {
    if |exts| > 0 {
      ContainsEmpty(Lower(exts[0].name));
      EmptyQueryKeepsAll(exts[1..]);
      assert exts == [exts[0]] + exts[1..];
    }
  }

  // ---------------------------------------------------------------------------
  // The order
  // ---------------------------------------------------------------------------

  /** The name order: character codes, position by position, a prefix first.
      It stands in for `localeCompare`. */
  predicate NameLeq(a: string, b: string)
    decreases |a|
  {
    if |a| == 0 then true
    else if |b| == 0 then false
    else if a[0] != b[0] then a[0] < b[0]
    else NameLeq(a[1..], b[1..])
  }

  /** Any two names are ordered one way or the other. */
  lemma {:induction false} NameLeqTotal(a: string, b: string)
    ensures NameLeq(a, b) || NameLeq(b, a)
    decreases |a|
  {
    if |a| > 0 && |b| > 0 && a[0] == b[0] {
      NameLeqTotal(a[1..], b[1..]);
    }
  }

  /** The name order is transitive. */
  lemma {:induction false} NameLeqTrans(a: string, b: string, c: string)
    requires NameLeq(a, b) && NameLeq(b, c)
    ensures NameLeq(a, c)
    decreases |a|
  {
    if |a| > 0 && |b| > 0 && |c| > 0 && a[0] == b[0] && b[0] == c[0] {
      NameLeqTrans(a[1..], b[1..], c[1..]);
    }
  }

  /** The comparator does not put `a` after `b`: `a` is enabled and `b` is
      not, or both agree on the flag and `a`'s name does not come later. */
  predicate Before(a: ExtensionInfo, b: ExtensionInfo) {
    (a.enabled && !b.enabled) || (a.enabled == b.enabled && NameLeq(a.name, b.name))
  }

  lemma BeforeTotal(a: ExtensionInfo, b: ExtensionInfo)
    ensures Before(a, b) || Before(b, a)
  {
    NameLeqTotal(a.name, b.name);
  }

  lemma BeforeTrans(a: ExtensionInfo, b: ExtensionInfo, c: ExtensionInfo)
    requires Before(a, b) && Before(b, c)
    ensures Before(a, c)
  {
    if a.enabled == b.enabled && b.enabled == c.enabled {
      NameLeqTrans(a.name, b.name, c.name);
    }
  }

  /** Every entry comes before every later one. */
  predicate Sorted(s: seq<ExtensionInfo>) {
    forall i, j :: 0 <= i < j < |s| ==> Before(s[i], s[j])
  }

  /** Puts `x` in front of the first entry it comes before, so that it stays
      ahead of the entries it ties with. */
  function Insert(x: ExtensionInfo, s: seq<ExtensionInfo>): (r: seq<ExtensionInfo>)
    ensures |r| == |s| + 1
    decreases |s|
  {
    if |s| == 0 then [x]
    else if Before(x, s[0]) then [x] + s
    else [s[0]] + Insert(x, s[1..])
  }

  /** `.sort(...)`: a stable sort, as the array sort of the language is. */
  function Sort(s: seq<ExtensionInfo>): (r: seq<ExtensionInfo>)
    ensures |r| == |s|
    decreases |s|
  {
    if |s| == 0 then [] else Insert(s[0], Sort(s[1..]))
  }

  lemma {:induction false} InsertPerm(x: ExtensionInfo, s: seq<ExtensionInfo>)
    ensures multiset(Insert(x, s)) == multiset(s) + multiset{x}
    decreases |s|
  {
    if |s| > 0 && !Before(x, s[0]) {
      InsertPerm(x, s[1..]);
      assert s == [s[0]] + s[1..];
    }
  }

  /** Sorting keeps every entry, as often as it occurs. */
  lemma {:induction false} SortPerm(s: seq<ExtensionInfo>)
    ensures multiset(Sort(s)) == multiset(s)
    decreases |s|
  {
    if |s| > 0 {
      SortPerm(s[1..]);
      InsertPerm(s[0], Sort(s[1..]));
      assert Sort(s) == Insert(s[0], Sort(s[1..]));
      ConsMultiset(s);
    }
  }

  lemma ConsMultiset(s: seq<ExtensionInfo>)
    requires |s| > 0
    ensures multiset(s) == multiset(s[1..]) + multiset{s[0]}
  {
    assert s == [s[0]] + s[1..];
  }

  /** Inserting into a sorted list keeps it sorted. */
  lemma {:induction false} InsertSorted(x: ExtensionInfo, s: seq<ExtensionInfo>)
    requires Sorted(s)
    ensures Sorted(Insert(x, s))
    decreases |s|
  {
    if |s| > 0 {
      if Before(x, s[0]) {
        InsertAhead(x, s);
      } else {
        assert Sorted(s[1..]) by {
          forall i, j | 0 <= i < j < |s[1..]| ensures Before(s[1..][i], s[1..][j]) {
            assert s[1..][i] == s[i + 1] && s[1..][j] == s[j + 1];
          }
        }
        InsertSorted(x, s[1..]);
        BeforeTotal(x, s[0]);
        InsertBehind(x, s);
      }
    }
  }

  /** The case where `x` goes in front. */
  lemma InsertAhead(x: ExtensionInfo, s: seq<ExtensionInfo>)
    requires Sorted(s) && |s| > 0 && Before(x, s[0])
    ensures Sorted([x] + s)
  {
    var r := [x] + s;
    forall i, j | 0 <= i < j < |r| ensures Before(r[i], r[j]) {
      if i == 0 {
        assert r[j] == s[j - 1];
        if j > 1 {
          BeforeTrans(x, s[0], s[j - 1]);
        }
      } else {
        assert r[i] == s[i - 1] && r[j] == s[j - 1];
      }
    }
  }

  /** The case where `s[0]` stays in front of the insertion into the rest. */
  lemma InsertBehind(x: ExtensionInfo, s: seq<ExtensionInfo>)
    requires Sorted(s) && |s| > 0 && Before(s[0], x) && Sorted(Insert(x, s[1..]))
    ensures Sorted([s[0]] + Insert(x, s[1..]))
  {
    var t := Insert(x, s[1..]);
    var r := [s[0]] + t;
    forall i, j | 0 <= i < j < |r| ensures Before(r[i], r[j]) {
      if i == 0 {
        assert r[j] == t[j - 1];
        InsertFrom(x, s[1..], j - 1);
        if t[j - 1] != x {
          HeadFirst(s, t[j - 1]);
        }
      } else {
        assert r[i] == t[i - 1] && r[j] == t[j - 1];
      }
    }
  }

  /** An inserted list holds the new entry and the old ones. */
  lemma InsertFrom(x: ExtensionInfo, s: seq<ExtensionInfo>, j: int)
    requires 0 <= j < |Insert(x, s)|
    ensures Insert(x, s)[j] == x || Insert(x, s)[j] in s
  {
    InsertPerm(x, s);
    assert Insert(x, s)[j] in multiset(Insert(x, s));
  }

  /** The head of a sorted list comes before everything after it. */
  lemma HeadFirst(s: seq<ExtensionInfo>, y: ExtensionInfo)
    requires Sorted(s) && |s| > 0 && y in s[1..]
    ensures Before(s[0], y)
  {
    var k :| 0 <= k < |s[1..]| && s[1..][k] == y;
    assert s[k + 1] == y;
  }

  /** The sorted list is sorted. */
  lemma {:induction false} SortSorted(s: seq<ExtensionInfo>)
    ensures Sorted(Sort(s))
    decreases |s|
  {
    if |s| > 0 {
      SortSorted(s[1..]);
      InsertSorted(s[0], Sort(s[1..]));
    }
  }

  /** No disabled entry comes before an enabled one, and among entries with
      the same flag the names do not go down. */
  lemma SortedGroups(s: seq<ExtensionInfo>, i: int, j: int)
    requires Sorted(s) && 0 <= i < j < |s|
    ensures s[j].enabled ==> s[i].enabled
    ensures s[i].enabled == s[j].enabled ==> NameLeq(s[i].name, s[j].name)
  {
    assert Before(s[i], s[j]);
  }

  // ---------------------------------------------------------------------------
  // What is shown
  // ---------------------------------------------------------------------------

  /** `filteredExtensions`. */
  function FilteredExtensions(exts: seq<ExtensionInfo>, query: string): (r: seq<ExtensionInfo>)
    ensures |r| <= |exts|
  {
    Sort(Matching(exts, query))
  }

  /** The shown list is sorted, holds exactly the matching entries as often
      as the list does, and with an empty search is the whole list. */
  lemma Shown(exts: seq<ExtensionInfo>, query: string, e: ExtensionInfo)
    ensures Sorted(FilteredExtensions(exts, query))
    ensures multiset(FilteredExtensions(exts, query)) == multiset(Matching(exts, query))
    ensures multiset(FilteredExtensions(exts, query))[e] == if Matches(e, query) then multiset(exts)[e] else 0
    ensures multiset(FilteredExtensions(exts, "")) == multiset(exts)
  {
    SortSorted(Matching(exts, query));
    SortPerm(Matching(exts, query));
    MatchingCounts(exts, query, e);
    SortPerm(Matching(exts, ""));
    EmptyQueryKeepsAll(exts);
  }

  // ---------------------------------------------------------------------------
  // The toggle button
  // ---------------------------------------------------------------------------

  /** The button's call: the entry's id with the opposite of its flag. */
  function ToggleRequest(e: ExtensionInfo): (req: (string, bool))
    ensures req.0 == e.id && req.1 != e.enabled
  {
    (e.id, !e.enabled)
  }

  /** Without the management API, the request flips the flag of the entry it
      was made from and keeps its other fields. */
  lemma ToggleFlips(exts: seq<ExtensionInfo>, i: int)
    requires 0 <= i < |exts|
    ensures SetEnabled(exts, ToggleRequest(exts[i]).0, ToggleRequest(exts[i]).1)[i]
         == WithEnabled(exts[i], !exts[i].enabled)
  {
    SetEnabledOnly(exts, exts[i].id, !exts[i].enabled, i);
  }
}
