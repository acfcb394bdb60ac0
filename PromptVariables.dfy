/** The prompt template engine of hooks/usePromptVariables.ts: the placeholder
    extractor, the save-time declaration check, substitution of a value map,
    the depth-bounded resolver that expands `prompt`-typed variables into other
    prompts' text, and the per-type value validator. */
module PromptVariables {
  import opened Wrappers
  import opened Text

  // ---------------------------------------------------------------------------
  // Data model
  // ---------------------------------------------------------------------------

  /** A supplied value, JavaScript's `string | number`. `NaN` is the number
      `parseFloat` yields for text that does not start with a number. */
  datatype Value = Str(s: string) | Num(n: int) | NaN

  /** `String(value)`. */
  function ValueToString(v: Value): string {
    match v
    case Str(s) => s
    case Num(n) => IntToString(n)
    case NaN => "NaN"
  }

  /** JavaScript truthiness of a value: "", 0 and NaN are falsy. */
  predicate Truthy(v: Value) {
    match v
    case Str(s) => s != ""
    case Num(n) => n != 0
    case NaN => false
  }

  /** The declared type tag of a variable; a tag outside the four known ones is kept. */
  datatype VarType = StringType | NumberType | EnumType | PromptType | Unknown(tag: string)

  /** The open-shaped `config` object: numeric bounds and enum options. */
  datatype Config = Config(min: Option<int>, max: Option<int>, options: Option<seq<string>>)

  const EmptyConfig := Config(None, None, None)

  datatype Variable = Variable(name: string, typ: VarType, config: Config, orderIndex: int)

  /** What the resolver reads of a prompt record. */
  datatype PromptDoc = PromptDoc(id: string, content: string, variables: seq<Variable>)

  /** A value map (`Record<string, string | number>`) as its entries in
      `Object.entries` order; keys are distinct. */
  type ValueMap = seq<(string, Value)>

  predicate DistinctKeys(m: ValueMap) {
    forall i, j :: 0 <= i < j < |m| ==> m[i].0 != m[j].0
  }

  /** `values[key]`, with `None` for `undefined`. */
  function Lookup(m: ValueMap, key: string): (r: Option<Value>)
    ensures r.Some? <==> exists i :: 0 <= i < |m| && m[i].0 == key
    ensures r.Some? ==> (key, r.value) in m
  {
    if |m| == 0 then None
    else if m[0].0 == key then Some(m[0].1)
    else Lookup(m[1..], key)
  }

  // ---------------------------------------------------------------------------
  // Placeholders: the regular expression /{{(\w+)}}/g
  // ---------------------------------------------------------------------------

  /** The class `\w`: ASCII letters, digits and underscore. */
  predicate IsWordChar(c: char) {
    ('a' <= c <= 'z') || ('A' <= c <= 'Z') || ('0' <= c <= '9') || c == '_'
  }

  /** A name the placeholder syntax accepts: one or more word characters. */
  predicate IsWord(w: string) {
    |w| > 0 && forall i :: 0 <= i < |w| ==> IsWordChar(w[i])
  }

  /** The placeholder `{{name}}`. */
  function Placeholder(name: string): (p: string)
    ensures |p| == |name| + 4
  {
    "{{" + name + "}}"
  }

  /** A name made of decimal digits only. */
  predicate AllDigits(name: string) {
    |name| > 0 && forall i :: 0 <= i < |name| ==> IsDigit(name[i])
  }

  /** `n` open braces. */
  function Braces(n: nat): (r: string)
    ensures |r| == n && forall i :: 0 <= i < n ==> r[i] == '{'
  {
    seq(n, _ => '{')
  }

  /** The text `new RegExp(`{{${name}}}`, "g")` matches. Without the `u` flag
      a brace that starts no quantifier is a literal character, so for a name
      that is not all digits the expression is the placeholder itself. For an
      all-digit name n the inner `{n}` is a quantifier on the first brace, and
      the expression matches n open braces followed by `}`. */
  function NamePattern(name: string): (p: string)
    ensures |p| > 0 && p[|p| - 1] == '}'
    ensures !AllDigits(name) ==> p == Placeholder(name)
    ensures AllDigits(name) ==> p == Braces(DigitsValue(name)) + "}"
  {
    if AllDigits(name) then Braces(DigitsValue(name)) + "}" else Placeholder(name)
  }

  /** Where the run of word characters starting at `j` ends: what the greedy
      `\w+` takes is `s[j..WordEnd(s, j)]`. */
  function WordEnd(s: string, j: nat): (e: nat)
    requires j <= |s|
    ensures j <= e <= |s|
    ensures forall k :: j <= k < e ==> IsWordChar(s[k])
    ensures e < |s| ==> !IsWordChar(s[e])
    decreases |s| - j
  {
    if j < |s| && IsWordChar(s[j]) then WordEnd(s, j + 1) else j
  }

  /** The placeholder `{{w}}` stands in `s` at position `j`. */
  ghost predicate Occurs(s: string, j: int, w: string) {
    IsWord(w) && 0 <= j && j + |w| + 4 <= |s| && s[j..j + |w| + 4] == Placeholder(w)
  }

  /** The match the regular expression finds when it is tried at position `i`. */
  function MatchAt(s: string, i: nat): (r: Option<string>)
    requires i <= |s|
    ensures r.Some? ==> i + |r.value| + 4 <= |s|
  {
    if i + 2 <= |s| && s[i] == '{' && s[i + 1] == '{' then
      var e := WordEnd(s, i + 2);
      if i + 2 < e && e + 2 <= |s| && s[e] == '}' && s[e + 1] == '}' then Some(s[i + 2..e]) else None
    else None
  }

  /** The names captured by the global scan, appended to `acc`, from position
      `i` on: a match resumes the scan right after itself, a miss moves on by
      one character. */
  function Matches(s: string, i: nat, acc: seq<string>): seq<string>
    requires i <= |s|
    decreases |s| - i
  {
    if i == |s| then acc
    else match MatchAt(s, i)
      case Some(w) => Matches(s, i + |w| + 4, acc + [w])
      case None => Matches(s, i + 1, acc)
  }

  /** First-occurrence de-duplication, as adding to a `Set` and reading it back. */
  function Dedup(xs: seq<string>): (r: seq<string>)
    ensures forall x :: x in r <==> x in xs
    ensures Distinct(r)
  {
    if |xs| == 0 then []
    else
      var d := Dedup(xs[..|xs| - 1]);
      assert xs == xs[..|xs| - 1] + [xs[|xs| - 1]];
      if xs[|xs| - 1] in d then d else d + [xs[|xs| - 1]]
  }

  /** The placeholder names of a template, distinct, in first-occurrence order. */
  function Placeholders(content: string): seq<string> {
    Dedup(Matches(content, 0, []))
  }

  /** `parseVariablesFromContent`: walks the matches of the global expression
      once, adding every captured name to an insertion-ordered set (`seen` for
      membership, `names` for the order), and returns the set's elements. */
  method ParseVariablesFromContent(content: string) returns (names: seq<string>)
    ensures names == Placeholders(content)
  {
    var matches := Matches(content, 0, []);
    var seen: set<string> := {};
    names := [];
    for k := 0 to |matches|
      invariant names == Dedup(matches[..k])
      invariant forall x :: x in seen <==> x in matches[..k]
    {
      var w := matches[k];
      assert matches[..k + 1] == matches[..k] + [w];
      DedupSnoc(matches[..k], w);
      if w !in seen {
        names := names + [w];
        seen := seen + {w};
      }
    }
    assert matches[..|matches|] == matches;
  }

  /** Appending a name to the scanned list appends it to the de-duplicated list
      exactly when it is new. */
  lemma DedupSnoc(xs: seq<string>, w: string)
    ensures Dedup(xs + [w]) == if w in xs then Dedup(xs) else Dedup(xs) + [w]
  {
    assert (xs + [w])[..|xs|] == xs;
  }

  /** Tried at a position, the expression matches exactly the placeholders standing there. */
  lemma MatchAtOccurs(s: string, i: nat, w: string)
    requires i <= |s|
    ensures MatchAt(s, i) == Some(w) <==> Occurs(s, i, w)
  {
    if Occurs(s, i, w) {
      OccursChars(s, i, w);
      WordEndAt(s, i + 2, i + 2 + |w|);
      assert s[i + 2..i + 2 + |w|] == w;
    }
    if MatchAt(s, i) == Some(w) {
      CharsOccur(s, i, w);
    }
  }

  /** A placeholder occurrence, character by character. */
  lemma OccursChars(s: string, i: nat, w: string)
    requires Occurs(s, i, w)
    ensures s[i] == '{' && s[i + 1] == '{'
    ensures forall k :: 0 <= k < |w| ==> s[i + 2 + k] == w[k]
    ensures s[i + 2 + |w|] == '}' && s[i + 3 + |w|] == '}'
  {
    var occ := s[i..i + |w| + 4];
    assert occ == Placeholder(w);
    assert s[i] == occ[0] && s[i + 1] == occ[1];
    forall k | 0 <= k < |w| ensures s[i + 2 + k] == w[k] {
      assert s[i + 2 + k] == occ[k + 2];
    }
    assert s[i + 2 + |w|] == occ[|w| + 2] && s[i + 3 + |w|] == occ[|w| + 3];
  }

  /** The characters of a placeholder, in place, make an occurrence. */
  lemma CharsOccur(s: string, i: nat, w: string)
    requires IsWord(w) && i + |w| + 4 <= |s|
    requires s[i] == '{' && s[i + 1] == '{'
    requires forall k :: i + 2 <= k < i + 2 + |w| ==> s[k] == w[k - i - 2]
    requires s[i + 2 + |w|] == '}' && s[i + 3 + |w|] == '}'
    ensures Occurs(s, i, w)
  {
    var occ := s[i..i + |w| + 4];
    var p := Placeholder(w);
    forall k | 0 <= k < |w| + 4 ensures occ[k] == p[k] {
      if 2 <= k < |w| + 2 {
        assert p[k] == w[k - 2];
      }
    }
  }

  /** The run of word characters from `j` ends at the first non-word character. */
  lemma {:induction false} WordEndAt(s: string, j: nat, e: nat)
    requires j <= e <= |s|
    requires forall k :: j <= k < e ==> IsWordChar(s[k])
    requires e < |s| ==> !IsWordChar(s[e])
    ensures WordEnd(s, j) == e
    decreases e - j
  {
    if j < e {
      WordEndAt(s, j + 1, e);
    }
  }

  /** Two placeholder occurrences never overlap: inside `{{w}}` there is no
      other position where two opening braces stand. */
  lemma NoOverlap(s: string, i: int, w: string, j: int, u: string)
    requires Occurs(s, i, w) && i < j < i + |w| + 4
    ensures !Occurs(s, j, u)
  {
    var occ := s[i..i + |w| + 4];
    assert occ == Placeholder(w);
    if j == i + 1 {
      assert s[j + 1] == occ[2] == w[0];
      if j + 1 < j + |u| + 4 <= |s| {
        assert s[j..j + |u| + 4][1] == s[j + 1];
        assert Placeholder(u)[1] == '{';
      }
    } else {
      PlaceholderBraces(w, j - i);
      assert s[j] == occ[j - i] != '{';
      if j + |u| + 4 <= |s| {
        assert s[j..j + |u| + 4][0] == s[j];
        assert Placeholder(u)[0] == '{';
      }
    }
  }

  /** Every name the scan captures is a placeholder standing at or after the start. */
  lemma {:induction false} MatchesSound(s: string, i: nat, acc: seq<string>, w: string)
    requires i <= |s| && w in Matches(s, i, acc)
    ensures w in acc || exists j :: i <= j && Occurs(s, j, w)
    decreases |s| - i
  {
    if i < |s| {
      match MatchAt(s, i)
      case Some(u) =>
        MatchAtOccurs(s, i, u);
        MatchesSound(s, i + |u| + 4, acc + [u], w);
      case None =>
        MatchesSound(s, i + 1, acc, w);
    }
  }

  /** The scan only appends: what was collected stays collected. */
  lemma {:induction false} MatchesKeep(s: string, i: nat, acc: seq<string>, w: string)
    requires i <= |s| && w in acc
    ensures w in Matches(s, i, acc)
    decreases |s| - i
  {
    if i < |s| {
      match MatchAt(s, i)
      case Some(u) =>
        MatchesKeep(s, i + |u| + 4, acc + [u], w);
      case None =>
        MatchesKeep(s, i + 1, acc, w);
    }
  }

  /** No placeholder that starts before `i` reaches past `i`. */
  ghost predicate ClearBefore(s: string, i: int) {
    forall k, u :: 0 <= k < i && Occurs(s, k, u) ==> k + |u| + 4 <= i
  }

  /** Moving past a match keeps the scan position clear. */
  lemma ClearAfterMatch(s: string, i: nat, u: string)
    requires i <= |s| && ClearBefore(s, i) && MatchAt(s, i) == Some(u)
    ensures ClearBefore(s, i + |u| + 4)
  {
    MatchAtOccurs(s, i, u);
    forall k, x | 0 <= k < i + |u| + 4 ensures Occurs(s, k, x) ==> k + |x| + 4 <= i + |u| + 4 {
      if k == i {
        MatchAtOccurs(s, i, x);
      } else if k > i {
        NoOverlap(s, i, u, k, x);
      }
    }
  }

  /** Moving past a miss keeps the scan position clear. */
  lemma ClearAfterMiss(s: string, i: nat)
    requires i < |s| && ClearBefore(s, i) && MatchAt(s, i) == None
    ensures ClearBefore(s, i + 1)
  {
    forall k, x | 0 <= k < i + 1 ensures Occurs(s, k, x) ==> k + |x| + 4 <= i + 1 {
      if k == i { MatchAtOccurs(s, i, x); }
    }
  }

  /** Every placeholder standing at or after a clear scan position is captured. */
  lemma {:induction false} MatchesComplete(s: string, i: nat, acc: seq<string>, j: int, w: string)
    requires i <= j && Occurs(s, j, w) && ClearBefore(s, i)
    ensures i <= |s| && w in Matches(s, i, acc)
    decreases |s| - i
  {
    if i == j {
      MatchAtOccurs(s, i, w);
      MatchesKeep(s, i + |w| + 4, acc + [w], w);
    } else {
      match MatchAt(s, i)
      case Some(u) =>
        MatchAtOccurs(s, i, u);
        if j < i + |u| + 4 {
          NoOverlap(s, i, u, j, w);
        }
        ClearAfterMatch(s, i, u);
        MatchesComplete(s, i + |u| + 4, acc + [u], j, w);
      case None =>
        ClearAfterMiss(s, i);
        MatchesComplete(s, i + 1, acc, j, w);
    }
  }

  /** A name is extracted from a template exactly when it is a `\w+` word
      standing between `{{` and `}}` somewhere in the text. */
  lemma PlaceholdersExact(content: string, w: string)
    ensures w in Placeholders(content) <==> IsWord(w) && Contains(content, Placeholder(w))
  {
    if w in Placeholders(content) {
      MatchesSound(content, 0, [], w);
      var j :| 0 <= j && Occurs(content, j, w);
      assert StartsWith(content[j..], Placeholder(w));
    }
    if IsWord(w) && Contains(content, Placeholder(w)) {
      var j :| 0 <= j <= |content| - |Placeholder(w)| && StartsWith(content[j..], Placeholder(w));
      assert Occurs(content, j, w);
      MatchesComplete(content, 0, [], j, w);
    }
  }

  /** The scan is not a brace-balancing parse: `{{{x}}}` holds `{{x}}` and yields `x`. */
  lemma TripleBraces()
    ensures Placeholders("{{{x}}}") == ["x"]
  {
    var s := "{{{x}}}";
    assert MatchAt(s, 0) == None by { assert WordEnd(s, 2) == 2; }
    assert MatchAt(s, 1) == Some("x") by {
      assert WordEnd(s, 4) == 4;
      assert s[3..4] == "x";
    }
    assert Matches(s, 6, ["x"]) == ["x"] by {
      assert MatchAt(s, 6) == None;
    }
    assert Matches(s, 0, []) == ["x"];
    assert Dedup(["x"]) == ["x"] by { assert ["x"][..0] == []; }
  }

  // ---------------------------------------------------------------------------
  // Save-time declaration check
  // ---------------------------------------------------------------------------

  datatype Validation = Validation(valid: bool, missing: seq<string>)

  /** The declared names of a variable list. */
  function Names(vars: seq<Variable>): (names: seq<string>)
    ensures |names| == |vars|
    ensures forall i :: 0 <= i < |vars| ==> names[i] == vars[i].name
  {
    if |vars| == 0 then [] else [vars[0].name] + Names(vars[1..])
  }

  /** The names of `names` that `declared` does not hold, keeping their order. */
  function Undeclared(names: seq<string>, declared: seq<string>): (r: seq<string>)
    ensures forall x :: x in r <==> x in names && x !in declared
    ensures |r| <= |names|
  {
    if |names| == 0 then []
    else if names[0] in declared then Undeclared(names[1..], declared)
    else [names[0]] + Undeclared(names[1..], declared)
  }

  /** `validateVariables`: `missing` lists the template's placeholder names that
      no variable declares, without repeats; the check passes exactly when
      every placeholder is declared. */
  function ValidateVariables(content: string, vars: seq<Variable>): (r: Validation)
    ensures forall x :: x in r.missing <==> x in Placeholders(content) && x !in Names(vars)
    ensures Distinct(r.missing)
    ensures r.valid <==> r.missing == []
    ensures r.valid <==> forall x :: x in Placeholders(content) ==> x in Names(vars)
  {
    var missing := Undeclared(Placeholders(content), Names(vars));
    UndeclaredDistinct(Placeholders(content), Names(vars));
    assert |missing| > 0 ==> missing[0] in missing;
    Validation(|missing| == 0, missing)
  }

  lemma {:induction false} UndeclaredDistinct(names: seq<string>, declared: seq<string>)
    requires Distinct(names)
    ensures Distinct(Undeclared(names, declared))
  {
    if |names| > 0 {
      var tail := names[1..];
      DistinctTail(names);
      UndeclaredDistinct(tail, declared);
      var rest := Undeclared(tail, declared);
      assert names[0] !in tail by {
        forall k | 0 <= k < |tail| ensures tail[k] != names[0] {
          assert tail[k] == names[k + 1];
        }
      }
      if names[0] !in declared {
        assert names[0] !in rest;
        DistinctCons(names[0], rest);
      }
    }
  }

  // ---------------------------------------------------------------------------
  // Substitution
  // ---------------------------------------------------------------------------

  /** One pass of `substituteVariables`: every match of the key's expression,
      `{{key}}` for a name that is not all digits, becomes the value's text. */
  function SubstituteOne(text: string, key: string, v: Value): string {
    ReplaceAll(text, NamePattern(key), ValueToString(v))
  }

  /** `substituteVariables` as a function: the entries are applied one after
      another, each to the text the previous ones left. */
  function Substitute(text: string, m: ValueMap): string
    decreases |m|
  {
    if |m| == 0 then text else Substitute(SubstituteOne(text, m[0].0, m[0].1), m[1..])
  }

  /** `substituteVariables`: reassigns the result once per map entry. */
  method SubstituteVariables(content: string, m: ValueMap) returns (result: string)
    ensures result == Substitute(content, m)
  {
    result := content;
    var i := 0;
    while i < |m|
      invariant 0 <= i <= |m|
      invariant Substitute(content, m) == Substitute(result, m[i..])
    {
      assert m[i..][1..] == m[i + 1..];
      result := SubstituteOne(result, m[i].0, m[i].1);
      i := i + 1;
    }
  }

  /** In a placeholder the character '{' stands exactly at the first two positions. */
  lemma PlaceholderBraces(name: string, i: int)
    requires IsWord(name) && 0 <= i < |Placeholder(name)|
    ensures Placeholder(name)[i] == '{' <==> i < 2
  {
    if 2 <= i < |name| + 2 {
      assert Placeholder(name)[i] == name[i - 2];
    }
  }

  /** The scan steps through the tail of a placeholder without matching another
      placeholder, because no opening pair of braces stands inside it. */
  lemma ReplaceThroughTail(w: string, b: string, k: string, v: string)
    requires IsWord(w) && IsWord(k)
    ensures ReplaceAll(Placeholder(w)[1..] + b, Placeholder(k), v)
         == Placeholder(w)[1..] + ReplaceAll(b, Placeholder(k), v)
  {
    TailClear(w, b, k);
    ReplaceSkips(Placeholder(w)[1..], b, Placeholder(k), v);
  }

  /** No position of a placeholder's tail starts `{{k}}`. */
  lemma TailClear(w: string, b: string, k: string)
    requires IsWord(w) && IsWord(k)
    ensures forall i :: 0 <= i < |Placeholder(w)[1..]| ==> !StartsWith(Placeholder(w)[1..][i..] + b, Placeholder(k))
  {
    var t := Placeholder(w)[1..];
    forall i | 0 <= i < |t| ensures !StartsWith(t[i..] + b, Placeholder(k)) {
      assert t[i..] == Placeholder(w)[i + 1..];
      TailNoMatch(w, i + 1, b, k);
    }
  }

  /** Inside a placeholder, past its first brace, no `{{k}}` starts. */
  lemma TailNoMatch(w: string, j: nat, b: string, k: string)
    requires IsWord(w) && IsWord(k) && 1 <= j < |Placeholder(w)|
    ensures !StartsWith(Placeholder(w)[j..] + b, Placeholder(k))
  {
    var pw, pk := Placeholder(w), Placeholder(k);
    var s := pw[j..] + b;
    if j == 1 {
      assert s[1] == pw[2] == w[0];
      DiffersAt(s, pk, 1);
    } else {
      PlaceholderBraces(w, j);
      assert s[0] == pw[j];
      DiffersAt(s, pk, 0);
    }
  }

  /** A placeholder `{{w}}` splits the scan for `{{k}}`: the text before and the
      text after are processed on their own, and the placeholder itself becomes
      the value when `w` is `k` and stays verbatim otherwise. */
  lemma {:induction false} ReplaceAroundPlaceholder(a: string, w: string, b: string, k: string, v: string)
    requires IsWord(w) && IsWord(k)
    ensures ReplaceAll(a + Placeholder(w) + b, Placeholder(k), v)
         == ReplaceAll(a, Placeholder(k), v) + (if w == k then v else Placeholder(w))
            + ReplaceAll(b, Placeholder(k), v)
    decreases |a|, 1
  {
    var pk := Placeholder(k);
    if |a| == 0 {
      AroundAtStart(a, w, b, k, v);
    } else if |pk| <= |a| && StartsWith(a, pk) {
      AroundAfterMatch(a, w, b, k, v);
    } else {
      AroundAfterMiss(a, w, b, k, v);
    }
  }

  /** The case of `ReplaceAroundPlaceholder` with nothing before the placeholder. */
  lemma AroundAtStart(a: string, w: string, b: string, k: string, v: string)
    requires IsWord(w) && IsWord(k) && |a| == 0
    ensures ReplaceAll(a + Placeholder(w) + b, Placeholder(k), v)
         == ReplaceAll(a, Placeholder(k), v) + (if w == k then v else Placeholder(w))
            + ReplaceAll(b, Placeholder(k), v)
  {
    assert a + Placeholder(w) + b == Placeholder(w) + b;
    ReplaceAtPlaceholder(w, b, k, v);
  }

  /** The case of `ReplaceAroundPlaceholder` where the text before starts with `{{k}}`. */
  lemma {:induction false} AroundAfterMatch(a: string, w: string, b: string, k: string, v: string)
    requires IsWord(w) && IsWord(k) && |Placeholder(k)| <= |a| && StartsWith(a, Placeholder(k))
    ensures ReplaceAll(a + Placeholder(w) + b, Placeholder(k), v)
         == ReplaceAll(a, Placeholder(k), v) + (if w == k then v else Placeholder(w))
            + ReplaceAll(b, Placeholder(k), v)
    decreases |a|, 0
  {
    var pw, pk := Placeholder(w), Placeholder(k);
    var mid := if w == k then v else pw;
    var s := a + pw + b;
    var rest := a[|pk|..];
    assert s[..|pk|] == a[..|pk|];
    assert s[|pk|..] == rest + pw + b;
    calc {
      ReplaceAll(s, pk, v);
      v + ReplaceAll(rest + pw + b, pk, v);
      { ReplaceAroundPlaceholder(rest, w, b, k, v); }
      v + (ReplaceAll(rest, pk, v) + mid + ReplaceAll(b, pk, v));
      (v + ReplaceAll(rest, pk, v)) + mid + ReplaceAll(b, pk, v);
      ReplaceAll(a, pk, v) + mid + ReplaceAll(b, pk, v);
    }
  }

  /** The case of `ReplaceAroundPlaceholder` where the text before is not empty
      and does not start with `{{k}}`. */
  lemma {:induction false} AroundAfterMiss(a: string, w: string, b: string, k: string, v: string)
    requires IsWord(w) && IsWord(k) && |a| > 0
    requires !(|Placeholder(k)| <= |a| && StartsWith(a, Placeholder(k)))
    ensures ReplaceAll(a + Placeholder(w) + b, Placeholder(k), v)
         == ReplaceAll(a, Placeholder(k), v) + (if w == k then v else Placeholder(w))
            + ReplaceAll(b, Placeholder(k), v)
    decreases |a|, 0
  {
    var pw, pk := Placeholder(w), Placeholder(k);
    var mid := if w == k then v else pw;
    var s := a + pw + b;
    var rest := a[1..];
    NoMatchBeforePlaceholder(a, w, b, k);
    assert s[1..] == rest + pw + b;
    calc {
      ReplaceAll(s, pk, v);
      [a[0]] + ReplaceAll(rest + pw + b, pk, v);
      { ReplaceAroundPlaceholder(rest, w, b, k, v); }
      [a[0]] + (ReplaceAll(rest, pk, v) + mid + ReplaceAll(b, pk, v));
      ([a[0]] + ReplaceAll(rest, pk, v)) + mid + ReplaceAll(b, pk, v);
      ReplaceAll(a, pk, v) + mid + ReplaceAll(b, pk, v);
    }
  }



  /** A scan for `{{k}}` that starts on a placeholder `{{w}}` replaces it when
      `w` is `k` and steps over it otherwise. */
  lemma ReplaceAtPlaceholder(w: string, b: string, k: string, v: string)
    requires IsWord(w) && IsWord(k)
    ensures ReplaceAll(Placeholder(w) + b, Placeholder(k), v)
         == (if w == k then v else Placeholder(w)) + ReplaceAll(b, Placeholder(k), v)
  {
    var pw, pk := Placeholder(w), Placeholder(k);
    var s := pw + b;
    if w == k {
      assert StartsWith(s, pk);
      assert s[|pk|..] == b;
    } else {
      OtherPlaceholderNoMatch(w, b, k);
      assert s[1..] == pw[1..] + b;
      calc {
        ReplaceAll(s, pk, v);
        [pw[0]] + ReplaceAll(pw[1..] + b, pk, v);
        { ReplaceThroughTail(w, b, k, v); }
        [pw[0]] + (pw[1..] + ReplaceAll(b, pk, v));
        { assert pw == [pw[0]] + pw[1..]; }
        pw + ReplaceAll(b, pk, v);
      }
    }
  }

  /** The placeholder of one name does not start with the placeholder of another. */
  lemma OtherPlaceholderNoMatch(w: string, b: string, k: string)
    requires IsWord(w) && IsWord(k) && w != k
    ensures !StartsWith(Placeholder(w) + b, Placeholder(k))
  {
    var pw, pk := Placeholder(w), Placeholder(k);
    var s := pw + b;
    if |w| < |k| {
      assert s[|w| + 2] == pw[|w| + 2] == '}';
      assert pk[|w| + 2] == k[|w|];
      DiffersAt(s, pk, |w| + 2);
    } else if |w| > |k| {
      assert pk[|k| + 2] == '}';
      assert s[|k| + 2] == pw[|k| + 2] == w[|k|];
      DiffersAt(s, pk, |k| + 2);
    } else {
      assert exists d :: 0 <= d < |w| && w[d] != k[d];
      var d :| 0 <= d < |w| && w[d] != k[d];
      assert s[d + 2] == pw[d + 2] == w[d];
      assert pk[d + 2] == k[d];
      DiffersAt(s, pk, d + 2);
    }
  }

  /** When the text before a placeholder does not itself start with `{{k}}`,
      neither does the whole text: a match would have to reach into the
      placeholder, which begins with braces `{{k}}` cannot hold there. */
  lemma NoMatchBeforePlaceholder(a: string, w: string, b: string, k: string)
    requires IsWord(w) && IsWord(k) && |a| > 0
    requires !(|Placeholder(k)| <= |a| && StartsWith(a, Placeholder(k)))
    ensures !StartsWith(a + Placeholder(w) + b, Placeholder(k))
  {
    var pw, pk := Placeholder(w), Placeholder(k);
    var s := a + pw + b;
    if |pk| <= |a| {
      assert s[..|pk|] == a[..|pk|];
    } else if |a| == 1 {
      assert s[2] == pw[1] == '{';
      PlaceholderBraces(k, 2);
      DiffersAt(s, pk, 2);
    } else {
      assert s[|a|] == pw[0] == '{';
      PlaceholderBraces(k, |a|);
      DiffersAt(s, pk, |a|);
    }
  }

  /** A map's keys are all placeholder names, none of them all digits. */
  predicate WordKeys(m: ValueMap) {
    forall i :: 0 <= i < |m| ==> IsWord(m[i].0) && !AllDigits(m[i].0)
  }

  /** A placeholder whose name is not a key of the map survives substitution
      verbatim, and the text on either side of it is substituted on its own. */
  lemma {:induction false} SubstituteKeepsUnknown(a: string, w: string, b: string, m: ValueMap)
    requires IsWord(w) && WordKeys(m)
    requires forall i :: 0 <= i < |m| ==> m[i].0 != w
    ensures Substitute(a + Placeholder(w) + b, m) == Substitute(a, m) + Placeholder(w) + Substitute(b, m)
    decreases |m|
  {
    if |m| > 0 {
      ReplaceAroundPlaceholder(a, w, b, m[0].0, ValueToString(m[0].1));
      SubstituteKeepsUnknown(SubstituteOne(a, m[0].0, m[0].1), w, SubstituteOne(b, m[0].0, m[0].1), m[1..]);
    }
  }

  /** Text holding no placeholder of any key comes back unchanged. */
  lemma {:induction false} SubstituteNoMatches(text: string, m: ValueMap)
    requires forall i :: 0 <= i < |m| ==> !Contains(text, NamePattern(m[i].0))
    ensures Substitute(text, m) == text
    decreases |m|
  {
    if |m| > 0 {
      ReplaceAllAbsent(text, NamePattern(m[0].0), ValueToString(m[0].1));
      SubstituteNoMatches(text, m[1..]);
    }
  }

  /** One entry replaces every one of its placeholders: with a single entry the
      text around each occurrence is substituted on its own. */
  lemma SubstituteReplacesKey(a: string, k: string, b: string, v: Value)
    requires IsWord(k) && !AllDigits(k)
    ensures Substitute(a + Placeholder(k) + b, [(k, v)])
         == Substitute(a, [(k, v)]) + ValueToString(v) + Substitute(b, [(k, v)])
  {
    ReplaceAroundPlaceholder(a, k, b, k, ValueToString(v));
  }

  /** An all-digit name other than 0 never matches its own placeholder, so
      `{{n}}` survives the substitution of key n. */
  lemma DigitPlaceholderKept(k: string, v: Value)
    requires AllDigits(k) && DigitsValue(k) > 0
    ensures SubstituteOne(Placeholder(k), k, v) == Placeholder(k)
  {
    var pk, pat := Placeholder(k), NamePattern(k);
    var n := DigitsValue(k);
    assert pat[n - 1] == '{' && pat[n] == '}';
    forall i | 0 <= i <= |pk| - |pat| ensures !StartsWith(pk[i..], pat) {
      DiffersAt(pk[i..], pat, if i + n - 1 <= 1 then n else n - 1);
    }
    ReplaceAllAbsent(pk, pat, ValueToString(v));
  }

  /** The key 1 matches `{}`, not `{{1}}`. */
  lemma DigitKeyExample()
    ensures Substitute("{}{{1}}", [("1", Str("x"))]) == "x{{1}}"
  {
    assert DigitsValue("1") == 1;
    var pat := NamePattern("1");
    assert pat == "{}";
    var s := "{}{{1}}";
    assert StartsWith(s, pat);
    assert s[2..] == Placeholder("1");
    DigitPlaceholderKept("1", Str("x"));
  }


  // ---------------------------------------------------------------------------
  // The resolver
  // ---------------------------------------------------------------------------

  /** The two errors `resolvePromptVariable` throws. */
  datatype ResolveError = DepthExceeded | NotFound(id: string)

  /** The deepest frame allowed: a call with `depth > MaxDepth` throws. */
  const MaxDepth := 3

  /** `prompts.find((p) => p.id === id)`. */
  function Find(prompts: seq<PromptDoc>, id: string): (r: Option<PromptDoc>)
    ensures r.Some? ==> r.value in prompts && r.value.id == id
    ensures r.None? <==> forall i :: 0 <= i < |prompts| ==> prompts[i].id != id
  {
    if |prompts| == 0 then None
    else if prompts[0].id == id then Some(prompts[0])
    else Find(prompts[1..], id)
  }

  /** `resolvePromptVariable(id, prompts, values, depth)`: the depth bound is
      checked before the lookup; the found prompt's content is expanded variable
      by variable and then passed through `substituteVariables` with the whole map. */
  function Resolve(id: string, prompts: seq<PromptDoc>, values: ValueMap, depth: nat)
    : Result<string, ResolveError>
    decreases if depth > MaxDepth then 0 else MaxDepth + 1 - depth, 2, 0
  {
    if depth > MaxDepth then Err(DepthExceeded)
    else match Find(prompts, id)
      case None => Err(NotFound(id))
      case Some(p) => Ok(Substitute(Expand(p.content, p.variables, prompts, values, depth), values))
  }

  /** The loop over a prompt's declared variables, in declaration order. */
  function Expand(text: string, vars: seq<Variable>, prompts: seq<PromptDoc>, values: ValueMap, depth: nat)
    : string
    requires depth <= MaxDepth
    decreases MaxDepth + 1 - depth, 1, |vars|
  {
    if |vars| == 0 then text
    else Expand(ExpandOne(text, vars[0], prompts, values, depth), vars[1..], prompts, values, depth)
  }

  /** One iteration of that loop. A `prompt` variable with a truthy value has its
      placeholder replaced by the nested prompt resolved one level deeper, or by
      the value's text when that nested call fails; any other variable with a
      value has its placeholder replaced by the value's text. */
  function ExpandOne(text: string, v: Variable, prompts: seq<PromptDoc>, values: ValueMap, depth: nat)
    : string
    requires depth <= MaxDepth
    decreases MaxDepth + 1 - depth, 0, 0
  {
    match Lookup(values, v.name)
    case None => text
    case Some(val) =>
      if v.typ == PromptType && Truthy(val) then
        match Resolve(ValueToString(val), prompts, values, depth + 1)
        case Ok(nested) => ReplaceAll(text, NamePattern(v.name), nested)
        case Err(_) => ReplaceAll(text, NamePattern(v.name), ValueToString(val))
      else ReplaceAll(text, NamePattern(v.name), ValueToString(val))
  }

  /** `resolvePromptVariable`: reassigns the working text over the variables
      loop, calling itself one level deeper for nested prompts and catching
      their errors. */
  method ResolvePromptVariable(id: string, prompts: seq<PromptDoc>, values: ValueMap, depth: nat)
    returns (r: Result<string, ResolveError>)
    ensures r == Resolve(id, prompts, values, depth)
    decreases if depth > MaxDepth then 0 else MaxDepth + 1 - depth
  {
    if depth > MaxDepth {
      return Err(DepthExceeded);
    }
    var found := Find(prompts, id);
    if found.None? {
      return Err(NotFound(id));
    }
    var p := found.value;
    var resolved := p.content;
    var i := 0;
    while i < |p.variables|
      invariant 0 <= i <= |p.variables|
      invariant Expand(p.content, p.variables, prompts, values, depth)
             == Expand(resolved, p.variables[i..], prompts, values, depth)
    {
      var v := p.variables[i];
      assert p.variables[i..][1..] == p.variables[i + 1..];
      ghost var before := resolved;
      var val := Lookup(values, v.name);
      if v.typ == PromptType && val.Some? && Truthy(val.value) {
        var nested := ResolvePromptVariable(ValueToString(val.value), prompts, values, depth + 1);
        if nested.Ok? {
          resolved := ReplaceAll(resolved, NamePattern(v.name), nested.value);
        } else {
          resolved := ReplaceAll(resolved, NamePattern(v.name), ValueToString(val.value));
        }
      } else if val.Some? {
        resolved := ReplaceAll(resolved, NamePattern(v.name), ValueToString(val.value));
      }
      assert resolved == ExpandOne(before, v, prompts, values, depth);
      i := i + 1;
    }
    resolved := SubstituteVariables(resolved, values);
    r := Ok(resolved);
  }

  /** The depth check comes first: past the bound the call fails with
      `DepthExceeded` whether or not the id exists. */
  lemma ResolveDepthFirst(id: string, prompts: seq<PromptDoc>, values: ValueMap, depth: nat)
    requires depth > MaxDepth
    ensures Resolve(id, prompts, values, depth) == Err(DepthExceeded)
  {
  }

  /** Within the bound, a call fails exactly when the id names no prompt, and
      then with `NotFound`: every failure of a nested call is caught. */
  lemma ResolveFailsOnlyAtRoot(id: string, prompts: seq<PromptDoc>, values: ValueMap, depth: nat)
    requires depth <= MaxDepth
    ensures Resolve(id, prompts, values, depth).Err? <==> Find(prompts, id).None?
    ensures Resolve(id, prompts, values, depth).Err? ==> Resolve(id, prompts, values, depth).error == NotFound(id)
  {
  }

  /** A prompt with no variables resolves to its content with the map substituted. */
  lemma ResolveNoVariables(p: PromptDoc, prompts: seq<PromptDoc>, values: ValueMap, depth: nat)
    requires depth <= MaxDepth && Find(prompts, p.id) == Some(p) && p.variables == []
    ensures Resolve(p.id, prompts, values, depth) == Ok(Substitute(p.content, values))
  {
  }

  /** A prompt-typed variable whose value names a prompt that fails to resolve
      (no such prompt, or the bound is passed) is replaced by the value's text. */
  lemma ExpandFallsBack(text: string, v: Variable, prompts: seq<PromptDoc>, values: ValueMap, depth: nat)
    requires depth <= MaxDepth && v.typ == PromptType
    requires Lookup(values, v.name).Some? && Truthy(Lookup(values, v.name).value)
    requires depth == MaxDepth || Find(prompts, ValueToString(Lookup(values, v.name).value)).None?
    ensures ExpandOne(text, v, prompts, values, depth)
         == ReplaceAll(text, NamePattern(v.name), ValueToString(Lookup(values, v.name).value))
  {
  }

  /** One level of nesting: a prompt whose only variable is a `prompt`
      variable naming a prompt without variables resolves to its content with
      the placeholder replaced by the nested prompt's substituted text, and
      the map substituted over the result. */
  lemma NestedResolves(p: PromptDoc, q: PromptDoc, prompts: seq<PromptDoc>, values: ValueMap, depth: nat)
    requires depth < MaxDepth
    requires Find(prompts, p.id) == Some(p) && |p.variables| == 1 && p.variables[0].typ == PromptType
    requires Lookup(values, p.variables[0].name) == Some(Str(q.id)) && q.id != ""
    requires Find(prompts, q.id) == Some(q) && q.variables == []
    ensures Resolve(p.id, prompts, values, depth)
         == Ok(Substitute(ReplaceAll(p.content, NamePattern(p.variables[0].name), Substitute(q.content, values)), values))
  {
    var v := p.variables[0];
    var nested := Substitute(q.content, values);
    assert Expand(q.content, [], prompts, values, depth + 1) == q.content;
    assert Resolve(q.id, prompts, values, depth + 1) == Ok(nested);
    assert ValueToString(Str(q.id)) == q.id;
    var text := ReplaceAll(p.content, NamePattern(v.name), nested);
    assert ExpandOne(p.content, v, prompts, values, depth) == text;
    assert p.variables == [v];
    assert Expand(p.content, p.variables, prompts, values, depth) == Expand(text, [], prompts, values, depth);
  }



  // ---------------------------------------------------------------------------
  // Value validation
  // ---------------------------------------------------------------------------

  datatype ValueCheck = ValueCheck(valid: bool, error: Option<string>)

  const Accepted := ValueCheck(true, None)

  function Reject(message: string): ValueCheck {
    ValueCheck(false, Some(message))
  }

  /** The number a value stands for: `parseFloat` of text, the number itself, or none for NaN. */
  function NumericValue(v: Value): Option<int> {
    match v
    case Str(s) => ParseNumber(s)
    case Num(n) => Some(n)
    case NaN => None
  }

  /** The values a variable admits, stated per type without the error messages. */
  predicate Admits(v: Variable, value: Value) {
    match v.typ
    case StringType => value.Str?
    case PromptType => value.Str?
    case NumberType =>
      NumericValue(value).Some?
      && (v.config.min.None? || v.config.min.value <= NumericValue(value).value)
      && (v.config.max.None? || NumericValue(value).value <= v.config.max.value)
    case EnumType => v.config.options.Some? && ValueToString(value) in v.config.options.value
    case Unknown(_) => false
  }

  /** `validateVariableValue`: accepts exactly the values the variable admits,
      and gives an error message exactly when it rejects. */
  function ValidateVariableValue(v: Variable, value: Value): (r: ValueCheck)
    ensures r.valid <==> Admits(v, value)
    ensures r.valid <==> r.error.None?
  {
    match v.typ
    case StringType =>
      if !value.Str? then Reject("Value must be a string") else Accepted
    case NumberType =>
      var num := NumericValue(value);
      if num.None? then Reject("Value must be a number")
      else if v.config.min.Some? && num.value < v.config.min.value then
        Reject("Value must be at least " + IntToString(v.config.min.value))
      else if v.config.max.Some? && num.value > v.config.max.value then
        Reject("Value must be at most " + IntToString(v.config.max.value))
      else Accepted
    case EnumType =>
      if v.config.options.None? then Reject("Enum variable must have options")
      else if ValueToString(value) !in v.config.options.value then
        Reject("Value must be one of: " + Join(v.config.options.value, ", "))
      else Accepted
    case PromptType =>
      if !value.Str? then Reject("Value must be a prompt ID (string)") else Accepted
    case Unknown(tag) => Reject("Unknown variable type: " + tag)
  }

  /** The number checks run in order: not a number, then the minimum, then the maximum. */
  lemma NumberMessages(v: Variable, value: Value)
    requires v.typ == NumberType
    ensures NumericValue(value).None? ==>
      ValidateVariableValue(v, value).error == Some("Value must be a number")
    ensures NumericValue(value).Some? && v.config.min.Some? && NumericValue(value).value < v.config.min.value ==>
      ValidateVariableValue(v, value).error == Some("Value must be at least " + IntToString(v.config.min.value))
    ensures (NumericValue(value).Some? && (v.config.min.None? || v.config.min.value <= NumericValue(value).value)
      && v.config.max.Some? && NumericValue(value).value > v.config.max.value) ==>
      ValidateVariableValue(v, value).error == Some("Value must be at most " + IntToString(v.config.max.value))
  {
  }

  /** An empty option list is not refused as "must have options": every value
      is refused with the "one of" message listing no options. */
  lemma EmptyEnumOptions(v: Variable, value: Value)
    requires v.typ == EnumType && v.config.options == Some([])
    ensures ValidateVariableValue(v, value) == Reject("Value must be one of: ")
  {
    assert Join([], ", ") == "";
    assert "Value must be one of: " + "" == "Value must be one of: ";
  }

  /** Examples of the design with bounds 0..10. */
  lemma NumberExamples()
    ensures var n := Variable("n", NumberType, Config(Some(0), Some(10), None), 0);
      && ValidateVariableValue(n, Num(5)).valid
      && ValidateVariableValue(n, Num(-1)) == Reject("Value must be at least 0")
      && ValidateVariableValue(n, Num(11)) == Reject("Value must be at most 10")
  {
    var n := Variable("n", NumberType, Config(Some(0), Some(10), None), 0);
    SmallNumbersText();
    assert ValidateVariableValue(n, Num(-1)) == Reject("Value must be at least " + IntToString(0));
    assert "Value must be at least " + IntToString(0) == "Value must be at least 0";
    assert ValidateVariableValue(n, Num(11)) == Reject("Value must be at most " + IntToString(10));
    assert "Value must be at most " + IntToString(10) == "Value must be at most 10";
  }

  /** Text that does not start with a number is refused as a number. */
  lemma NotANumberRefused(v: Variable, text: string)
    requires v.typ == NumberType && |text| > 0
    requires !IsWhitespace(text[0]) && !IsDigit(text[0]) && text[0] != '-' && text[0] != '+'
    ensures ValidateVariableValue(v, Str(text)) == Reject("Value must be a number")
  {
    ParseNumberNoDigits(text);
  }

  lemma SmallNumbersText()
    ensures IntToString(0) == "0" && IntToString(10) == "10"
  {
    assert NatToString(10) == NatToString(1) + [DigitChar(0)];
  }

  /** Examples of the design with options a, b. */
  lemma EnumExamples()
    ensures var e := Variable("e", EnumType, Config(None, None, Some(["a", "b"])), 0);
      && ValidateVariableValue(e, Str("a")).valid
      && ValidateVariableValue(e, Str("c")) == Reject("Value must be one of: a, b")
  {
    var e := Variable("e", EnumType, Config(None, None, Some(["a", "b"])), 0);
    assert Join(["a", "b"], ", ") == "a, b" by {
      assert Join(["b"], ", ") == "b";
    }
    assert ValueToString(Str("c")) !in ["a", "b"];
    assert ValidateVariableValue(e, Str("c")) == Reject("Value must be one of: " + Join(["a", "b"], ", "));
    assert "Value must be one of: " + Join(["a", "b"], ", ") == "Value must be one of: a, b";
  }

}
