/** The JavaScript string operations the extension relies on, written out over
    `seq<char>`: `trim`, `split` on one character, `join`, `includes`,
    `startsWith`, `toLowerCase` (ASCII letters), a global literal `replace`,
    `String(n)` for integers and the integer prefix that `parseFloat` reads. */
module Text {
  import opened Wrappers

  // ---------------------------------------------------------------------------
  // Whitespace and trim
  // ---------------------------------------------------------------------------

  /** The characters ECMAScript counts as WhiteSpace or LineTerminator: those
      `String.prototype.trim` strips and the regular-expression class `\s` matches. */
  predicate IsWhitespace(c: char) {
    c == ' ' || c == '\t' || c == '\n' || c == '\r' || c == '\U{000B}' || c == '\U{000C}'
    || c == '\U{00A0}' || c == '\U{1680}' || ('\U{2000}' <= c <= '\U{200A}')
    || c == '\U{2028}' || c == '\U{2029}' || c == '\U{202F}' || c == '\U{205F}'
    || c == '\U{3000}' || c == '\U{FEFF}'
  }

  /** Every character of `s` is whitespace (so `s.trim()` is the empty, falsy string). */
  predicate IsBlank(s: string) {
    forall i :: 0 <= i < |s| ==> IsWhitespace(s[i])
  }

  /** `s.trimStart()`: the suffix left after dropping leading whitespace. */
  function TrimStart(s: string): (r: string)
    ensures |r| <= |s| && r == s[|s| - |r|..]
    ensures r != [] ==> !IsWhitespace(r[0])
    ensures forall i :: 0 <= i < |s| - |r| ==> IsWhitespace(s[i])
  {
    if |s| > 0 && IsWhitespace(s[0]) then TrimStart(s[1..]) else s
  }

  /** `s.trimEnd()`: the prefix left after dropping trailing whitespace. */
  function TrimEnd(s: string): (r: string)
    ensures |r| <= |s| && r == s[..|r|]
    ensures r != [] ==> !IsWhitespace(r[|r| - 1])
    ensures forall i :: |r| <= i < |s| ==> IsWhitespace(s[i])
  {
    if |s| > 0 && IsWhitespace(s[|s| - 1]) then TrimEnd(s[..|s| - 1]) else s
  }

  /** `s.trim()`: the slice of `s` between its leading and its trailing whitespace. */
  function Trim(s: string): (r: string)
    ensures Contains(s, r)
    ensures r != [] ==> !IsWhitespace(r[0]) && !IsWhitespace(r[|r| - 1])
    ensures r == [] <==> IsBlank(s)
  {
    var t := TrimStart(s);
    var r := TrimEnd(t);
    assert StartsWith(s[|s| - |t|..], r);
    TrimEmptyIsBlank(s, t, r);
    r
  }

  lemma TrimEmptyIsBlank(s: string, t: string, r: string)
    requires t == TrimStart(s) && r == TrimEnd(t)
    ensures r == [] <==> IsBlank(s)
  {
    if r == [] {
      assert |t| == 0;
    }
  }

  // ---------------------------------------------------------------------------
  // Prefixes, containment, lower case
  // ---------------------------------------------------------------------------

  /** `s.length` in JavaScript counts UTF-16 code units: a character beyond
      U+FFFF is a surrogate pair and counts twice. */
  function Utf16Length(s: string): (n: nat)
    ensures |s| <= n <= 2 * |s|
    decreases |s|
  {
    if |s| == 0 then 0
    else (if s[0] as int >= 0x1_0000 then 2 else 1) + Utf16Length(s[1..])
  }

  /** On text within the Basic Multilingual Plane the two lengths agree. */
  lemma {:induction false} Utf16LengthBmp(s: string)
    requires forall i :: 0 <= i < |s| ==> s[i] as int < 0x1_0000
    ensures Utf16Length(s) == |s|
    decreases |s|
  {
    if |s| > 0 {
      Utf16LengthBmp(s[1..]);
    }
  }

  /** `s.startsWith(p)`. */
  predicate StartsWith(s: string, p: string) {
    |p| <= |s| && s[..|p|] == p
  }

  /** A position where `s` and `p` disagree, or where `s` has ended, rules out
      `s.startsWith(p)`. */
  lemma DiffersAt(s: string, p: string, m: int)
    requires 0 <= m < |p| && (m >= |s| || s[m] != p[m])
    ensures !StartsWith(s, p)
  {
    if m < |s| && |p| <= |s| {
      assert s[..|p|][m] == s[m];
    }
  }

  /** `s.includes(sub)`: `sub` occurs in `s` at some position. */
  predicate Contains(s: string, sub: string) {
    exists i :: 0 <= i <= |s| - |sub| && StartsWith(s[i..], sub)
  }

  /** `toLowerCase` on one character, for the ASCII letters. */
  function LowerChar(c: char): char {
    if 'A' <= c <= 'Z' then (c as int + 32) as char else c
  }

  /** `s.toLowerCase()`, ASCII letters only. */
  function Lower(s: string): (r: string)
    ensures |r| == |s|
    ensures forall i :: 0 <= i < |s| ==> r[i] == LowerChar(s[i])
  {
    seq(|s|, i requires 0 <= i < |s| => LowerChar(s[i]))
  }

  /** Lower-casing distributes over the positions of a slice, so a lower-cased
      haystack contains a lower-cased needle where the originals line up. */
  lemma LowerSlice(s: string, i: int, j: int)
    requires 0 <= i <= j <= |s|
    ensures Lower(s)[i..j] == Lower(s[i..j])
  {
  }

  /** No element of `xs` appears twice. */
  predicate Distinct<T(==)>(xs: seq<T>) {
    forall i, j :: 0 <= i < j < |xs| ==> xs[i] != xs[j]
  }

  lemma DistinctTail<T>(xs: seq<T>)
    requires |xs| > 0 && Distinct(xs)
    ensures Distinct(xs[1..])
  {
    forall i, j | 0 <= i < j < |xs[1..]| ensures xs[1..][i] != xs[1..][j] {
      assert xs[1..][i] == xs[i + 1] && xs[1..][j] == xs[j + 1];
    }
  }

  lemma DistinctCons<T>(x: T, xs: seq<T>)
    requires Distinct(xs) && x !in xs
    ensures Distinct([x] + xs)
  {
    var r := [x] + xs;
    forall i, j | 0 <= i < j < |r| ensures r[i] != r[j] {
      assert r[j] == xs[j - 1];
      if i > 0 { assert r[i] == xs[i - 1]; }
    }
  }

  // ---------------------------------------------------------------------------
  // split and join
  // ---------------------------------------------------------------------------

  /** `parts.join(sep)`; the empty list joins to "". */
  function Join(parts: seq<string>, sep: string): string {
    if |parts| == 0 then ""
    else if |parts| == 1 then parts[0]
    else parts[0] + sep + Join(parts[1..], sep)
  }

  /** Joining one more piece adds the separator and the piece. */
  lemma {:induction false} JoinSnoc(xs: seq<string>, y: string, sep: string)
    requires |xs| > 0
    ensures Join(xs + [y], sep) == Join(xs, sep) + sep + y
    decreases |xs|
  {
    if |xs| == 1 {
      assert (xs + [y])[1..] == [y];
    } else {
      assert (xs + [y])[1..] == xs[1..] + [y];
      JoinSnoc(xs[1..], y, sep);
    }
  }

  /** `s.split(sep)` for a one-character separator: never an empty list, no
      piece holds the separator, and joining the pieces gives `s` back. */
  function Split(s: string, sep: char): (parts: seq<string>)
    ensures |parts| >= 1
    ensures forall k :: 0 <= k < |parts| ==> sep !in parts[k]
    ensures Join(parts, [sep]) == s
    decreases |s|
  {
    if |s| == 0 then [""]
    else
      var rest := Split(s[1..], sep);
      if s[0] == sep then
        assert s == [sep] + s[1..];
        [""] + rest
      else
        var r := [[s[0]] + rest[0]] + rest[1..];
        assert r[1..] == rest[1..];
        assert s == [s[0]] + s[1..];
        r
  }

  /** Splitting undoes joining when no piece holds the separator. */
  lemma {:induction false} SplitJoin(parts: seq<string>, sep: char)
    requires |parts| >= 1
    requires forall k :: 0 <= k < |parts| ==> sep !in parts[k]
    ensures Split(Join(parts, [sep]), sep) == parts
    decreases |parts|, |parts[0]|
  {
    var head := parts[0];
    if |head| == 0 {
      if |parts| == 1 {
      } else {
        var tail := Join(parts[1..], [sep]);
        assert Join(parts, [sep]) == [sep] + tail;
        SplitJoin(parts[1..], sep);
        assert ([sep] + tail)[1..] == tail;
      }
    } else {
      var shorter := [head[1..]] + parts[1..];
      assert shorter[1..] == parts[1..];
      assert sep !in head[1..] by { assert forall c :: c in head[1..] ==> c in head; }
      SplitJoin(shorter, sep);
      var j := Join(parts, [sep]);
      var js := Join(shorter, [sep]);
      if |parts| == 1 {
        assert j == head && js == head[1..];
      } else {
        assert j == head + [sep] + Join(parts[1..], [sep]);
        assert js == head[1..] + [sep] + Join(parts[1..], [sep]);
      }
      assert j == [head[0]] + js;
      assert j[1..] == js;
      assert j[0] == head[0] != sep;
      assert [head[0]] + head[1..] == head;
      assert parts == [head] + parts[1..];
    }
  }

  /** One step of `split`: the first character either ends the first piece
      or joins it. */
  lemma SplitStep(s: string, sep: char)
    requires |s| > 0
    ensures s[0] == sep ==> Split(s, sep) == [""] + Split(s[1..], sep)
    ensures s[0] != sep ==> Split(s, sep)[0] == [s[0]] + Split(s[1..], sep)[0]
    ensures s[0] != sep ==> Split(s, sep)[1..] == Split(s[1..], sep)[1..]
  {
  }

  /** The pieces of an all-whitespace string are all whitespace. */
  lemma {:induction false} SplitBlank(s: string, sep: char)
    requires IsBlank(s)
    ensures forall k :: 0 <= k < |Split(s, sep)| ==> IsBlank(Split(s, sep)[k])
    decreases |s|
  {
    if |s| > 0 {
      assert IsBlank(s[1..]) by {
        forall i | 0 <= i < |s| - 1 ensures IsWhitespace(s[1..][i]) {
          assert s[1..][i] == s[i + 1];
        }
      }
      SplitBlank(s[1..], sep);
      SplitStep(s, sep);
      if s[0] != sep {
        SplitBlankFirst(s, sep);
      }
    }
  }

  lemma SplitBlankFirst(s: string, sep: char)
    requires |s| > 0 && s[0] != sep && IsWhitespace(s[0])
    requires forall k :: 0 <= k < |Split(s[1..], sep)| ==> IsBlank(Split(s[1..], sep)[k])
    ensures forall k :: 0 <= k < |Split(s, sep)| ==> IsBlank(Split(s, sep)[k])
  {
    var sp := Split(s, sep);
    var rest := Split(s[1..], sep);
    SplitStep(s, sep);
    forall k | 0 <= k < |sp| ensures IsBlank(sp[k]) {
      if k == 0 {
        assert IsBlank(rest[0]);
        forall i | 0 <= i < |sp[0]| ensures IsWhitespace(sp[0][i]) {
          if i > 0 {
            assert sp[0][i] == rest[0][i - 1];
          }
        }
      } else {
        assert sp[k] == sp[1..][k - 1] == rest[1..][k - 1];
      }
    }
  }

  /** A piece before the first separator is split off whole. */
  lemma {:induction false} SplitCons(a: string, b: string, sep: char)
    requires sep !in a
    ensures Split(a + [sep] + b, sep) == [a] + Split(b, sep)
    decreases |a|
  {
    var s := a + [sep] + b;
    if |a| == 0 {
      assert s == [sep] + b && s[1..] == b;
    } else {
      assert s[1..] == a[1..] + [sep] + b;
      SplitCons(a[1..], b, sep);
      assert [a[0]] + a[1..] == a;
    }
  }

  /** A string without the separator splits into itself alone. */
  lemma {:induction false} SplitNoSep(s: string, sep: char)
    requires sep !in s
    ensures Split(s, sep) == [s]
    decreases |s|
  {
    if |s| > 0 {
      SplitNoSep(s[1..], sep);
      assert [s[0]] + s[1..] == s;
    }
  }

  /** Whitespace before a word that ends in a non-space is what `trim` removes. */
  lemma {:induction false} TrimPadded(pre: string, w: string)
    requires IsBlank(pre) && w != [] && !IsWhitespace(w[0]) && !IsWhitespace(w[|w| - 1])
    ensures Trim(pre + w) == w
    decreases |pre|
  {
    if |pre| == 0 {
      assert pre + w == w;
    } else {
      assert (pre + w)[1..] == pre[1..] + w;
      TrimPadded(pre[1..], w);
    }
  }

  /** `trim` keeps only characters of its argument. */
  lemma TrimKeepsOut(s: string, c: char)
    requires c !in s
    ensures c !in Trim(s)
  {
    var t := TrimStart(s);
    assert c !in t by {
      forall k | 0 <= k < |t| ensures t[k] != c {
        assert t[k] == s[|s| - |t| + k];
      }
    }
    var r := TrimEnd(t);
    forall k | 0 <= k < |r| ensures r[k] != c {
      assert r[k] == t[k];
    }
  }

  // ---------------------------------------------------------------------------
  // Global literal replace
  // ---------------------------------------------------------------------------

  /** `s.replace(new RegExp(p, "g"), v)` for a pattern that matches only itself:
      the occurrences of `p` are found left to right, each match resumes the scan
      after itself, and every match is replaced by `v`. */
  function ReplaceAll(s: string, p: string, v: string): string
    requires |p| > 0
    decreases |s|
  {
    if |s| == 0 then ""
    else if StartsWith(s, p) then v + ReplaceAll(s[|p|..], p, v)
    else [s[0]] + ReplaceAll(s[1..], p, v)
  }

  /** A text in which the pattern does not occur comes back unchanged. */
  lemma {:induction false} ReplaceAllAbsent(s: string, p: string, v: string)
    requires |p| > 0 && !Contains(s, p)
    ensures ReplaceAll(s, p, v) == s
    decreases |s|
  {
    if |s| > 0 {
      assert s[0..] == s;
      assert !Contains(s[1..], p) by {
        forall i | 0 <= i <= |s[1..]| - |p| ensures !StartsWith(s[1..][i..], p) {
          assert s[1..][i..] == s[i + 1..];
        }
      }
      ReplaceAllAbsent(s[1..], p, v);
    }
  }

  /** A prefix at none of whose positions the pattern starts is copied
      verbatim, and the scan carries on with what follows it. */
  lemma {:induction false} ReplaceSkips(t: string, b: string, p: string, v: string)
    requires |p| > 0
    requires forall i :: 0 <= i < |t| ==> !StartsWith(t[i..] + b, p)
    ensures ReplaceAll(t + b, p, v) == t + ReplaceAll(b, p, v)
    decreases |t|
  {
    if |t| == 0 {
      assert t + b == b;
    } else {
      var s := t + b;
      assert t[0..] == t;
      forall i | 0 <= i < |t| - 1 ensures !StartsWith(t[1..][i..] + b, p) {
        assert t[1..][i..] == t[i + 1..];
      }
      ReplaceSkips(t[1..], b, p, v);
      assert s[1..] == t[1..] + b;
      assert t == [t[0]] + t[1..];
    }
  }

  /** Replacing a pattern by itself changes nothing. */
  lemma {:induction false} ReplaceAllSelf(s: string, p: string)
    requires |p| > 0
    ensures ReplaceAll(s, p, p) == s
    decreases |s|
  {
    if |s| > 0 {
      if StartsWith(s, p) {
        ReplaceAllSelf(s[|p|..], p);
        assert s == p + s[|p|..];
      } else {
        ReplaceAllSelf(s[1..], p);
        assert s == [s[0]] + s[1..];
      }
    }
  }

  // ---------------------------------------------------------------------------
  // Integers as decimal text
  // ---------------------------------------------------------------------------

  predicate IsDigit(c: char) {
    '0' <= c <= '9'
  }

  function DigitChar(d: int): char
    requires 0 <= d < 10
  {
    ('0' as int + d) as char
  }

  function DigitValue(c: char): int
    requires IsDigit(c)
  {
    c as int - '0' as int
  }

  /** The value of a run of decimal digits. */
  function DigitsValue(ds: string): nat
    requires forall i :: 0 <= i < |ds| ==> IsDigit(ds[i])
  {
    if |ds| == 0 then 0 else DigitsValue(ds[..|ds| - 1]) * 10 + DigitValue(ds[|ds| - 1])
  }

  /** The canonical decimal digits of a natural number. */
  function NatToString(n: nat): (r: string)
    ensures |r| >= 1
    ensures forall i :: 0 <= i < |r| ==> IsDigit(r[i])
    ensures DigitsValue(r) == n
  {
    if n < 10 then [DigitChar(n)]
    else
      var r := NatToString(n / 10) + [DigitChar(n % 10)];
      assert r[..|r| - 1] == NatToString(n / 10);
      r
  }

  /** `String(n)` for an integer. */
  function IntToString(n: int): string {
    if n < 0 then "-" + NatToString(-n) else NatToString(n)
  }

  /** The longest prefix of `s` made of digits. */
  function LeadingDigits(s: string): (r: string)
    ensures |r| <= |s| && r == s[..|r|]
    ensures forall i :: 0 <= i < |r| ==> IsDigit(r[i])
    ensures |r| < |s| ==> !IsDigit(s[|r|])
  {
    if |s| > 0 && IsDigit(s[0]) then [s[0]] + LeadingDigits(s[1..]) else ""
  }

  /** The number `parseFloat` reads from the start of `s`, restricted to
      integers: leading whitespace, an optional sign, then at least one digit;
      whatever follows the digits is ignored. `None` stands for `NaN`. */
  function ParseNumber(s: string): Option<int> {
    var t := TrimStart(s);
    if |t| > 0 && t[0] == '-' then
      match ParseUnsigned(t[1..])
      case Some(m) => Some(-m)
      case None => None
    else if |t| > 0 && t[0] == '+' then ParseUnsigned(t[1..])
    else ParseUnsigned(t)
  }

  /** The value of the digits at the start of `b`, if there is at least one. */
  function ParseUnsigned(b: string): (r: Option<int>)
    ensures r.Some? ==> r.value >= 0
  {
    var ds := LeadingDigits(b);
    if |ds| == 0 then None else Some(DigitsValue(ds))
  }

  /** Text that starts with neither whitespace, a sign nor a digit reads as `NaN`. */
  lemma ParseNumberNoDigits(s: string)
    requires |s| > 0 && !IsWhitespace(s[0]) && !IsDigit(s[0]) && s[0] != '-' && s[0] != '+'
    ensures ParseNumber(s) == None
  {
    assert TrimStart(s) == s;
  }

  /** `String(n)` is read back by `parseFloat` as `n`. */
  lemma IntToStringParses(n: int)
    ensures ParseNumber(IntToString(n)) == Some(n)
  {
    if n < 0 {
      ParseNegativeDigits(IntToString(n), NatToString(-n));
    } else {
      ParseDigits(NatToString(n));
    }
  }

  /** A run of digits reads as its value. */
  lemma ParseDigits(ds: string)
    requires |ds| > 0 && forall i :: 0 <= i < |ds| ==> IsDigit(ds[i])
    ensures ParseNumber(ds) == Some(DigitsValue(ds))
  {
    assert !IsWhitespace(ds[0]);
    assert TrimStart(ds) == ds;
    ParseUnsignedDigits(ds);
  }

  /** A minus sign and a run of digits read as the negated value. */
  lemma ParseNegativeDigits(s: string, ds: string)
    requires |ds| > 0 && forall i :: 0 <= i < |ds| ==> IsDigit(ds[i])
    requires |s| > 0 && s[0] == '-' && s[1..] == ds
    ensures ParseNumber(s) == Some(-(DigitsValue(ds) as int))
  {
    ParseNegative(s);
    ParseUnsignedDigits(ds);
  }

  /** A leading minus sign negates what follows it. */
  lemma ParseNegative(s: string)
    requires |s| > 0 && s[0] == '-'
    ensures ParseNumber(s) == match ParseUnsigned(s[1..]) case Some(m) => Some(-m) case None => None
  {
    assert TrimStart(s) == s;
  }

  lemma ParseUnsignedDigits(ds: string)
    requires |ds| > 0 && forall i :: 0 <= i < |ds| ==> IsDigit(ds[i])
    ensures ParseUnsigned(ds) == Some(DigitsValue(ds) as int)
  {
    LeadingDigitsAll(ds);
  }

  /** A string of digits is its own longest digit prefix. */
  lemma {:induction false} LeadingDigitsAll(ds: string)
    requires forall i :: 0 <= i < |ds| ==> IsDigit(ds[i])
    ensures LeadingDigits(ds) == ds
  {
    if |ds| > 0 {
      LeadingDigitsAll(ds[1..]);
    }
  }
}
