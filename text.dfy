/** The Python string operations the scripts rely on, restricted to ASCII:
    `strip`/`lstrip`/`rstrip`, `lower`/`upper`/`capitalize`, substring `in`,
    `split(c)` and `split()`, `join`, `replace` of one character, `str(int)`,
    `int(str)` and `sorted` on strings. */
module Text {
  import opened Common

  /** The ASCII characters for which Python's `str.isspace` holds. */
  const Whitespace: set<char> :=
    {' ', '\t', '\n', '\r', '\U{0B}', '\U{0C}', '\U{1C}', '\U{1D}', '\U{1E}', '\U{1F}'}

  predicate IsSpace(c: char) {
    c in Whitespace
  }

  // ---------------------------------------------------------------------------
  // strip
  // ---------------------------------------------------------------------------

  /** Python's `s.lstrip(cs)`: the longest suffix of s that does not start with a character of cs. */
  function StripStart(s: string, cs: set<char>): (r: string)
    ensures |r| <= |s| && r == s[|s| - |r|..]
    ensures r == [] || r[0] !in cs
    ensures forall i :: 0 <= i < |s| - |r| ==> s[i] in cs
    decreases |s|
  {
    if |s| > 0 && s[0] in cs then StripStart(s[1..], cs) else s
  }

  /** Python's `s.rstrip(cs)`: the longest prefix of s that does not end with a character of cs. */
  function StripEnd(s: string, cs: set<char>): (r: string)
    ensures |r| <= |s| && r == s[..|r|]
    ensures r == [] || r[|r| - 1] !in cs
    ensures forall i :: |r| <= i < |s| ==> s[i] in cs
    decreases |s|
  {
    if |s| > 0 && s[|s| - 1] in cs then StripEnd(s[..|s| - 1], cs) else s
  }

  /** Python's `s.strip(cs)`. */
  function Strip(s: string, cs: set<char>): (r: string)
    ensures r == [] || (r[0] !in cs && r[|r| - 1] !in cs)
  {
    StripEnd(StripStart(s, cs), cs)
  }

  /** Python's `s.strip()`. */
  function Trim(s: string): string {
    Strip(s, Whitespace)
  }

  /** A string is its own strip exactly when it neither starts nor ends with a stripped character. */
  lemma StrippedIff(s: string, cs: set<char>)
    ensures Strip(s, cs) == s <==> (s == [] || (s[0] !in cs && s[|s| - 1] !in cs))
  {
    var r := Strip(s, cs);
    if s == [] {
      assert StripStart(s, cs) == [];
    } else if s[0] !in cs && s[|s| - 1] !in cs {
      var a := StripStart(s, cs);
      assert a == s;
      var b := StripEnd(a, cs);
      assert b == s;
    } else {
      assert r == [] || (r[0] !in cs && r[|r| - 1] !in cs);
    }
  }

  /** Stripping twice is stripping once. */
  lemma StripIdempotent(s: string, cs: set<char>)
    ensures Strip(Strip(s, cs), cs) == Strip(s, cs)
  {
    StrippedIff(Strip(s, cs), cs);
  }

  /** `x.strip()` is empty exactly when x is all whitespace. */
  lemma {:induction false} TrimEmptyIff(s: string)
    ensures Trim(s) == [] <==> forall i :: 0 <= i < |s| ==> IsSpace(s[i])
  {
    var t := StripStart(s, Whitespace);
    if t != [] {
      assert !IsSpace(s[|s| - |t|]);
    }
  }

  // ---------------------------------------------------------------------------
  // case
  // ---------------------------------------------------------------------------

  function LowerChar(c: char): char {
    if 'A' <= c <= 'Z' then (c as int + 32) as char else c
  }

  function UpperChar(c: char): char {
    if 'a' <= c <= 'z' then (c as int - 32) as char else c
  }

  /** Python's `s.lower()` on ASCII letters. */
  function Lower(s: string): (r: string)
    ensures |r| == |s| && forall i :: 0 <= i < |s| ==> r[i] == LowerChar(s[i])
  {
    seq(|s|, i requires 0 <= i < |s| => LowerChar(s[i]))
  }

  /** Python's `s.upper()` on ASCII letters. */
  function Upper(s: string): (r: string)
    ensures |r| == |s| && forall i :: 0 <= i < |s| ==> r[i] == UpperChar(s[i])
  {
    seq(|s|, i requires 0 <= i < |s| => UpperChar(s[i]))
  }

  /** Python's `s.capitalize()` on ASCII letters: first character upper, the rest lower. */
  function Capitalize(s: string): (r: string)
    ensures |r| == |s|
    ensures |s| > 0 ==> r[0] == UpperChar(s[0])
    ensures forall i :: 1 <= i < |s| ==> r[i] == LowerChar(s[i])
  {
    if |s| == 0 then "" else [UpperChar(s[0])] + Lower(s[1..])
  }

  lemma LowerIdempotent(s: string)
    ensures Lower(Lower(s)) == Lower(s)
  {
  }

  lemma LowerOfConcat(a: string, b: string)
    ensures Lower(a + b) == Lower(a) + Lower(b)
  {
  }

  /** Capitalizing a capitalized string changes nothing. */
  lemma CapitalizeIdempotent(s: string)
    ensures Capitalize(Capitalize(s)) == Capitalize(s)
  {
  }

  // ---------------------------------------------------------------------------
  // substring test
  // ---------------------------------------------------------------------------

  /** sub occurs in s starting at index i. */
  predicate OccursAt(s: string, sub: string, i: nat) {
    i + |sub| <= |s| && s[i..i + |sub|] == sub
  }

  /** Python's `sub in s`. */
  predicate Contains(s: string, sub: string)
    decreases |s|
  {
    sub <= s || (|s| > 0 && Contains(s[1..], sub))
  }

  /** `sub in s` holds exactly when sub occurs at some index of s. */
  lemma {:induction false} ContainsIff(s: string, sub: string)
    ensures Contains(s, sub) <==> exists i: nat :: OccursAt(s, sub, i)
    decreases |s|
  {
    if |s| > 0 {
      ContainsIff(s[1..], sub);
      if exists i: nat :: OccursAt(s, sub, i) {
        var i: nat :| OccursAt(s, sub, i);
        if i > 0 {
          assert s[1..][i - 1..i - 1 + |sub|] == s[i..i + |sub|];
          assert OccursAt(s[1..], sub, i - 1);
        } else {
          assert sub <= s;
        }
      }
      if Contains(s[1..], sub) {
        var i: nat :| OccursAt(s[1..], sub, i);
        assert s[i + 1..i + 1 + |sub|] == s[1..][i..i + |sub|];
        assert OccursAt(s, sub, i + 1);
      }
      if sub <= s {
        assert OccursAt(s, sub, 0);
      }
    } else {
      if exists i: nat :: OccursAt(s, sub, i) {
        var i: nat :| OccursAt(s, sub, i);
        assert sub == [];
      }
      if sub == [] {
        assert OccursAt(s, sub, 0);
      }
    }
  }

  /** What occurs in s occurs in every string that has s inside it. */
  lemma ContainsInfix(a: string, s: string, b: string, sub: string)
    requires Contains(s, sub)
    ensures Contains(a + s + b, sub)
  {
    ContainsIff(s, sub);
    var i: nat :| OccursAt(s, sub, i);
    assert (a + s + b)[|a| + i..|a| + i + |sub|] == s[i..i + |sub|];
    assert OccursAt(a + s + b, sub, |a| + i);
    ContainsIff(a + s + b, sub);
  }

  // ---------------------------------------------------------------------------
  // split and join
  // ---------------------------------------------------------------------------

  /** Python's `s.split(c)`: the pieces between occurrences of c; never empty. */
  function Split(s: string, c: char): (r: seq<string>)
    ensures |r| >= 1
    ensures forall i :: 0 <= i < |r| ==> c !in r[i]
    decreases |s|
  {
    if |s| == 0 then [""]
    else
      var rest := Split(s[1..], c);
      if s[0] == c then [""] + rest else [[s[0]] + rest[0]] + rest[1..]
  }

  /** Python's `sep.join(parts)`. */
  function Join(sep: string, parts: seq<string>): string
    decreases |parts|
  {
    if |parts| == 0 then ""
    else if |parts| == 1 then parts[0]
    else parts[0] + sep + Join(sep, parts[1..])
  }

  lemma JoinConsHead(sep: string, a: string, b: string, t: seq<string>)
    ensures Join(sep, [a + b] + t) == a + Join(sep, [b] + t)
  {
    if |t| > 0 {
      assert ([a + b] + t)[1..] == t;
      assert ([b] + t)[1..] == t;
    }
  }

  /** Joining the pieces of a split with the separator restores the string. */
  lemma {:induction false} SplitJoin(s: string, c: char)
    ensures Join([c], Split(s, c)) == s
    decreases |s|
  {
    if |s| > 0 {
      var rest := Split(s[1..], c);
      SplitJoin(s[1..], c);
      if s[0] == c {
        assert ([""] + rest)[1..] == rest;
        assert s == [c] + s[1..];
      } else {
        assert rest == [rest[0]] + rest[1..];
        JoinConsHead([c], [s[0]], rest[0], rest[1..]);
        assert s == [s[0]] + s[1..];
      }
    }
  }

  lemma {:induction false} SplitPrefix(w: string, t: string, c: char)
    requires c !in w
    ensures Split(w + t, c) == [w + Split(t, c)[0]] + Split(t, c)[1..]
    decreases |w|
  {
    if |w| > 0 {
      assert (w + t)[1..] == w[1..] + t;
      SplitPrefix(w[1..], t, c);
      assert [w[0]] + (w[1..] + Split(t, c)[0]) == w + Split(t, c)[0];
    } else {
      assert w + t == t;
      assert w + Split(t, c)[0] == Split(t, c)[0];
    }
  }

  /** Splitting parts joined by c gives the parts back, when no part holds c. */
  lemma {:induction false} JoinSplit(parts: seq<string>, c: char)
    requires |parts| >= 1
    requires forall i :: 0 <= i < |parts| ==> c !in parts[i]
    ensures Split(Join([c], parts), c) == parts
    decreases |parts|
  {
    if |parts| == 1 {
      SplitPrefix(parts[0], "", c);
      assert Split("", c) == [""];
      assert parts[0] + "" == parts[0];
      assert Join([c], parts) == parts[0];
    } else {
      JoinSplit(parts[1..], c);
      var tail := Join([c], parts[1..]);
      assert Join([c], parts) == parts[0] + ([c] + tail);
      SplitPrefix(parts[0], [c] + tail, c);
      assert ([c] + tail)[1..] == tail;
      assert Split([c] + tail, c) == [""] + parts[1..];
      assert parts[0] + "" == parts[0];
      assert parts == [parts[0]] + parts[1..];
    }
  }

  /** A character in neither the separator nor any part is not in the join. */
  lemma {:induction false} NotInJoin(sep: string, parts: seq<string>, c: char)
    requires c !in sep
    requires forall i :: 0 <= i < |parts| ==> c !in parts[i]
    ensures c !in Join(sep, parts)
    decreases |parts|
  {
    if |parts| > 1 {
      NotInJoin(sep, parts[1..], c);
    }
  }

  /** Every part occurs in the join. */
  lemma {:induction false} JoinHasPart(sep: string, parts: seq<string>, k: nat)
    requires k < |parts|
    ensures Contains(Join(sep, parts), parts[k])
    decreases |parts|
  {
    if |parts| == 1 {
      ContainsInfix("", parts[0], "", parts[0]) by {
        assert parts[0] <= parts[0];
      }
      assert "" + parts[0] + "" == parts[0];
    } else if k == 0 {
      ContainsInfix("", parts[0], sep + Join(sep, parts[1..]), parts[0]) by {
        assert parts[0] <= parts[0];
      }
      assert "" + parts[0] + (sep + Join(sep, parts[1..])) == Join(sep, parts);
    } else {
      JoinHasPart(sep, parts[1..], k - 1);
      ContainsInfix(parts[0] + sep, Join(sep, parts[1..]), "", parts[k]);
      assert parts[0] + sep + Join(sep, parts[1..]) + "" == Join(sep, parts);
    }
  }

  /** Python's `s.split(c, 1)[0]`: s up to its first c. */
  function BeforeFirst(s: string, c: char): (r: string)
    ensures r <= s && c !in r
    ensures c !in s ==> r == s
    ensures c in s ==> |r| < |s| && s[|r|] == c
  {
    if c in s then s[..FirstIndex(s, c)] else s
  }

  /** The text before the first c is the part that has no c. */
  lemma BeforeFirstOf(p: string, q: string, c: char)
    requires c !in p
    ensures BeforeFirst(p + [c] + q, c) == p
  {
    var s := p + [c] + q;
    var r := BeforeFirst(s, c);
    assert s[|p|] == c;
    assert |r| == |p|;
    assert s[..|p|] == p;
  }

  /** Python's `s.split(c, 1)[1]` when c occurs in s: s after its first c. */
  function AfterFirst(s: string, c: char): (r: string)
    requires c in s
    ensures s == BeforeFirst(s, c) + [c] + r
  {
    s[FirstIndex(s, c) + 1..]
  }

  /** Python's `s.replace(a, b)` for single characters. */
  function ReplaceChar(s: string, a: char, b: char): (r: string)
    ensures |r| == |s|
    ensures forall i :: 0 <= i < |s| ==> r[i] == (if s[i] == a then b else s[i])
  {
    seq(|s|, i requires 0 <= i < |s| => if s[i] == a then b else s[i])
  }

  lemma ReplaceAbsent(s: string, a: char, b: char)
    requires a !in s
    ensures ReplaceChar(s, a, b) == s
  {
  }

  /** Replacing characters works piece by piece. */
  lemma ReplaceConcat(x: string, y: string, a: char, b: char)
    ensures ReplaceChar(x + y, a, b) == ReplaceChar(x, a, b) + ReplaceChar(y, a, b)
  {
    var l := ReplaceChar(x + y, a, b);
    var r := ReplaceChar(x, a, b) + ReplaceChar(y, a, b);
    assert |l| == |r|;
    forall i | 0 <= i < |l|
      ensures l[i] == r[i]
    {
      if i < |x| {
        assert (x + y)[i] == x[i];
      } else {
        assert (x + y)[i] == y[i - |x|];
      }
    }
  }

  /** Replacing the separator of a join replaces the separator and nothing else. */
  lemma {:induction false} ReplaceJoin(parts: seq<string>, a: char, b: char)
    requires forall i :: 0 <= i < |parts| ==> a !in parts[i]
    ensures ReplaceChar(Join([a], parts), a, b) == Join([b], parts)
    decreases |parts|
  {
    if |parts| == 1 {
      ReplaceAbsent(parts[0], a, b);
    } else if |parts| > 1 {
      ReplaceJoin(parts[1..], a, b);
      var t := Join([a], parts[1..]);
      ReplaceAbsent(parts[0], a, b);
      assert ReplaceChar(parts[0] + [a] + t, a, b)
          == ReplaceChar(parts[0], a, b) + [b] + ReplaceChar(t, a, b);
    }
  }

  // ---------------------------------------------------------------------------
  // split on whitespace
  // ---------------------------------------------------------------------------

  /** A non-empty string with no whitespace in it. */
  predicate IsWord(w: string) {
    w != [] && forall j :: 0 <= j < |w| ==> !IsSpace(w[j])
  }

  /** Python's `s.split()`: the maximal runs of non-whitespace characters. */
  function Words(s: string): (r: seq<string>)
    ensures forall i :: 0 <= i < |r| ==> IsWord(r[i])
    ensures |s| > 0 && !IsSpace(s[0]) ==> |r| > 0 && r[0] != [] && r[0][0] == s[0]
    decreases |s|
  {
    if |s| == 0 then []
    else if IsSpace(s[0]) then Words(s[1..])
    else
      var rest := Words(s[1..]);
      if |s| > 1 && !IsSpace(s[1]) then [[s[0]] + rest[0]] + rest[1..]
      else [[s[0]]] + rest
  }

  lemma {:induction false} WordsOfWordThen(w: string, t: string)
    requires IsWord(w)
    requires t == [] || IsSpace(t[0])
    ensures Words(w + t) == [w] + Words(t)
    decreases |w|
  {
    var s := w + t;
    assert s[1..] == w[1..] + t;
    if |w| > 1 {
      WordsOfWordThen(w[1..], t);
      assert [w[0]] + w[1..] == w;
    } else {
      assert s[1..] == t;
      assert w == [w[0]];
    }
  }

  /** Leading whitespace separates no word. */
  lemma {:induction false} WordsOfBlanksThen(sp: string, t: string)
    requires forall j :: 0 <= j < |sp| ==> IsSpace(sp[j])
    ensures Words(sp + t) == Words(t)
    decreases |sp|
  {
    if |sp| > 0 {
      assert (sp + t)[1..] == sp[1..] + t;
      WordsOfBlanksThen(sp[1..], t);
    } else {
      assert sp + t == t;
    }
  }

  lemma WordsOfSpaceThen(t: string)
    ensures Words(" " + t) == Words(t)
  {
    assert (" " + t)[1..] == t;
  }

  /** Splitting words joined by spaces gives the words back. */
  lemma {:induction false} WordsJoin(ws: seq<string>)
    requires forall i :: 0 <= i < |ws| ==> IsWord(ws[i])
    ensures Words(Join(" ", ws)) == ws
    decreases |ws|
  {
    if |ws| == 1 {
      WordsOfWordThen(ws[0], "");
      assert ws[0] + "" == ws[0];
    } else if |ws| > 1 {
      WordsJoin(ws[1..]);
      var t := Join(" ", ws[1..]);
      assert Join(" ", ws) == ws[0] + (" " + t);
      WordsOfWordThen(ws[0], " " + t);
      WordsOfSpaceThen(t);
      assert ws == [ws[0]] + ws[1..];
    }
  }

  // ---------------------------------------------------------------------------
  // decimal numbers
  // ---------------------------------------------------------------------------

  predicate IsDigit(c: char) {
    '0' <= c <= '9'
  }

  predicate IsAsciiAlnum(c: char) {
    IsDigit(c) || ('a' <= c <= 'z') || ('A' <= c <= 'Z')
  }

  function DigitOf(c: char): nat
    requires IsDigit(c)
  {
    c as int - '0' as int
  }

  function DigitChar(d: nat): (c: char)
    requires d < 10
    ensures IsDigit(c)
  {
    ('0' as int + d) as char
  }

  /** Python's `str(n)` for a natural number. */
  function NatToString(n: nat): (r: string)
    ensures |r| > 0 && forall i :: 0 <= i < |r| ==> IsDigit(r[i])
    decreases n
  {
    if n < 10 then [DigitChar(n)] else NatToString(n / 10) + [DigitChar(n % 10)]
  }

  /** Python's `str(i)` for an integer. */
  function IntToString(i: int): string {
    if i < 0 then "-" + NatToString(-i) else NatToString(i)
  }

  /** The digits of a Python integer literal: digits, with single underscores between them. */
  predicate IsDigitRun(s: string) {
    && |s| > 0 && IsDigit(s[0]) && IsDigit(s[|s| - 1])
    && (forall i :: 0 <= i < |s| ==> IsDigit(s[i]) || s[i] == '_')
    && (forall i :: 0 <= i < |s| - 1 ==> s[i] == '_' ==> s[i + 1] != '_')
  }

  /** The value of a run of digits and underscores, the underscores ignored. */
  function DigitsValue(s: string): nat
    requires forall i :: 0 <= i < |s| ==> IsDigit(s[i]) || s[i] == '_'
    decreases |s|
  {
    if |s| == 0 then 0
    else if s[|s| - 1] == '_' then DigitsValue(s[..|s| - 1])
    else
      assert IsDigit(s[|s| - 1]);
      10 * DigitsValue(s[..|s| - 1]) + DigitOf(s[|s| - 1])
  }

  /** Python's `int(s)` for base 10 on ASCII: surrounding whitespace, an optional sign,
      digits with single underscores between them; None where Python raises ValueError. */
  function ParseInt(s: string): (r: Option<int>)
    ensures r.Some? ==> Trim(s) != []
  {
    var t := Trim(s);
    if |t| > 0 && (t[0] == '-' || t[0] == '+') then
      if IsDigitRun(t[1..]) then
        Some(if t[0] == '-' then -(DigitsValue(t[1..]) as int) else DigitsValue(t[1..]))
      else None
    else if IsDigitRun(t) then Some(DigitsValue(t))
    else None
  }

  lemma {:induction false} DigitsValueOfNat(n: nat)
    ensures DigitsValue(NatToString(n)) == n
    decreases n
  {
    if n >= 10 {
      DigitsValueOfNat(n / 10);
      var s := NatToString(n);
      assert s[..|s| - 1] == NatToString(n / 10);
    }
  }

  lemma NatToStringIsDigitRun(n: nat)
    ensures IsDigitRun(NatToString(n))
  {
  }

  lemma TrimIntToString(i: int)
    ensures Trim(IntToString(i)) == IntToString(i)
  {
    var s := IntToString(i);
    var d := if i < 0 then NatToString(-i) else NatToString(i);
    assert s[|s| - 1] == d[|d| - 1];
    assert IsDigit(d[0]) && IsDigit(d[|d| - 1]);
    assert !IsSpace(s[0]) && !IsSpace(s[|s| - 1]);
    StrippedIff(s, Whitespace);
  }

  /** `int(str(i)) == i`. */
  lemma ParseIntOfIntToString(i: int)
    ensures ParseInt(IntToString(i)) == Some(i)
  {
    var s := IntToString(i);
    var d := if i < 0 then NatToString(-i) else NatToString(i);
    TrimIntToString(i);
    if i < 0 {
      DigitsValueOfNat(-i);
      NatToStringIsDigitRun(-i);
      assert s[1..] == d;
    } else {
      DigitsValueOfNat(i);
      NatToStringIsDigitRun(i);
      assert s[0] != '-' && s[0] != '+';
    }
  }

  // ---------------------------------------------------------------------------
  // sorting
  // ---------------------------------------------------------------------------

  /** Python's `<=` on strings: lexicographic by code point. */
  predicate LexLe(a: string, b: string)
    decreases |a|
  {
    |a| == 0 || (|b| > 0 && (a[0] < b[0] || (a[0] == b[0] && LexLe(a[1..], b[1..]))))
  }

  lemma {:induction false} LexLeTotal(a: string, b: string)
    ensures LexLe(a, b) || LexLe(b, a)
    decreases |a|
  {
    if |a| > 0 && |b| > 0 && a[0] == b[0] {
      LexLeTotal(a[1..], b[1..]);
    }
  }

  lemma {:induction false} LexLeTransitive(a: string, b: string, c: string)
    requires LexLe(a, b) && LexLe(b, c)
    ensures LexLe(a, c)
    decreases |a|
  {
    if |a| > 0 && a[0] == b[0] && b[0] == c[0] {
      LexLeTransitive(a[1..], b[1..], c[1..]);
    }
  }

  predicate Sorted(s: seq<string>) {
    forall i, j :: 0 <= i < j < |s| ==> LexLe(s[i], s[j])
  }

  function Insert(x: string, s: seq<string>): seq<string>
    decreases |s|
  {
    if |s| == 0 then [x]
    else if LexLe(x, s[0]) then [x] + s
    else [s[0]] + Insert(x, s[1..])
  }

  /** Python's `sorted(s)` on strings. */
  function SortStrings(s: seq<string>): seq<string>
    decreases |s|
  {
    if |s| == 0 then [] else Insert(s[0], SortStrings(s[1..]))
  }

  lemma {:induction false} InsertMultiset(x: string, s: seq<string>)
    ensures multiset(Insert(x, s)) == multiset(s) + multiset{x}
    decreases |s|
  {
    if |s| > 0 && !LexLe(x, s[0]) {
      InsertMultiset(x, s[1..]);
      assert s == [s[0]] + s[1..];
    }
  }

  lemma {:induction false} InsertElements(x: string, s: seq<string>)
    ensures forall z :: z in Insert(x, s) <==> z == x || z in s
    decreases |s|
  {
    if |s| > 0 && !LexLe(x, s[0]) {
      InsertElements(x, s[1..]);
      assert s == [s[0]] + s[1..];
    }
  }

  /** Every element of s after its head is at least the head. */
  lemma SortedHead(s: seq<string>, z: string)
    requires Sorted(s) && |s| > 0 && z in s[1..]
    ensures LexLe(s[0], z)
  {
    var m :| 0 <= m < |s[1..]| && s[1..][m] == z;
    assert s[m + 1] == z;
  }

  lemma {:induction false} InsertProperties(x: string, s: seq<string>)
    requires Sorted(s)
    ensures Sorted(Insert(x, s))
    ensures multiset(Insert(x, s)) == multiset(s) + multiset{x}
    decreases |s|
  {
    InsertMultiset(x, s);
    if |s| > 0 {
      if !LexLe(x, s[0]) {
        LexLeTotal(x, s[0]);
        InsertProperties(x, s[1..]);
        InsertElements(x, s[1..]);
        var t := Insert(x, s[1..]);
        forall z | z in t
          ensures LexLe(s[0], z)
        {
          if z != x {
            SortedHead(s, z);
          }
        }
        SortedCons(s[0], t);
      } else {
        forall z | z in s
          ensures LexLe(x, z)
        {
          if z != s[0] {
            SortedHead(s, z);
            LexLeTransitive(x, s[0], z);
          }
        }
        SortedCons(x, s);
      }
    }
  }

  /** Putting a lower bound in front of a sorted sequence keeps it sorted. */
  lemma SortedCons(y: string, t: seq<string>)
    requires Sorted(t)
    requires forall z :: z in t ==> LexLe(y, z)
    ensures Sorted([y] + t)
  {
    var r := [y] + t;
    forall i, j | 0 <= i < j < |r|
      ensures LexLe(r[i], r[j])
    {
      assert r[j] == t[j - 1];
      if i > 0 {
        assert r[i] == t[i - 1];
      }
    }
  }

  /** `sorted(s)` is sorted and holds exactly the elements of s. */
  lemma {:induction false} SortStringsProperties(s: seq<string>)
    ensures Sorted(SortStrings(s))
    ensures multiset(SortStrings(s)) == multiset(s)
    decreases |s|
  {
    if |s| > 0 {
      SortStringsProperties(s[1..]);
      InsertProperties(s[0], SortStrings(s[1..]));
      assert s == [s[0]] + s[1..];
    }
  }

  // ---------------------------------------------------------------------------
  // trimmed, non-blank chunks
  // ---------------------------------------------------------------------------

  /** Every element, stripped. */
  function Trims(xs: seq<string>): (r: seq<string>)
    ensures |r| == |xs| && forall i :: 0 <= i < |xs| ==> r[i] == Trim(xs[i])
  {
    seq(|xs|, i requires 0 <= i < |xs| => Trim(xs[i]))
  }

  predicate NonEmpty(s: string) {
    s != []
  }

  /** The trimmed elements that are not blank, in order. */
  function KeptTokens(xs: seq<string>): seq<string> {
    Filter(Trims(xs), NonEmpty)
  }

  lemma TrimsAppend(xs: seq<string>, x: string)
    ensures Trims(xs + [x]) == Trims(xs) + [Trim(x)]
  {
  }

  /** One more element: kept, trimmed, exactly when it does not trim to nothing. */
  lemma KeptTokensStep(xs: seq<string>, i: nat)
    requires i < |xs|
    ensures KeptTokens(xs[..i + 1]) == KeptTokens(xs[..i]) + (if Trim(xs[i]) != [] then [Trim(xs[i])] else [])
  {
    assert xs[..i + 1] == xs[..i] + [xs[i]];
    TrimsAppend(xs[..i], xs[i]);
    FilterAppend(Trims(xs[..i]), Trim(xs[i]), NonEmpty);
  }
}
