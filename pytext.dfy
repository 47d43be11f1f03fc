/**
 * The Python `str` built-ins that the ledger loader and the vendor
 * classifier rely on: `strip()`, `split(',')`, `upper()`, `title()`,
 * substring search (`in`, `re.search` on a literal) and the `.*` of a
 * regular expression, which stops at a line feed.
 *
 * Case mapping covers ASCII letters only; every other character is treated
 * as uncased.
 */
module PyText {
  import opened Wrappers

  // ---------------------------------------------------------------------
  // Whitespace and str.strip()
  // ---------------------------------------------------------------------

  /** Python's `str.isspace()` for a single character. */
  predicate IsSpace(c: char) {
    ('\t' <= c <= '\r') || ('\U{1c}' <= c <= '\U{1f}') || c == ' '
    || c == '\U{85}' || c == '\U{a0}' || c == '\U{1680}'
    || ('\U{2000}' <= c <= '\U{200a}') || c == '\U{2028}' || c == '\U{2029}'
    || c == '\U{202f}' || c == '\U{205f}' || c == '\U{3000}'
  }

  predicate AllSpace(s: string) {
    forall k :: 0 <= k < |s| ==> IsSpace(s[k])
  }

  /** Number of whitespace characters at the front of `s`. */
  function LeadingSpaces(s: string): (n: nat)
    ensures n <= |s|
    ensures forall k :: 0 <= k < n ==> IsSpace(s[k])
    ensures n < |s| ==> !IsSpace(s[n])
  {
    if s == [] || !IsSpace(s[0]) then 0 else 1 + LeadingSpaces(s[1..])
  }

  /** Number of whitespace characters at the back of `s`. */
  function TrailingSpaces(s: string): (n: nat)
    ensures n <= |s|
    ensures forall k :: |s| - n <= k < |s| ==> IsSpace(s[k])
    ensures n < |s| ==> !IsSpace(s[|s| - 1 - n])
  {
    if s == [] || !IsSpace(s[|s| - 1]) then 0 else 1 + TrailingSpaces(s[..|s| - 1])
  }

  /**
   * `r` is what `s.strip()` gives: a slice of `s` with only whitespace cut
   * from either end, that neither begins nor ends with whitespace.
   */
  ghost predicate StripsTo(s: string, r: string) {
    (r == [] || (!IsSpace(r[0]) && !IsSpace(r[|r| - 1])))
    && exists i :: 0 <= i <= |s| - |r| && s[i..i + |r|] == r
                   && AllSpace(s[..i]) && AllSpace(s[i + |r|..])
  }

  /** Python's `s.strip()` with no argument. */
  function Strip(s: string): (r: string)
    ensures |r| <= |s|
    ensures r == [] || (!IsSpace(r[0]) && !IsSpace(r[|r| - 1]))
  {
    var a := LeadingSpaces(s);
    var t := s[a..];
    t[..|t| - TrailingSpaces(t)]
  }

  /** `Strip` cuts only whitespace, and all of it, from either end. */
  lemma StripCharacterized(s: string)
    ensures StripsTo(s, Strip(s))
  {
    var a := LeadingSpaces(s);
    var t := s[a..];
    var b := TrailingSpaces(t);
    var r := t[..|t| - b];
    assert r == Strip(s);
    assert r == s[a..a + |r|];
    assert s[a + |r|..] == t[|t| - b..];
    assert AllSpace(s[..a]) && AllSpace(s[a + |r|..]);
  }

  /** What a witness of `StripsTo` says about the characters of `s`. */
  lemma SpaceAround(s: string, i: int, r: string)
    requires 0 <= i <= |s| - |r| && s[i..i + |r|] == r
    requires AllSpace(s[..i]) && AllSpace(s[i + |r|..])
    ensures forall k :: 0 <= k < i ==> IsSpace(s[k])
    ensures forall k :: i + |r| <= k < |s| ==> IsSpace(s[k])
    ensures r != [] ==> s[i] == r[0] && s[i + |r| - 1] == r[|r| - 1]
  {
    assert forall k :: 0 <= k < i ==> s[..i][k] == s[k];
    assert forall k :: i + |r| <= k < |s| ==> s[i + |r|..][k - i - |r|] == s[k];
  }

  /** `StripsTo` pins the result down: `strip()` has exactly one answer. */
  lemma StripsToUnique(s: string, r1: string, r2: string)
    requires StripsTo(s, r1) && StripsTo(s, r2)
    ensures r1 == r2
  {
    var i1 :| 0 <= i1 <= |s| - |r1| && s[i1..i1 + |r1|] == r1
              && AllSpace(s[..i1]) && AllSpace(s[i1 + |r1|..]);
    var i2 :| 0 <= i2 <= |s| - |r2| && s[i2..i2 + |r2|] == r2
              && AllSpace(s[..i2]) && AllSpace(s[i2 + |r2|..]);
    SpaceAround(s, i1, r1);
    SpaceAround(s, i2, r2);
    // A non-empty result starts at the first non-space character of s and
    // ends at the last one, so both witnesses locate the same slice.
    assert r1 != [] && r2 != [] ==> i1 == i2 && |r1| == |r2|;
  }

  /** A line is blank for `not line.strip()` exactly when it is all whitespace. */
  lemma StripEmptyIff(s: string)
    ensures Strip(s) == [] <==> AllSpace(s)
  {
    var r := Strip(s);
    StripCharacterized(s);
    var i :| 0 <= i <= |s| - |r| && s[i..i + |r|] == r
             && AllSpace(s[..i]) && AllSpace(s[i + |r|..]);
    SpaceAround(s, i, r);
    if AllSpace(s) {
      assert s[..0] == [] && s[0..0] == [] && s[0..] == s;
      assert StripsTo(s, []);
      StripsToUnique(s, [], r);
    }
  }

  /** A string that neither begins nor ends with whitespace is its own strip. */
  lemma StripUnchanged(s: string)
    requires s == [] || (!IsSpace(s[0]) && !IsSpace(s[|s| - 1]))
    ensures Strip(s) == s
  {
    assert s[0..|s|] == s;
    assert s[..0] == [] && s[|s|..] == [];
    assert StripsTo(s, s);
    StripCharacterized(s);
    StripsToUnique(s, s, Strip(s));
  }

  /** Text with whitespace only around it strips to the text: a line with its `"\n"` strips to its content. */
  lemma StripAround(lead: string, r: string, trail: string)
    requires AllSpace(lead) && AllSpace(trail)
    requires r == [] || (!IsSpace(r[0]) && !IsSpace(r[|r| - 1]))
    ensures Strip(lead + r + trail) == r
  {
    var s := lead + r + trail;
    var i := |lead|;
    assert s[i..i + |r|] == r;
    assert s[..i] == lead;
    assert s[i + |r|..] == trail;
    assert StripsTo(s, r);
    StripCharacterized(s);
    StripsToUnique(s, r, Strip(s));
  }

  /** `strip()` only removes characters. */
  lemma StripKeepsOut(s: string, c: char)
    requires c !in s
    ensures c !in Strip(s)
  {
    var r := Strip(s);
    assert forall k :: 0 <= k < |r| ==> r[k] == s[LeadingSpaces(s) + k];
  }

  /** `strip()` is idempotent. */
  lemma StripIdempotent(s: string)
    ensures Strip(Strip(s)) == Strip(s)
  {
    StripUnchanged(Strip(s));
  }

  // ---------------------------------------------------------------------
  // str.split(sep) and its inverse sep.join(fields)
  // ---------------------------------------------------------------------

  /** `sep.join(fields)` for a single-character separator. */
  function Join(fields: seq<string>, sep: char): string
    requires |fields| > 0
  {
    if |fields| == 1 then fields[0] else fields[0] + [sep] + Join(fields[1..], sep)
  }

  /** How many times `c` occurs in `s`, Python's `s.count(c)`. */
  function Count(s: string, c: char): nat {
    if s == [] then 0 else (if s[0] == c then 1 else 0) + Count(s[1..], c)
  }

  /**
   * Python's `s.split(sep)` for a single-character separator: one field more
   * than there are separators, no field contains the separator, and joining
   * the fields again gives back `s`.
   */
  function Split(s: string, sep: char): (fields: seq<string>)
    ensures |fields| == Count(s, sep) + 1
    ensures forall k :: 0 <= k < |fields| ==> sep !in fields[k]
    ensures Join(fields, sep) == s
  {
    if s == [] then [[]]
    else
      var rest := Split(s[1..], sep);
      var fields := if s[0] == sep then [[]] + rest else [[s[0]] + rest[0]] + rest[1..];
      SplitStep(s, sep, rest, fields);
      fields
  }

  /** One character more in front: the step of `Split`'s recursion. */
  lemma SplitStep(s: string, sep: char, rest: seq<string>, fields: seq<string>)
    requires s != [] && |rest| > 0
    requires |rest| == Count(s[1..], sep) + 1
    requires forall k :: 0 <= k < |rest| ==> sep !in rest[k]
    requires Join(rest, sep) == s[1..]
    requires fields == if s[0] == sep then [[]] + rest else [[s[0]] + rest[0]] + rest[1..]
    ensures |fields| == Count(s, sep) + 1
    ensures forall k :: 0 <= k < |fields| ==> sep !in fields[k]
    ensures Join(fields, sep) == s
  {
    if s[0] == sep {
      SplitStepAtSeparator(s, sep, rest);
    } else {
      SplitStepInField(s, sep, rest);
    }
  }

  /** A separator in front starts a new, empty first field. */
  lemma SplitStepAtSeparator(s: string, sep: char, rest: seq<string>)
    requires s != [] && s[0] == sep && |rest| > 0
    requires |rest| == Count(s[1..], sep) + 1
    requires forall k :: 0 <= k < |rest| ==> sep !in rest[k]
    requires Join(rest, sep) == s[1..]
    ensures |[[]] + rest| == Count(s, sep) + 1
    ensures forall k :: 0 <= k < |[[]] + rest| ==> sep !in ([[]] + rest)[k]
    ensures Join([[]] + rest, sep) == s
  {
    var fields: seq<string> := [[]] + rest;
    assert fields[1..] == rest;
    assert s == [sep] + s[1..];
  }

  /** Any other character in front joins the first field. */
  lemma SplitStepInField(s: string, sep: char, rest: seq<string>)
    requires s != [] && s[0] != sep && |rest| > 0
    requires |rest| == Count(s[1..], sep) + 1
    requires forall k :: 0 <= k < |rest| ==> sep !in rest[k]
    requires Join(rest, sep) == s[1..]
    ensures |[[s[0]] + rest[0]] + rest[1..]| == Count(s, sep) + 1
    ensures forall k :: 0 <= k < |rest| ==> sep !in ([[s[0]] + rest[0]] + rest[1..])[k]
    ensures Join([[s[0]] + rest[0]] + rest[1..], sep) == s
  {
    var fields := [[s[0]] + rest[0]] + rest[1..];
    assert forall k :: 1 <= k < |fields| ==> fields[k] == rest[k];
    JoinConsChar(s[0], rest, sep);
    assert s == [s[0]] + s[1..];
  }

  /** Putting a character in front of the first field puts it in front of the join. */
  lemma JoinConsChar(c: char, rest: seq<string>, sep: char)
    requires |rest| > 0
    ensures Join([[c] + rest[0]] + rest[1..], sep) == [c] + Join(rest, sep)
  {
    var fields := [[c] + rest[0]] + rest[1..];
    assert fields[1..] == rest[1..];
    if |rest| > 1 {
      calc {
        Join(fields, sep);
        ([c] + rest[0]) + [sep] + Join(rest[1..], sep);
        [c] + (rest[0] + [sep] + Join(rest[1..], sep));
      }
    }
  }

  /** Splitting a join of separator-free fields gives the fields back. */
  lemma {:induction false} SplitJoin(fields: seq<string>, sep: char)
    requires |fields| > 0
    requires forall k :: 0 <= k < |fields| ==> sep !in fields[k]
    ensures Split(Join(fields, sep), sep) == fields
  {
    var s := Join(fields, sep);
    var r := Split(s, sep);
    // Both are separator-free splittings of s; they agree field by field.
    SplitUnique(s, sep, fields, r);
  }

  /** Where the first field of a join ends, and what follows it. */
  lemma JoinFront(f: seq<string>, sep: char)
    requires |f| > 0
    requires forall k :: 0 <= k < |f| ==> sep !in f[k]
    ensures |f[0]| <= |Join(f, sep)| && Join(f, sep)[..|f[0]|] == f[0]
    ensures |f| == 1 ==> sep !in Join(f, sep)
    ensures |f| > 1 ==> |f[0]| < |Join(f, sep)| && Join(f, sep)[|f[0]|] == sep
                        && Join(f, sep)[|f[0]| + 1..] == Join(f[1..], sep)
  {
    var s := Join(f, sep);
    if |f| > 1 {
      assert s == f[0] + ([sep] + Join(f[1..], sep));
    }
  }

  /** The last field of a join ends it. */
  lemma {:induction false} JoinBack(f: seq<string>, sep: char)
    requires |f| > 0
    ensures |f[|f| - 1]| <= |Join(f, sep)|
    ensures Join(f, sep)[|Join(f, sep)| - |f[|f| - 1]|..] == f[|f| - 1]
  {
    if |f| > 1 {
      JoinBack(f[1..], sep);
      var r := Join(f[1..], sep);
      var s := Join(f, sep);
      assert s == (f[0] + [sep]) + r;
      assert s[|s| - |f[|f| - 1]|..] == r[|r| - |f[|f| - 1]|..];
    }
  }

  /** Two separator-free field lists that join to the same string are equal. */
  lemma {:induction false} SplitUnique(s: string, sep: char, f: seq<string>, g: seq<string>)
    requires |f| > 0 && |g| > 0
    requires forall k :: 0 <= k < |f| ==> sep !in f[k]
    requires forall k :: 0 <= k < |g| ==> sep !in g[k]
    requires Join(f, sep) == s && Join(g, sep) == s
    ensures f == g
    decreases |s|
  {
    JoinFront(f, sep);
    JoinFront(g, sep);
    // The first separator of s ends both first fields.
    assert |f| > 1 ==> sep !in s[..|f[0]|];
    assert |g| > 1 ==> sep !in s[..|g[0]|];
    if |f| > 1 && |g| > 1 {
      assert f[0] == g[0];
      SplitUnique(s[|f[0]| + 1..], sep, f[1..], g[1..]);
      assert f == [f[0]] + f[1..];
      assert g == [g[0]] + g[1..];
    }
  }

  // ---------------------------------------------------------------------
  // Case mapping: str.upper() and str.title() on ASCII letters
  // ---------------------------------------------------------------------

  predicate IsUpperLetter(c: char) { 'A' <= c <= 'Z' }
  predicate IsLowerLetter(c: char) { 'a' <= c <= 'z' }
  predicate IsLetter(c: char) { IsUpperLetter(c) || IsLowerLetter(c) }

  function UpperChar(c: char): (u: char)
    ensures IsLetter(u) == IsLetter(c)
    ensures IsLetter(c) ==> IsUpperLetter(u)
  {
    if IsLowerLetter(c) then (c as int - 32) as char else c
  }

  function LowerChar(c: char): (l: char)
    ensures IsLetter(l) == IsLetter(c)
    ensures IsLetter(c) ==> IsLowerLetter(l)
  {
    if IsUpperLetter(c) then (c as int + 32) as char else c
  }

  /** Python's `s.upper()`: every letter upper-cased, nothing else changed. */
  function Upper(s: string): (u: string)
    ensures |u| == |s|
    ensures forall k :: 0 <= k < |s| ==> u[k] == UpperChar(s[k])
  {
    if s == [] then [] else [UpperChar(s[0])] + Upper(s[1..])
  }

  /** How `title()` rewrites one character, given whether the character before it is a letter. */
  function TitleChar(afterLetter: bool, c: char): char {
    if afterLetter then LowerChar(c) else UpperChar(c)
  }

  /** The loop of Python's `str.title()`, carrying "the previous character was cased". */
  function TitleFrom(afterLetter: bool, s: string): string
    decreases |s|
  {
    if s == [] then [] else [TitleChar(afterLetter, s[0])] + TitleFrom(IsLetter(s[0]), s[1..])
  }

  /** Each character of the loop's output depends only on that character and the one before it. */
  lemma {:induction false} TitleFromChars(afterLetter: bool, s: string)
    ensures |TitleFrom(afterLetter, s)| == |s|
    ensures forall k :: 0 <= k < |s| ==>
              TitleFrom(afterLetter, s)[k] == TitleChar(if k == 0 then afterLetter else IsLetter(s[k - 1]), s[k])
    decreases |s|
  {
    if s != [] {
      TitleFromChars(IsLetter(s[0]), s[1..]);
      assert forall k :: 1 <= k < |s| ==> s[1..][k - 1] == s[k];
    }
  }

  /**
   * Python's `s.title()`: a letter is upper-cased when it starts the string
   * or follows a non-letter, and lower-cased otherwise.
   */
  function Title(s: string): (r: string)
    ensures |r| == |s|
    ensures forall k :: 0 <= k < |s| ==>
              r[k] == (if k == 0 || !IsLetter(s[k - 1]) then UpperChar(s[k]) else LowerChar(s[k]))
  {
    TitleFromChars(false, s);
    TitleFrom(false, s)
  }

  /** Title-casing a concatenation title-cases the second part in the light of the first part's last character. */
  lemma {:induction false} TitleFromAppend(afterLetter: bool, a: string, b: string)
    ensures TitleFrom(afterLetter, a + b)
            == TitleFrom(afterLetter, a) + TitleFrom(if a == [] then afterLetter else IsLetter(a[|a| - 1]), b)
    decreases |a|
  {
    if a == [] {
      assert a + b == b;
    } else {
      var c, tail := a[0], a[1..];
      assert a == [c] + tail;
      assert a + b == [c] + (tail + b);
      TitleFromCons(afterLetter, c, tail);
      TitleFromCons(afterLetter, c, tail + b);
      TitleFromAppend(IsLetter(c), tail, b);
      assert tail != [] ==> tail[|tail| - 1] == a[|a| - 1];
    }
  }

  /** The first step of `TitleFrom`'s loop. */
  lemma TitleFromCons(afterLetter: bool, c: char, s: string)
    ensures TitleFrom(afterLetter, [c] + s) == [TitleChar(afterLetter, c)] + TitleFrom(IsLetter(c), s)
  {
    assert ([c] + s)[0] == c && ([c] + s)[1..] == s;
  }

  /** A word of one upper-case letter followed by lower-case letters. */
  predicate Capitalised(w: string) {
    |w| > 0 && IsUpperLetter(w[0]) && forall k :: 1 <= k < |w| ==> IsLowerLetter(w[k])
  }

  /** After a letter, `title()` leaves a run of lower-case letters as it is. */
  lemma {:induction false} TitleKeepsLowerRun(s: string)
    requires forall k :: 0 <= k < |s| ==> IsLowerLetter(s[k])
    ensures TitleFrom(true, s) == s
  {
    if s != [] {
      TitleFromCons(true, s[0], s[1..]);
      assert s == [s[0]] + s[1..];
      TitleKeepsLowerRun(s[1..]);
    }
  }

  /** `title()` leaves a capitalised word as it is. */
  lemma CapitalisedTitle(w: string)
    requires Capitalised(w)
    ensures Title(w) == w
  {
    assert w == [w[0]] + w[1..];
    TitleFromCons(false, w[0], w[1..]);
    TitleKeepsLowerRun(w[1..]);
  }

  /** `title()` leaves a title-cased phrase as it is when a space and a capitalised word are added to it. */
  lemma TitledPhrase(a: string, b: string)
    requires |a| > 0 && Title(a) == a && |b| > 0 && b[0] == ' ' && Capitalised(b[1..])
    ensures Title(a + b) == a + b
  {
    TitleFromAppend(false, a, b);
    assert b == [' '] + b[1..];
    TitleFromCons(IsLetter(a[|a| - 1]), ' ', b[1..]);
    CapitalisedTitle(b[1..]);
  }

  /** `title()` ignores the case it is given. */
  lemma TitleOfUpper(s: string)
    ensures Title(Upper(s)) == Title(s)
  {
    var u := Upper(s);
    var a, b := Title(u), Title(s);
    forall k | 0 <= k < |s| ensures a[k] == b[k] {
      CaseMapsOfUpper(s[k]);
      if k > 0 { assert IsLetter(u[k - 1]) == IsLetter(s[k - 1]); }
    }
  }

  lemma CaseMapsOfUpper(c: char)
    ensures UpperChar(UpperChar(c)) == UpperChar(c)
    ensures LowerChar(UpperChar(c)) == LowerChar(c)
    ensures UpperChar(LowerChar(c)) == UpperChar(c)
  {
  }

  /** `title()` changes letters only, so it keeps whitespace and line feeds where they were. */
  lemma TitleKeepsNonLetters(s: string, k: nat)
    requires k < |s|
    ensures IsSpace(Title(s)[k]) == IsSpace(s[k])
    ensures (Title(s)[k] == '\n') == (s[k] == '\n')
  {
    var c, t := s[k], Title(s)[k];
    assert t == if k == 0 || !IsLetter(s[k - 1]) then UpperChar(c) else LowerChar(c);
    if IsLetter(c) {
      assert IsLetter(t);
    } else {
      assert t == c;
    }
  }

  /** A string with no lower-case letter is its own upper-case form. */
  lemma UpperUnchanged(s: string)
    requires forall k :: 0 <= k < |s| ==> !IsLowerLetter(s[k])
    ensures Upper(s) == s
  {
  }

  /** `upper()` is idempotent. */
  lemma UpperIdempotent(s: string)
    ensures Upper(Upper(s)) == Upper(s)
  {
    forall k | 0 <= k < |s| ensures Upper(Upper(s))[k] == Upper(s)[k] {
      CaseMapsOfUpper(s[k]);
    }
  }

  /** Upper-casing a title-cased string is the same as upper-casing the original. */
  lemma UpperOfTitle(s: string)
    ensures Upper(Title(s)) == Upper(s)
  {
    var t := Title(s);
    forall k | 0 <= k < |s| ensures Upper(t)[k] == Upper(s)[k] {
      CaseMapsOfUpper(s[k]);
      assert t[k] == if k == 0 || !IsLetter(s[k - 1]) then UpperChar(s[k]) else LowerChar(s[k]);
    }
  }

  // ---------------------------------------------------------------------
  // Substring search
  // ---------------------------------------------------------------------

  /** `pat` occurs in `s` starting at index `i`. */
  predicate OccursAt(s: string, pat: string, i: int) {
    0 <= i && i + |pat| <= |s| && s[i..i + |pat|] == pat
  }

  /** Compares `pat` with `s` from index `i` on, one character at a time. */
  predicate PrefixAt(s: string, pat: string, i: nat)
    decreases |pat|
  {
    if pat == [] then i <= |s|
    else i < |s| && s[i] == pat[0] && PrefixAt(s, pat[1..], i + 1)
  }

  lemma {:induction false} PrefixAtIff(s: string, pat: string, i: nat)
    ensures PrefixAt(s, pat, i) <==> OccursAt(s, pat, i)
    decreases |pat|
  {
    if pat != [] {
      PrefixAtIff(s, pat[1..], i + 1);
      if i + |pat| <= |s| {
        assert s[i..i + |pat|] == [s[i]] + s[i + 1..i + 1 + |pat[1..]|];
        assert pat == [pat[0]] + pat[1..];
      }
    }
  }

  /** The leftmost occurrence of `pat` in `s` at or after `from`, as `str.find` does it. */
  function FindFrom(s: string, pat: string, from: nat): (r: Option<nat>)
    ensures r.Some? ==> from <= r.value && OccursAt(s, pat, r.value)
    ensures r.Some? ==> forall k :: from <= k < r.value ==> !OccursAt(s, pat, k)
    ensures r.None? ==> forall k :: from <= k ==> !OccursAt(s, pat, k)
    decreases |s| - from
  {
    if from + |pat| > |s| then None
    else
      PrefixAtIff(s, pat, from);
      if PrefixAt(s, pat, from) then Some(from)
      else FindFrom(s, pat, from + 1)
  }

  /** Python's `pat in s`: `pat` occurs somewhere in `s`. */
  predicate Contains(s: string, pat: string) {
    exists i :: 0 <= i <= |s| - |pat| && OccursAt(s, pat, i)
  }

  /** `str.find` finds a leftmost occurrence exactly when `pat in s` holds. */
  lemma FindFromAgrees(s: string, pat: string)
    ensures Contains(s, pat) <==> FindFrom(s, pat, 0).Some?
  {
  }

  /** Every character of a pattern that occurs in `s` occurs in `s`. */
  lemma ContainsHasChars(s: string, pat: string, k: nat)
    requires k < |pat|
    ensures Contains(s, pat) ==> pat[k] in s
  {
    if Contains(s, pat) {
      var i :| 0 <= i <= |s| - |pat| && OccursAt(s, pat, i);
      assert s[i..i + |pat|][k] == s[i + k];
    }
  }

  /**
   * What the regular-expression `.*` matches from the start of `s`: the
   * longest prefix without a line feed.
   */
  function TakeLine(s: string): (r: string)
    ensures |r| <= |s| && r == s[..|r|]
    ensures '\n' !in r
    ensures |r| < |s| ==> s[|r|] == '\n'
  {
    if s == [] || s[0] == '\n' then []
    else
      var rest := TakeLine(s[1..]);
      assert [s[0]] + rest == s[..|rest| + 1];
      [s[0]] + rest
  }

  /**
   * `re.search("A.*B", s)` for literal `A` and `B`: some occurrence of `A`
   * is followed, later on the same line, by an occurrence of `B`.
   */
  predicate MatchesThen(s: string, a: string, b: string) {
    exists i, j :: 0 <= i && i + |a| <= j <= |s| - |b| && OccursAt(s, a, i) && OccursAt(s, b, j)
                   && '\n' !in s[i + |a|..j]
  }

  /** The longest line-feed-free prefix of a line-feed-free string is the string itself. */
  lemma TakeLineWhole(s: string)
    requires '\n' !in s
    ensures TakeLine(s) == s
  {
    assert s[..|s|] == s;
  }

  /** `A.*B` can only match where `A` occurs. */
  lemma ThenNeedsFirst(s: string, a: string, b: string)
    ensures MatchesThen(s, a, b) ==> Contains(s, a)
  {
  }

  /** `A.*B` can only match where `B` occurs. */
  lemma ThenNeedsSecond(s: string, a: string, b: string)
    ensures MatchesThen(s, a, b) ==> Contains(s, b)
  {
  }
}
