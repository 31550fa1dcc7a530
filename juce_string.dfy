/**
 * The members of juce::String and juce::StringArray that the client relies on, with
 * JUCE's behaviour: searches are case-sensitive; fromFirstOccurrenceOf gives "" when the
 * marker is absent and upToFirstOccurrenceOf gives the whole string; fromTokens keeps
 * empty pieces but turns "" into no tokens at all; matchesWildcard follows JUCE's
 * WildCardMatcher, where '*' matches any run of characters and '?' any one character.
 */
module JuceString {

  /** True when `key` occurs in `s` starting at index `p`. */
  predicate OccursAt(s: string, key: string, p: int) {
    0 <= p && p + |key| <= |s| && s[p..p + |key|] == key
  }

  /** The search behind String::indexOf: the first occurrence of `key` at or after `from`, or -1. */
  function IndexFrom(s: string, key: string, from: nat): (r: int)
    decreases |s| - from
    ensures r == -1 || (from <= r && OccursAt(s, key, r))
    ensures forall p :: from <= p && (r == -1 || p < r) ==> !OccursAt(s, key, p)
  {
    if from + |key| > |s| then -1
    else if s[from..from + |key|] == key then from
    else IndexFrom(s, key, from + 1)
  }

  /** String::indexOf (an empty key is found at index 0). */
  function IndexOf(s: string, key: string): int {
    IndexFrom(s, key, 0)
  }

  /** String::contains, which is case-sensitive. */
  predicate Contains(s: string, key: string) {
    IndexOf(s, key) >= 0
  }

  /** The index IndexOf reports is the first place where the key occurs. */
  lemma IndexOfIsFirst(s: string, key: string, p: int)
    requires OccursAt(s, key, p)
    requires forall q :: 0 <= q < p ==> !OccursAt(s, key, q)
    ensures IndexOf(s, key) == p
  {
  }

  lemma ContainsWhenOccurs(s: string, key: string, p: int)
    requires OccursAt(s, key, p)
    ensures Contains(s, key)
  {
  }

  /**
   * An occurrence of `key` in `a + [c] + b` lies wholly inside `a` or wholly inside `b`
   * when the separator `c` is not a character of `key`.
   */
  lemma {:induction false} ContainsAcrossSeparator(a: string, c: char, b: string, key: string)
    requires c !in key
    requires Contains(a + [c] + b, key)
    ensures Contains(a, key) || Contains(b, key)
  {
    var s := a + [c] + b;
    var p := IndexOf(s, key);
    assert forall j :: 0 <= j < |key| ==> key[j] == s[p + j];
    assert s[|a|] == c;
    if p + |key| <= |a| {
      assert a[p..p + |key|] == key;
      ContainsWhenOccurs(a, key, p);
    } else if p > |a| {
      assert b[p - |a| - 1..p - |a| - 1 + |key|] == key;
      ContainsWhenOccurs(b, key, p - |a| - 1);
    }
  }

  /** Every character of an occurring key is a character of the text. */
  lemma OccurrenceHasChar(s: string, key: string, p: int, c: char)
    requires OccursAt(s, key, p) && c in key
    ensures c in s
  {
    var j :| 0 <= j < |key| && key[j] == c;
    assert s[p..p + |key|][j] == s[p + j];
  }

  /** A text lacking one of the key's characters does not contain the key. */
  lemma MissingCharNotContained(s: string, key: string, c: char)
    requires c in key && c !in s
    ensures !Contains(s, key)
  {
    if Contains(s, key) {
      OccurrenceHasChar(s, key, IndexOf(s, key), c);
    }
  }

  /**
   * When the key's character at `j` is missing from `a`, an occurrence of the key in
   * `a + b` places the key from `j` on wholly inside `b`.
   */
  lemma OccurrenceReachesTail(a: string, b: string, key: string, p: int, j: nat)
    requires OccursAt(a + b, key, p) && j < |key| && key[j] !in a
    ensures p + j >= |a| && OccursAt(b, key[j..], p + j - |a|)
  {
    var s := a + b;
    assert s[p..p + |key|][j] == s[p + j];
    assert s[p + j] == key[j];
    assert forall i :: 0 <= i < |key| - j ==> key[j..][i] == s[p + j + i];
    assert b[p + j - |a|..p + |key| - |a|] == key[j..];
  }

  /** A key that first occurs inside `a` first occurs at the same place in `a + b`. */
  lemma IndexOfInPrefix(a: string, b: string, key: string)
    requires Contains(a, key)
    ensures IndexOf(a + b, key) == IndexOf(a, key)
  {
    var p := IndexOf(a, key);
    assert (a + b)[p..p + |key|] == a[p..p + |key|];
    forall q | 0 <= q < p ensures !OccursAt(a + b, key, q) {
      assert !OccursAt(a, key, q);
      assert (a + b)[q..q + |key|] == a[q..q + |key|];
    }
    IndexOfIsFirst(a + b, key, p);
  }

  /** A key placed between two texts is contained in the result. */
  lemma ContainsBetween(a: string, key: string, b: string)
    ensures Contains(a + key + b, key)
  {
    assert (a + key + b)[|a|..|a| + |key|] == key;
    ContainsWhenOccurs(a + key + b, key, |a|);
  }

  /**
   * String::fromFirstOccurrenceOf(sub, false, false): what follows the first occurrence
   * of `sub`, or "" when `sub` does not occur.
   */
  function FromFirstOccurrenceOf(s: string, sub: string): (r: string)
    ensures !Contains(s, sub) ==> r == ""
    ensures Contains(s, sub) ==>
      exists p :: OccursAt(s, sub, p) && (forall q :: 0 <= q < p ==> !OccursAt(s, sub, q))
                  && r == s[p + |sub|..]
  {
    var i := IndexOf(s, sub);
    if i < 0 then "" else s[i + |sub|..]
  }

  /**
   * String::upToFirstOccurrenceOf(sub, false, false): what precedes the first occurrence
   * of `sub`, or the whole string when `sub` does not occur.
   */
  function UpToFirstOccurrenceOf(s: string, sub: string): (r: string)
    ensures !Contains(s, sub) ==> r == s
    ensures Contains(s, sub) ==>
      exists p :: OccursAt(s, sub, p) && (forall q :: 0 <= q < p ==> !OccursAt(s, sub, q))
                  && r == s[..p]
  {
    var i := IndexOf(s, sub);
    if i < 0 then s else s[..i]
  }

  /** String::indexOfChar. */
  function IndexOfChar(s: string, c: char): int {
    IndexOf(s, [c])
  }

  lemma IndexOfCharAbsent(s: string, c: char)
    requires c !in s
    ensures IndexOfChar(s, c) == -1
  {
    forall p | 0 <= p && p + 1 <= |s| ensures !OccursAt(s, [c], p) {
      assert s[p..p + 1][0] == s[p];
    }
  }

  lemma IndexOfCharAt(s: string, c: char, i: nat)
    requires i < |s| && s[i] == c
    requires c !in s[..i]
    ensures IndexOfChar(s, c) == i
  {
    assert s[i..i + 1] == [c];
    forall q | 0 <= q < i ensures !OccursAt(s, [c], q) {
      assert s[..i][q] == s[q];
      assert s[q..q + 1][0] == s[q];
    }
    IndexOfIsFirst(s, [c], i);
  }

  /** A character that is present is found at its first position. */
  lemma IndexOfCharFirst(s: string, c: char)
    requires c in s
    ensures 0 <= IndexOfChar(s, c) < |s| && s[IndexOfChar(s, c)] == c && c !in s[..IndexOfChar(s, c)]
  {
    var k :| 0 <= k < |s| && s[k] == c;
    assert s[k..k + 1] == [c];
    ContainsWhenOccurs(s, [c], k);
    var i := IndexOfChar(s, c);
    assert s[i..i + 1][0] == s[i];
    forall q | 0 <= q < i ensures s[q] != c {
      assert !OccursAt(s, [c], q);
      assert s[q..q + 1] == [s[q]];
    }
  }

  /** A key whose first character is missing from `a` cannot start inside `a`. */
  lemma KeyStartsAfter(a: string, b: string, key: string)
    requires key != [] && key[0] !in a
    ensures forall q :: 0 <= q < |a| ==> !OccursAt(a + b, key, q)
  {
    forall q | 0 <= q < |a| ensures !OccursAt(a + b, key, q) {
      if q + |key| <= |a + b| {
        assert (a + b)[q..q + |key|][0] == a[q];
      }
    }
  }

  /** The characters CharacterFunctions::isWhitespace accepts in the ASCII range. */
  predicate IsWhitespace(c: char) {
    c == ' ' || '\t' <= c <= '\r'
  }

  /** CharPointer::findEndOfWhitespace: the first index from `k` on that is not whitespace. */
  function EndOfWhitespace(s: string, k: nat): (n: nat)
    requires k <= |s|
    decreases |s| - k
    ensures k <= n <= |s| && (n == |s| || !IsWhitespace(s[n]))
    ensures forall i :: k <= i < n ==> IsWhitespace(s[i])
  {
    if k < |s| && IsWhitespace(s[k]) then EndOfWhitespace(s, k + 1) else k
  }

  /** String::findTrimmedEnd: the end `e` moved back over whitespace, but not before `a`. */
  function TrimmedEnd(s: string, a: nat, e: nat): (b: nat)
    requires a <= e <= |s|
    ensures a <= b <= e && (b == a || !IsWhitespace(s[b - 1]))
    ensures forall i :: b <= i < e ==> IsWhitespace(s[i])
  {
    if a < e && IsWhitespace(s[e - 1]) then TrimmedEnd(s, a, e - 1) else e
  }

  /** `r` is the slice of `s` at `a`, with nothing but whitespace cut away on either side. */
  predicate TrimmedFrom(s: string, r: string, a: int) {
    0 <= a && a + |r| <= |s| && r == s[a..a + |r|]
    && (forall i :: 0 <= i < a ==> IsWhitespace(s[i]))
    && (forall i :: a + |r| <= i < |s| ==> IsWhitespace(s[i]))
  }

  /**
   * String::trim: the result is a slice of `s` with no whitespace at either end, and
   * everything cut away on either side is whitespace.
   */
  function Trim(s: string): (r: string)
    ensures IsTrimmed(s, r)
  {
    var a := EndOfWhitespace(s, 0);
    var b := TrimmedEnd(s, a, |s|);
    assert TrimmedFrom(s, s[a..b], a);
    s[a..b]
  }

  /** `r` is `s` trimmed: a slice of `s` with only whitespace around it and none at its own ends. */
  ghost predicate IsTrimmed(s: string, r: string) {
    (r == [] || (!IsWhitespace(r[0]) && !IsWhitespace(r[|r| - 1])))
    && exists a :: TrimmedFrom(s, r, a)
  }

  /** A text whose trimmed form is empty is all whitespace. */
  lemma EmptyTrimIsWhitespace(s: string, a: int)
    requires TrimmedFrom(s, [], a)
    ensures forall i :: 0 <= i < |s| ==> IsWhitespace(s[i])
  {
  }

  /** Two trimmed slices of one text that neither start nor end with whitespace are the same slice. */
  lemma TrimmedSlicesAgree(s: string, r: string, a: int, t: string, b: int)
    requires TrimmedFrom(s, r, a) && TrimmedFrom(s, t, b) && r != [] && t != []
    requires !IsWhitespace(r[0]) && !IsWhitespace(r[|r| - 1])
    requires !IsWhitespace(t[0]) && !IsWhitespace(t[|t| - 1])
    ensures r == t
  {
    assert s[a] == r[0] && s[b] == t[0];
    assert a == b;
    assert s[a + |r| - 1] == r[|r| - 1] && s[b + |t| - 1] == t[|t| - 1];
    assert |r| == |t|;
  }

  /** A text has one trimmed form only, and Trim gives it. */
  lemma TrimmedIsTrim(s: string, r: string)
    requires IsTrimmed(s, r)
    ensures r == Trim(s)
  {
    var t := Trim(s);
    var a :| TrimmedFrom(s, r, a);
    var b :| TrimmedFrom(s, t, b);
    if r == [] {
      EmptyTrimIsWhitespace(s, a);
    } else if t == [] {
      EmptyTrimIsWhitespace(s, b);
    } else {
      TrimmedSlicesAgree(s, r, a, t, b);
    }
  }

  /** String::replace where both arguments are one-character strings. */
  function Replace(s: string, from: char, to: char): string {
    seq(|s|, i requires 0 <= i < |s| => if s[i] == from then to else s[i])
  }

  lemma ReplaceRemoves(s: string, from: char, to: char)
    requires from != to
    ensures from !in Replace(s, from, to)
  {
  }

  lemma ReplaceAbsent(s: string, from: char, to: char)
    requires from !in s
    ensures Replace(s, from, to) == s
  {
  }

  /** Replacing a by b and then b by a is the same as replacing b by a alone. */
  lemma ReplaceThenBack(s: string, a: char, b: char)
    ensures Replace(Replace(s, a, b), b, a) == Replace(s, b, a)
  {
  }

  /** Replacing a character that `key` does not contain cannot destroy an occurrence of `key`. */
  lemma ReplaceKeepsOccurrence(s: string, from: char, to: char, key: string, p: int)
    requires from !in key
    requires OccursAt(s, key, p)
    ensures OccursAt(Replace(s, from, to), key, p)
  {
    var r := Replace(s, from, to);
    forall j | 0 <= j < |key| ensures r[p + j] == key[j] {
      assert s[p..p + |key|][j] == s[p + j];
    }
    assert r[p..p + |key|] == key;
  }

  /** Replacing a character that is not in `key` and is not put in by the replacement cannot create `key`. */
  lemma ReplaceAddsNoOccurrence(s: string, from: char, to: char, key: string)
    requires from !in key && to !in key
    requires !Contains(s, key)
    ensures !Contains(Replace(s, from, to), key)
  {
    var r := Replace(s, from, to);
    if Contains(r, key) {
      var p := IndexOf(r, key);
      forall j | 0 <= j < |key| ensures s[p + j] == key[j] {
        assert r[p..p + |key|][j] == r[p + j];
      }
      assert s[p..p + |key|] == key;
      ContainsWhenOccurs(s, key, p);
    }
  }

  /** How many times `c` occurs in `s`. */
  function Count(c: char, s: string): nat {
    if s == [] then 0 else (if s[0] == c then 1 else 0) + Count(c, s[1..])
  }

  lemma {:induction false} CountConcat(c: char, a: string, b: string)
    ensures Count(c, a + b) == Count(c, a) + Count(c, b)
    decreases |a|
  {
    if a == [] {
      assert a + b == b;
    } else {
      assert (a + b)[1..] == a[1..] + b;
      CountConcat(c, a[1..], b);
    }
  }

  lemma {:induction false} CountAbsent(c: char, s: string)
    requires c !in s
    ensures Count(c, s) == 0
    decreases |s|
  {
    if s != [] {
      CountAbsent(c, s[1..]);
    }
  }

  /** The pieces `pieces` glued back together with `sep` between neighbours. */
  function Join(pieces: seq<string>, sep: char): string
    requires |pieces| >= 1
    decreases |pieces|
  {
    if |pieces| == 1 then pieces[0] else pieces[0] + [sep] + Join(pieces[1..], sep)
  }

  /**
   * Cuts `s` at every `sep`, keeping empty pieces: one more piece than there are
   * separators, no piece contains the separator, and joining the pieces gives `s` back.
   */
  function SplitOn(s: string, sep: char): (r: seq<string>)
    decreases |s|
    ensures |r| == Count(sep, s) + 1
    ensures forall i :: 0 <= i < |r| ==> sep !in r[i]
    ensures Join(r, sep) == s
  {
    if s == [] then [""]
    else
      var rest := SplitOn(s[1..], sep);
      if s[0] == sep then
        assert Join([""] + rest, sep) == [sep] + Join(rest, sep) by {
          assert ([""] + rest)[1..] == rest;
        }
        [""] + rest
      else
        var r := [[s[0]] + rest[0]] + rest[1..];
        assert Join(r, sep) == [s[0]] + Join(rest, sep) by {
          if |rest| > 1 {
            assert r[1..] == rest[1..];
            assert Join(rest, sep) == rest[0] + [sep] + Join(rest[1..], sep);
          }
        }
        assert s == [s[0]] + s[1..];
        assert forall i :: 1 <= i < |r| ==> r[i] == rest[i];
        r
  }

  /** StringArray::fromTokens(s, [sep], ""): no tokens for "", otherwise SplitOn. */
  function FromTokens(s: string, sep: char): (r: seq<string>)
    ensures s == [] ==> r == []
    ensures s != [] ==> |r| == Count(sep, s) + 1 && Join(r, sep) == s
                        && forall i :: 0 <= i < |r| ==> sep !in r[i]
  {
    if s == [] then [] else SplitOn(s, sep)
  }

  lemma {:induction false} SplitOnNoSeparator(s: string, sep: char)
    requires sep !in s
    ensures SplitOn(s, sep) == [s]
    decreases |s|
  {
    if s != [] {
      SplitOnNoSeparator(s[1..], sep);
      assert [s[0]] + s[1..] == s;
    }
  }

  lemma {:induction false} SplitOnFirstPiece(u: string, sep: char, rest: string)
    requires sep !in u
    ensures SplitOn(u + [sep] + rest, sep) == [u] + SplitOn(rest, sep)
    decreases |u|
  {
    var s := u + [sep] + rest;
    if u == [] {
      assert s[1..] == rest;
    } else {
      assert s[1..] == u[1..] + [sep] + rest;
      SplitOnFirstPiece(u[1..], sep, rest);
      assert [u[0]] + u[1..] == u;
    }
  }

  /** Two separator-free pieces joined by the separator split back into exactly those two. */
  lemma SplitTwoPieces(u: string, sep: char, m: string)
    requires sep !in u && sep !in m
    ensures FromTokens(u + [sep] + m, sep) == [u, m]
  {
    SplitOnFirstPiece(u, sep, m);
    SplitOnNoSeparator(m, sep);
  }

  /** CharacterFunctions::toLowerCase restricted to ASCII letters. */
  function ToLower(c: char): char {
    if 'A' <= c <= 'Z' then (c as int + 32) as char else c
  }

  /** WildCardMatcher::characterMatches for a character that is present in the tested text. */
  predicate CharacterMatches(wc: char, tc: char, ignoreCase: bool) {
    wc == tc || wc == '?' || (ignoreCase && ToLower(wc) == ToLower(tc))
  }

  /**
   * WildCardMatcher::matches. A '*' at the end of the wildcard matches whatever is left;
   * any other '*' hands over to MatchesAnywhere.
   */
  predicate WildcardMatches(wildcard: string, test: string, ignoreCase: bool)
    decreases |wildcard| + |test|, 0
  {
    if wildcard == [] then test == []
    else if wildcard[0] == '*' then
      wildcard[1..] == [] || MatchesAnywhere(wildcard[1..], test, ignoreCase)
    else
      test != [] && CharacterMatches(wildcard[0], test[0], ignoreCase)
      && WildcardMatches(wildcard[1..], test[1..], ignoreCase)
  }

  /** WildCardMatcher::matchesAnywhere: the rest of the wildcard matches some non-empty suffix of `test`. */
  predicate MatchesAnywhere(wildcard: string, test: string, ignoreCase: bool)
    decreases |wildcard| + |test|, 1
  {
    test != [] && (WildcardMatches(wildcard, test, ignoreCase) || MatchesAnywhere(wildcard, test[1..], ignoreCase))
  }

  /** String::matchesWildcard. */
  predicate MatchesWildcard(s: string, wildcard: string, ignoreCase: bool) {
    WildcardMatches(wildcard, s, ignoreCase)
  }

  /** A wildcard character that only matches itself, with or without case folding. */
  predicate IsLiteral(c: char) {
    c != '*' && c != '?' && !('a' <= c <= 'z') && !('A' <= c <= 'Z')
  }

  /** `cs` occurs in `t` in order, not necessarily contiguously. */
  predicate IsSubsequence(cs: string, t: string)
    decreases |t|
  {
    cs == [] || (t != [] && ((t[0] == cs[0] && IsSubsequence(cs[1..], t[1..])) || IsSubsequence(cs, t[1..])))
  }

  /** The wildcard `*c1*c2*...*cn*` for the characters of `cs`. */
  function StarPattern(cs: string): string {
    if cs == [] then "*" else "*" + [cs[0]] + StarPattern(cs[1..])
  }

  /** A star pattern over literal characters matches exactly the texts containing them in order. */
  lemma {:induction false} StarPatternMatches(cs: string, t: string, ignoreCase: bool)
    requires forall i :: 0 <= i < |cs| ==> IsLiteral(cs[i])
    ensures WildcardMatches(StarPattern(cs), t, ignoreCase) <==> IsSubsequence(cs, t)
    decreases |cs|, 1, 0
  {
    if cs != [] {
      var w := StarPattern(cs);
      assert w[1..] == [cs[0]] + StarPattern(cs[1..]);
      AnywhereMatchesSubsequence(cs, t, ignoreCase);
    }
  }

  lemma {:induction false} AnywhereMatchesSubsequence(cs: string, t: string, ignoreCase: bool)
    requires cs != []
    requires forall i :: 0 <= i < |cs| ==> IsLiteral(cs[i])
    ensures MatchesAnywhere([cs[0]] + StarPattern(cs[1..]), t, ignoreCase) <==> IsSubsequence(cs, t)
    decreases |cs|, 0, |t|
  {
    var w := [cs[0]] + StarPattern(cs[1..]);
    if t != [] {
      assert w[1..] == StarPattern(cs[1..]);
      assert CharacterMatches(cs[0], t[0], ignoreCase) <==> t[0] == cs[0];
      StarPatternMatches(cs[1..], t[1..], ignoreCase);
      AnywhereMatchesSubsequence(cs, t[1..], ignoreCase);
    }
  }

  /** A subsequence has no more copies of any character than the text it sits in. */
  lemma {:induction false} SubsequenceCount(cs: string, t: string, c: char)
    requires IsSubsequence(cs, t)
    ensures Count(c, cs) <= Count(c, t)
    decreases |t|
  {
    if cs != [] {
      if t[0] == cs[0] && IsSubsequence(cs[1..], t[1..]) {
        SubsequenceCount(cs[1..], t[1..], c);
      } else {
        SubsequenceCount(cs, t[1..], c);
      }
    }
  }

  /** The digit character for 0..9. */
  function Digit(d: nat): char
    requires d < 10
  {
    "0123456789"[d]
  }

  /** The decimal text of a natural number. */
  function NatToString(n: nat): string
    decreases n
  {
    if n < 10 then [Digit(n)] else NatToString(n / 10) + [Digit(n % 10)]
  }

  /** juce::String(int): decimal text with a leading '-' for negative numbers. */
  function IntToString(i: int): string {
    if i < 0 then "-" + NatToString(-i) else NatToString(i)
  }
}
