/**
 * The Python string primitives the toolkit relies on: `str.split()` with no
 * argument, `' '.join`, `str.replace`, `str.startswith`, the `in` substring
 * test and ASCII `lower`/`upper`.
 */
module Text {

  /** Python's `str.isspace()`: the 29 code points `str.split()` splits on. */
  predicate IsSpace(c: char) {
    || ('\t' <= c <= '\r')
    || ('\U{1c}' <= c <= '\U{1f}')
    || c == ' '
    || c == '\U{85}'
    || c == '\U{a0}'
    || c == '\U{1680}'
    || ('\U{2000}' <= c <= '\U{200a}')
    || c == '\U{2028}'
    || c == '\U{2029}'
    || c == '\U{202f}'
    || c == '\U{205f}'
    || c == '\U{3000}'
  }

  predicate NoSpace(s: string) {
    forall i :: 0 <= i < |s| ==> !IsSpace(s[i])
  }

  /** A word as `str.split()` returns it: non-empty and free of white space. */
  predicate IsWord(w: string) {
    w != [] && NoSpace(w)
  }

  // ---------------------------------------------------------------------
  // ' '.join(s.split())
  // ---------------------------------------------------------------------

  /** Length of the run of non-space characters at the start of `s`. */
  function WordLength(s: string): (n: nat)
    ensures n <= |s|
    ensures NoSpace(s[..n])
    ensures n < |s| ==> IsSpace(s[n])
  {
    if s == [] || IsSpace(s[0]) then 0 else 1 + WordLength(s[1..])
  }

  /** Python's `s.split()`: the maximal runs of non-space characters, in order. */
  function Split(s: string): (words: seq<string>)
    ensures forall i :: 0 <= i < |words| ==> IsWord(words[i])
    decreases |s|
  {
    if s == [] then []
    else if IsSpace(s[0]) then Split(s[1..])
    else
      var n := WordLength(s);
      [s[..n]] + Split(s[n..])
  }

  /** The total length of some words. */
  function TotalLength(words: seq<string>): nat {
    if words == [] then 0 else |words[0]| + TotalLength(words[1..])
  }

  /**
   * Python's `sep.join(words)`: the words in order with one separator
   * between each two, so it starts with the first word and its length is
   * that of the words plus one separator fewer than there are words.
   */
  function Join(sep: string, words: seq<string>): (r: string)
    ensures words != [] ==> |r| == TotalLength(words) + (|words| - 1) * |sep|
    ensures words != [] ==> StartsWith(r, words[0])
  {
    if words == [] then ""
    else if |words| == 1 then words[0]
    else words[0] + sep + Join(sep, words[1..])
  }

  /** The words one after another, with nothing between them. */
  function Concat(words: seq<string>): string {
    if words == [] then "" else words[0] + Concat(words[1..])
  }

  /** The characters of `s` that are not white space, in order. */
  function NonSpace(s: string): string {
    if s == [] then "" else (if IsSpace(s[0]) then "" else [s[0]]) + NonSpace(s[1..])
  }

  lemma {:induction false} NonSpaceAppend(a: string, b: string)
    ensures NonSpace(a + b) == NonSpace(a) + NonSpace(b)
  {
    if a == [] {
      assert a + b == b;
    } else {
      assert (a + b)[0] == a[0] && (a + b)[1..] == a[1..] + b;
      NonSpaceAppend(a[1..], b);
    }
  }

  lemma {:induction false} NonSpaceOfWord(w: string)
    requires NoSpace(w)
    ensures NonSpace(w) == w
  {
    if w != [] {
      NonSpaceOfWord(w[1..]);
    }
  }

  /** `str.split()` keeps every character that is not white space, in order, and only those. */
  lemma {:induction false} SplitKeepsText(s: string)
    ensures Concat(Split(s)) == NonSpace(s)
    decreases |s|
  {
    if s != [] {
      if IsSpace(s[0]) {
        SplitKeepsText(s[1..]);
      } else {
        var n := WordLength(s);
        var rest := Split(s[n..]);
        SplitKeepsText(s[n..]);
        assert ([s[..n]] + rest)[1..] == rest;
        assert s == s[..n] + s[n..];
        NonSpaceAppend(s[..n], s[n..]);
        NonSpaceOfWord(s[..n]);
      }
    }
  }

  /** A run of non-space characters ends at the first white space, whatever follows it. */
  lemma {:induction false} WordLengthPrefix(a: string, x: string)
    requires WordLength(a) < |a|
    ensures WordLength(a + x) == WordLength(a)
  {
    if !IsSpace(a[0]) {
      assert (a + x)[1..] == a[1..] + x;
      WordLengthPrefix(a[1..], x);
    }
  }

  /**
   * White space separates words: `str.split()` of two texts joined by a
   * white-space character is the words of the first followed by those of
   * the second, so no word ever spans white space.
   */
  lemma {:induction false} SplitAtSpace(a: string, c: char, b: string)
    requires IsSpace(c)
    ensures Split(a + [c] + b) == Split(a) + Split(b)
    decreases |a|
  {
    if a == [] {
      assert a + [c] + b == [c] + b && ([c] + b)[1..] == b;
    } else if IsSpace(a[0]) {
      SplitAtSpace(a[1..], c, b);
      SplitSpaceStep(a, c, b);
    } else {
      var n := WordLength(a);
      SplitAtSpace(a[n..], c, b);
      SplitWordStep(a, c, b);
    }
  }

  /** `Split` skips leading white space, with or without `c + b` after it. */
  lemma SplitSpaceStep(a: string, c: char, b: string)
    requires a != [] && IsSpace(a[0])
    ensures Split(a + [c] + b) == Split(a[1..] + [c] + b)
  {
    assert (a + [c] + b)[1..] == a[1..] + [c] + b;
  }

  /** `Split` takes the first word of `a`, with or without `c + b` after it. */
  lemma SplitWordStep(a: string, c: char, b: string)
    requires a != [] && !IsSpace(a[0]) && IsSpace(c)
    ensures Split(a + [c] + b) == [a[..WordLength(a)]] + Split(a[WordLength(a)..] + [c] + b)
  {
    var s := a + [c] + b;
    var n := WordLength(a);
    assert s == a + ([c] + b);
    WordLengthBeforeSpace(a, [c] + b);
    assert s[..n] == a[..n];
    assert s[n..] == a[n..] + [c] + b;
  }

  /** The first word of `a` is the first word of `a + x` when `x` starts with white space. */
  lemma WordLengthBeforeSpace(a: string, x: string)
    requires x != [] && IsSpace(x[0])
    ensures WordLength(a + x) == WordLength(a)
  {
    if WordLength(a) < |a| {
      WordLengthPrefix(a, x);
    } else {
      assert a[..WordLength(a)] == a;
      WordLengthOf(a, x);
    }
  }

  /** `' '.join(s.split())`: white space collapsed to single spaces. */
  function Collapse(s: string): string {
    Join(" ", Split(s))
  }

  /**
   * The normal form the whitespace step produces: the only white space left
   * is the plain space, never at either end and never two in a row.
   */
  predicate SingleSpaced(t: string) {
    forall i :: 0 <= i < |t| && IsSpace(t[i]) ==>
      t[i] == ' ' && 0 < i && i + 1 < |t| && !IsSpace(t[i + 1])
  }

  lemma {:induction false} JoinSingleSpaced(words: seq<string>)
    requires forall i :: 0 <= i < |words| ==> IsWord(words[i])
    ensures SingleSpaced(Join(" ", words))
  {
    if |words| > 1 {
      JoinSingleSpaced(words[1..]);
      var w, rest := words[0], Join(" ", words[1..]);
      var t := w + " " + rest;
      JoinStartsWithWord(words[1..]);
      forall i | 0 <= i < |t| && IsSpace(t[i])
        ensures t[i] == ' ' && 0 < i && i + 1 < |t| && !IsSpace(t[i + 1])
      {
        if i > |w| {
          assert t[i] == rest[i - |w| - 1];
          if i + 1 < |t| {
            assert t[i + 1] == rest[i - |w|];
          }
        }
      }
    }
  }

  lemma {:induction false} JoinStartsWithWord(words: seq<string>)
    requires words != []
    requires forall i :: 0 <= i < |words| ==> IsWord(words[i])
    ensures Join(" ", words) != [] && !IsSpace(Join(" ", words)[0])
  {
    assert IsWord(words[0]);
  }

  /** The whitespace step leaves text in `SingleSpaced` form. */
  lemma CollapseSingleSpaced(s: string)
    ensures SingleSpaced(Collapse(s))
  {
    JoinSingleSpaced(Split(s));
  }

  /** The whitespace step never lengthens the text. */
  lemma {:induction false} CollapseShorter(s: string)
    ensures |Collapse(s)| <= |s|
    decreases |s|
  {
    if s == [] {
    } else if IsSpace(s[0]) {
      CollapseShorter(s[1..]);
    } else {
      var n := WordLength(s);
      var rest := s[n..];
      if Split(rest) != [] {
        assert rest != [] && IsSpace(rest[0]);
        assert Split(rest) == Split(rest[1..]);
        CollapseShorter(rest[1..]);
      }
    }
  }

  /** Splitting a word followed by text that starts with white space (or nothing). */
  lemma SplitWordThen(w: string, rest: string)
    requires IsWord(w)
    requires rest == [] || IsSpace(rest[0])
    ensures Split(w + rest) == [w] + Split(rest)
  {
    var s := w + rest;
    WordLengthOf(w, rest);
    assert s[..|w|] == w && s[|w|..] == rest;
  }

  lemma {:induction false} WordLengthOf(w: string, rest: string)
    requires NoSpace(w)
    requires rest == [] || IsSpace(rest[0])
    ensures WordLength(w + rest) == |w|
  {
    if w != [] {
      assert (w + rest)[1..] == w[1..] + rest;
      WordLengthOf(w[1..], rest);
    }
  }

  /** `split` undoes `' '.join` on words: the round trip of the whitespace step. */
  lemma {:induction false} SplitJoin(words: seq<string>)
    requires forall i :: 0 <= i < |words| ==> IsWord(words[i])
    ensures Split(Join(" ", words)) == words
  {
    if |words| == 1 {
      SplitWordThen(words[0], "");
      assert words[0] + "" == words[0];
    } else if |words| > 1 {
      var rest := Join(" ", words[1..]);
      SplitJoin(words[1..]);
      assert words[0] + " " + rest == words[0] + (" " + rest);
      SplitWordThen(words[0], " " + rest);
      assert (" " + rest)[1..] == rest;
    }
  }

  /** Collapsing white space twice is the same as collapsing it once. */
  lemma CollapseIdempotent(s: string)
    ensures Collapse(Collapse(s)) == Collapse(s)
  {
    SplitJoin(Split(s));
  }

  // ---------------------------------------------------------------------
  // str.replace, str.startswith, `in`
  // ---------------------------------------------------------------------

  /** Python's `s.startswith(p)`. */
  predicate StartsWith(s: string, p: string) {
    |p| <= |s| && s[..|p|] == p
  }

  /** Python's `pat in s` for strings, scanning from the left. */
  predicate Contains(s: string, pat: string)
    decreases |s|
  {
    StartsWith(s, pat) || (s != [] && Contains(s[1..], pat))
  }

  /** `pat` occurs in `s` starting at offset `i`. */
  predicate OccursAt(s: string, pat: string, i: int) {
    0 <= i <= |s| - |pat| && s[i..i + |pat|] == pat
  }

  /** `Contains` means an occurrence at some offset. */
  lemma {:induction false} ContainsAt(s: string, pat: string)
    ensures Contains(s, pat) <==> exists i :: OccursAt(s, pat, i)
    decreases |s|
  {
    if StartsWith(s, pat) {
      assert OccursAt(s, pat, 0);
    } else if s != [] {
      ContainsAt(s[1..], pat);
      if Contains(s[1..], pat) {
        var i :| OccursAt(s[1..], pat, i);
        assert s[i + 1..i + 1 + |pat|] == s[1..][i..i + |pat|];
        assert OccursAt(s, pat, i + 1);
      }
      if i :| OccursAt(s, pat, i) {
        assert i != 0;
        assert s[1..][i - 1..i - 1 + |pat|] == s[i..i + |pat|];
        assert OccursAt(s[1..], pat, i - 1);
      }
    }
  }

  /** Text with `pat` in its middle contains `pat`. */
  lemma ContainsMiddle(a: string, pat: string, b: string)
    ensures Contains(a + pat + b, pat)
  {
    var s := a + pat + b;
    assert s[|a|..|a| + |pat|] == pat;
    assert OccursAt(s, pat, |a|);
    ContainsAt(s, pat);
  }

  /**
   * Python's `s.replace(pat, rep)` for a non-empty `pat`: occurrences are
   * found from the left and do not overlap; replaced text is not rescanned.
   * A replacement as long as the pattern keeps the length, and replacing the
   * pattern by itself changes nothing.
   */
  function Replace(s: string, pat: string, rep: string): (r: string)
    requires pat != []
    ensures |rep| == |pat| ==> |r| == |s|
    ensures rep == pat ==> r == s
    decreases |s|
  {
    if |s| < |pat| then s
    else if s[..|pat|] == pat then rep + Replace(s[|pat|..], pat, rep)
    else [s[0]] + Replace(s[1..], pat, rep)
  }

  /** `Replace` on text that starts with the pattern. */
  lemma ReplaceAtStart(pat: string, rest: string, rep: string)
    requires pat != []
    ensures Replace(pat + rest, pat, rep) == rep + Replace(rest, pat, rep)
  {
    assert (pat + rest)[..|pat|] == pat && (pat + rest)[|pat|..] == rest;
  }

  /** `Replace` on text that does not start with the pattern keeps its first character. */
  lemma ReplaceSkip(c: char, rest: string, pat: string, rep: string)
    requires pat != [] && (c != pat[0] || !StartsWith([c] + rest, pat))
    ensures Replace([c] + rest, pat, rep) == [c] + Replace(rest, pat, rep)
  {
    assert ([c] + rest)[1..] == rest;
    if |pat| <= 1 + |rest| {
      assert ([c] + rest)[..|pat|][0] == c;
    }
  }

  /**
   * Every occurrence is replaced, the leftmost first: when no occurrence of
   * `pat` starts inside `a`, `a` is kept, the occurrence right after it
   * becomes `rep` and the scan goes on after that occurrence.
   */
  lemma {:induction false} ReplaceFirstOccurrence(a: string, pat: string, b: string, rep: string)
    requires pat != []
    requires forall i :: 0 <= i < |a| ==> !OccursAt(a + pat + b, pat, i)
    ensures Replace(a + pat + b, pat, rep) == a + rep + Replace(b, pat, rep)
    decreases |a|
  {
    if a == [] {
      assert a + pat + b == pat + b;
      ReplaceAtStart(pat, b, rep);
    } else {
      NoOccurrenceInTail(a, pat, b);
      ReplaceFirstOccurrence(a[1..], pat, b, rep);
      ReplaceSkipFirst(a, pat, b, rep);
      assert a + rep + Replace(b, pat, rep) == [a[0]] + (a[1..] + rep + Replace(b, pat, rep));
    }
  }

  /** No occurrence starting inside `a` means none starting inside `a[1..]` either. */
  lemma NoOccurrenceInTail(a: string, pat: string, b: string)
    requires a != []
    requires forall i :: 0 <= i < |a| ==> !OccursAt(a + pat + b, pat, i)
    ensures forall i :: 0 <= i < |a| - 1 ==> !OccursAt(a[1..] + pat + b, pat, i)
  {
    var s := a + pat + b;
    var rest := a[1..] + pat + b;
    assert rest == s[1..];
    forall i | 0 <= i < |a| - 1 ensures !OccursAt(rest, pat, i) {
      assert !OccursAt(s, pat, i + 1);
      assert rest[i..i + |pat|] == s[i + 1..i + 1 + |pat|];
    }
  }

  /** With no occurrence at offset 0, `Replace` keeps the first character of `a`. */
  lemma ReplaceSkipFirst(a: string, pat: string, b: string, rep: string)
    requires a != [] && pat != []
    requires !OccursAt(a + pat + b, pat, 0)
    ensures Replace(a + pat + b, pat, rep) == [a[0]] + Replace(a[1..] + pat + b, pat, rep)
  {
    var rest := a[1..] + pat + b;
    assert a + pat + b == [a[0]] + rest;
    ReplaceSkip(a[0], rest, pat, rep);
  }

  /** Two adjacent occurrences are both replaced: `(p + p).replace(p, r) == r + r`. */
  lemma ReplaceBothOccurrences(pat: string, rep: string)
    requires pat != []
    ensures Replace(pat + pat, pat, rep) == rep + rep
  {
    ReplaceFirstOccurrence([], pat, pat, rep);
    ReplaceFirstOccurrence([], pat, [], rep);
    assert [] + pat + pat == pat + pat && [] + pat + [] == pat;
  }

  /** A pattern whose first character appears at no offset where it could start does not occur. */
  lemma Absent(s: string, pat: string)
    requires pat != []
    requires |pat| > |s| || pat[0] !in s[..|s| - |pat| + 1]
    ensures !Contains(s, pat)
  {
    ContainsAt(s, pat);
    forall i | 0 <= i <= |s| - |pat|
      ensures s[i] != pat[0]
    {
      assert s[i] == s[..|s| - |pat| + 1][i];
    }
  }

  /** Replacing an occurrence by shorter text makes the string strictly shorter. */
  lemma {:induction false} ReplaceRemoves(s: string, pat: string, rep: string)
    requires pat != [] && |rep| < |pat| && Contains(s, pat)
    ensures |Replace(s, pat, rep)| < |s|
    decreases |s|
  {
    if |s| < |pat| {
      ContainsAt(s, pat);
      assert false;
    } else if s[..|pat|] == pat {
      ReplaceShorter(s[|pat|..], pat, rep);
    } else {
      ReplaceRemoves(s[1..], pat, rep);
    }
  }

  /** Deleting a pattern changes the text exactly when the pattern occurs in it. */
  lemma DeleteChangesIff(s: string, pat: string)
    requires pat != []
    ensures Replace(s, pat, "") == s <==> !Contains(s, pat)
  {
    if Contains(s, pat) {
      ReplaceRemoves(s, pat, "");
    } else {
      ReplaceAbsent(s, pat, "");
    }
  }

  /** Replacing by text no longer than the pattern never lengthens the string. */
  lemma {:induction false} ReplaceShorter(s: string, pat: string, rep: string)
    requires pat != [] && |rep| <= |pat|
    ensures |Replace(s, pat, rep)| <= |s|
    decreases |s|
  {
    if |s| < |pat| {
    } else if s[..|pat|] == pat {
      ReplaceShorter(s[|pat|..], pat, rep);
    } else {
      ReplaceShorter(s[1..], pat, rep);
    }
  }

  /** `t` is `s` with some elements deleted. */
  predicate Subsequence<T(==)>(t: seq<T>, s: seq<T>)
    decreases |s|
  {
    if t == [] then true
    else if s == [] then false
    else if t[0] == s[0] then Subsequence(t[1..], s[1..])
    else Subsequence(t, s[1..])
  }

  lemma {:induction false} SubsequenceOfSuffix<T>(t: seq<T>, s: seq<T>, k: nat)
    requires k <= |s| && Subsequence(t, s[k..])
    ensures Subsequence(t, s)
    decreases k
  {
    if k > 0 {
      assert s[k - 1..][1..] == s[k..];
      SubsequenceDropHead(t, s[k - 1..]);
      SubsequenceOfSuffix(t, s, k - 1);
    }
  }

  lemma {:induction false} SubsequenceDropHead<T>(t: seq<T>, s: seq<T>)
    requires s != [] && Subsequence(t, s[1..])
    ensures Subsequence(t, s)
    decreases |s| + |t|
  {
    if t != [] && t[0] == s[0] {
      SubsequenceTail(t, s[1..]);
    }
  }

  lemma {:induction false} SubsequenceTail<T>(t: seq<T>, u: seq<T>)
    requires t != [] && Subsequence(t, u)
    ensures Subsequence(t[1..], u)
    decreases |u| + |t|
  {
    if t[0] == u[0] {
      SubsequenceDropHead(t[1..], u);
    } else {
      SubsequenceTail(t, u[1..]);
      SubsequenceDropHead(t[1..], u);
    }
  }

  lemma {:induction false} SubsequenceTransitive<T>(a: seq<T>, b: seq<T>, c: seq<T>)
    requires Subsequence(a, b) && Subsequence(b, c)
    ensures Subsequence(a, c)
    decreases |c|
  {
    if a != [] {
      if b[0] == c[0] {
        if a[0] == b[0] {
          SubsequenceTransitive(a[1..], b[1..], c[1..]);
        } else {
          SubsequenceTransitive(a, b[1..], c[1..]);
          SubsequenceDropHead(a, c);
        }
      } else {
        SubsequenceTransitive(a, b, c[1..]);
        SubsequenceDropHead(a, c);
      }
    }
  }

  /** Deleting a phrase only removes characters: the result is a subsequence. */
  lemma {:induction false} DeleteIsSubsequence(s: string, pat: string)
    requires pat != []
    ensures Subsequence(Replace(s, pat, ""), s)
    decreases |s|
  {
    var r := Replace(s, pat, "");
    if |s| < |pat| {
      SubsequenceReflexive(s);
    } else if s[..|pat|] == pat {
      DeleteIsSubsequence(s[|pat|..], pat);
      assert r == Replace(s[|pat|..], pat, "");
      SubsequenceOfSuffix(r, s, |pat|);
    } else {
      DeleteIsSubsequence(s[1..], pat);
      assert r[1..] == Replace(s[1..], pat, "");
    }
  }

  lemma {:induction false} SubsequenceReflexive<T>(s: seq<T>)
    ensures Subsequence(s, s)
  {
    if s != [] {
      SubsequenceReflexive(s[1..]);
    }
  }

  /** A string in which the pattern does not occur is left unchanged. */
  lemma {:induction false} ReplaceAbsent(s: string, pat: string, rep: string)
    requires pat != [] && !Contains(s, pat)
    ensures Replace(s, pat, rep) == s
    decreases |s|
  {
    if |s| >= |pat| {
      assert s[..|pat|] != pat;
      ReplaceAbsent(s[1..], pat, rep);
    }
  }

  // ---------------------------------------------------------------------
  // ASCII case mapping and single-character replacement
  // ---------------------------------------------------------------------

  function LowerChar(c: char): char {
    if 'A' <= c <= 'Z' then (c as int + 32) as char else c
  }

  function UpperChar(c: char): char {
    if 'a' <= c <= 'z' then (c as int - 32) as char else c
  }

  /** `str.lower()` restricted to ASCII letters. */
  function Lower(s: string): (r: string)
    ensures |r| == |s|
    ensures forall i :: 0 <= i < |s| ==> r[i] == LowerChar(s[i])
  {
    if s == [] then [] else [LowerChar(s[0])] + Lower(s[1..])
  }

  /** `str.upper()` restricted to ASCII letters. */
  function Upper(s: string): (r: string)
    ensures |r| == |s|
    ensures forall i :: 0 <= i < |s| ==> r[i] == UpperChar(s[i])
  {
    if s == [] then [] else [UpperChar(s[0])] + Upper(s[1..])
  }

  /** `s.replace(a, b)` for single characters: every `a` becomes `b`. */
  function ReplaceChar(s: string, a: char, b: char): (r: string)
    ensures |r| == |s|
    ensures forall i :: 0 <= i < |s| ==> r[i] == if s[i] == a then b else s[i]
  {
    if s == [] then [] else [if s[0] == a then b else s[0]] + ReplaceChar(s[1..], a, b)
  }

  /** Python's `s.lstrip(c)` for one character `c`: what is left of `s` once its leading `c`s are removed. */
  function LStrip(s: string, c: char): (r: string)
    ensures |r| <= |s| && r == s[|s| - |r|..]
    ensures r == [] || r[0] != c
  {
    if s != [] && s[0] == c then LStrip(s[1..], c) else s
  }

  /** `s.lstrip(c)` removes only `c`s: every character before what is left is `c`. */
  lemma {:induction false} LStripRemovesOnly(s: string, c: char)
    ensures forall i :: 0 <= i < |s| - |LStrip(s, c)| ==> s[i] == c
  {
    if s != [] && s[0] == c {
      LStripRemovesOnly(s[1..], c);
      forall i | 0 < i < |s| - |LStrip(s, c)| ensures s[i] == c {
        assert s[i] == s[1..][i - 1];
      }
    }
  }

  /** The decimal digits of a natural number, as `str(n)` writes them. */
  function NatToString(n: nat): (r: string)
    ensures r != [] && forall i :: 0 <= i < |r| ==> '0' <= r[i] <= '9'
  {
    var d := ['0' + (n % 10) as char];
    if n < 10 then d else NatToString(n / 10) + d
  }

  /** `str(n)` for an integer: a minus sign before the digits of a negative one. */
  function IntToString(n: int): string {
    if n < 0 then "-" + NatToString(-n) else NatToString(n)
  }
}
