/**
 * The handful of Python string built-ins the core relies on: `str.lower`, `str.isalpha`,
 * `str.isspace`, `str.split()`, `str.strip()`, `sep.join`, the `in` substring test,
 * `str.endswith`, slicing and `str(int)`.
 *
 * Case mapping and letters are ASCII only (Python's are Unicode); whitespace is Python's
 * full `str.isspace` set.
 */
module Text {

  /** Python's `str.isspace`: the characters `split()` and `strip()` treat as whitespace. */
  predicate IsSpace(c: char) {
    || ('\t' <= c <= '\r')
    || ('\U{1C}' <= c <= '\U{1F}')
    || c == ' '
    || c == '\U{85}'
    || c == '\U{A0}'
    || c == '\U{1680}'
    || ('\U{2000}' <= c <= '\U{200A}')
    || c == '\U{2028}'
    || c == '\U{2029}'
    || c == '\U{202F}'
    || c == '\U{205F}'
    || c == '\U{3000}'
  }

  predicate IsUpper(c: char) { 'A' <= c <= 'Z' }

  predicate IsLower(c: char) { 'a' <= c <= 'z' }

  /** `str.isalpha` restricted to ASCII. */
  predicate IsLetter(c: char) { IsUpper(c) || IsLower(c) }

  /** `str.lower` on one character, restricted to ASCII. */
  function ToLower(c: char): (d: char)
    ensures IsLetter(c) <==> IsLower(d)
    ensures !IsUpper(c) ==> d == c
  {
    if IsUpper(c) then (c as int + 32) as char else c
  }

  function Lower(s: string): (r: string)
    ensures |r| == |s|
    ensures forall i :: 0 <= i < |s| ==> r[i] == ToLower(s[i])
  {
    seq(|s|, i requires 0 <= i < |s| => ToLower(s[i]))
  }

  /** Every character is whitespace: Python's `s.strip()` is then empty (see StripEmptyIffBlank). */
  predicate IsBlank(s: string) {
    forall i :: 0 <= i < |s| ==> IsSpace(s[i])
  }

  /** A token `str.split()` can produce: non-empty, without whitespace. */
  predicate IsWord(w: string) {
    w != [] && forall i :: 0 <= i < |w| ==> !IsSpace(w[i])
  }

  function TrimLeft(s: string): (r: string)
    ensures |r| <= |s|
    ensures r == [] || !IsSpace(r[0])
  {
    if s != [] && IsSpace(s[0]) then TrimLeft(s[1..]) else s
  }

  function TrimRight(s: string): (r: string)
    ensures |r| <= |s|
  {
    if s != [] && IsSpace(s[|s| - 1]) then TrimRight(s[..|s| - 1]) else s
  }

  /** Python's `s.strip()`. */
  function Strip(s: string): string {
    TrimRight(TrimLeft(s))
  }

  lemma {:induction false} TrimLeftEmptyIffBlank(s: string)
    ensures TrimLeft(s) == [] <==> IsBlank(s)
  {
    if s != [] && IsSpace(s[0]) {
      TrimLeftEmptyIffBlank(s[1..]);
      assert IsBlank(s) <==> IsBlank(s[1..]) by {
        assert forall i :: 1 <= i < |s| ==> s[i] == s[1..][i - 1];
      }
    }
  }

  lemma {:induction false} TrimRightEmptyIffBlank(s: string)
    ensures TrimRight(s) == [] <==> IsBlank(s)
  {
    if s != [] && IsSpace(s[|s| - 1]) {
      TrimRightEmptyIffBlank(s[..|s| - 1]);
      assert IsBlank(s) <==> IsBlank(s[..|s| - 1]) by {
        assert forall i :: 0 <= i < |s| - 1 ==> s[i] == s[..|s| - 1][i];
      }
    }
  }

  lemma StripEmptyIffBlank(s: string)
    ensures Strip(s) == [] <==> IsBlank(s)
  {
    TrimLeftEmptyIffBlank(s);
    TrimRightEmptyIffBlank(TrimLeft(s));
  }

  /** The longest prefix of `s` without whitespace. */
  function WordPrefix(s: string): (w: string)
    ensures |w| <= |s|
    ensures s != [] && !IsSpace(s[0]) ==> w != []
  {
    if s == [] || IsSpace(s[0]) then [] else [s[0]] + WordPrefix(s[1..])
  }

  /** Python's `s.split()` with no argument: the maximal runs of non-whitespace, in order. */
  function Split(s: string): (words: seq<string>)
    decreases |s|
  {
    var t := TrimLeft(s);
    if t == [] then []
    else
      var w := WordPrefix(t);
      [w] + Split(t[|w|..])
  }

  /** Every token of a split is a non-empty run without whitespace. */
  lemma {:induction false} SplitGivesWords(s: string)
    ensures forall i :: 0 <= i < |Split(s)| ==> IsWord(Split(s)[i])
    decreases |s|
  {
    var t := TrimLeft(s);
    if t != [] {
      var w := WordPrefix(t);
      WordPrefixHasNoSpace(t);
      SplitGivesWords(t[|w|..]);
    }
  }

  lemma {:induction false} WordPrefixHasNoSpace(s: string)
    ensures forall i :: 0 <= i < |WordPrefix(s)| ==> !IsSpace(WordPrefix(s)[i])
  {
    if s != [] && !IsSpace(s[0]) {
      WordPrefixHasNoSpace(s[1..]);
    }
  }

  /** Python's `sep.join(parts)`. */
  function Join(sep: string, parts: seq<string>): string
  {
    if |parts| == 0 then ""
    else if |parts| == 1 then parts[0]
    else parts[0] + (sep + Join(sep, parts[1..]))
  }

  lemma {:induction false} WordPrefixOfWord(w: string, rest: string)
    requires IsWord(w)
    requires rest == [] || IsSpace(rest[0])
    ensures WordPrefix(w + rest) == w
  {
    if |w| > 1 {
      assert (w + rest)[1..] == w[1..] + rest;
      WordPrefixOfWord(w[1..], rest);
    } else {
      assert (w + rest)[1..] == rest;
    }
  }

  /** A word followed by nothing or by whitespace is the first token of the split. */
  lemma SplitWordThen(w: string, rest: string)
    requires IsWord(w)
    requires rest == [] || IsSpace(rest[0])
    ensures Split(w + rest) == [w] + Split(rest)
  {
    var s := w + rest;
    assert s[0] == w[0];
    assert TrimLeft(s) == s;
    WordPrefixOfWord(w, rest);
    assert s[|w|..] == rest;
  }

  lemma SplitLeadingSpace(tail: string)
    ensures Split(" " + tail) == Split(tail)
  {
    assert (" " + tail)[1..] == tail;
    assert TrimLeft(" " + tail) == TrimLeft(tail);
  }

  /** Splitting a space-joined list of words gives the words back. */
  lemma {:induction false} SplitJoin(words: seq<string>)
    requires forall i :: 0 <= i < |words| ==> IsWord(words[i])
    ensures Split(Join(" ", words)) == words
  {
    if |words| == 1 {
      assert IsWord(words[0]);
      SplitWordThen(words[0], "");
      assert words[0] + "" == words[0];
    } else if |words| > 1 {
      var w, rest := words[0], words[1..];
      var tail := Join(" ", rest);
      assert IsWord(w);
      forall i | 0 <= i < |rest| ensures IsWord(rest[i]) {
        assert rest[i] == words[i + 1];
      }
      calc {
        Split(Join(" ", words));
        { assert Join(" ", words) == w + (" " + tail); }
        Split(w + (" " + tail));
        { SplitWordThen(w, " " + tail); }
        [w] + Split(" " + tail);
        { SplitLeadingSpace(tail); }
        [w] + Split(tail);
        { SplitJoin(rest); }
        [w] + rest;
        words;
      }
    }
  }

  /** Joining one more part appends the separator and that part. */
  lemma {:induction false} JoinSnoc(sep: string, parts: seq<string>, x: string)
    requires parts != []
    ensures Join(sep, parts + [x]) == Join(sep, parts) + sep + x
  {
    if |parts| == 1 {
      assert (parts + [x])[1..] == [x];
    } else {
      assert (parts + [x])[1..] == parts[1..] + [x];
      JoinSnoc(sep, parts[1..], x);
    }
  }

  /** A join of parts begins with the first part and ends with the last. */
  lemma JoinFrame(sep: string, parts: seq<string>)
    requires parts != []
    ensures StartsWith(Join(sep, parts), parts[0])
    ensures EndsWith(Join(sep, parts), parts[|parts| - 1])
  {
    if |parts| > 1 {
      var init := parts[..|parts| - 1];
      assert parts == init + [parts[|parts| - 1]];
      JoinSnoc(sep, init, parts[|parts| - 1]);
    }
  }

  /** Appending `x + " "` for every `x` gives the space-joined list followed by one space. */
  lemma {:induction false} ConcatSpaced(items: seq<string>, pieces: seq<string>)
    requires items != [] && |pieces| == |items|
    requires forall i :: 0 <= i < |items| ==> pieces[i] == items[i] + " "
    ensures Concat(pieces) == Join(" ", items) + " "
  {
    var n := |items|;
    if n == 1 {
      assert pieces[..0] == [];
    } else {
      var init := items[..n - 1];
      ConcatSpaced(init, pieces[..n - 1]);
      assert items == init + [items[n - 1]];
      JoinSnoc(" ", init, items[n - 1]);
    }
  }

  predicate StartsWith(s: string, prefix: string) {
    |prefix| <= |s| && s[..|prefix|] == prefix
  }

  /** Python's `s.endswith(suffix)`. */
  predicate EndsWith(s: string, suffix: string) {
    |suffix| <= |s| && s[|s| - |suffix|..] == suffix
  }

  /** Python's substring test `sub in s`. */
  predicate Contains(s: string, sub: string) {
    exists i :: 0 <= i <= |s| - |sub| && OccursAt(s, sub, i)
  }

  /** `sub` occurs in `s` starting at index `i`. */
  predicate OccursAt(s: string, sub: string, i: int) {
    0 <= i <= |s| - |sub| && s[i..i + |sub|] == sub
  }

  /** Trimming on the left drops a prefix made only of whitespace. */
  lemma {:induction false} TrimLeftDropsSpaces(s: string)
    ensures TrimLeft(s) == s[|s| - |TrimLeft(s)|..]
    ensures forall i :: 0 <= i < |s| - |TrimLeft(s)| ==> IsSpace(s[i])
  {
    if s != [] && IsSpace(s[0]) {
      TrimLeftDropsSpaces(s[1..]);
      assert forall i :: 1 <= i < |s| ==> s[i] == s[1..][i - 1];
    }
  }

  /** Trimming on the right drops a suffix made only of whitespace. */
  lemma {:induction false} TrimRightDropsSpaces(s: string)
    ensures TrimRight(s) == s[..|TrimRight(s)|]
    ensures forall i :: |TrimRight(s)| <= i < |s| ==> IsSpace(s[i])
  {
    if s != [] && IsSpace(s[|s| - 1]) {
      TrimRightDropsSpaces(s[..|s| - 1]);
      assert forall i :: 0 <= i < |s| - 1 ==> s[i] == s[..|s| - 1][i];
    }
  }

  /** `s.strip()` is the slice `s[k..k + |s.strip()|]` with whitespace on both sides of it. */
  lemma StripIsInnerSlice(s: string) returns (k: nat)
    ensures k + |Strip(s)| <= |s|
    ensures Strip(s) == s[k..k + |Strip(s)|]
    ensures forall i :: 0 <= i < k ==> IsSpace(s[i])
    ensures forall i :: k + |Strip(s)| <= i < |s| ==> IsSpace(s[i])
  {
    var l := TrimLeft(s);
    TrimLeftDropsSpaces(s);
    TrimRightDropsSpaces(l);
    k := |s| - |l|;
    forall i | k + |Strip(s)| <= i < |s| ensures IsSpace(s[i]) {
      assert s[i] == l[i - k];
    }
  }

  /** Concatenation is associative; stated once so that long string sums can be regrouped cheaply. */
  lemma AppendAssoc<T>(a: seq<T>, b: seq<T>, c: seq<T>)
    ensures (a + b) + c == a + (b + c)
  {
  }

  /** The first `|a|` elements of `a + b` are `a`. */
  lemma PrefixOfAppend<T>(a: seq<T>, b: seq<T>)
    ensures (a + b)[..|a|] == a
  {
  }

  /** A sequence is what comes before position `i`, the element there, and what follows. */
  lemma SplitAround<T>(s: seq<T>, i: nat)
    requires i < |s|
    ensures s == (s[..i] + [s[i]]) + s[i + 1..]
  {
  }

  lemma SliceOfSlice(s: string, k: nat, n: nat, j: nat, len: nat)
    requires k + n <= |s| && j + len <= n
    ensures s[k..k + n][j..j + len] == s[k + j..k + j + len]
  {
    var t := s[k..k + n][j..j + len];
    assert forall i :: 0 <= i < len ==> t[i] == s[k + j + i];
  }

  /** Stripping never creates or destroys an occurrence of a word: Python's `sub in s.strip()` equals `sub in s`. */
  lemma StripKeepsWordOccurrences(s: string, sub: string)
    requires IsWord(sub)
    ensures Contains(Strip(s), sub) <==> Contains(s, sub)
  {
    var k := StripIsInnerSlice(s);
    if Contains(Strip(s), sub) {
      OccurrenceInStripped(s, sub, k);
    }
    if Contains(s, sub) {
      OccurrenceSurvivesStrip(s, sub, k);
    }
  }

  lemma OccurrenceInStripped(s: string, sub: string, k: nat)
    requires k + |Strip(s)| <= |s| && Strip(s) == s[k..k + |Strip(s)|]
    requires Contains(Strip(s), sub)
    ensures Contains(s, sub)
  {
    var r := Strip(s);
    var j :| 0 <= j <= |r| - |sub| && OccursAt(r, sub, j);
    SliceOfSlice(s, k, |r|, j, |sub|);
    assert OccursAt(s, sub, k + j);
  }

  lemma OccurrenceSurvivesStrip(s: string, sub: string, k: nat)
    requires IsWord(sub)
    requires k + |Strip(s)| <= |s| && Strip(s) == s[k..k + |Strip(s)|]
    requires forall i :: 0 <= i < k ==> IsSpace(s[i])
    requires forall i :: k + |Strip(s)| <= i < |s| ==> IsSpace(s[i])
    requires Contains(s, sub)
    ensures Contains(Strip(s), sub)
  {
    var r := Strip(s);
    var i :| 0 <= i <= |s| - |sub| && OccursAt(s, sub, i);
    assert s[i] == sub[0] && s[i + |sub| - 1] == sub[|sub| - 1];
    SliceOfSlice(s, k, |r|, i - k, |sub|);
    assert OccursAt(r, sub, i - k);
  }

  /** A bound of Python's slice `s[i:j]` for a string of length `n`: negative counts from the end, then clamped. */
  function SliceBound(i: int, n: nat): (j: nat)
    ensures j <= n
    ensures 0 <= i <= n ==> j == i
  {
    if i < 0 then (if i + n < 0 then 0 else i + n)
    else if i > n then n
    else i
  }

  /** Python's `s[start:stop]`. */
  function PySlice(s: string, start: int, stop: int): (r: string)
    ensures |r| <= |s|
    ensures 0 <= start <= stop <= |s| ==> r == s[start..stop]
    ensures 0 <= start <= |s| <= stop ==> r == s[start..]
    ensures |s| <= start ==> r == ""
  {
    var lo, hi := SliceBound(start, |s|), SliceBound(stop, |s|);
    if lo < hi then s[lo..hi] else ""
  }

  /** `"".join(parts)`, the string a loop of `acc += part` builds. */
  function Concat(parts: seq<string>): string
  {
    if parts == [] then "" else Concat(parts[..|parts| - 1]) + parts[|parts| - 1]
  }

  /** Python's `str(n)` for a natural number. */
  function Decimal(n: nat): (s: string)
    ensures s != []
    ensures forall i :: 0 <= i < |s| ==> '0' <= s[i] <= '9'
  {
    if n < 10 then ["0123456789"[n]] else Decimal(n / 10) + ["0123456789"[n % 10]]
  }
}
