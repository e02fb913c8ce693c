/**
 * The handful of Python string operations the research assistant relies on:
 * `str.lower`, the substring test `sub in s`, `str.strip`, `str.split()`
 * with no argument, `sep.join(parts)`, and `re.split(r'[.!?]+', s)`.
 * Strings are sequences of characters.
 */
module Text {
  import opened Options

  // ---------------------------------------------------------------------
  // Characters

  predicate IsUpper(c: char) { 'A' <= c <= 'Z' }

  predicate IsDigit(c: char) { '0' <= c <= '9' }

  /** The characters for which Python's `str.isspace` holds. */
  predicate IsSpace(c: char) {
    c == ' ' || ('\t' <= c <= '\r') || ('\U{001C}' <= c <= '\U{001F}')
    || c == '\U{0085}' || c == '\U{00A0}' || c == '\U{1680}'
    || ('\U{2000}' <= c <= '\U{200A}') || c == '\U{2028}' || c == '\U{2029}'
    || c == '\U{202F}' || c == '\U{205F}' || c == '\U{3000}'
  }

  function LowerChar(c: char): (d: char)
    ensures !IsUpper(d)
    ensures !IsUpper(c) ==> d == c
    ensures IsUpper(c) ==> d as int == c as int + 32
  {
    if IsUpper(c) then (c as int + 32) as char else c
  }

  /** `s.lower()`, on the ASCII letters. */
  function Lower(s: string): (r: string)
    ensures |r| == |s|
    ensures forall i :: 0 <= i < |r| ==> r[i] == LowerChar(s[i])
    ensures forall i :: 0 <= i < |r| ==> !IsUpper(r[i])
  {
    if s == [] then [] else [LowerChar(s[0])] + Lower(s[1..])
  }

  /** Python's `s[:n]`. */
  function Take<T>(s: seq<T>, n: nat): (r: seq<T>)
    ensures |r| == if |s| <= n then |s| else n
    ensures r == s[..|r|]
  {
    if |s| <= n then s else s[..n]
  }

  // ---------------------------------------------------------------------
  // Substrings

  predicate OccursAt(s: string, sub: string, i: int) {
    0 <= i && i + |sub| <= |s| && s[i..i + |sub|] == sub
  }

  /** Python's `sub in s`. */
  predicate Contains(s: string, sub: string) {
    exists i :: 0 <= i <= |s| - |sub| && OccursAt(s, sub, i)
  }

  predicate HasDigit(s: string) {
    exists i :: 0 <= i < |s| && IsDigit(s[i])
  }

  /** Every character of a contained string occurs in the containing one. */
  lemma ContainedCharOccurs(s: string, sub: string, k: int)
    requires Contains(s, sub) && 0 <= k < |sub|
    ensures exists j :: 0 <= j < |s| && s[j] == sub[k]
  {
    var i :| 0 <= i <= |s| - |sub| && OccursAt(s, sub, i);
    assert s[i..i + |sub|][k] == s[i + k];
  }

  /**
   * A lower-cased text never contains a string with an upper-case letter:
   * a keyword such as "SMK" tested against `text.lower()` never matches.
   */
  lemma LoweredNeverContainsUpper(s: string, sub: string, k: int)
    requires 0 <= k < |sub| && IsUpper(sub[k])
    ensures !Contains(Lower(s), sub)
  {
    if Contains(Lower(s), sub) {
      ContainedCharOccurs(Lower(s), sub, k);
    }
  }

  /** How many of `keys` occur in `text` (a `sum(1 for k in keys if k in text)`). */
  function CountContained(keys: seq<string>, text: string): (n: nat)
    ensures n <= |keys|
    ensures n == 0 <==> forall j :: 0 <= j < |keys| ==> !Contains(text, keys[j])
  {
    if keys == [] then 0
    else (if Contains(text, keys[0]) then 1 else 0) + CountContained(keys[1..], text)
  }

  lemma {:induction false} CountContainedAppend(a: seq<string>, b: seq<string>, text: string)
    ensures CountContained(a + b, text) == CountContained(a, text) + CountContained(b, text)
  {
    if a == [] {
      assert a + b == b;
    } else {
      assert (a + b)[1..] == a[1..] + b;
      CountContainedAppend(a[1..], b, text);
    }
  }

  /**
   * The index of the first of `keys` that occurs in `text`: the loop
   * `for k in keys: if k in text: ...; break`.
   */
  function FirstContained(keys: seq<string>, text: string): (r: Option<nat>)
    ensures r.Some? ==> r.value < |keys| && Contains(text, keys[r.value])
    ensures r.Some? ==> forall j :: 0 <= j < r.value ==> !Contains(text, keys[j])
    ensures r.None? <==> forall j :: 0 <= j < |keys| ==> !Contains(text, keys[j])
  {
    if keys == [] then None
    else if Contains(text, keys[0]) then Some(0)
    else match FirstContained(keys[1..], text)
      case None => None
      case Some(i) => Some(i + 1)
  }

  // ---------------------------------------------------------------------
  // Stripping

  function StripRight(s: string): (r: string)
    ensures |r| <= |s| && r == s[..|r|]
    ensures r != [] ==> !IsSpace(r[|r| - 1])
    ensures forall i :: |r| <= i < |s| ==> IsSpace(s[i])
  {
    if s != [] && IsSpace(s[|s| - 1]) then StripRight(s[..|s| - 1]) else s
  }

  /** The length of the run of whitespace that starts `s`. */
  function LeadingSpaces(s: string): (n: nat)
    ensures n <= |s|
    ensures forall i :: 0 <= i < n ==> IsSpace(s[i])
    ensures n < |s| ==> !IsSpace(s[n])
  {
    if s != [] && IsSpace(s[0]) then 1 + LeadingSpaces(s[1..]) else 0
  }

  /** `s.strip()`: `s` without its leading and trailing whitespace. */
  function Strip(s: string): (r: string)
    ensures |r| <= |s|
    ensures r != [] ==> !IsSpace(r[0]) && !IsSpace(r[|r| - 1])
  {
    if s != [] && IsSpace(s[0]) then Strip(s[1..]) else StripRight(s)
  }

  /** Stripping is stripping on the right what follows the leading whitespace run. */
  lemma {:induction false} StripAfterLeadingSpaces(s: string)
    ensures Strip(s) == StripRight(s[LeadingSpaces(s)..])
  {
    if s != [] && IsSpace(s[0]) {
      StripAfterLeadingSpaces(s[1..]);
      assert s[1..][LeadingSpaces(s[1..])..] == s[LeadingSpaces(s)..];
    }
  }

  /**
   * What `strip` removes is whitespace and nothing else: the stripped text
   * is what follows the leading whitespace run of `s`, character for
   * character, and all that follows it in `s` is whitespace.
   */
  lemma StripRemovesOnlySpace(s: string)
    ensures LeadingSpaces(s) + |Strip(s)| <= |s|
    ensures forall j :: 0 <= j < |Strip(s)| ==> Strip(s)[j] == s[LeadingSpaces(s) + j]
    ensures forall i :: LeadingSpaces(s) + |Strip(s)| <= i < |s| ==> IsSpace(s[i])
  {
    StripAfterLeadingSpaces(s);
    StripRightOfSuffix(s, LeadingSpaces(s), Strip(s));
  }

  /**
   * Stripping on the right what follows position `n` of `s` keeps the
   * characters from `n` on, and leaves behind only whitespace.
   */
  lemma StripRightOfSuffix(s: string, n: nat, r: string)
    requires n <= |s| && r == StripRight(s[n..])
    ensures n + |r| <= |s|
    ensures forall j :: 0 <= j < |r| ==> r[j] == s[n + j]
    ensures forall i :: n + |r| <= i < |s| ==> IsSpace(s[i])
  {
    var t := s[n..];
    forall j | 0 <= j < |r| ensures r[j] == s[n + j] {
      assert r[j] == t[..|r|][j];
    }
    forall i | n + |r| <= i < |s| ensures IsSpace(s[i]) {
      assert s[i] == t[i - n];
    }
  }

  /** What `strip` returns is a piece of its argument. */
  lemma StripIsPiece(s: string)
    ensures Contains(s, Strip(s))
  {
    StripRemovesOnlySpace(s);
    var n := LeadingSpaces(s);
    assert s[n..n + |Strip(s)|] == Strip(s);
    assert OccursAt(s, Strip(s), n);
  }

  // ---------------------------------------------------------------------
  // Words: `s.split()` and `' '.join(words)`

  predicate IsWord(w: string) {
    w != [] && forall i :: 0 <= i < |w| ==> !IsSpace(w[i])
  }

  /** Length of the run of non-whitespace characters that starts `s`. */
  function WordLength(s: string): (n: nat)
    ensures n <= |s|
    ensures forall i :: 0 <= i < n ==> !IsSpace(s[i])
    ensures n < |s| ==> IsSpace(s[n])
  {
    if s == [] || IsSpace(s[0]) then 0 else 1 + WordLength(s[1..])
  }

  /** `s.split()`: the maximal runs of non-whitespace characters, in order. */
  function Words(s: string): (ws: seq<string>)
    ensures forall k :: 0 <= k < |ws| ==> IsWord(ws[k])
    decreases |s|
  {
    if s == [] then []
    else if IsSpace(s[0]) then Words(s[1..])
    else
      var n := WordLength(s);
      [s[..n]] + Words(s[n..])
  }

  /** `sep.join(parts)`. */
  function Join(sep: string, parts: seq<string>): string {
    if parts == [] then ""
    else if |parts| == 1 then parts[0]
    else parts[0] + sep + Join(sep, parts[1..])
  }

  lemma {:induction false} WordLengthOfWord(w: string, rest: string)
    requires IsWord(w) && (rest == [] || IsSpace(rest[0]))
    ensures WordLength(w + rest) == |w|
  {
    var s := w + rest;
    assert s[0] == w[0];
    if |w| == 1 {
      assert s[1..] == rest;
    } else {
      assert s[1..] == w[1..] + rest;
      WordLengthOfWord(w[1..], rest);
    }
  }

  lemma WordsAfterWord(w: string, rest: string)
    requires IsWord(w) && (rest == [] || IsSpace(rest[0]))
    ensures Words(w + rest) == [w] + Words(rest)
  {
    WordLengthOfWord(w, rest);
    var s := w + rest;
    assert s[..|w|] == w && s[|w|..] == rest;
  }

  lemma WordsAfterSpace(rest: string)
    ensures Words(" " + rest) == Words(rest)
  {
    assert (" " + rest)[1..] == rest;
  }

  /** Splitting words joined by single spaces gives the words back. */
  lemma {:induction false} WordsOfJoin(ws: seq<string>)
    requires forall k :: 0 <= k < |ws| ==> IsWord(ws[k])
    ensures Words(Join(" ", ws)) == ws
  {
    if |ws| == 1 {
      WordsAfterWord(ws[0], "");
      assert ws[0] + "" == ws[0];
    } else if |ws| > 1 {
      var tail := Join(" ", ws[1..]);
      WordsOfJoin(ws[1..]);
      assert Join(" ", ws) == ws[0] + (" " + tail);
      WordsAfterSpace(tail);
      WordsAfterWord(ws[0], " " + tail);
      assert ws == [ws[0]] + ws[1..];
    }
  }

  /** A run of word characters that stops inside `a` ignores what follows `a`. */
  lemma {:induction false} WordLengthOfPrefix(a: string, b: string)
    requires WordLength(a) < |a|
    ensures WordLength(a + b) == WordLength(a)
  {
    assert (a + b)[0] == a[0];
    if !IsSpace(a[0]) {
      assert (a + b)[1..] == a[1..] + b;
      WordLengthOfPrefix(a[1..], b);
    }
  }

  /** `(a + b).split()` is `a.split() + b.split()` when `a` ends in whitespace. */
  lemma {:induction false} WordsOfConcat(a: string, b: string)
    requires a == [] || IsSpace(a[|a| - 1])
    ensures Words(a + b) == Words(a) + Words(b)
    decreases |a|
  {
    if a == [] {
      assert a + b == b;
    } else if IsSpace(a[0]) {
      WordsOfConcat(a[1..], b);
      WordsOfConcatAfterSpace(a, b);
    } else {
      var n := WordLength(a);
      assert n < |a| by { assert IsSpace(a[|a| - 1]); }
      WordsOfConcat(a[n..], b);
      WordsOfConcatAfterWord(a, b);
    }
  }

  /** The step of `WordsOfConcat` over a leading whitespace character. */
  lemma WordsOfConcatAfterSpace(a: string, b: string)
    requires a != [] && IsSpace(a[0])
    requires Words(a[1..] + b) == Words(a[1..]) + Words(b)
    ensures Words(a + b) == Words(a) + Words(b)
  {
    var s := a + b;
    assert s[0] == a[0];
    assert s[1..] == a[1..] + b;
  }

  /** The step of `WordsOfConcat` over a leading word that ends inside `a`. */
  lemma WordsOfConcatAfterWord(a: string, b: string)
    requires a != [] && !IsSpace(a[0]) && WordLength(a) < |a|
    requires Words(a[WordLength(a)..] + b) == Words(a[WordLength(a)..]) + Words(b)
    ensures Words(a + b) == Words(a) + Words(b)
  {
    var n := WordLength(a);
    var s := a + b;
    WordLengthOfPrefix(a, b);
    WordsAtWord(a);
    WordsAtWord(s);
    SplitConcat(a, b, n);
  }

  /** Cutting `a + b` inside `a` cuts `a` there. */
  lemma SplitConcat(a: string, b: string, n: nat)
    requires n <= |a|
    ensures (a + b)[..n] == a[..n] && (a + b)[n..] == a[n..] + b
  {
  }

  /** A text that starts with a word splits into that word and the words of the rest. */
  lemma WordsAtWord(s: string)
    requires s != [] && !IsSpace(s[0])
    ensures Words(s) == [s[..WordLength(s)]] + Words(s[WordLength(s)..])
  {
  }

  lemma WordThenSuffix(w: string, suffix: string)
    requires IsWord(w)
    requires forall i :: 0 <= i < |suffix| ==> !IsSpace(suffix[i])
    ensures IsWord(w + suffix)
  {
    var ws := w + suffix;
    forall i | 0 <= i < |ws| ensures !IsSpace(ws[i]) {
      if i >= |w| { assert ws[i] == suffix[i - |w|]; }
    }
  }

  /**
   * Gluing a whitespace-free suffix onto words joined by spaces extends the
   * last word and adds none: `' '.join(ws) + "..."` still has `len(ws)` words.
   */
  lemma {:induction false} WordsOfJoinWithSuffix(ws: seq<string>, suffix: string)
    requires |ws| > 0 && forall k :: 0 <= k < |ws| ==> IsWord(ws[k])
    requires forall i :: 0 <= i < |suffix| ==> !IsSpace(suffix[i])
    ensures Words(Join(" ", ws) + suffix) == ws[..|ws| - 1] + [ws[|ws| - 1] + suffix]
  {
    if |ws| == 1 {
      var w := ws[0] + suffix;
      WordThenSuffix(ws[0], suffix);
      WordsAfterWord(w, "");
      assert w + "" == w;
    } else {
      WordsOfJoinWithSuffix(ws[1..], suffix);
      WordsOfJoinWithSuffixStep(ws, suffix);
    }
  }

  /** The step of `WordsOfJoinWithSuffix` over the first word. */
  lemma WordsOfJoinWithSuffixStep(ws: seq<string>, suffix: string)
    requires |ws| > 1 && IsWord(ws[0])
    requires Words(Join(" ", ws[1..]) + suffix) == ws[1..][..|ws| - 2] + [ws[|ws| - 1] + suffix]
    ensures Words(Join(" ", ws) + suffix) == ws[..|ws| - 1] + [ws[|ws| - 1] + suffix]
  {
    var tail := Join(" ", ws[1..]);
    JoinFirst(ws, suffix);
    WordsAfterSpace(tail + suffix);
    WordsAfterWord(ws[0], " " + (tail + suffix));
    AllButLast(ws);
  }

  /** Joining more than one part puts the first part and a space before the join of the rest. */
  lemma JoinFirst(ws: seq<string>, suffix: string)
    requires |ws| > 1
    ensures Join(" ", ws) + suffix == ws[0] + (" " + (Join(" ", ws[1..]) + suffix))
  {
  }

  /** All but the last element: the first, then all but the last of the tail. */
  lemma AllButLast<T>(s: seq<T>)
    requires |s| > 1
    ensures s[1..][..|s| - 2] == s[1..|s| - 1] && s[..|s| - 1] == [s[0]] + s[1..|s| - 1]
  {
  }

  // ---------------------------------------------------------------------
  // Sentences: `re.split(r'[.!?]+', s)`

  predicate IsSentenceEnd(c: char) { c == '.' || c == '!' || c == '?' }

  predicate NoSentenceEnd(s: string) {
    forall i :: 0 <= i < |s| ==> !IsSentenceEnd(s[i])
  }

  /** Where the piece that starts at `i` ends: the next sentence end, or the end of `s`. */
  function PieceEnd(s: string, i: nat): (j: nat)
    requires i <= |s|
    ensures i <= j <= |s|
    ensures forall l :: i <= l < j ==> !IsSentenceEnd(s[l])
    ensures j < |s| ==> IsSentenceEnd(s[j])
    decreases |s| - i
  {
    if i == |s| || IsSentenceEnd(s[i]) then i else PieceEnd(s, i + 1)
  }

  /** Where the run of sentence ends that starts at `j` stops. */
  function RunEnd(s: string, j: nat): (k: nat)
    requires j <= |s|
    ensures j <= k <= |s|
    ensures forall l :: j <= l < k ==> IsSentenceEnd(s[l])
    ensures k < |s| ==> !IsSentenceEnd(s[k])
    decreases |s| - j
  {
    if j < |s| && IsSentenceEnd(s[j]) then RunEnd(s, j + 1) else j
  }

  /** `parts[0] + seps[0] + parts[1] + ... + parts[|parts| - 1]`. */
  function Interleave(parts: seq<string>, seps: seq<string>): string
    requires |parts| == |seps| + 1
  {
    if |parts| == 1 then parts[0] else parts[0] + seps[0] + Interleave(parts[1..], seps[1..])
  }

  /** A separator of `re.split(r'[.!?]+', s)`: a non-empty run of '.', '!' and '?'. */
  predicate IsSentenceEndRun(sep: string) {
    sep != [] && forall i :: 0 <= i < |sep| ==> IsSentenceEnd(sep[i])
  }

  /** The runs of sentence ends in `s[i..]`, in order. */
  function RunsFrom(s: string, i: nat): (seps: seq<string>)
    requires i <= |s|
    ensures forall k :: 0 <= k < |seps| ==> IsSentenceEndRun(seps[k])
    decreases |s| - i
  {
    var j := PieceEnd(s, i);
    if j == |s| then []
    else
      var k := RunEnd(s, j);
      assert IsSentenceEndRun(s[j..k]) by {
        assert forall l :: 0 <= l < k - j ==> s[j..k][l] == s[j + l];
      }
      [s[j..k]] + RunsFrom(s, k)
  }

  /** The pieces of `s[i..]` between its runs of sentence ends. */
  function PiecesFrom(s: string, i: nat): (parts: seq<string>)
    requires i <= |s|
    ensures |parts| == |RunsFrom(s, i)| + 1
    ensures forall k :: 0 <= k < |parts| ==> NoSentenceEnd(parts[k])
    ensures Interleave(parts, RunsFrom(s, i)) == s[i..]
    decreases |s| - i
  {
    var j := PieceEnd(s, i);
    assert NoSentenceEnd(s[i..j]) by {
      assert forall l :: 0 <= l < j - i ==> s[i..j][l] == s[i + l];
    }
    if j == |s| then
      [s[i..]]
    else
      var k := RunEnd(s, j);
      var tail := PiecesFrom(s, k);
      assert RunsFrom(s, i) == [s[j..k]] + RunsFrom(s, k);
      PiecesStep(s, i, j, k, tail, RunsFrom(s, k));
      [s[i..j]] + tail
  }

  /** The recursive case of `PiecesFrom`: a piece, a run, then the pieces after the run. */
  lemma PiecesStep(s: string, i: nat, j: nat, k: nat, tail: seq<string>, runs: seq<string>)
    requires i <= j <= k <= |s|
    requires |tail| == |runs| + 1 && Interleave(tail, runs) == s[k..]
    ensures Interleave([s[i..j]] + tail, [s[j..k]] + runs) == s[i..]
  {
    InterleaveFirst(s[i..j], s[j..k], tail, runs);
    SliceInThree(s, i, j, k);
  }

  /** A first piece and a first separator go in front of the rest, interleaved. */
  lemma InterleaveFirst(part: string, sep: string, tail: seq<string>, runs: seq<string>)
    requires |tail| == |runs| + 1
    ensures Interleave([part] + tail, [sep] + runs) == part + sep + Interleave(tail, runs)
  {
    var parts := [part] + tail;
    var seps := [sep] + runs;
    assert parts[1..] == tail && seps[1..] == runs;
  }

  /** The text from `i` on, cut at `j` and `k`. */
  lemma SliceInThree(s: string, i: nat, j: nat, k: nat)
    requires i <= j <= k <= |s|
    ensures s[i..] == s[i..j] + s[j..k] + s[k..]
  {
  }

  /** The runs of sentence-ending punctuation in `s`, in order. */
  function SentenceEndRuns(s: string): (seps: seq<string>)
    ensures forall k :: 0 <= k < |seps| ==> IsSentenceEndRun(seps[k])
  {
    RunsFrom(s, 0)
  }

  /**
   * `re.split(r'[.!?]+', s)`: the pieces, none holding '.', '!' or '?', that
   * give `s` back when the punctuation runs between them are put back, one
   * more piece than there are runs. A leading or trailing run yields an
   * empty first or last piece, as in Python.
   */
  function SplitSentences(s: string): (parts: seq<string>)
    ensures |parts| == |SentenceEndRuns(s)| + 1
    ensures forall k :: 0 <= k < |parts| ==> NoSentenceEnd(parts[k])
    ensures Interleave(parts, SentenceEndRuns(s)) == s
  {
    assert s[0..] == s;
    PiecesFrom(s, 0)
  }
}
