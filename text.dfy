/**
  The string operations the ticket counter borrows from its runtimes: Python's
  `str.lower`, `in`, `str.replace`, `str.rstrip` and the ordering `sorted` uses,
  and JavaScript's `String.prototype.trim`.
 */
module Text {

  predicate IsUpper(c: char) {
    'A' <= c <= 'Z'
  }

  /** `str.lower()` on one character; only ASCII letters are mapped. */
  function LowerChar(c: char): char {
    if IsUpper(c) then (c as int + 32) as char else c
  }

  /**
    `str.lower()`: the same length, no capital letter left, every character that is
    not a capital kept as it is, and each capital mapped to its own lower case.
   */
  function Lower(s: string): (r: string)
    ensures |r| == |s|
    ensures forall i :: 0 <= i < |r| ==> !IsUpper(r[i])
    ensures forall i :: 0 <= i < |s| && !IsUpper(s[i]) ==> r[i] == s[i]
    ensures forall i :: 0 <= i < |s| ==> r[i] == LowerChar(s[i])
  {
    if s == [] then [] else [LowerChar(s[0])] + Lower(s[1..])
  }

  /** Lower-casing twice is lower-casing once. */
  lemma LowerIdempotent(s: string)
    ensures Lower(Lower(s)) == Lower(s)
  {
  }

  /** `sub` occurs in `s` starting at index `i`. */
  predicate OccursAt(s: string, sub: string, i: int) {
    0 <= i && i + |sub| <= |s| && s[i..i + |sub|] == sub
  }

  /** The occurrences in `s[1..]` are those of `s` shifted one place left. */
  lemma OccursAtTail(s: string, sub: string)
    requires s != []
    ensures forall i | 0 <= i :: OccursAt(s[1..], sub, i) <==> OccursAt(s, sub, i + 1)
  {
    forall i | 0 <= i
      ensures OccursAt(s[1..], sub, i) <==> OccursAt(s, sub, i + 1)
    {
      if 0 <= i && i + |sub| <= |s| - 1 {
        assert s[1..][i..i + |sub|] == s[i + 1..i + 1 + |sub|];
      }
    }
  }

  /** When `sub` is not at the front of `s`, it occurs in `s` exactly when it occurs in `s[1..]`. */
  lemma OccursInTail(s: string, sub: string)
    requires s != [] && !OccursAt(s, sub, 0)
    ensures (exists i | 0 <= i <= |s| - |sub| :: OccursAt(s, sub, i))
            <==> (exists i | 0 <= i <= |s[1..]| - |sub| :: OccursAt(s[1..], sub, i))
  {
    OccursAtTail(s, sub);
    if i :| 0 <= i <= |s| - |sub| && OccursAt(s, sub, i) {
      assert OccursAt(s[1..], sub, i - 1);
    }
  }

  /** Python's `sub in s`, searched left to right: true exactly when `sub` occurs somewhere in `s`. */
  function Contains(s: string, sub: string): (r: bool)
    ensures r <==> exists i | 0 <= i <= |s| - |sub| :: OccursAt(s, sub, i)
    decreases |s|
  {
    if |s| < |sub| then false
    else if s[..|sub|] == sub then assert OccursAt(s, sub, 0); true
    else
      OccursInTail(s, sub);
      Contains(s[1..], sub)
  }

  /** An occurrence of a word without capitals survives lower-casing. */
  lemma LowerKeepsLowerWord(s: string, w: string)
    requires forall k | 0 <= k < |w| :: !IsUpper(w[k])
    requires Contains(s, w)
    ensures Contains(Lower(s), w)
  {
    var i :| 0 <= i <= |s| - |w| && OccursAt(s, w, i);
    var l := Lower(s);
    forall k | 0 <= k < |w|
      ensures l[i + k] == w[k]
    {
      assert s[i..i + |w|][k] == s[i + k];
    }
    assert l[i..i + |w|] == w;
    assert OccursAt(l, w, i);
  }

  /**
    Python's `s.replace(pat, by)` for a non-empty pattern: every occurrence, scanning
    left to right, without overlaps.
   */
  function ReplaceAll(s: string, pat: string, repl: string): (r: string)
    requires pat != []
    ensures !Contains(s, pat) ==> r == s
    ensures repl == [] ==> |r| <= |s|
    decreases |s|
  {
    if |s| < |pat| then s
    else if s[..|pat|] == pat then repl + ReplaceAll(s[|pat|..], pat, repl)
    else
      assert !Contains(s, pat) ==> !Contains(s[1..], pat) by {
        OccursInTail(s, pat);
      }
      assert s == [s[0]] + s[1..];
      [s[0]] + ReplaceAll(s[1..], pat, repl)
  }

  /** A string in which the pattern's first character never occurs is left as it is. */
  lemma {:induction false} ReplaceAllWithoutPattern(s: string, pat: string, repl: string)
    requires pat != [] && pat[0] !in s
    ensures ReplaceAll(s, pat, repl) == s
    decreases |s|
  {
    if |s| >= |pat| {
      assert s[..|pat|][0] == s[0] != pat[0];
      ReplaceAllWithoutPattern(s[1..], pat, repl);
      assert [s[0]] + s[1..] == s;
    }
  }

  /** A leading occurrence is replaced and the scan goes on after it. */
  lemma ReplaceAllLeading(pat: string, rest: string, repl: string)
    requires pat != []
    ensures ReplaceAll(pat + rest, pat, repl) == repl + ReplaceAll(rest, pat, repl)
  {
    assert (pat + rest)[..|pat|] == pat;
    assert (pat + rest)[|pat|..] == rest;
  }

  /**
    Text before an occurrence that holds no pattern's first character is kept,
    and the occurrence is replaced wherever it lies.
  */
  lemma {:induction false} ReplaceAllSkipsPrefix(a: string, pat: string, b: string, repl: string)
    requires pat != [] && pat[0] !in a
    ensures ReplaceAll(a + pat + b, pat, repl) == a + repl + ReplaceAll(b, pat, repl)
    decreases |a|
  {
    if a == [] {
      assert a + pat + b == pat + b;
      ReplaceAllLeading(pat, b, repl);
    } else {
      var tail, rest := a[1..] + pat + b, ReplaceAll(b, pat, repl);
      ConsRegroup(a, pat, b);
      ReplaceAllNonLeading(a[0], tail, pat, repl);
      ReplaceAllSkipsPrefix(a[1..], pat, b, repl);
      ConsRegroup(a, repl, rest);
    }
  }

  /** `a + u + v` split after the first element of a non-empty `a`. */
  lemma ConsRegroup<T>(a: seq<T>, u: seq<T>, v: seq<T>)
    requires a != []
    ensures a + u + v == [a[0]] + (a[1..] + u + v)
  {
    assert a == [a[0]] + a[1..];
  }

  /** A text that starts with a character other than the pattern's is scanned from its second character. */
  lemma ReplaceAllNonLeading(c: char, tail: string, pat: string, repl: string)
    requires pat != [] && c != pat[0] && |pat| <= |tail| + 1
    ensures ReplaceAll([c] + tail, pat, repl) == [c] + ReplaceAll(tail, pat, repl)
  {
    var s := [c] + tail;
    assert s[..|pat|][0] == c;
    assert s[1..] == tail;
  }

  /** Python's `s.rstrip(c)`. */
  function RStrip(s: string, c: char): (r: string)
    ensures |r| <= |s| && r == s[..|r|]
    ensures r == [] || r[|r| - 1] != c
    ensures forall i :: |r| <= i < |s| ==> s[i] == c
    ensures r == [] <==> forall i :: 0 <= i < |s| ==> s[i] == c
    decreases |s|
  {
    if s != [] && s[|s| - 1] == c then RStrip(s[..|s| - 1], c) else s
  }

  // ---------------------------------------------------------------------------
  // Python's string ordering: lexicographic by code point.
  // ---------------------------------------------------------------------------

  predicate LexLe(a: string, b: string)
    decreases |a|
  {
    a == [] || (b != [] && (a[0] < b[0] || (a[0] == b[0] && LexLe(a[1..], b[1..]))))
  }

  lemma {:induction false} LexLeTotal(a: string, b: string)
    ensures LexLe(a, b) || LexLe(b, a)
    decreases |a|
  {
    if a != [] && b != [] && a[0] == b[0] {
      LexLeTotal(a[1..], b[1..]);
    }
  }

  lemma {:induction false} LexLeTransitive(a: string, b: string, c: string)
    requires LexLe(a, b) && LexLe(b, c)
    ensures LexLe(a, c)
    decreases |a|
  {
    if a != [] && a[0] == b[0] && b[0] == c[0] {
      LexLeTransitive(a[1..], b[1..], c[1..]);
    }
  }

  lemma {:induction false} LexLeAntisymmetric(a: string, b: string)
    requires LexLe(a, b) && LexLe(b, a)
    ensures a == b
    decreases |a|
  {
    if a != [] {
      LexLeAntisymmetric(a[1..], b[1..]);
      assert a == [a[0]] + a[1..] && b == [b[0]] + b[1..];
    }
  }

  predicate SortedDesc(s: seq<string>) {
    forall i, j :: 0 <= i < j < |s| ==> LexLe(s[j], s[i])
  }

  /** Inserts `x` in front of the first element not above it. */
  function InsertDesc(x: string, s: seq<string>): (r: seq<string>)
    ensures multiset(r) == multiset(s) + multiset{x}
  {
    if s == [] then [x]
    else if LexLe(s[0], x) then [x] + s
    else
      assert s == [s[0]] + s[1..];
      [s[0]] + InsertDesc(x, s[1..])
  }

  /** Every element of `s` is at most `y`. */
  predicate AllLe(s: seq<string>, y: string) {
    forall k | 0 <= k < |s| :: LexLe(s[k], y)
  }

  /** A descending sequence stays descending under an element no smaller than all of it. */
  lemma ConsSorted(y: string, s: seq<string>)
    requires SortedDesc(s) && AllLe(s, y)
    ensures SortedDesc([y] + s)
  {
    var r := [y] + s;
    forall i, j | 0 <= i < j < |r|
      ensures LexLe(r[j], r[i])
    {
      assert r[j] == s[j - 1];
      if i > 0 { assert r[i] == s[i - 1]; }
    }
  }

  /** Everything in a descending sequence is at most its head. */
  lemma SortedBelowHead(s: seq<string>)
    requires SortedDesc(s) && s != []
    ensures AllLe(s[1..], s[0])
  {
    forall k | 0 <= k < |s[1..]|
      ensures LexLe(s[1..][k], s[0])
    {
      assert s[1..][k] == s[k + 1];
    }
  }

  /** A descending sequence whose head is at most `x` lies entirely at or below `x`. */
  lemma SortedBelowBound(s: seq<string>, x: string)
    requires SortedDesc(s) && s != [] && LexLe(s[0], x)
    ensures AllLe(s, x)
  {
    forall k | 0 < k < |s|
      ensures LexLe(s[k], x)
    {
      LexLeTransitive(s[k], s[0], x);
    }
  }

  /** Inserting an element below a bound keeps everything below it. */
  lemma InsertDescBelow(x: string, s: seq<string>, y: string)
    requires AllLe(s, y) && LexLe(x, y)
    ensures AllLe(InsertDesc(x, s), y)
  {
    var t := InsertDesc(x, s);
    forall k | 0 <= k < |t|
      ensures LexLe(t[k], y)
    {
      assert t[k] in multiset(t);
      if t[k] != x {
        assert t[k] in multiset(s);
        var m :| 0 <= m < |s| && s[m] == t[k];
      }
    }
  }

  lemma {:induction false} InsertDescSorted(x: string, s: seq<string>)
    requires SortedDesc(s)
    ensures SortedDesc(InsertDesc(x, s))
  {
    if s == [] {
    } else if LexLe(s[0], x) {
      SortedBelowBound(s, x);
      ConsSorted(x, s);
    } else {
      LexLeTotal(s[0], x);
      SortedTail(s);
      InsertDescSorted(x, s[1..]);
      SortedBelowHead(s);
      InsertDescBelow(x, s[1..], s[0]);
      ConsSorted(s[0], InsertDesc(x, s[1..]));
    }
  }

  /** The tail of a descending sequence is descending. */
  lemma SortedTail(s: seq<string>)
    requires SortedDesc(s) && s != []
    ensures SortedDesc(s[1..])
  {
    forall i, j | 0 <= i < j < |s| - 1
      ensures LexLe(s[1..][j], s[1..][i])
    {
      assert s[1..][j] == s[j + 1] && s[1..][i] == s[i + 1];
    }
  }

  /** Python's `sorted(s, reverse=True)` on strings. */
  function SortDesc(s: seq<string>): (r: seq<string>)
    ensures SortedDesc(r)
    ensures multiset(r) == multiset(s)
  {
    if s == [] then []
    else
      var t := SortDesc(s[1..]);
      InsertDescSorted(s[0], t);
      assert s == [s[0]] + s[1..];
      InsertDesc(s[0], t)
  }

  /** The first element of a descending sequence is its greatest. */
  lemma SortedDescHead(a: seq<string>, x: string)
    requires SortedDesc(a) && x in a
    ensures LexLe(x, a[0])
  {
    var k :| 0 <= k < |a| && a[k] == x;
    if k == 0 { LexLeTotal(x, x); }
  }

  /** Equal multisets with equal heads have equal tails. */
  lemma MultisetTail(a: seq<string>, b: seq<string>)
    requires a != [] && b != [] && a[0] == b[0] && multiset(a) == multiset(b)
    ensures multiset(a[1..]) == multiset(b[1..])
  {
    assert a == [a[0]] + a[1..] && b == [b[0]] + b[1..];
    forall x
      ensures multiset(a[1..])[x] == multiset(b[1..])[x]
    {
      assert multiset(a)[x] == multiset([a[0]])[x] + multiset(a[1..])[x];
      assert multiset(b)[x] == multiset([b[0]])[x] + multiset(b[1..])[x];
    }
  }

  /** A sorted order of a multiset of strings is unique, so SortDesc is the only answer. */
  lemma {:induction false} SortedDescUnique(a: seq<string>, b: seq<string>)
    requires SortedDesc(a) && SortedDesc(b) && multiset(a) == multiset(b)
    ensures a == b
  {
    if a != [] {
      assert |b| == |a| by { assert |multiset(a)| == |multiset(b)|; }
      assert a[0] in multiset(b) && b[0] in multiset(a);
      SortedDescHead(b, a[0]);
      SortedDescHead(a, b[0]);
      LexLeAntisymmetric(a[0], b[0]);
      MultisetTail(a, b);
      SortedTail(a);
      SortedTail(b);
      SortedDescUnique(a[1..], b[1..]);
      assert a == [a[0]] + a[1..] && b == [b[0]] + b[1..];
    }
  }

  // ---------------------------------------------------------------------------
  // JavaScript's String.prototype.trim
  // ---------------------------------------------------------------------------

  /** The characters ECMAScript counts as WhiteSpace or LineTerminator. */
  predicate IsJsSpace(c: char) {
    c == '\t' || c == '\n' || c == '\U{000B}' || c == '\U{000C}' || c == '\r' || c == ' '
    || c == '\U{00A0}' || c == '\U{1680}' || ('\U{2000}' <= c <= '\U{200A}')
    || c == '\U{2028}' || c == '\U{2029}' || c == '\U{202F}' || c == '\U{205F}'
    || c == '\U{3000}' || c == '\U{FEFF}'
  }

  /** Nothing but JavaScript white space. */
  predicate IsBlank(s: string) {
    forall i :: 0 <= i < |s| ==> IsJsSpace(s[i])
  }

  /** The index of the first character at or after `lo` that is not white space (or `|s|`). */
  function SkipBlanks(s: string, lo: nat): (k: nat)
    requires lo <= |s|
    ensures lo <= k <= |s|
    ensures forall i :: lo <= i < k ==> IsJsSpace(s[i])
    ensures k < |s| ==> !IsJsSpace(s[k])
    decreases |s| - lo
  {
    if lo < |s| && IsJsSpace(s[lo]) then SkipBlanks(s, lo + 1) else lo
  }

  /** The index just past the last character before `hi` and at or after `lo` that is not white space (or `lo`). */
  function SkipBlanksBack(s: string, lo: nat, hi: nat): (k: nat)
    requires lo <= hi <= |s|
    ensures lo <= k <= hi
    ensures forall i :: k <= i < hi ==> IsJsSpace(s[i])
    ensures lo < k ==> !IsJsSpace(s[k - 1])
    decreases hi
  {
    if lo < hi && IsJsSpace(s[hi - 1]) then SkipBlanksBack(s, lo, hi - 1) else hi
  }

  /** `r` sits at index `lo` of `s`, and everything before and after it in `s` is white space. */
  predicate BetweenBlanks(s: string, r: string, lo: int) {
    && OccursAt(s, r, lo)
    && (forall i :: 0 <= i < lo ==> IsJsSpace(s[i]))
    && (forall i :: lo + |r| <= i < |s| ==> IsJsSpace(s[i]))
  }

  /**
    `s.trim()`: what is left is a slice of `s` with no white space at either end, what
    is dropped before and after it is all white space, and it is empty exactly when
    `s` is all blanks.
   */
  function Trim(s: string): (r: string)
    ensures r != [] ==> !IsJsSpace(r[0]) && !IsJsSpace(r[|r| - 1])
    ensures r == [] <==> IsBlank(s)
    ensures exists lo :: BetweenBlanks(s, r, lo)
  {
    var lo := SkipBlanks(s, 0);
    var hi := SkipBlanksBack(s, lo, |s|);
    assert BetweenBlanks(s, s[lo..hi], lo);
    s[lo..hi]
  }
}
