/**
 * The string primitives the front end and the server rely on, written out
 * explicitly: `String.prototype.split` with a non-empty separator (which Python's
 * `str.split(sep)` matches), `Array.prototype.join`, `String.prototype.includes`,
 * `String.prototype.trim` and an ASCII `toLowerCase`.
 */
module Text {

  /** `s` begins with `d`. */
  predicate StartsWith(s: string, d: string) {
    |d| <= |s| && s[..|d|] == d
  }

  /** `s.includes(d)`: some occurrence of `d` starts in `s`. */
  predicate Contains(s: string, d: string)
    requires |d| > 0
    decreases |s|
  {
    |d| <= |s| && (StartsWith(s, d) || Contains(s[1..], d))
  }

  /**
   * `s.split(d)` for a non-empty separator: scan left to right, cut at each
   * occurrence of `d`, resume right after it. Never empty.
   */
  function Split(s: string, d: string): (parts: seq<string>)
    requires |d| > 0
    ensures |parts| >= 1
    decreases |s|
  {
    if |s| < |d| then [s]
    else if StartsWith(s, d) then [""] + Split(s[|d|..], d)
    else
      var rest := Split(s[1..], d);
      [[s[0]] + rest[0]] + rest[1..]
  }

  /** `parts.join(d)`; the empty array joins to the empty string. */
  function Join(parts: seq<string>, d: string): string
    decreases |parts|
  {
    if |parts| == 0 then ""
    else if |parts| == 1 then parts[0]
    else parts[0] + d + Join(parts[1..], d)
  }

  /** Number of non-overlapping occurrences found by the left-to-right scan of `Split`. */
  function Occurrences(s: string, d: string): nat
    requires |d| > 0
    decreases |s|
  {
    if |s| < |d| then 0
    else if StartsWith(s, d) then 1 + Occurrences(s[|d|..], d)
    else Occurrences(s[1..], d)
  }

  /** The last `d`-separated segment: JavaScript `split(d).pop()`, Python `split(d)[-1]`. */
  function LastSegment(s: string, d: string): string
    requires |d| > 0
  {
    var parts := Split(s, d);
    parts[|parts| - 1]
  }

  /**
   * The characters `String.prototype.trim` removes: the ECMAScript WhiteSpace
   * and LineTerminator code points.
   */
  predicate IsWhitespace(c: char) {
    c == '\t' || c == '\n' || c == '\U{B}' || c == '\U{C}' || c == '\r' || c == ' '
    || c == '\U{A0}' || c == '\U{1680}' || ('\U{2000}' <= c <= '\U{200A}')
    || c == '\U{2028}' || c == '\U{2029}' || c == '\U{202F}' || c == '\U{205F}'
    || c == '\U{3000}' || c == '\U{FEFF}'
  }

  /** The triple-backtick delimiter of a code fence, on both the page and the server. */
  const Fence := "```"

  /** `c` does not occur in `s`: the one-character case of `!Contains`, see `LacksContains`. */
  predicate Lacks(s: string, c: char) {
    c !in s
  }

  /** With no `c` in `s`, no separator starting with `c` occurs in it. */
  lemma Absent(s: string, d: string)
    requires |d| > 0 && Lacks(s, d[0])
    ensures !Contains(s, d)
  {
    NoStartBefore(s, "", d);
    assert s + "" == s;
  }

  predicate AllWhitespace(s: string) {
    forall i :: 0 <= i < |s| ==> IsWhitespace(s[i])
  }

  /** Drops the leading whitespace of `s`. */
  function TrimStart(s: string): string
    decreases |s|
  {
    if |s| > 0 && IsWhitespace(s[0]) then TrimStart(s[1..]) else s
  }

  /** Drops the trailing whitespace of `s`. */
  function TrimEnd(s: string): string
    decreases |s|
  {
    if |s| > 0 && IsWhitespace(s[|s| - 1]) then TrimEnd(s[..|s| - 1]) else s
  }

  /** `TrimStart` keeps a suffix, drops only whitespace, and stops at the first other character. */
  lemma {:induction false} TrimStartFacts(s: string)
    ensures |TrimStart(s)| <= |s| && TrimStart(s) == s[|s| - |TrimStart(s)|..]
    ensures AllWhitespace(s[..|s| - |TrimStart(s)|])
    ensures TrimStart(s) == [] || !IsWhitespace(TrimStart(s)[0])
    decreases |s|
  {
    if |s| > 0 && IsWhitespace(s[0]) {
      TrimStartFacts(s[1..]);
      var r := TrimStart(s[1..]);
      assert s[1..][|s| - 1 - |r|..] == s[|s| - |r|..];
    }
  }

  /** `TrimEnd` keeps a prefix, drops only whitespace, and stops at the last other character. */
  lemma {:induction false} TrimEndFacts(s: string)
    ensures |TrimEnd(s)| <= |s| && TrimEnd(s) == s[..|TrimEnd(s)|]
    ensures AllWhitespace(s[|TrimEnd(s)|..])
    ensures TrimEnd(s) == [] || !IsWhitespace(TrimEnd(s)[|TrimEnd(s)| - 1])
    decreases |s|
  {
    if |s| > 0 && IsWhitespace(s[|s| - 1]) {
      TrimEndFacts(s[..|s| - 1]);
      var r := TrimEnd(s[..|s| - 1]);
      assert s[..|s| - 1][..|r|] == s[..|r|];
      forall i | 0 <= i < |s| - |r|
        ensures IsWhitespace(s[|r|..][i])
      {
        if i < |s| - 1 - |r| {
          assert s[|r|..][i] == s[..|s| - 1][|r|..][i];
        }
      }
    }
  }

  /** `s.trim()`. */
  function Trim(s: string): string {
    TrimEnd(TrimStart(s))
  }

  function LowerChar(c: char): char {
    if 'A' <= c <= 'Z' then (c as int + 32) as char else c
  }

  /** `s.toLowerCase()` restricted to the ASCII letters. */
  function ToLower(s: string): (r: string)
    ensures |r| == |s|
    ensures forall i :: 0 <= i < |s| ==> r[i] == LowerChar(s[i])
  {
    seq(|s|, i requires 0 <= i < |s| => LowerChar(s[i]))
  }

  // ---------------------------------------------------------------------------
  // Facts about Split and Join
  // ---------------------------------------------------------------------------

  /** Joining the parts of a split with the same separator gives back the input. */
  lemma {:induction false} JoinSplit(s: string, d: string)
    requires |d| > 0
    ensures Join(Split(s, d), d) == s
    decreases |s|
  {
    if |s| < |d| {
    } else if StartsWith(s, d) {
      JoinSplit(s[|d|..], d);
      var rest := Split(s[|d|..], d);
      var parts := [""] + rest;
      assert Split(s, d) == parts;
      assert parts[1..] == rest;
      assert Join(parts, d) == "" + d + Join(rest, d);
      assert s == s[..|d|] + s[|d|..];
    } else {
      JoinSplit(s[1..], d);
      JoinCons(s[0], Split(s[1..], d), d);
      assert s == [s[0]] + s[1..];
    }
  }

  /** Joining, after gluing a character to the first part, glues it to the front of the result. */
  lemma JoinCons(c: char, rest: seq<string>, d: string)
    requires |rest| >= 1
    ensures Join([[c] + rest[0]] + rest[1..], d) == [c] + Join(rest, d)
  {
    var parts := [[c] + rest[0]] + rest[1..];
    if |rest| == 1 {
      assert parts == [[c] + rest[0]];
    } else {
      assert parts[1..] == rest[1..];
      assert Join(parts, d) == [c] + rest[0] + d + Join(rest[1..], d);
    }
  }

  /** `n` occurrences of the separator give `n + 1` parts. */
  lemma {:induction false} SplitCount(s: string, d: string)
    requires |d| > 0
    ensures |Split(s, d)| == Occurrences(s, d) + 1
    decreases |s|
  {
    if |s| < |d| {
    } else if StartsWith(s, d) {
      SplitCount(s[|d|..], d);
    } else {
      SplitCount(s[1..], d);
    }
  }

  /** The scan finds an occurrence exactly when `includes` does. */
  lemma {:induction false} OccurrencesContains(s: string, d: string)
    requires |d| > 0
    ensures Occurrences(s, d) == 0 <==> !Contains(s, d)
    decreases |s|
  {
    if |s| < |d| {
    } else if StartsWith(s, d) {
    } else {
      OccurrencesContains(s[1..], d);
    }
  }

  /** Splitting on a separator that does not occur yields the input alone. */
  lemma SplitAbsent(s: string, d: string)
    requires |d| > 0 && !Contains(s, d)
    ensures Split(s, d) == [s]
  {
    OccurrencesContains(s, d);
    SplitCount(s, d);
    JoinSplit(s, d);
  }

  /**
   * When the first occurrence of `d` in `a + d + rest` is the one right after `a`
   * (no occurrence starts inside `a`, not even one running into `d`), the split
   * cuts there first.
   */
  lemma {:induction false} SplitAt(a: string, d: string, rest: string)
    requires |d| > 0
    requires !Contains(a + d[..|d| - 1], d)
    ensures Split(a + d + rest, d) == [a] + Split(rest, d)
    decreases |a|
  {
    var s := a + d + rest;
    if |a| == 0 {
      assert s == d + rest;
      assert StartsWith(s, d);
      assert s[|d|..] == rest;
    } else {
      var x := a + d[..|d| - 1];
      assert !StartsWith(x, d) && !Contains(x[1..], d);
      assert s[..|d|] == x[..|d|];
      assert !StartsWith(s, d);
      assert x[1..] == a[1..] + d[..|d| - 1];
      SplitAt(a[1..], d, rest);
      assert s[1..] == a[1..] + d + rest;
      var r := Split(s[1..], d);
      assert r == [a[1..]] + Split(rest, d);
      assert Split(s, d) == [[s[0]] + r[0]] + r[1..];
      assert [s[0]] + r[0] == a;
    }
  }

  /**
   * A separator character that does not occur in `d` cuts every occurrence of `d`
   * in two, so none can straddle it.
   */
  lemma {:induction false} ContainsAround(x: string, c: char, y: string, d: string)
    requires |d| > 0
    requires forall k :: 0 <= k < |d| ==> d[k] != c
    ensures Contains(x + [c] + y, d) <==> Contains(x, d) || Contains(y, d)
    decreases |x|
  {
    var s := x + [c] + y;
    if |x| == 0 {
      assert s == [c] + y;
      if |d| <= |s| {
        assert s[..|d|][0] == c;
      }
      assert s[1..] == y;
    } else {
      assert s[1..] == x[1..] + [c] + y;
      ContainsAround(x[1..], c, y, d);
      if |d| <= |x| {
        assert s[..|d|] == x[..|d|];
      } else if |d| <= |s| {
        assert s[..|d|][|x|] == c;
      }
    }
  }

  lemma {:induction false} ContainsInSuffix(x: string, y: string, d: string)
    requires |d| > 0 && Contains(y, d)
    ensures Contains(x + y, d)
    decreases |x|
  {
    if |x| > 0 {
      ContainsInSuffix(x[1..], y, d);
      assert (x + y)[1..] == x[1..] + y;
    } else {
      assert x + y == y;
    }
  }

  /** Splitting the join of parts that hold no separator gives the parts back. */
  lemma {:induction false} SplitJoin(parts: seq<string>, d: string)
    requires |d| > 0 && |parts| >= 1
    requires forall i :: 0 <= i < |parts| - 1 ==> !Contains(parts[i] + d[..|d| - 1], d)
    requires !Contains(parts[|parts| - 1], d)
    ensures Split(Join(parts, d), d) == parts
    decreases |parts|
  {
    if |parts| == 1 {
      SplitAbsent(parts[0], d);
    } else {
      SplitJoin(parts[1..], d);
      SplitAt(parts[0], d, Join(parts[1..], d));
      assert [parts[0]] + parts[1..] == parts;
    }
  }

  /** With a one-character separator there is nothing to straddle. */
  lemma SplitJoinChar(parts: seq<string>, c: char)
    requires |parts| >= 1
    requires forall i :: 0 <= i < |parts| ==> !Contains(parts[i], [c])
    ensures Split(Join(parts, [c]), [c]) == parts
  {
    forall i | 0 <= i < |parts| - 1
      ensures !Contains(parts[i] + [c][..0], [c])
    {
      assert parts[i] + [c][..0] == parts[i];
    }
    SplitJoin(parts, [c]);
  }

  /** The last segment holds no separator and is what follows the last one. */
  lemma LastSegmentFacts(s: string, d: string)
    requires |d| > 0
    ensures !Contains(LastSegment(s, d), d)
    ensures !Contains(s, d) ==> LastSegment(s, d) == s
    ensures Contains(s, d) ==> exists pre :: s == pre + d + LastSegment(s, d)
  {
    LastPartFree(s, d);
    var parts := Split(s, d);
    if !Contains(s, d) {
      SplitAbsent(s, d);
    } else {
      OccurrencesContains(s, d);
      SplitCount(s, d);
      JoinSplit(s, d);
      JoinLast(parts, d);
    }
  }

  /** The scan leaves no separator in its last part. */
  lemma {:induction false} LastPartFree(s: string, d: string)
    requires |d| > 0
    ensures !Contains(Split(s, d)[|Split(s, d)| - 1], d)
    decreases |s|
  {
    if |s| < |d| {
    } else if StartsWith(s, d) {
      LastPartFree(s[|d|..], d);
    } else {
      var rest := Split(s[1..], d);
      LastPartFree(s[1..], d);
      if |rest| == 1 {
        SplitCount(s[1..], d);
        OccurrencesContains(s[1..], d);
        SplitAbsent(s[1..], d);
        assert [s[0]] + rest[0] == s;
      }
    }
  }

  /** For a one-character separator, `includes` is membership. */
  lemma {:induction false} LacksContains(s: string, c: char)
    ensures Lacks(s, c) <==> !Contains(s, [c])
    decreases |s|
  {
    if |s| > 0 {
      LacksContains(s[1..], c);
      assert s == [s[0]] + s[1..];
      assert StartsWith(s, [c]) <==> s[0] == c;
    }
  }

  lemma {:induction false} JoinLast(parts: seq<string>, d: string)
    requires |parts| >= 2
    ensures Join(parts, d) == Join(parts[..|parts| - 1], d) + d + parts[|parts| - 1]
    decreases |parts|
  {
    if |parts| > 2 {
      JoinLast(parts[1..], d);
      assert parts[1..][..|parts| - 2] == parts[..|parts| - 1][1..];
    }
  }

  // ---------------------------------------------------------------------------
  // Facts about trimming
  // ---------------------------------------------------------------------------

  /** Text after a non-blank prefix survives `TrimStart` untouched. */
  lemma {:induction false} TrimStartAppend(x: string, y: string)
    requires TrimStart(x) != ""
    ensures TrimStart(x + y) == TrimStart(x) + y
    decreases |x|
  {
    if IsWhitespace(x[0]) {
      TrimStartAppend(x[1..], y);
      assert (x + y)[1..] == x[1..] + y;
    }
  }

  /** A prefix of whitespace is skipped by `TrimStart` whatever follows. */
  lemma {:induction false} TrimStartBlank(x: string, y: string)
    requires AllWhitespace(x)
    ensures TrimStart(x + y) == TrimStart(y)
    decreases |x|
  {
    if |x| > 0 {
      assert (x + y)[1..] == x[1..] + y;
      TrimStartBlank(x[1..], y);
    } else {
      assert x + y == y;
    }
  }

  /** Text before a non-blank suffix survives `TrimEnd` untouched. */
  lemma {:induction false} TrimEndAppend(x: string, y: string)
    requires TrimEnd(y) != ""
    ensures TrimEnd(x + y) == x + TrimEnd(y)
    decreases |y|
  {
    if IsWhitespace(y[|y| - 1]) {
      TrimEndAppend(x, y[..|y| - 1]);
      assert (x + y)[..|x + y| - 1] == x + y[..|y| - 1];
    }
  }

  /** A suffix of whitespace is dropped by `TrimEnd` whatever precedes it. */
  lemma {:induction false} TrimEndBlank(x: string, y: string)
    requires AllWhitespace(y)
    ensures TrimEnd(x + y) == TrimEnd(x)
    decreases |y|
  {
    if |y| > 0 {
      assert (x + y)[..|x + y| - 1] == x + y[..|y| - 1];
      TrimEndBlank(x, y[..|y| - 1]);
    } else {
      assert x + y == x;
    }
  }

  /** Trimming twice trims nothing more. */
  lemma TrimTwice(s: string)
    ensures Trim(Trim(s)) == Trim(s)
  {
    var x := TrimStart(s);
    var t := TrimEnd(x);
    TrimStartFacts(s);
    TrimEndFacts(x);
    TrimStartFacts(t);
    if t != [] {
      assert t[0] == x[0];
    }
  }

  lemma ContainsSeparator(x: string, d: string, y: string)
    requires |d| > 0
    ensures Contains(x + d + y, d)
  {
    assert StartsWith(d + y, d);
    ContainsInSuffix(x, d + y, d);
    assert x + (d + y) == x + d + y;
  }

  /**
   * Splitting on a one-character separator `c` a string made of a first piece
   * free of `c`, then either nothing or `c` and a remainder: the first part is
   * that piece, and the other parts join back to the remainder.
   */
  lemma SplitFirst(s: string, c: char, head: string, rest: string)
    requires s == head + rest && !Contains(head, [c]) && (rest == "" || rest[0] == c)
    ensures Split(s, [c])[0] == head
    ensures rest == "" <==> |Split(s, [c])| == 1
    ensures rest != "" ==> Join(Split(s, [c])[1..], [c]) == rest[1..]
  {
    if rest == "" {
      assert s == head;
      SplitAbsent(head, [c]);
    } else {
      assert head + [c][..0] == head;
      assert s == head + [c] + rest[1..];
      SplitAt(head, [c], rest[1..]);
      JoinSplit(rest[1..], [c]);
      assert Split(s, [c])[1..] == Split(rest[1..], [c]);
    }
  }

  /**
   * No occurrence of `d` in `x + y` when `x` never holds the first character of
   * `d` and `y` is too short to hold `d` by itself.
   */
  lemma {:induction false} NoStartBefore(x: string, y: string, d: string)
    requires |d| > 0 && |y| < |d|
    requires Lacks(x, d[0])
    ensures !Contains(x + y, d)
    decreases |x|
  {
    if |x| > 0 {
      assert (x + y)[0] == x[0];
      assert (x + y)[1..] == x[1..] + y;
      assert x == [x[0]] + x[1..];
      NoStartBefore(x[1..], y, d);
    }
  }

  /** Splitting on a one-character separator distributes over an occurrence of it. */
  lemma {:induction false} SplitConcatChar(x: string, c: char, y: string)
    ensures Split(x + [c] + y, [c]) == Split(x, [c]) + Split(y, [c])
    decreases |x|
  {
    if x == [] {
      SplitCons(c, y, c);
      assert x + [c] + y == [c] + y;
    } else {
      SplitConcatChar(x[1..], c, y);
      SplitRegroup(x, c, y);
      SplitConcatStep(x, c, y);
      assert [x[0]] + x[1..] == x;
    }
  }

  /** Regrouping `x + [c] + y` as its first character and the rest. */
  lemma SplitRegroup(x: string, c: char, y: string)
    requires x != []
    ensures Split(x + [c] + y, [c]) == Split([x[0]] + (x[1..] + [c] + y), [c])
  {
    assert x + [c] + y == [x[0]] + (x[1..] + [c] + y);
  }

  /** One step of `SplitConcatChar`: a leading character is handled alike on both sides. */
  lemma SplitConcatStep(x: string, c: char, y: string)
    requires x != []
    requires Split(x[1..] + [c] + y, [c]) == Split(x[1..], [c]) + Split(y, [c])
    ensures Split([x[0]] + (x[1..] + [c] + y), [c]) == Split([x[0]] + x[1..], [c]) + Split(y, [c])
  {
    var tail := x[1..] + [c] + y;
    SplitCons(x[0], tail, c);
    SplitCons(x[0], x[1..], c);
    ConsParts(x[0], c, Split(x[1..], [c]), Split(y, [c]), Split([x[0]] + tail, [c]), Split([x[0]] + x[1..], [c]));
  }

  /** The part-list bookkeeping behind `SplitConcatStep`. */
  lemma ConsParts(h: char, c: char, a: seq<string>, b: seq<string>, whole: seq<string>, front: seq<string>)
    requires |a| >= 1
    requires h == c ==> whole == [""] + (a + b) && front == [""] + a
    requires h != c ==> whole == [[h] + (a + b)[0]] + (a + b)[1..] && front == [[h] + a[0]] + a[1..]
    ensures whole == front + b
  {
    if h != c {
      assert (a + b)[0] == a[0] && (a + b)[1..] == a[1..] + b;
    }
  }

  /** `Split` on a one-character separator, one character at a time. */
  lemma SplitCons(h: char, t: string, c: char)
    ensures h == c ==> Split([h] + t, [c]) == [""] + Split(t, [c])
    ensures h != c ==> Split([h] + t, [c]) == [[h] + Split(t, [c])[0]] + Split(t, [c])[1..]
  {
    var s := [h] + t;
    assert s[1..] == t;
    assert s[..1] == [h];
  }

  /** The last segment after a one-character separator followed by a separator-free tail is that tail. */
  lemma LastSegmentAfter(x: string, c: char, y: string)
    requires !Contains(y, [c])
    ensures LastSegment(x + [c] + y, [c]) == y
  {
    SplitConcatChar(x, c, y);
    SplitAbsent(y, [c]);
  }
}
