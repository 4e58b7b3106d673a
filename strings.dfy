/** Small string vocabulary shared by the link extractor and the dispatcher:
    an Option type, the two regular-expression character classes the link
    patterns use, substring occurrence, and Python's `str.split` on one
    separator character. */
module Strings {

  datatype Option<+T> = None | Some(value: T)

  /** The character classes `[A-Za-z0-9_]` and `\d` (ASCII digits). */
  datatype CharClass = Word | Digit

  predicate InClass(c: char, cls: CharClass) {
    match cls
    case Word => 'A' <= c <= 'Z' || 'a' <= c <= 'z' || '0' <= c <= '9' || c == '_'
    case Digit => '0' <= c <= '9'
  }

  /** What `[...]+` accepts: a non-empty string of class characters. */
  predicate IsRun(s: string, cls: CharClass) {
    |s| > 0 && forall k :: 0 <= k < |s| ==> InClass(s[k], cls)
  }

  /** `pat` occurs in `s` starting at index `i`. */
  predicate OccursAt(pat: string, s: string, i: nat) {
    i + |pat| <= |s| && forall k :: 0 <= k < |pat| ==> s[i + k] == pat[k]
  }

  /** Python's `pat in s`. */
  predicate Contains(s: string, pat: string) {
    exists i: nat | i <= |s| :: OccursAt(pat, s, i)
  }

  /** Length of the longest run of `cls` characters starting at `i`: what a
      greedy `[...]+` or `\d+` consumes when no later backtracking can
      shorten it. */
  function Span(s: string, i: nat, cls: CharClass): (n: nat)
    requires i <= |s|
    ensures i + n <= |s|
    ensures forall k :: i <= k < i + n ==> InClass(s[k], cls)
    ensures i + n == |s| || !InClass(s[i + n], cls)
    decreases |s| - i
  {
    if i < |s| && InClass(s[i], cls) then 1 + Span(s, i + 1, cls) else 0
  }

  /** A run followed by a non-class character (or the end) is exactly the span. */
  lemma {:induction false} SpanOfRun(s: string, i: nat, t: string, cls: CharClass)
    requires OccursAt(t, s, i)
    requires forall k :: 0 <= k < |t| ==> InClass(t[k], cls)
    requires i + |t| == |s| || !InClass(s[i + |t|], cls)
    ensures Span(s, i, cls) == |t| && s[i..i + |t|] == t
    decreases |t|
  {
    if t != [] {
      assert s[i] == t[0];
      assert OccursAt(t[1..], s, i + 1) by {
        forall k | 0 <= k < |t[1..]| ensures s[i + 1 + k] == t[1..][k] {
          assert s[i + (k + 1)] == t[k + 1];
        }
      }
      SpanOfRun(s, i + 1, t[1..], cls);
    }
  }

  /** An occurrence of a concatenation is an occurrence of each part. */
  lemma OccursSplit(x: string, y: string, s: string, i: nat)
    requires OccursAt(x + y, s, i)
    ensures OccursAt(x, s, i) && OccursAt(y, s, i + |x|)
  {
    forall k | 0 <= k < |x| ensures s[i + k] == x[k] {
      assert s[i + k] == (x + y)[k];
    }
    forall k | 0 <= k < |y| ensures s[i + |x| + k] == y[k] {
      assert s[i + (|x| + k)] == (x + y)[|x| + k];
    }
  }

  /** Every character of an occurrence is the corresponding character of
      `s`; stated as an implication so that it can be used where the
      occurrence may not hold. */
  lemma OccursCharIf(pat: string, s: string, i: nat, k: nat)
    ensures OccursAt(pat, s, i) && k < |pat| ==> s[i + k] == pat[k]
  {
  }

  /** Python's `sep.join(parts)`. */
  function Join(parts: seq<string>, sep: char): string
    requires |parts| >= 1
  {
    if |parts| == 1 then parts[0] else parts[0] + [sep] + Join(parts[1..], sep)
  }

  /** Python's `s.split(sep)` for a one-character separator: the pieces between
      separators, empty ones included; never an empty list. */
  function Split(s: string, sep: char): (parts: seq<string>)
    ensures |parts| >= 1
    ensures forall k :: 0 <= k < |parts| ==> sep !in parts[k]
    ensures Join(parts, sep) == s
  {
    if s == [] then [""]
    else
      var rest := Split(s[1..], sep);
      if s[0] == sep then
        assert s == [sep] + s[1..];
        [""] + rest
      else
        var parts := [[s[0]] + rest[0]] + rest[1..];
        assert parts[1..] == rest[1..];
        assert s == [s[0]] + s[1..];
        parts
  }

  /** Splitting a separator-free prefix followed by the separator peels off that prefix. */
  lemma {:induction false} SplitPrefix(p: string, rest: string, sep: char)
    requires sep !in p
    ensures Split(p + [sep] + rest, sep) == [p] + Split(rest, sep)
  {
    if p == [] {
      assert p + [sep] + rest == [sep] + rest;
      assert ([sep] + rest)[1..] == rest;
    } else {
      SplitPrefix(p[1..], rest, sep);
      assert (p + [sep] + rest)[1..] == p[1..] + [sep] + rest;
      assert [p[0]] + p[1..] == p;
    }
  }

  /** A separator-free string splits into itself. */
  lemma {:induction false} SplitPlain(p: string, sep: char)
    requires sep !in p
    ensures Split(p, sep) == [p]
  {
    if p != [] {
      SplitPlain(p[1..], sep);
      assert [p[0]] + p[1..] == p;
    }
  }

  /** `split` inverts `join` on separator-free pieces. */
  lemma {:induction false} SplitJoin(parts: seq<string>, sep: char)
    requires |parts| >= 1
    requires forall k :: 0 <= k < |parts| ==> sep !in parts[k]
    ensures Split(Join(parts, sep), sep) == parts
  {
    if |parts| == 1 {
      SplitPlain(parts[0], sep);
    } else {
      SplitJoin(parts[1..], sep);
      SplitPrefix(parts[0], Join(parts[1..], sep), sep);
      assert [parts[0]] + parts[1..] == parts;
    }
  }
}
