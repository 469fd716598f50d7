/**
 * The JavaScript string operations the dispatcher relies on:
 * `toLowerCase`, `indexOf` and `split` with a one-character separator.
 */
module Text {

  import opened Wrappers

  /** The Kelvin sign U+212A, whose lower-case form is the ASCII letter 'k'. */
  const KelvinSign: char := '\U{212A}'

  /** Lower-case form of one character. Exact for every character whose lower-case
      form is an ASCII letter ('A'..'Z' and the Kelvin sign); all others are kept. */
  function LowerChar(c: char): (l: char)
    ensures 'a' <= l <= 'z' ==> l == c || 'A' <= c <= 'Z' || c == KelvinSign
  {
    if 'A' <= c <= 'Z' then (c as int - 'A' as int + 'a' as int) as char
    else if c == KelvinSign then 'k'
    else c
  }

  /** `s.toLowerCase()`, character by character. */
  function ToLower(s: string): (r: string)
    ensures |r| == |s|
    ensures forall i :: 0 <= i < |s| ==> r[i] == LowerChar(s[i])
  {
    if s == [] then [] else [LowerChar(s[0])] + ToLower(s[1..])
  }

  /** Two strings agree ignoring case when they agree character by character. */
  lemma LowerMatches(t: string, c: string)
    requires |t| == |c| && forall i :: 0 <= i < |t| ==> LowerChar(t[i]) == c[i]
    ensures ToLower(t) == c
  {
  }

  /** `t` occurs in `s` starting at index `i`. */
  predicate OccursAt(s: string, t: string, i: int)
  {
    0 <= i && i + |t| <= |s| && s[i..i + |t|] == t
  }

  lemma OccursAtHead(s: string, t: string, i: int)
    requires OccursAt(s, t, i) && |t| > 0
    ensures s[i] == t[0]
  {
    assert s[i..i + |t|][0] == s[i];
  }

  /** `s.indexOf(t, from)`: the first index at or after `from` where `t` occurs, or -1. */
  function IndexFrom(s: string, t: string, from: nat): (r: int)
    ensures r == -1 || (from <= r && OccursAt(s, t, r))
    ensures forall i :: from <= i && (r == -1 || i < r) ==> !OccursAt(s, t, i)
    decreases |s| - from
  {
    if from + |t| > |s| then -1
    else if s[from..from + |t|] == t then from
    else IndexFrom(s, t, from + 1)
  }

  /** `s.indexOf(t)`. */
  function IndexOf(s: string, t: string): (r: int)
    ensures r == -1 <==> forall i :: 0 <= i ==> !OccursAt(s, t, i)
    ensures r != -1 ==> OccursAt(s, t, r) && forall i :: 0 <= i < r ==> !OccursAt(s, t, i)
  {
    IndexFrom(s, t, 0)
  }

  /** `s.split(sep)` for a one-character separator: the maximal runs between separators. */
  function Split(s: string, sep: char): (parts: seq<string>)
    ensures |parts| >= 1
    ensures forall k :: 0 <= k < |parts| ==> sep !in parts[k]
  {
    if s == [] then [""]
    else
      var rest := Split(s[1..], sep);
      if s[0] == sep then [""] + rest
      else [[s[0]] + rest[0]] + rest[1..]
  }

  /** `parts.join(sep)`, the inverse of `Split`. */
  function Join(parts: seq<string>, sep: char): string
    requires |parts| >= 1
  {
    if |parts| == 1 then parts[0] else parts[0] + [sep] + Join(parts[1..], sep)
  }

  /** `parts[k]`, which is `undefined` past the end of the array. */
  function SegmentAt(parts: seq<string>, k: nat): (r: Option<string>)
    ensures r.Some? <==> k < |parts|
    ensures r.Some? ==> r.value == parts[k]
  {
    if k < |parts| then Some(parts[k]) else None
  }

  lemma JoinHead(a: string, b: string, tail: seq<string>, sep: char)
    ensures Join([a + b] + tail, sep) == a + Join([b] + tail, sep)
  {
    if tail != [] {
      assert ([a + b] + tail)[1..] == tail;
      assert ([b] + tail)[1..] == tail;
    }
  }

  /** Joining the pieces of a split gives back the string. */
  lemma {:induction false} JoinSplit(s: string, sep: char)
    ensures Join(Split(s, sep), sep) == s
  {
    if s != [] {
      JoinSplit(s[1..], sep);
      var rest := Split(s[1..], sep);
      if s[0] == sep {
        assert ([""] + rest)[1..] == rest;
      } else {
        assert rest == [rest[0]] + rest[1..];
        JoinHead([s[0]], rest[0], rest[1..], sep);
      }
      assert s == [s[0]] + s[1..];
    }
  }

  /** Splitting a string whose first `|a|` characters hold no separator. */
  lemma {:induction false} SplitPrefix(a: string, s: string, sep: char)
    requires sep !in a
    ensures Split(a + s, sep) == [a + Split(s, sep)[0]] + Split(s, sep)[1..]
  {
    if a == [] {
      var ps := Split(s, sep);
      assert a + s == s && a + ps[0] == ps[0];
      assert ps == [ps[0]] + ps[1..];
    } else {
      SplitPrefix(a[1..], s, sep);
      assert (a + s)[0] == a[0];
      assert (a + s)[1..] == a[1..] + s;
      assert [a[0]] + (a[1..] + Split(s, sep)[0]) == a + Split(s, sep)[0];
    }
  }

  /** Splitting a join of separator-free pieces gives back the pieces. */
  lemma {:induction false} SplitJoin(parts: seq<string>, sep: char)
    requires |parts| >= 1
    requires forall k :: 0 <= k < |parts| ==> sep !in parts[k]
    ensures Split(Join(parts, sep), sep) == parts
  {
    if |parts| == 1 {
      SplitPrefix(parts[0], "", sep);
      assert parts[0] + "" == parts[0];
    } else {
      SplitJoin(parts[1..], sep);
      var tail := [sep] + Join(parts[1..], sep);
      SplitPrefix(parts[0], tail, sep);
      assert parts[0] + [sep] + Join(parts[1..], sep) == parts[0] + tail;
      assert tail[1..] == Join(parts[1..], sep);
      assert Split(tail, sep) == [""] + parts[1..];
      assert parts[0] + "" == parts[0];
      assert parts == [parts[0]] + parts[1..];
    }
  }
}
