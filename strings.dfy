// String helpers with the semantics of the JavaScript built-ins the source uses:
// startsWith, endsWith, split on one character, join, and a substring test.
// Strings are sequences of Unicode characters; where the order of code units
// matters (`URLSearchParams.sort()`), SearchParams encodes them in UTF-16.
module Strings {

  predicate StartsWith(s: string, prefix: string) {
    |prefix| <= |s| && s[..|prefix|] == prefix
  }

  predicate EndsWith(s: string, suffix: string) {
    |suffix| <= |s| && s[|s| - |suffix|..] == suffix
  }

  /** `s.includes(t)`, i.e. the regular expression test of a literal. */
  predicate Contains(s: string, t: string)
    decreases |s|
  {
    StartsWith(s, t) || (|s| > 0 && Contains(s[1..], t))
  }

  /** `s.split(c)`: the pieces between the occurrences of `c`; always at least one. */
  function Split(s: string, c: char): (r: seq<string>)
    ensures |r| >= 1
    ensures forall i :: 0 <= i < |r| ==> c !in r[i]
    decreases |s|
  {
    if s == [] then [[]]
    else
      var rest := Split(s[1..], c);
      if s[0] == c then [[]] + rest else [[s[0]] + rest[0]] + rest[1..]
  }

  /** `parts.join(sep)`. */
  function Join(parts: seq<string>, sep: string): string
    decreases |parts|
  {
    if parts == [] then ""
    else if |parts| == 1 then parts[0]
    else parts[0] + sep + Join(parts[1..], sep)
  }

  /** `a.slice(-1)[0]`, the last element of a non-empty sequence. */
  function Last<T>(a: seq<T>): T
    requires |a| > 0
  {
    a[|a| - 1]
  }

  /** Split undoes Join when no piece contains the separator. */
  lemma {:induction false} SplitJoin(parts: seq<string>, c: char)
    requires |parts| >= 1
    requires forall i :: 0 <= i < |parts| ==> c !in parts[i]
    ensures Split(Join(parts, [c]), c) == parts
    decreases |parts|
  {
    if |parts| == 1 {
      SplitNoSeparator(parts[0], c);
    } else {
      SplitJoin(parts[1..], c);
      SplitConcat(parts[0], Join(parts[1..], [c]), c);
    }
  }

  /** Joining the pieces of a split gives the string back. */
  lemma {:induction false} JoinSplit(s: string, c: char)
    ensures Join(Split(s, c), [c]) == s
    decreases |s|
  {
    if s != [] {
      JoinSplit(s[1..], c);
      var rest := Split(s[1..], c);
      if s[0] == c {
        assert Split(s, c) == [[]] + rest;
        assert Join([[]] + rest, [c]) == [] + [c] + Join(rest, [c]);
      } else {
        var r := Split(s, c);
        assert r == [[s[0]] + rest[0]] + rest[1..];
        if |rest| == 1 {
          assert r == [[s[0]] + rest[0]];
        } else {
          assert r[1..] == rest[1..];
          assert Join(r, [c]) == [s[0]] + rest[0] + [c] + Join(rest[1..], [c]);
        }
      }
    }
  }

  lemma {:induction false} SplitNoSeparator(s: string, c: char)
    requires c !in s
    ensures Split(s, c) == [s]
    decreases |s|
  {
    if s != [] {
      SplitNoSeparator(s[1..], c);
      assert [s[0]] + s[1..] == s;
    }
  }

  lemma SplitConcat(a: string, b: string, c: char)
    requires c !in a
    ensures Split(a + [c] + b, c) == [a] + Split(b, c)
  {
    SplitAround(a, b, c);
    SplitNoSeparator(a, c);
  }

  /** The last piece of a split is the suffix after the last separator. */
  lemma {:induction false} LastPieceIsSuffix(s: string, c: char)
    ensures LastPieceFacts(s, c, Last(Split(s, c)))
    decreases |s|
  {
    if s != [] {
      LastPieceIsSuffix(s[1..], c);
      LastPieceStep(s, c);
    }
  }

  /** What the last piece `p` of splitting `s` on `c` is: a suffix without `c`, preceded by `c`. */
  predicate LastPieceFacts(s: string, c: char, p: string) {
    |p| <= |s| && s[|s| - |p|..] == p && c !in p &&
    (|p| < |s| ==> s[|s| - |p| - 1] == c)
  }

  lemma LastPieceStep(s: string, c: char)
    requires s != [] && LastPieceFacts(s[1..], c, Last(Split(s[1..], c)))
    ensures LastPieceFacts(s, c, Last(Split(s, c)))
  {
    SplitLast(s, c);
    if s[0] == c || |Split(s[1..], c)| > 1 {
      LastPieceShared(s, c, Last(Split(s[1..], c)));
    } else {
      LastPieceWhole(s, c);
    }
  }

  /** How the last piece of `s` comes from the last piece of its tail. */
  lemma SplitLast(s: string, c: char)
    requires s != []
    ensures var rest := Split(s[1..], c);
            Last(Split(s, c)) == if s[0] == c || |rest| > 1 then Last(rest) else [s[0]] + Last(rest)
  {
  }

  /** When `s` holds no separator after its first character, the last piece is all of `s`. */
  lemma LastPieceWhole(s: string, c: char)
    requires s != [] && s[0] != c && |Split(s[1..], c)| == 1
    ensures Last(Split(s, c)) == s && c !in s
  {
    JoinSplit(s[1..], c);
    assert Split(s, c) == [[s[0]] + s[1..]];
  }

  /** When the tail's last piece is also the last piece of `s`. */
  lemma LastPieceShared(s: string, c: char, p: string)
    requires s != [] && LastPieceFacts(s[1..], c, p)
    requires s[0] == c || |Split(s[1..], c)| > 1
    requires p == Last(Split(s[1..], c))
    ensures LastPieceFacts(s, c, p)
  {
    if |p| == |s| - 1 {
      assert p == s[1..];
      SplitNoSeparator(s[1..], c);
    }
    SuffixOfTail(s, |p|);
  }

  lemma SuffixOfTail(s: string, n: nat)
    requires 0 < |s| && n < |s|
    ensures s[|s| - n..] == s[1..][|s| - 1 - n..]
    ensures n < |s| - 1 ==> s[|s| - n - 1] == s[1..][|s| - 1 - n - 1]
  {
  }

  /** Splitting around one separator splits both sides. */
  lemma {:induction false} SplitAround(a: string, b: string, c: char)
    ensures Split(a + [c] + b, c) == Split(a, c) + Split(b, c)
    decreases |a|
  {
    var s := a + [c] + b;
    if a == [] {
      assert s[1..] == b;
    } else {
      assert s[0] == a[0] && s[1..] == a[1..] + [c] + b;
      SplitAround(a[1..], b, c);
      var ra := Split(a[1..], c);
      if a[0] != c {
        assert (ra + Split(b, c))[1..] == ra[1..] + Split(b, c);
      }
    }
  }

  /** The last piece of splitting `a + c + b` on `c`, when `b` holds no `c`, is `b`. */
  lemma LastPieceAfterSeparator(a: string, b: string, c: char)
    requires c !in b
    ensures Last(Split(a + [c] + b, c)) == b
  {
    SplitAround(a, b, c);
    SplitNoSeparator(b, c);
  }
}
