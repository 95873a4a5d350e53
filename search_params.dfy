// The `URLSearchParams` container of section 6.2 of the WHATWG URL Standard,
// reduced to the three operations the simulation-sharing code uses: `set`,
// `delete` and `sort`. Its state is the ordered list of name-value pairs.
module SearchParams {
  import opened Wrappers
  import opened JsObject

  type Pair = (string, string)

  /** The UTF-16 encoding of one character: its own code unit inside the Basic
      Multilingual Plane, a high and a low surrogate above it. */
  function CodeUnitsOf(c: char): (r: seq<int>)
    ensures 1 <= |r| <= 2
    ensures |r| == 1 ==> r[0] == c as int && !(0xD800 <= r[0] < 0xE000)
    ensures |r| == 2 ==> 0xD800 <= r[0] < 0xDC00 && 0xDC00 <= r[1] < 0xE000 &&
                         c as int == 0x1_0000 + (r[0] - 0xD800) * 0x400 + (r[1] - 0xDC00)
  {
    if c as int < 0x1_0000 then [c as int]
    else
      var v := c as int - 0x1_0000;
      [0xD800 + v / 0x400, 0xDC00 + v % 0x400]
  }

  /** The UTF-16 code units of a string, as JavaScript stores it. */
  function CodeUnits(s: string): seq<int>
    decreases |s|
  {
    if s == [] then [] else CodeUnitsOf(s[0]) + CodeUnits(s[1..])
  }

  /** Two strings with the same code units are the same string. */
  lemma {:induction false} CodeUnitsInjective(a: string, b: string)
    requires CodeUnits(a) == CodeUnits(b)
    ensures a == b
    decreases |a|
  {
    if a != [] && b != [] {
      var ua, ub := CodeUnitsOf(a[0]), CodeUnitsOf(b[0]);
      var u := CodeUnits(a);
      assert u == ua + CodeUnits(a[1..]) && u == ub + CodeUnits(b[1..]);
      assert u[0] == ua[0] == ub[0];
      assert |ua| == |ub|;
      assert ua == u[..|ua|] == ub;
      assert a[0] == b[0];
      assert CodeUnits(a[1..]) == u[|ua|..] == CodeUnits(b[1..]);
      CodeUnitsInjective(a[1..], b[1..]);
      assert a == [a[0]] + a[1..] && b == [b[0]] + b[1..];
    }
  }

  /** Lexicographic order on code-unit sequences. */
  predicate UnitsLess(a: seq<int>, b: seq<int>)
    decreases |a|
  {
    if a == [] then b != []
    else if b == [] then false
    else a[0] < b[0] || (a[0] == b[0] && UnitsLess(a[1..], b[1..]))
  }

  /** The order `sort()` compares names with: code units, not characters, so a
      character above U+FFFF (a surrogate pair) comes before U+E000 to U+FFFF. */
  predicate LexLess(a: string, b: string) {
    UnitsLess(CodeUnits(a), CodeUnits(b))
  }

  /** A character outside the Basic Multilingual Plane sorts before U+FF5E. */
  lemma AstralBeforeHighBmp()
    ensures LexLess("\U{1F600}", "\U{FF5E}") && !LexLess("\U{FF5E}", "\U{1F600}")
  {
    assert CodeUnits("\U{1F600}") == [0xD83D, 0xDE00] by {
      assert CodeUnits("\U{1F600}") == CodeUnitsOf('\U{1F600}') + CodeUnits([]);
    }
    assert CodeUnits("\U{FF5E}") == [0xFF5E] by {
      assert CodeUnits("\U{FF5E}") == CodeUnitsOf('\U{FF5E}') + CodeUnits([]);
    }
  }

  lemma {:induction false} UnitsLessIrreflexive(a: seq<int>)
    ensures !UnitsLess(a, a)
    decreases |a|
  {
    if a != [] { UnitsLessIrreflexive(a[1..]); }
  }

  lemma {:induction false} UnitsLessTransitive(a: seq<int>, b: seq<int>, c: seq<int>)
    requires UnitsLess(a, b) && UnitsLess(b, c)
    ensures UnitsLess(a, c)
    decreases |a|
  {
    if a != [] && b != [] && c != [] && a[0] == b[0] == c[0] {
      UnitsLessTransitive(a[1..], b[1..], c[1..]);
    }
  }

  lemma {:induction false} UnitsLessAsymmetric(a: seq<int>, b: seq<int>)
    ensures UnitsLess(a, b) ==> !UnitsLess(b, a)
    decreases |a|
  {
    if a != [] && b != [] && a[0] == b[0] {
      UnitsLessAsymmetric(a[1..], b[1..]);
    }
  }

  lemma {:induction false} UnitsLessTotal(a: seq<int>, b: seq<int>)
    ensures a == b || UnitsLess(a, b) || UnitsLess(b, a)
    decreases |a|
  {
    if a != [] && b != [] && a[0] == b[0] {
      UnitsLessTotal(a[1..], b[1..]);
      if a[1..] == b[1..] {
        assert a == [a[0]] + a[1..] && b == [b[0]] + b[1..];
      }
    }
  }

  lemma LexLessIrreflexive(a: string)
    ensures !LexLess(a, a)
  {
    UnitsLessIrreflexive(CodeUnits(a));
  }

  lemma LexLessTransitive(a: string, b: string, c: string)
    requires LexLess(a, b) && LexLess(b, c)
    ensures LexLess(a, c)
  {
    UnitsLessTransitive(CodeUnits(a), CodeUnits(b), CodeUnits(c));
  }

  lemma LexLessAsymmetric(a: string, b: string)
    ensures LexLess(a, b) ==> !LexLess(b, a)
  {
    UnitsLessAsymmetric(CodeUnits(a), CodeUnits(b));
  }

  /** Total on strings because the UTF-16 encoding is injective. */
  lemma LexLessTotal(a: string, b: string)
    ensures a == b || LexLess(a, b) || LexLess(b, a)
  {
    UnitsLessTotal(CodeUnits(a), CodeUnits(b));
    if CodeUnits(a) == CodeUnits(b) {
      CodeUnitsInjective(a, b);
    }
  }

  /** `get(name)`: the value of the first pair with that name. */
  function GetParam(l: seq<Pair>, name: string): (r: Option<string>)
    ensures r.None? <==> name !in Keys(l)
  {
    if l == [] then None
    else if l[0].0 == name then Some(l[0].1)
    else
      assert Keys(l) == [l[0].0] + Keys(l[1..]);
      GetParam(l[1..], name)
  }

  /** `delete(name)`: every pair with that name goes, the others keep their order. */
  function DeleteParam(l: seq<Pair>, name: string): (r: seq<Pair>)
    ensures forall p: Pair :: p in r <==> p in l && p.0 != name
    ensures |r| <= |l|
  {
    if l == [] then []
    else if l[0].0 == name then DeleteParam(l[1..], name)
    else [l[0]] + DeleteParam(l[1..], name)
  }

  /** `set(name, value)`: the first pair with that name takes the value and the
      others go; without one, the pair is appended. */
  function SetParam(l: seq<Pair>, name: string, value: string): (r: seq<Pair>)
  {
    if l == [] then [(name, value)]
    else if l[0].0 == name then [(name, value)] + DeleteParam(l[1..], name)
    else [l[0]] + SetParam(l[1..], name, value)
  }

  /** No name occurs twice. */
  predicate UniqueNames(l: seq<Pair>) {
    forall i, j :: 0 <= i < j < |l| ==> l[i].0 != l[j].0
  }

  /** After `set(name, value)` the name occurs exactly once, with that value;
      every other pair is untouched. */
  lemma {:induction false} SetParamEffect(l: seq<Pair>, name: string, value: string)
    ensures var r := SetParam(l, name, value);
            (name, value) in r &&
            (forall i :: 0 <= i < |r| && r[i].0 == name ==> r[i].1 == value) &&
            (forall p: Pair :: p.0 != name ==> (p in r <==> p in l)) &&
            WithName(r, name) == [(name, value)] &&
            DeleteParam(r, name) == DeleteParam(l, name)
  {
    if l != [] {
      if l[0].0 != name {
        SetParamEffect(l[1..], name, value);
      } else {
        DeleteLeavesNone(l[1..], name);
        DeleteTwice(l[1..], name);
      }
    }
  }

  /** After `delete(name)` no pair of that name is left. */
  lemma {:induction false} DeleteLeavesNone(l: seq<Pair>, name: string)
    ensures WithName(DeleteParam(l, name), name) == []
    decreases |l|
  {
    if l != [] {
      DeleteLeavesNone(l[1..], name);
    }
  }

  /** Deleting a name twice is deleting it once. */
  lemma {:induction false} DeleteTwice(l: seq<Pair>, name: string)
    ensures DeleteParam(DeleteParam(l, name), name) == DeleteParam(l, name)
    decreases |l|
  {
    if l != [] {
      DeleteTwice(l[1..], name);
      if l[0].0 != name {
        assert ([l[0]] + DeleteParam(l[1..], name))[1..] == DeleteParam(l[1..], name);
      }
    }
  }

  lemma {:induction false} SetParamGet(l: seq<Pair>, name: string, value: string, n: string)
    ensures GetParam(SetParam(l, name, value), n) == if n == name then Some(value) else GetParam(l, n)
  {
    if l != [] {
      if l[0].0 == name {
        DeleteParamGet(l[1..], name, n);
      } else {
        SetParamGet(l[1..], name, value, n);
      }
    }
  }

  lemma {:induction false} DeleteParamGet(l: seq<Pair>, name: string, n: string)
    ensures GetParam(DeleteParam(l, name), n) == if n == name then None else GetParam(l, n)
  {
    if l != [] {
      DeleteParamGet(l[1..], name, n);
    }
  }

  lemma {:induction false} DeleteParamUnique(l: seq<Pair>, name: string)
    requires UniqueNames(l)
    ensures UniqueNames(DeleteParam(l, name)) && name !in Keys(DeleteParam(l, name))
  {
    if l != [] {
      DeleteParamUnique(l[1..], name);
      var d := DeleteParam(l[1..], name);
      if l[0].0 != name {
        forall j | 0 <= j < |d| ensures d[j].0 != l[0].0 {
          assert d[j] in d;
          var k :| 0 <= k < |l[1..]| && l[1..][k] == d[j];
          assert l[k + 1] == d[j];
        }
      }
    }
  }

  lemma {:induction false} SetParamUnique(l: seq<Pair>, name: string, value: string)
    requires UniqueNames(l)
    ensures UniqueNames(SetParam(l, name, value))
  {
    if l != [] {
      if l[0].0 == name {
        DeleteParamUnique(l[1..], name);
        var d := DeleteParam(l[1..], name);
        assert forall j :: 0 <= j < |d| ==> d[j].0 == Keys(d)[j];
      } else {
        SetParamUnique(l[1..], name, value);
        var s := SetParam(l[1..], name, value);
        SetParamEffect(l[1..], name, value);
        forall j | 0 <= j < |s| ensures s[j].0 != l[0].0 {
          assert s[j] in s;
          if s[j].0 != name {
            var k :| 0 <= k < |l[1..]| && l[1..][k] == s[j];
            assert l[k + 1] == s[j];
          }
        }
      }
    }
  }

  /** Names in non-decreasing code-unit order. */
  predicate SortedByName(l: seq<Pair>) {
    forall i :: 0 <= i < |l| - 1 ==> !LexLess(l[i + 1].0, l[i].0)
  }

  /** Inserts before the first pair whose name is not smaller, so that pairs
      with equal names keep their relative order. */
  function Insert(p: Pair, l: seq<Pair>): (r: seq<Pair>)
    ensures multiset(r) == multiset(l) + multiset{p}
    ensures |r| == |l| + 1
  {
    if l == [] || !LexLess(l[0].0, p.0) then [p] + l
    else
      assert l == [l[0]] + l[1..];
      [l[0]] + Insert(p, l[1..])
  }

  /** `sort()`: a stable sort by name. */
  function SortParams(l: seq<Pair>): (r: seq<Pair>)
    ensures multiset(r) == multiset(l)
    ensures |r| == |l|
  {
    if l == [] then []
    else
      assert l == [l[0]] + l[1..];
      Insert(l[0], SortParams(l[1..]))
  }

  lemma {:induction false} InsertSorted(p: Pair, l: seq<Pair>)
    requires SortedByName(l)
    ensures SortedByName(Insert(p, l))
    ensures |l| > 0 ==> Insert(p, l)[0] == p || Insert(p, l)[0] == l[0]
  {
    if l != [] && LexLess(l[0].0, p.0) {
      InsertSorted(p, l[1..]);
      var r := Insert(p, l[1..]);
      if |l| > 1 && r[0] == l[1] {
        assert !LexLess(l[1].0, l[0].0);
      }
      LexLessAsymmetric(l[0].0, p.0);
    } else if l != [] {
      assert !LexLess(l[0].0, p.0);
    }
  }

  lemma {:induction false} SortParamsSorted(l: seq<Pair>)
    ensures SortedByName(SortParams(l))
  {
    if l != [] {
      SortParamsSorted(l[1..]);
      InsertSorted(l[0], SortParams(l[1..]));
    }
  }

  /** The pairs with one given name, in order. */
  function WithName(l: seq<Pair>, name: string): seq<Pair> {
    if l == [] then []
    else if l[0].0 == name then [l[0]] + WithName(l[1..], name)
    else WithName(l[1..], name)
  }

  lemma {:induction false} InsertStable(p: Pair, l: seq<Pair>, name: string)
    ensures WithName(Insert(p, l), name) ==
            if p.0 == name then [p] + WithName(l, name) else WithName(l, name)
  {
    if l != [] && LexLess(l[0].0, p.0) {
      InsertStable(p, l[1..], name);
      if p.0 == name {
        LexLessIrreflexive(name);
        assert l[0].0 != name;
      }
    }
  }

  /** Sorting is stable: the pairs of each name stay in their original order. */
  lemma {:induction false} SortParamsStable(l: seq<Pair>, name: string)
    ensures WithName(SortParams(l), name) == WithName(l, name)
  {
    if l != [] {
      SortParamsStable(l[1..], name);
      InsertStable(l[0], SortParams(l[1..]), name);
    }
  }

  /** `sort()` is the identity on a list already sorted. */
  lemma {:induction false} SortParamsOfSorted(l: seq<Pair>)
    requires SortedByName(l)
    ensures SortParams(l) == l
  {
    if l != [] {
      assert SortedByName(l[1..]);
      SortParamsOfSorted(l[1..]);
    }
  }

  lemma {:induction false} WithNameEmpty(l: seq<Pair>, name: string)
    ensures WithName(l, name) == [] <==> name !in Keys(l)
  {
    if l != [] {
      WithNameEmpty(l[1..], name);
      assert Keys(l) == [l[0].0] + Keys(l[1..]);
    }
  }

  /** `get` reads the first pair of the name. */
  lemma {:induction false} GetParamFirstWithName(l: seq<Pair>, name: string)
    ensures GetParam(l, name) == if WithName(l, name) == [] then None else Some(WithName(l, name)[0].1)
  {
    WithNameEmpty(l, name);
    if l != [] && l[0].0 != name {
      GetParamFirstWithName(l[1..], name);
      assert Keys(l) == [l[0].0] + Keys(l[1..]);
    }
  }

  /** Sorting changes no `get` result. */
  lemma SortParamsGet(l: seq<Pair>, name: string)
    ensures GetParam(SortParams(l), name) == GetParam(l, name)
  {
    SortParamsStable(l, name);
    GetParamFirstWithName(l, name);
    GetParamFirstWithName(SortParams(l), name);
  }

  lemma {:induction false} UniqueAtMostOne(l: seq<Pair>, n: string)
    requires UniqueNames(l)
    ensures |WithName(l, n)| <= 1
  {
    if l != [] {
      if l[0].0 == n {
        forall k | 0 <= k < |l[1..]| ensures Keys(l[1..])[k] != n {
          assert l[1..][k] == l[k + 1];
        }
        WithNameEmpty(l[1..], n);
      } else {
        UniqueAtMostOne(l[1..], n);
      }
    }
  }

  lemma {:induction false} AtMostOneUnique(l: seq<Pair>)
    requires forall n :: |WithName(l, n)| <= 1
    ensures UniqueNames(l)
  {
    if l != [] {
      forall n ensures |WithName(l[1..], n)| <= 1 {
        assert |WithName(l, n)| <= 1;
      }
      AtMostOneUnique(l[1..]);
      assert |WithName(l, l[0].0)| <= 1;
      WithNameEmpty(l[1..], l[0].0);
      forall i, j | 0 <= i < j < |l| ensures l[i].0 != l[j].0 {
        if i > 0 {
          assert l[i] == l[1..][i - 1] && l[j] == l[1..][j - 1];
        } else {
          assert Keys(l[1..])[j - 1] == l[j].0;
        }
      }
    }
  }

  /** Sorting keeps names unique. */
  lemma SortParamsUnique(l: seq<Pair>)
    requires UniqueNames(l)
    ensures UniqueNames(SortParams(l))
  {
    forall n ensures |WithName(SortParams(l), n)| <= 1 {
      SortParamsStable(l, n);
      UniqueAtMostOne(l, n);
    }
    AtMostOneUnique(SortParams(l));
  }

  /** With unique names, `get` finds a value exactly when the pair is in the list. */
  lemma {:induction false} GetParamUnique(l: seq<Pair>, name: string, value: string)
    requires UniqueNames(l)
    ensures GetParam(l, name) == Some(value) <==> (name, value) in l
  {
    if l != [] {
      GetParamUnique(l[1..], name, value);
      if l[0].0 == name {
        forall k | 0 <= k < |l[1..]| ensures l[1..][k].0 != name {
          assert l[1..][k] == l[k + 1];
        }
      }
    }
  }

  lemma {:induction false} SortedHeadLeast(l: seq<Pair>)
    requires SortedByName(l) && UniqueNames(l) && |l| > 0
    ensures forall j :: 0 < j < |l| ==> LexLess(l[0].0, l[j].0)
  {
    if |l| > 1 {
      SortedHeadLeast(l[1..]);
      LexLessTotal(l[0].0, l[1].0);
      forall j | 1 < j < |l| ensures LexLess(l[0].0, l[j].0) {
        assert l[1..][j - 1] == l[j];
        LexLessTransitive(l[0].0, l[1].0, l[j].0);
      }
    }
  }

  lemma NoneEverywhereIsEmpty(l: seq<Pair>)
    ensures (forall n :: GetParam(l, n).None?) ==> l == []
  {
    if l != [] {
      assert GetParam(l, l[0].0).Some?;
    }
  }

  lemma HeadsAgree(a: seq<Pair>, b: seq<Pair>)
    requires SortedByName(a) && UniqueNames(a) && a != []
    requires SortedByName(b) && UniqueNames(b) && b != []
    requires forall n :: GetParam(a, n) == GetParam(b, n)
    ensures a[0] == b[0]
  {
    assert GetParam(a, a[0].0) == Some(a[0].1);
    assert GetParam(b, b[0].0) == Some(b[0].1);
    GetParamUnique(a, b[0].0, b[0].1);
    GetParamUnique(b, a[0].0, a[0].1);
    var i :| 0 <= i < |a| && a[i] == b[0];
    var j :| 0 <= j < |b| && b[j] == a[0];
    assert a[0] == b[0] || LexLess(a[0].0, b[0].0) by {
      if i > 0 { SortedHeadLeast(a); assert LexLess(a[0].0, a[i].0); }
    }
    assert b[0] == a[0] || LexLess(b[0].0, a[0].0) by {
      if j > 0 { SortedHeadLeast(b); assert LexLess(b[0].0, b[j].0); }
    }
    LexLessAsymmetric(a[0].0, b[0].0);
  }

  lemma TailsAgree(a: seq<Pair>, b: seq<Pair>)
    requires UniqueNames(a) && a != [] && UniqueNames(b) && b != [] && a[0] == b[0]
    requires forall n :: GetParam(a, n) == GetParam(b, n)
    ensures forall n :: GetParam(a[1..], n) == GetParam(b[1..], n)
  {
    forall n ensures GetParam(a[1..], n) == GetParam(b[1..], n) {
      if n == a[0].0 {
        forall k | 0 <= k < |a[1..]| ensures Keys(a[1..])[k] != n {
          assert a[1..][k] == a[k + 1];
        }
        forall k | 0 <= k < |b[1..]| ensures Keys(b[1..])[k] != n {
          assert b[1..][k] == b[k + 1];
        }
      } else {
        assert GetParam(a, n) == GetParam(a[1..], n);
        assert GetParam(b, n) == GetParam(b[1..], n);
      }
    }
  }

  lemma TailSortedUnique(l: seq<Pair>)
    requires SortedByName(l) && UniqueNames(l) && l != []
    ensures SortedByName(l[1..]) && UniqueNames(l[1..])
  {
    var t := l[1..];
    forall i | 0 <= i < |t| - 1 ensures !LexLess(t[i + 1].0, t[i].0) {
      assert t[i] == l[i + 1] && t[i + 1] == l[i + 2];
    }
    forall i, j | 0 <= i < j < |t| ensures t[i].0 != t[j].0 {
      assert t[i] == l[i + 1] && t[j] == l[j + 1];
    }
  }

  /** Equal heads and everything the recursion on the tails needs. */
  lemma DeterminedStep(a: seq<Pair>, b: seq<Pair>)
    requires SortedByName(a) && UniqueNames(a) && a != []
    requires SortedByName(b) && UniqueNames(b) && b != []
    requires forall n :: GetParam(a, n) == GetParam(b, n)
    ensures a[0] == b[0]
    ensures SortedByName(a[1..]) && UniqueNames(a[1..]) && SortedByName(b[1..]) && UniqueNames(b[1..])
    ensures forall n :: GetParam(a[1..], n) == GetParam(b[1..], n)
  {
    HeadsAgree(a, b);
    TailsAgree(a, b);
    TailSortedUnique(a);
    TailSortedUnique(b);
  }

  /** Lists that answer every `get` alike are both empty or both non-empty. */
  lemma EmptyTogether(a: seq<Pair>, b: seq<Pair>)
    requires forall n :: GetParam(a, n) == GetParam(b, n)
    ensures a == [] <==> b == []
  {
    NoneEverywhereIsEmpty(a);
    NoneEverywhereIsEmpty(b);
  }

  /** A sorted list with unique names is determined by what `get` returns. */
  lemma {:induction false} SortedUniqueDetermined(a: seq<Pair>, b: seq<Pair>)
    requires SortedByName(a) && UniqueNames(a)
    requires SortedByName(b) && UniqueNames(b)
    requires forall n :: GetParam(a, n) == GetParam(b, n)
    ensures a == b
    decreases |a|
  {
    EmptyTogether(a, b);
    if a != [] {
      DeterminedStep(a, b);
      SortedUniqueDetermined(a[1..], b[1..]);
      assert a == [a[0]] + a[1..] && b == [b[0]] + b[1..];
    }
  }

  /** The mutable container itself. */
  class UrlSearchParams {
    var list: seq<Pair>

    constructor (init: seq<Pair>)
      ensures list == init
    {
      list := init;
    }

    method Set(name: string, value: string)
      modifies this
      ensures list == SetParam(old(list), name, value)
    {
      list := SetParam(list, name, value);
    }

    method Delete(name: string)
      modifies this
      ensures list == DeleteParam(old(list), name)
    {
      list := DeleteParam(list, name);
    }

    method Sort()
      modifies this
      ensures list == SortParams(old(list))
    {
      list := SortParams(list);
    }
  }
}
