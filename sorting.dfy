/** The two orders in which the timetable views walk hour keys:
    `Array.prototype.sort((a, b) => a - b)` on numbers, and the default
    `Array.prototype.sort()` that compares elements as strings. The source sorts
    collections without duplicates, so both are modelled on sets. */
module Sorting {

  /** Some element of a non-empty set. */
  ghost function Pick<T>(s: set<T>): (y: T)
    requires s != {}
    ensures y in s
  {
    var y :| y in s; y
  }

  // ---------------------------------------------------------------------------
  // Numeric order

  predicate IsMin(s: set<int>, m: int) {
    m in s && forall x :: x in s ==> m <= x
  }

  lemma {:induction false} MinStep(s: set<int>, y: int, m': int)
    requires y in s && (s - {y} == {} || IsMin(s - {y}, m'))
    ensures IsMin(s, if s - {y} == {} || y <= m' then y else m')
  {
    forall x | x in s ensures (if s - {y} == {} || y <= m' then y else m') <= x {
      if x != y { assert x in s - {y}; }
    }
  }

  /** Every non-empty finite set of integers has a least element. */
  ghost function MinOf(s: set<int>): (m: int)
    requires s != {}
    ensures IsMin(s, m)
    decreases |s|
  {
    var y := Pick(s);
    var m' := if s - {y} == {} then y else MinOf(s - {y});
    MinStep(s, y, m');
    if s - {y} == {} || y <= m' then y else m'
  }

  /** The elements of `s` in ascending numeric order, each once. */
  function SortNumeric(s: set<int>): (r: seq<int>)
    ensures forall i, j :: 0 <= i < j < |r| ==> r[i] < r[j]
    ensures forall x :: x in s <==> x in r
    decreases |s|
  {
    if s == {} then []
    else
      assert IsMin(s, MinOf(s));
      var m :| IsMin(s, m);
      var rest := SortNumeric(s - {m});
      assert forall x :: x in rest ==> m < x;
      [m] + rest
  }

  // ---------------------------------------------------------------------------
  // String order (UTF-16 code unit comparison, here one char per unit)

  /** `a <= b` on JavaScript strings: `a` is a prefix of `b`, or at the first
      position where they differ `a` has the smaller character. */
  predicate LexLe(a: string, b: string) {
    a == [] || (b != [] && (a[0] < b[0] || (a[0] == b[0] && LexLe(a[1..], b[1..]))))
  }

  lemma {:induction false} LexLeTotal(a: string, b: string)
    ensures LexLe(a, b) || LexLe(b, a)
  {
    if a != [] && b != [] && a[0] == b[0] {
      LexLeTotal(a[1..], b[1..]);
    }
  }

  lemma {:induction false} LexLeAntisymmetric(a: string, b: string)
    requires LexLe(a, b) && LexLe(b, a)
    ensures a == b
  {
    if a != [] && b != [] {
      LexLeAntisymmetric(a[1..], b[1..]);
      assert a == [a[0]] + a[1..] && b == [b[0]] + b[1..];
    }
  }

  lemma {:induction false} LexLeTransitive(a: string, b: string, c: string)
    requires LexLe(a, b) && LexLe(b, c)
    ensures LexLe(a, c)
  {
    if a != [] && b != [] && c != [] && a[0] == b[0] && b[0] == c[0] {
      LexLeTransitive(a[1..], b[1..], c[1..]);
    }
  }

  predicate IsLeast(s: set<string>, m: string) {
    m in s && forall x :: x in s ==> LexLe(m, x)
  }

  lemma LeastUnique(s: set<string>)
    ensures forall a, b :: IsLeast(s, a) && IsLeast(s, b) ==> a == b
  {
    forall a, b | IsLeast(s, a) && IsLeast(s, b) ensures a == b {
      LexLeAntisymmetric(a, b);
    }
  }

  lemma {:induction false} LeastStep(s: set<string>, y: string, m': string)
    requires y in s && (s - {y} == {} || IsLeast(s - {y}, m'))
    ensures IsLeast(s, if s - {y} == {} || LexLe(y, m') then y else m')
  {
    var m := if s - {y} == {} || LexLe(y, m') then y else m';
    forall x | x in s ensures LexLe(m, x) {
      if x == y {
        if m != y { LexLeTotal(y, m'); }
        else { LexLeTotal(y, y); }
      } else {
        assert x in s - {y};
        if m == y { LexLeTransitive(y, m', x); }
      }
    }
  }

  ghost function LeastOf(s: set<string>): (m: string)
    requires s != {}
    ensures IsLeast(s, m)
    decreases |s|
  {
    var y := Pick(s);
    var m' := if s - {y} == {} then y else LeastOf(s - {y});
    LeastStep(s, y, m');
    if s - {y} == {} || LexLe(y, m') then y else m'
  }

  /** `Array.from(s).sort()`: the elements of `s` in ascending string order, each once. */
  function SortDefault(s: set<string>): (r: seq<string>)
    ensures forall i, j :: 0 <= i < j < |r| ==> LexLe(r[i], r[j]) && r[i] != r[j]
    ensures forall x :: x in s <==> x in r
    decreases |s|
  {
    if s == {} then []
    else
      assert IsLeast(s, LeastOf(s));
      LeastUnique(s);
      var m :| IsLeast(s, m);
      var rest := SortDefault(s - {m});
      assert forall x :: x in rest ==> LexLe(m, x) && m != x;
      [m] + rest
  }
}
