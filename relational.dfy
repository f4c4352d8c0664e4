/**
 * Bag-level building blocks of the warehouse's SELECT statements: the
 * projection of a row list through a select list, and `SELECT DISTINCT`.
 * A table's contents are a sequence of rows; its order stands for the order
 * in which the engine happens to produce rows and carries no meaning.
 */
module Relational {

  /** No row occurs twice. */
  predicate NoDuplicates<T(==)>(s: seq<T>) {
    forall i, j :: 0 <= i < j < |s| ==> s[i] != s[j]
  }

  /** The positions of `s` whose row `f` maps to `y`. */
  ghost function Preimage<T, U>(f: T -> U, s: seq<T>, y: U): set<int> {
    set i | 0 <= i < |s| && f(s[i]) == y
  }

  /**
   * `SELECT f(row) FROM s`: one output row per input row, in input order;
   * the output holds the image of every input row and nothing else, and
   * each row as many times as there are input rows it is the image of.
   */
  function Project<T, U(!new)>(f: T -> U, s: seq<T>): (r: seq<U>)
    ensures |r| == |s|
    ensures forall x {:trigger f(x)} :: x in s ==> f(x) in r
    ensures forall y :: y in r ==> exists x :: x in s && f(x) == y
    ensures forall y :: multiset(r)[y] == |Preimage(f, s, y)|
  {
    var r := seq(|s|, i requires 0 <= i < |s| => f(s[i]));
    ImageMembers(f, s, r);
    forall y
      ensures multiset(r)[y] == |Preimage(f, s, y)|
    {
      ImageCount(f, s, r, y);
    }
    r
  }

  /** A sequence that is `s` mapped pointwise through `f` holds `y` once per position of `s` mapped to `y`. */
  lemma {:induction false} ImageCount<T, U>(f: T -> U, s: seq<T>, r: seq<U>, y: U)
    requires |r| == |s| && forall i :: 0 <= i < |s| ==> r[i] == f(s[i])
    ensures multiset(r)[y] == |Preimage(f, s, y)|
    decreases |s|
  {
    if s == [] {
      assert Preimage(f, s, y) == {};
    } else {
      var n := |s|;
      ImageCount(f, s[..n - 1], r[..n - 1], y);
      assert r == r[..n - 1] + [r[n - 1]];
      assert multiset(r) == multiset(r[..n - 1]) + multiset([r[n - 1]]);
      var here: set<int> := if f(s[n - 1]) == y then {n - 1} else {};
      assert multiset([r[n - 1]])[y] == |here|;
      PreimageSplit(f, s, y);
      assert Preimage(f, s[..n - 1], y) * here == {};
    }
  }

  lemma PreimageSplit<T, U>(f: T -> U, s: seq<T>, y: U)
    requires s != []
    ensures var n := |s|;
      && Preimage(f, s, y) == Preimage(f, s[..n - 1], y) + (if f(s[n - 1]) == y then {n - 1} else {})
      && n - 1 !in Preimage(f, s[..n - 1], y)
  {
    var n := |s|;
    forall i | i in Preimage(f, s, y) && i < n - 1
      ensures i in Preimage(f, s[..n - 1], y)
    {
      assert s[..n - 1][i] == s[i];
    }
    forall i | i in Preimage(f, s[..n - 1], y)
      ensures i in Preimage(f, s, y)
    {
      assert s[i] == s[..n - 1][i];
    }
  }

  /** A sequence that is `s` mapped pointwise through `f` holds exactly the images of `s`'s rows. */
  lemma ImageMembers<T, U>(f: T -> U, s: seq<T>, r: seq<U>)
    requires |r| == |s| && forall i :: 0 <= i < |s| ==> r[i] == f(s[i])
    ensures forall x {:trigger f(x)} :: x in s ==> f(x) in r
    ensures forall y :: y in r ==> exists x :: x in s && f(x) == y
  {
    forall x | x in s
      ensures f(x) in r
    {
      var i :| 0 <= i < |s| && s[i] == x;
      assert r[i] == f(x);
    }
    forall y | y in r
      ensures exists x :: x in s && f(x) == y
    {
      var i :| 0 <= i < |r| && r[i] == y;
      assert s[i] in s && f(s[i]) == y;
    }
  }

  /**
   * `DISTINCT`: keeps the first occurrence of every row. The result holds
   * exactly the rows of the input, each once.
   */
  function Distinct<T(==, !new)>(s: seq<T>): (r: seq<T>)
    ensures NoDuplicates(r)
    ensures forall x :: x in r <==> x in s
    ensures |r| <= |s|
    decreases |s|
  {
    if s == [] then []
    else
      var init, last := s[..|s| - 1], s[|s| - 1];
      assert s == init + [last];
      var kept := Distinct(init);
      if last in kept then kept else kept + [last]
  }

  /**
   * `SELECT DISTINCT f(row) FROM s`: one row per distinct image, every input
   * row's image present, and no row that is not the image of an input row.
   */
  function SelectDistinct<T(!new), U(==, !new)>(f: T -> U, s: seq<T>): (r: seq<U>)
    ensures NoDuplicates(r)
    ensures forall x {:trigger f(x)} :: x in s ==> f(x) in r
    ensures forall y :: y in r ==> exists x :: x in s && f(x) == y
  {
    Distinct(Project(f, s))
  }

  /** Over a single row, `SELECT DISTINCT f(row)` yields that row's image alone. */
  lemma SelectDistinctOfOne<T(!new), U(!new)>(f: T -> U, x: T)
    ensures SelectDistinct(f, [x]) == [f(x)]
  {
    assert Project(f, [x]) == [f(x)];
    assert [f(x)][..0] == [];
  }
}
