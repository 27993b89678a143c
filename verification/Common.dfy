/** Stock types and sequence facts shared by the other modules. */
module Common {

  datatype Option<+T> = None | Some(value: T)

  /** No element occurs twice. */
  ghost predicate Distinct<T>(s: seq<T>) {
    forall i, j | 0 <= i < j < |s| :: s[i] != s[j]
  }

  ghost predicate Ascending(s: seq<int>) {
    forall i, j | 0 <= i < j < |s| :: s[i] < s[j]
  }

  /** The integers from lo up to, and excluding, hi. */
  function Range(lo: int, hi: int): (r: seq<int>)
    ensures |r| == if lo <= hi then hi - lo else 0
    ensures forall i | 0 <= i < |r| :: r[i] == lo + i
  {
    seq(if lo <= hi then hi - lo else 0, i => lo + i)
  }

  /** How often x occurs in s. */
  function Count<T(==)>(s: seq<T>, x: T): nat {
    if s == [] then 0 else Count(s[..|s| - 1], x) + if s[|s| - 1] == x then 1 else 0
  }

  lemma {:induction false} CountConcat<T>(s: seq<T>, t: seq<T>, x: T)
    ensures Count(s + t, x) == Count(s, x) + Count(t, x)
  {
    if t == [] {
      assert s + t == s;
    } else {
      var t' := t[..|t| - 1];
      CountConcat(s, t', x);
      assert (s + t)[..|s + t| - 1] == s + t';
    }
  }

  /** In a sequence without repetition an element occurs once or not at all. */
  lemma {:induction false} CountDistinct<T>(s: seq<T>, x: T)
    requires Distinct(s)
    ensures Count(s, x) == if x in s then 1 else 0
  {
    if s == [] {
    } else {
      var t, y := s[..|s| - 1], s[|s| - 1];
      CountDistinct(t, x);
      assert s == t + [y];
    }
  }

  /** An ascending sequence is determined by its elements. */
  lemma {:induction false} AscendingUnique(s: seq<int>, t: seq<int>)
    requires Ascending(s) && Ascending(t)
    requires forall x :: x in s <==> x in t
    ensures s == t
  {
    assert s == [] || s[0] in s;
    assert t == [] || t[0] in t;
    if s == [] || t == [] {
    } else {
      LastIsLargest(s, t);
      LastIsLargest(t, s);
      var s', t', m := s[..|s| - 1], t[..|t| - 1], s[|s| - 1];
      forall x ensures x in s' <==> x in t' {
        WithoutLast(s, x);
        WithoutLast(t, x);
      }
      AscendingUnique(s', t');
      assert s == s' + [m] && t == t' + [m];
    }
  }

  lemma LastIsLargest(s: seq<int>, t: seq<int>)
    requires Ascending(s) && s != [] && t != []
    requires forall x :: x in t ==> x in s
    ensures t[|t| - 1] <= s[|s| - 1]
  {
    assert t[|t| - 1] in t;
  }

  lemma WithoutLast(s: seq<int>, x: int)
    requires Ascending(s) && s != []
    ensures x in s[..|s| - 1] <==> x in s && x != s[|s| - 1]
  {
    var s', m := s[..|s| - 1], s[|s| - 1];
    assert s == s' + [m];
    assert forall i | 0 <= i < |s'| :: s'[i] == s[i];
  }
}
