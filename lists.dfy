/**
 Sequence facts used by the column-reordering model: the two Python list
 operations that `move_col` splices with (`pop` and `insert`), filtering a list
 by membership in another, and the distinctness facts that turn "same names,
 no repeats" into "a permutation".
 */
module Lists {

  /** No element occurs twice. */
  predicate Distinct<T(==)>(s: seq<T>)
  {
    forall i, j :: 0 <= i < j < |s| ==> s[i] != s[j]
  }

  /** `b` sits immediately after `a` somewhere in `s`. */
  predicate Adjacent<T(==)>(s: seq<T>, a: T, b: T)
  {
    exists k :: 0 <= k < |s| - 1 && s[k] == a && s[k + 1] == b
  }

  /** The position of the first occurrence of `x` in `s`. */
  function IndexOf<T(==)>(s: seq<T>, x: T): (i: nat)
    requires x in s
    ensures i < |s| && s[i] == x && x !in s[..i]
  {
    if s[0] == x then 0
    else
      assert x in s[1..];
      var i := 1 + IndexOf(s[1..], x);
      assert s[..i] == [s[0]] + s[1..][..i - 1];
      i
  }

  /** What is left of the list after `s.pop(i)`. */
  function RemovedAt<T>(s: seq<T>, i: nat): (r: seq<T>)
    requires i < |s|
    ensures |r| == |s| - 1
    ensures forall k :: 0 <= k < i ==> r[k] == s[k]
    ensures forall k :: i <= k < |r| ==> r[k] == s[k + 1]
    ensures multiset(r) + multiset{s[i]} == multiset(s)
  {
    assert s == s[..i] + [s[i]] + s[i + 1..];
    s[..i] + s[i + 1..]
  }

  /**
   The index at which `list.insert(i, x)` places `x` in a list of length `n`:
   a negative `i` counts from the end, and the result is clamped to 0..n.
   */
  function InsertionPoint(n: nat, i: int): (j: nat)
    ensures j <= n
    ensures 0 <= i <= n ==> j == i
  {
    if i < 0 then (if n + i < 0 then 0 else n + i)
    else if i > n then n
    else i
  }

  /** The list after `s.insert(i, x)`. */
  function InsertedAt<T>(s: seq<T>, i: int, x: T): (r: seq<T>)
    ensures |r| == |s| + 1
    ensures r[InsertionPoint(|s|, i)] == x
    ensures forall k :: 0 <= k < InsertionPoint(|s|, i) ==> r[k] == s[k]
    ensures forall k :: InsertionPoint(|s|, i) <= k < |s| ==> r[k + 1] == s[k]
    ensures multiset(r) == multiset(s) + multiset{x}
  {
    var j := InsertionPoint(|s|, i);
    assert s == s[..j] + s[j..];
    s[..j] + [x] + s[j..]
  }

  /** The elements of `s` that are not in `keys`, in their order in `s`. */
  function Excluding<T(==,!new)>(s: seq<T>, keys: seq<T>): (r: seq<T>)
    ensures forall x :: x in r <==> x in s && x !in keys
    ensures |r| <= |s|
  {
    if s == [] then []
    else (if s[0] in keys then [] else [s[0]]) + Excluding(s[1..], keys)
  }

  lemma {:induction false} ExcludingConcat<T(!new)>(a: seq<T>, b: seq<T>, keys: seq<T>)
    ensures Excluding(a + b, keys) == Excluding(a, keys) + Excluding(b, keys)
  {
    if a == [] {
      assert a + b == b;
    } else {
      assert (a + b)[1..] == a[1..] + b;
      ExcludingConcat(a[1..], b, keys);
    }
  }

  /** Dropping one element that `keys` filters out anyway changes nothing. */
  lemma ExcludingDropsKey<T(!new)>(a: seq<T>, x: T, b: seq<T>, keys: seq<T>)
    requires x in keys
    ensures Excluding(a + [x] + b, keys) == Excluding(a + b, keys)
  {
    assert [x][1..] == [];
    assert Excluding([x], keys) == [];
    ExcludingConcat(a + [x], b, keys);
    ExcludingConcat(a, [x], keys);
    assert Excluding(a + [x], keys) == Excluding(a, keys);
    ExcludingConcat(a, b, keys);
  }

  /** Inserting an element that `keys` filters out changes nothing. */
  lemma ExcludingInserted<T(!new)>(p: seq<T>, i: int, x: T, keys: seq<T>)
    requires x in keys
    ensures Excluding(InsertedAt(p, i, x), keys) == Excluding(p, keys)
  {
    var j := InsertionPoint(|p|, i);
    assert p[..j] + p[j..] == p;
    ExcludingDropsKey(p[..j], x, p[j..], keys);
  }

  /** Popping an element that `keys` filters out changes nothing. */
  lemma ExcludingRemoved<T(!new)>(s: seq<T>, o: nat, keys: seq<T>)
    requires o < |s| && s[o] in keys
    ensures Excluding(RemovedAt(s, o), keys) == Excluding(s, keys)
  {
    SplitAt(s, o);
    ExcludingDropsKey(s[..o], s[o], s[o + 1..], keys);
  }

  /** Popping an element and inserting it anywhere leaves the other elements in order. */
  lemma ReinsertKeepsOthers<T(!new)>(s: seq<T>, o: nat, i: int)
    requires o < |s|
    ensures Excluding(InsertedAt(RemovedAt(s, o), i, s[o]), [s[o]]) == Excluding(s, [s[o]])
  {
    ExcludingInserted(RemovedAt(s, o), i, s[o], [s[o]]);
    ExcludingRemoved(s, o, [s[o]]);
  }

  lemma SplitAt<T>(s: seq<T>, o: nat)
    requires o < |s|
    ensures s[..o] + [s[o]] + s[o + 1..] == s
  {
  }

  lemma {:induction false} ExcludingDistinct<T(!new)>(s: seq<T>, keys: seq<T>)
    requires Distinct(s)
    ensures Distinct(Excluding(s, keys))
  {
    if s != [] {
      assert Distinct(s[1..]) by {
        forall i, j | 0 <= i < j < |s[1..]| ensures s[1..][i] != s[1..][j] {
          assert s[1..][i] == s[i + 1] && s[1..][j] == s[j + 1];
        }
      }
      ExcludingDistinct(s[1..], keys);
      var rest := Excluding(s[1..], keys);
      assert s[0] !in s[1..];
      DistinctConcat(if s[0] in keys then [] else [s[0]], rest);
    }
  }

  lemma DistinctConcat<T>(a: seq<T>, b: seq<T>)
    requires Distinct(a) && Distinct(b)
    requires forall x :: x in a ==> x !in b
    ensures Distinct(a + b)
  {
    forall i, j | 0 <= i < j < |a + b| ensures (a + b)[i] != (a + b)[j] {
      if j < |a| {
      } else if i < |a| {
        assert (a + b)[i] in a && (a + b)[j] == b[j - |a|];
      } else {
        assert (a + b)[i] == b[i - |a|] && (a + b)[j] == b[j - |a|];
      }
    }
  }

  /** In a list without repeats every element occurs exactly once. */
  lemma {:induction false} DistinctMultiplicity<T>(s: seq<T>)
    requires Distinct(s)
    ensures forall x :: multiset(s)[x] == if x in s then 1 else 0
  {
    if s != [] {
      assert s == [s[0]] + s[1..];
      assert Distinct(s[1..]) by {
        forall i, j | 0 <= i < j < |s[1..]| ensures s[1..][i] != s[1..][j] {
          assert s[1..][i] == s[i + 1] && s[1..][j] == s[j + 1];
        }
      }
      DistinctMultiplicity(s[1..]);
      assert s[0] !in s[1..];
      assert multiset(s) == multiset{s[0]} + multiset(s[1..]);
    }
  }

  /** Two lists without repeats that hold the same elements are permutations of each other. */
  lemma SameElementsPermutation<T>(s: seq<T>, t: seq<T>)
    requires Distinct(s) && Distinct(t)
    requires forall x :: x in s <==> x in t
    ensures multiset(s) == multiset(t)
  {
    DistinctMultiplicity(s);
    DistinctMultiplicity(t);
    assert forall x :: multiset(s)[x] == multiset(t)[x];
  }

  /**
   Distinct chosen names followed by the other names of a list without
   repeats, in their order there, are a permutation of that list.
   */
  lemma ChosenThenRestIsPermutation<T(!new)>(chosen: seq<T>, s: seq<T>)
    requires Distinct(s) && Distinct(chosen)
    requires forall x :: x in chosen ==> x in s
    ensures multiset(chosen + Excluding(s, chosen)) == multiset(s)
  {
    var rest := Excluding(s, chosen);
    ExcludingDistinct(s, chosen);
    DistinctConcat(chosen, rest);
    SameElementsPermutation(chosen + rest, s);
  }
}
