/** Sequence operations with the meaning of the .NET List<T> and Dictionary
    calls that the UI manager makes on its collections. */
module Lists {

  /** No element occurs twice: the head is not in the tail, and so on down
      the list. */
  predicate NoDups<T(==)>(s: seq<T>) {
    s == [] || (s[0] !in s[1..] && NoDups(s[1..]))
  }

  /** List<T>.Remove(x): drops the first occurrence of x, if there is one. */
  function Remove<T(==)>(s: seq<T>, x: T): (r: seq<T>)
    ensures x !in s ==> r == s
  {
    if s == [] then []
    else if s[0] == x then s[1..] else [s[0]] + Remove(s[1..], x)
  }

  /** List<T>.Remove(x) takes away exactly one x, when there is one. */
  lemma {:induction false} RemoveOne<T>(s: seq<T>, x: T)
    ensures multiset(Remove(s, x)) == multiset(s) - multiset{x}
  {
    if s != [] {
      assert s == [s[0]] + s[1..];
      if s[0] != x {
        RemoveOne(s[1..], x);
      }
    }
  }

  /** The elements of s that are not in d, in their original order. */
  function Keep<T(==)>(s: seq<T>, d: set<T>): (r: seq<T>)
    ensures forall i :: 0 <= i < |r| ==> r[i] in s && r[i] !in d
    ensures |r| <= |s|
  {
    if s == [] then []
    else (if s[0] in d then [] else [s[0]]) + Keep(s[1..], d)
  }

  /** An element survives the filter exactly when it is in the list and not
      filtered out. */
  lemma {:induction false} KeepIn<T>(s: seq<T>, d: set<T>, x: T)
    ensures x in Keep(s, d) <==> x in s && x !in d
  {
    if s != [] {
      KeepIn(s[1..], d, x);
      assert x in s <==> x == s[0] || x in s[1..];
    }
  }

  /** On a list without duplicates, List<T>.Remove(x) removes every x. */
  lemma {:induction false} RemoveIsKeep<T>(s: seq<T>, x: T)
    requires NoDups(s)
    ensures Remove(s, x) == Keep(s, {x})
  {
    if s != [] {
      assert NoDups(s[1..]);
      if s[0] == x {
        assert x !in s[1..];
        KeepNothing(s[1..], {x});
      } else {
        RemoveIsKeep(s[1..], x);
      }
    }
  }

  /** Filtering out elements that are not there changes nothing. */
  lemma {:induction false} KeepNothing<T>(s: seq<T>, d: set<T>)
    requires forall y :: y in s ==> y !in d
    ensures Keep(s, d) == s
  {
    if s != [] {
      assert s == [s[0]] + s[1..];
      KeepNothing(s[1..], d);
    }
  }

  /** Filtering keeps a list free of duplicates. */
  lemma {:induction false} KeepNoDups<T>(s: seq<T>, d: set<T>)
    requires NoDups(s)
    ensures NoDups(Keep(s, d))
  {
    if s != [] {
      KeepNoDups(s[1..], d);
      var rest := Keep(s[1..], d);
      if s[0] !in d {
        var r := Keep(s, d);
        assert r == [s[0]] + rest;
        assert r[0] == s[0] && r[1..] == rest;
      } else {
        assert Keep(s, d) == rest;
      }
    }
  }

  /** Two filters in a row are one filter by the union. */
  lemma {:induction false} KeepTwice<T>(s: seq<T>, a: set<T>, b: set<T>)
    ensures Keep(Keep(s, a), b) == Keep(s, a + b)
  {
    if s != [] {
      KeepTwice(s[1..], a, b);
      KeepAppend(if s[0] in a then [] else [s[0]], Keep(s[1..], a), b);
      assert Keep([s[0]], b) == (if s[0] in b then [] else [s[0]]) by {
        assert [s[0]][1..] == [];
      }
    }
  }

  /** Filtering distributes over concatenation. */
  lemma {:induction false} KeepAppend<T>(s: seq<T>, t: seq<T>, d: set<T>)
    ensures Keep(s + t, d) == Keep(s, d) + Keep(t, d)
  {
    if s == [] {
      assert s + t == t;
    } else {
      assert (s + t)[0] == s[0];
      assert (s + t)[1..] == s[1..] + t;
      KeepAppend(s[1..], t, d);
    }
  }

  /** In a list without duplicates a member occurs exactly once. */
  lemma {:induction false} OnceIfNoDups<T>(s: seq<T>, x: T)
    requires NoDups(s) && x in s
    ensures multiset(s)[x] == 1
  {
    assert s == [s[0]] + s[1..];
    if s[0] != x {
      OnceIfNoDups(s[1..], x);
    }
  }

  /** Appending a new element keeps a list free of duplicates. */
  lemma {:induction false} AppendNoDups<T>(s: seq<T>, x: T)
    requires NoDups(s) && x !in s
    ensures NoDups(s + [x])
  {
    if s == [] {
      assert s + [x] == [x] && [x][1..] == [];
    } else {
      assert (s + [x])[0] == s[0] && (s + [x])[1..] == s[1..] + [x];
      AppendNoDups(s[1..], x);
    }
  }

  /** In a list without duplicates no element occurs before its own index. */
  lemma {:induction false} NoDupsPrefix<T>(s: seq<T>, i: nat)
    requires NoDups(s) && i < |s|
    ensures s[i] !in s[..i]
  {
    if i > 0 {
      assert s[i] == s[1..][i - 1];
      NoDupsPrefix(s[1..], i - 1);
      assert s[..i] == [s[0]] + s[1..][..i - 1];
    }
  }

  /** Filtering out the last element of a list without duplicates and
      appending it again gives the list back. */
  lemma KeepDropsLast<T>(s: seq<T>)
    requires NoDups(s) && |s| > 0
    ensures Keep(s, {s[|s| - 1]}) + [s[|s| - 1]] == s
  {
    var n := |s| - 1;
    assert s == s[..n] + [s[n]];
    NoDupsPrefix(s, n);
    KeepAppend(s[..n], [s[n]], {s[n]});
    KeepNothing(s[..n], {s[n]});
    assert Keep([s[n]], {s[n]}) == [] by { assert [s[n]][1..] == []; }
  }
}
