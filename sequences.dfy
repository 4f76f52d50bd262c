/** `ArrayList.remove(Object)` on a sequence: the first element equal to the
    argument is removed, if there is one. */
module Sequences {

  /** The position of the first occurrence of `x`. */
  function IndexOf<T(==)>(s: seq<T>, x: T): (i: nat)
    requires x in s
    ensures i < |s| && s[i] == x && x !in s[..i]
  {
    if s[0] == x then 0 else
      assert s == [s[0]] + s[1..];
      var j := IndexOf(s[1..], x);
      assert s[..j + 1] == [s[0]] + s[1..][..j];
      j + 1
  }

  function RemoveFirst<T(==)>(s: seq<T>, x: T): (r: seq<T>)
    ensures x !in s ==> r == s
    ensures |r| == if x in s then |s| - 1 else |s|
  {
    if |s| == 0 then []
    else if s[0] == x then s[1..]
    else
      assert s == [s[0]] + s[1..];
      [s[0]] + RemoveFirst(s[1..], x)
  }

  /** Exactly the first occurrence goes; the elements around it keep their order. */
  lemma {:induction false} RemoveFirstSplit<T>(s: seq<T>, x: T)
    requires x in s
    ensures RemoveFirst(s, x) == s[..IndexOf(s, x)] + s[IndexOf(s, x) + 1..]
  {
    if s[0] != x {
      var t := s[1..];
      assert s == [s[0]] + t;
      RemoveFirstSplit(t, x);
      var j := IndexOf(t, x);
      assert IndexOf(s, x) == j + 1;
      var a, b := t[..j], t[j + 1..];
      assert RemoveFirst(s, x) == [s[0]] + (a + b);
      assert s[..j + 1] == [s[0]] + a;
      assert s[j + 2..] == b;
      assert [s[0]] + (a + b) == ([s[0]] + a) + b;
    }
  }

  /** As a bag, one copy of `x` goes and nothing else changes. */
  lemma {:induction false} RemoveFirstMultiset<T>(s: seq<T>, x: T)
    ensures multiset(RemoveFirst(s, x)) == multiset(s) - multiset{x}
  {
    if |s| > 0 {
      assert s == [s[0]] + s[1..];
      if s[0] != x {
        RemoveFirstMultiset(s[1..], x);
        assert multiset([s[0]] + RemoveFirst(s[1..], x))
            == multiset{s[0]} + multiset(RemoveFirst(s[1..], x));
      }
    }
  }

  /** Removing leaves only elements that were there. */
  lemma RemoveFirstSubset<T>(s: seq<T>, x: T, y: T)
    requires y in RemoveFirst(s, x)
    ensures y in s
  {
    RemoveFirstMultiset(s, x);
    assert y in multiset(RemoveFirst(s, x));
  }

  /** Removing keeps every element different from the one removed. */
  lemma {:induction false} RemoveFirstKeeps<T>(s: seq<T>, x: T, y: T)
    requires y in s && y != x
    ensures y in RemoveFirst(s, x)
  {
    if s[0] != x && s[0] != y {
      assert y in s[1..];
      RemoveFirstKeeps(s[1..], x, y);
    }
  }

  /** Removing an element of a sequence without repetitions removes it entirely
      and keeps the sequence free of repetitions. */
  lemma RemoveFirstDistinct<T>(s: seq<T>, x: T)
    requires forall i, j :: 0 <= i < j < |s| ==> s[i] != s[j]
    ensures x !in RemoveFirst(s, x)
    ensures var r := RemoveFirst(s, x); forall i, j :: 0 <= i < j < |r| ==> r[i] != r[j]
  {
    if x in s {
      var k := IndexOf(s, x);
      RemoveFirstSplit(s, x);
      var r := RemoveFirst(s, x);
      assert r == s[..k] + s[k + 1..];
      forall i, j | 0 <= i < j < |r|
        ensures r[i] != r[j]
      {
        var i', j' := if i < k then i else i + 1, if j < k then j else j + 1;
        assert r[i] == s[i'] && r[j] == s[j'] && i' < j';
      }
      forall i | 0 <= i < |r|
        ensures r[i] != x
      {
        var i' := if i < k then i else i + 1;
        assert r[i] == s[i'] && i' != k;
      }
    }
  }

  /** Dropping `n` and then `d` elements drops `n + d`. */
  lemma DropOfDrop<T>(s: seq<T>, n: nat, d: nat)
    requires n <= |s| && d <= |s| - n
    ensures s[n..][d..] == s[n + d..]
  {
  }
}
