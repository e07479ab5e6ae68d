/** Insertion-ordered dictionaries as sequences of records with distinct keys, and lists as sequences. */
module OrderedDict {
  import opened Wrappers

  /** The last record that satisfies p; with distinct keys, the record of a key. */
  function Find<T>(s: seq<T>, p: T -> bool): (k: Option<nat>)
    ensures k.Some? ==> k.value < |s| && p(s[k.value])
    ensures k.None? ==> forall i :: 0 <= i < |s| ==> !p(s[i])
  {
    if s == [] then None
    else if p(s[|s| - 1]) then Some(|s| - 1)
    else Find(s[..|s| - 1], p)
  }

  lemma {:induction false} FindSame<T>(s: seq<T>, t: seq<T>, p: T -> bool)
    requires |s| == |t| && forall i :: 0 <= i < |s| ==> p(s[i]) == p(t[i])
    ensures Find(s, p) == Find(t, p)
  {
    if s != [] {
      FindSame(s[..|s| - 1], t[..|t| - 1], p);
    }
  }

  lemma {:induction false} FindLast<T>(s: seq<T>, p: T -> bool)
    ensures forall i :: 0 <= i < |s| && p(s[i]) ==> Find(s, p).Some? && i <= Find(s, p).value
  {
    if s != [] {
      FindLast(s[..|s| - 1], p);
    }
  }

  ghost predicate NoDup<T>(s: seq<T>) {
    forall i, j :: 0 <= i < j < |s| ==> s[i] != s[j]
  }

  /** The list without the first occurrence of x. */
  function RemoveFirst<T(==)>(s: seq<T>, x: T): seq<T> {
    if s == [] then []
    else if s[0] == x then s[1..]
    else [s[0]] + RemoveFirst(s[1..], x)
  }

  /** Without repetitions, removing one occurrence removes x and nothing else, in order. */
  lemma {:induction false} RemoveFirstNoDup<T>(s: seq<T>, x: T)
    requires NoDup(s)
    ensures NoDup(RemoveFirst(s, x))
    ensures forall y :: y in RemoveFirst(s, x) <==> y in s && y != x
  {
    if s != [] && s[0] != x {
      RemoveFirstNoDup(s[1..], x);
      var r := RemoveFirst(s[1..], x);
      assert s == [s[0]] + s[1..];
      assert s[0] !in s[1..];
    }
  }

  lemma NoDupSnoc<T>(s: seq<T>, x: T)
    requires NoDup(s) && x !in s
    ensures NoDup(s + [x])
  {}

  lemma {:induction false} NoDupCount<T>(s: seq<T>)
    requires NoDup(s)
    ensures |set x | x in s| == |s|
  {
    var all := set x | x in s;
    if s != [] {
      var init, last := s[..|s| - 1], s[|s| - 1];
      NoDupCount(init);
      assert last !in init;
      assert all == (set x | x in init) + {last} by {
        assert s == init + [last];
      }
    }
  }
}
