/** Ordering a finite set of ids, as ORDER BY does. */
module SortedIds {

  predicate IsLeast(m: nat, s: set<nat>) {
    m in s && forall x :: x in s ==> m <= x
  }

  lemma HasLeast(s: set<nat>) returns (m: nat)
    requires s != {}
    ensures IsLeast(m, s)
  {
    var y :| y in s;
    var rest := s - {y};
    if rest == {} {
      m := y;
    } else {
      var n := HasLeast(rest);
      m := if n <= y then n else y;
    }
    forall x | x in s ensures m <= x {
      assert x == y || x in rest;
    }
  }

  function Least(s: set<nat>): (m: nat)
    requires s != {}
    ensures IsLeast(m, s)
  {
    assert exists m :: IsLeast(m, s) by { var m := HasLeast(s); }
    var m :| m in s && IsLeast(m, s);
    m
  }

  predicate Ascending(ids: seq<nat>) {
    forall i, j :: 0 <= i < j < |ids| ==> ids[i] < ids[j]
  }

  function Elements(ids: seq<nat>): set<nat> {
    set i | i in ids
  }

  lemma Prepend(m: nat, rest: seq<nat>)
    requires Ascending(rest) && forall x :: x in Elements(rest) ==> m < x
    ensures Ascending([m] + rest)
    ensures Elements([m] + rest) == {m} + Elements(rest)
  {
    forall i | 0 <= i < |rest| ensures m < rest[i] {
      assert rest[i] in Elements(rest);
    }
  }

  lemma Append(ids: seq<nat>, m: nat)
    requires Ascending(ids) && forall x :: x in Elements(ids) ==> x < m
    ensures Ascending(ids + [m])
    ensures Elements(ids + [m]) == Elements(ids) + {m}
  {
    forall i | 0 <= i < |ids| ensures ids[i] < m {
      assert ids[i] in Elements(ids);
    }
  }

  function Sorted(s: set<nat>): (ids: seq<nat>)
    ensures Elements(ids) == s
    ensures Ascending(ids)
    ensures |ids| == |s|
  {
    if s == {} then [] else
    var m := Least(s);
    var rest := Sorted(s - {m});
    LeastFirst(s, m, rest);
    [m] + rest
  }

  lemma LeastFirst(s: set<nat>, m: nat, rest: seq<nat>)
    requires IsLeast(m, s) && Elements(rest) == s - {m} && Ascending(rest) && |rest| == |s - {m}|
    ensures Elements([m] + rest) == s && Ascending([m] + rest) && |[m] + rest| == |s|
  {
    Prepend(m, rest);
    assert {m} + (s - {m}) == s;
  }

  /** An ascending sequence is determined by its elements. */
  lemma {:induction false} AscendingIsUnique(a: seq<nat>, b: seq<nat>)
    requires Ascending(a) && Ascending(b) && Elements(a) == Elements(b)
    ensures a == b
  {
    NoElements(a);
    NoElements(b);
    if a != [] {
      FirstIsLeast(a);
      FirstIsLeast(b);
      assert a == [a[0]] + a[1..] && b == [b[0]] + b[1..];
      AscendingIsUnique(a[1..], b[1..]);
    }
  }

  lemma NoElements(a: seq<nat>)
    ensures Elements(a) == {} <==> a == []
  {
    if a != [] {
      assert a[0] in Elements(a);
    }
  }

  lemma FirstIsLeast(a: seq<nat>)
    requires Ascending(a) && a != []
    ensures IsLeast(a[0], Elements(a))
    ensures Ascending(a[1..]) && Elements(a[1..]) == Elements(a) - {a[0]}
  {
    forall x | x in Elements(a[1..]) ensures a[0] < x {
      var i :| 0 <= i < |a[1..]| && a[1..][i] == x;
      assert a[i + 1] == x;
    }
    Prepend(a[0], a[1..]);
    assert a == [a[0]] + a[1..];
  }
}
