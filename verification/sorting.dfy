/** Insertion sort on strings in Python's ordinal order (`sorted`, `sort_values`). */
module Sorting {
  import opened Text
  import opened Seqs

  /** Non-decreasing in the ordinal order. */
  predicate Sorted(s: seq<string>) {
    forall i, j :: 0 <= i < j < |s| ==> !Less(s[j], s[i])
  }

  /** Strictly increasing in the ordinal order. */
  predicate StrictlySorted(s: seq<string>) {
    forall i, j :: 0 <= i < j < |s| ==> Less(s[i], s[j])
  }

  function Insert(x: string, s: seq<string>): (r: seq<string>)
    requires Sorted(s)
    ensures Sorted(r)
    ensures multiset(r) == multiset(s) + multiset{x}
    ensures NoDups(s) && x !in s ==> NoDups(r)
  {
    if |s| == 0 then [x]
    else if !Less(s[0], x) then
      InsertFront(x, s);
      [x] + s
    else
      Tail(s);
      var tail := Insert(x, s[1..]);
      InsertBehind(x, s, tail);
      [s[0]] + tail
  }

  /** What the tail of a sorted sequence inherits from it. */
  lemma Tail(s: seq<string>)
    requires Sorted(s) && |s| > 0
    ensures Sorted(s[1..])
    ensures s == [s[0]] + s[1..]
    ensures multiset(s) == multiset{s[0]} + multiset(s[1..])
    ensures NoDups(s) ==> NoDups(s[1..]) && s[0] !in s[1..]
  {
    assert s == [s[0]] + s[1..];
    forall i, j | 0 <= i < j < |s[1..]| ensures !Less(s[1..][j], s[1..][i]) {
      assert s[1..][i] == s[i + 1] && s[1..][j] == s[j + 1];
    }
    if NoDups(s) {
      forall i, j | 0 <= i < j < |s[1..]| ensures s[1..][i] != s[1..][j] {
        assert s[1..][i] == s[i + 1] && s[1..][j] == s[j + 1];
      }
      forall i | 0 <= i < |s[1..]| ensures s[1..][i] != s[0] {
        assert s[1..][i] == s[i + 1];
      }
    }
  }

  /** Putting an element no greater than any of a sorted sequence in front keeps it sorted. */
  lemma ConsSorted(x: string, s: seq<string>)
    requires Sorted(s)
    requires forall k :: 0 <= k < |s| ==> !Less(s[k], x)
    ensures Sorted([x] + s)
  {
    var r := [x] + s;
    forall i, j | 0 <= i < j < |r| ensures !Less(r[j], r[i]) {
      assert r[j] == s[j - 1];
      if i > 0 { assert r[i] == s[i - 1]; }
    }
  }

  lemma ConsNoDups(x: string, s: seq<string>)
    requires NoDups(s) && x !in s
    ensures NoDups([x] + s)
  {
    var r := [x] + s;
    forall i, j | 0 <= i < j < |r| ensures r[i] != r[j] {
      assert r[j] == s[j - 1];
      if i > 0 { assert r[i] == s[i - 1]; }
    }
  }

  lemma InsertFront(x: string, s: seq<string>)
    requires Sorted(s) && |s| > 0 && !Less(s[0], x)
    ensures Sorted([x] + s)
    ensures multiset([x] + s) == multiset(s) + multiset{x}
    ensures NoDups(s) && x !in s ==> NoDups([x] + s)
  {
    forall k | 0 <= k < |s| ensures !Less(s[k], x) {
      if k > 0 {
        NotLessTransitive(s[k], s[0], x);
      }
    }
    ConsSorted(x, s);
    if NoDups(s) && x !in s {
      ConsNoDups(x, s);
    }
  }

  lemma InsertBehind(x: string, s: seq<string>, tail: seq<string>)
    requires Sorted(s) && |s| > 0 && Less(s[0], x)
    requires s == [s[0]] + s[1..] && multiset(s) == multiset{s[0]} + multiset(s[1..])
    requires Sorted(tail) && multiset(tail) == multiset(s[1..]) + multiset{x}
    requires NoDups(s) ==> NoDups(s[1..]) && s[0] !in s[1..]
    requires NoDups(s[1..]) && x !in s[1..] ==> NoDups(tail)
    ensures Sorted([s[0]] + tail)
    ensures multiset([s[0]] + tail) == multiset(s) + multiset{x}
    ensures NoDups(s) && x !in s ==> NoDups([s[0]] + tail)
  {
    forall j | 0 <= j < |tail| ensures !Less(tail[j], s[0]) && tail[j] in s[1..] + [x] {
      assert tail[j] in multiset(tail);
      if tail[j] == x {
        LessAsymmetric(s[0], x);
      } else {
        assert tail[j] in multiset(s[1..]);
        var k :| 0 <= k < |s[1..]| && s[1..][k] == tail[j];
        assert s[k + 1] == tail[j];
      }
    }
    ConsSorted(s[0], tail);
    if NoDups(s) && x !in s {
      assert x !in s[1..];
      forall j | 0 <= j < |tail| ensures tail[j] != s[0] {
        assert tail[j] in s[1..] + [x];
      }
      ConsNoDups(s[0], tail);
    }
  }

  function Sort(s: seq<string>): (r: seq<string>)
    ensures Sorted(r)
    ensures multiset(r) == multiset(s)
    ensures NoDups(s) ==> NoDups(r)
  {
    if |s| == 0 then []
    else
      var rest := Sort(s[1..]);
      SortStep(s, rest);
      Insert(s[0], rest)
  }

  /** The facts `Sort` needs about its recursive call. */
  lemma SortStep(s: seq<string>, rest: seq<string>)
    requires |s| > 0 && multiset(rest) == multiset(s[1..])
    ensures multiset(s) == multiset(rest) + multiset{s[0]}
    ensures NoDups(s) ==> NoDups(s[1..]) && s[0] !in rest
  {
    assert s == [s[0]] + s[1..];
    if NoDups(s) {
      forall i, j | 0 <= i < j < |s[1..]| ensures s[1..][i] != s[1..][j] {
        assert s[1..][i] == s[i + 1] && s[1..][j] == s[j + 1];
      }
      forall k | 0 <= k < |s[1..]| ensures s[1..][k] != s[0] {
        assert s[1..][k] == s[k + 1];
      }
      assert s[0] !in multiset(s[1..]);
    }
  }

  /** Sorting keeps exactly the elements of its input. */
  lemma SortSameElements(s: seq<string>)
    ensures forall x :: x in Sort(s) <==> x in s
  {
    forall x ensures x in Sort(s) <==> x in s {
      assert x in Sort(s) <==> x in multiset(Sort(s));
      assert x in s <==> x in multiset(s);
    }
  }

  /** Without duplicates, sorted means strictly increasing. */
  lemma SortedDistinctIsStrict(s: seq<string>)
    requires Sorted(s) && NoDups(s)
    ensures StrictlySorted(s)
  {
    forall i, j | 0 <= i < j < |s| ensures Less(s[i], s[j]) {
      LessTotal(s[i], s[j]);
    }
  }

  /** Sorting distinct strings yields a strictly increasing rearrangement. */
  lemma SortedGroup(s: seq<string>)
    requires NoDups(s)
    ensures StrictlySorted(Sort(s))
    ensures forall i :: 0 <= i < |Sort(s)| ==> Sort(s)[i] in s
  {
    var r := Sort(s);
    SortSameElements(s);
    SortedDistinctIsStrict(r);
  }

  /** Two sorted arrangements of the same strings start with the same string. */
  lemma SortedHeads(a: seq<string>, b: seq<string>)
    requires Sorted(a) && Sorted(b) && multiset(a) == multiset(b) && |a| > 0
    ensures |b| == |a| && a[0] == b[0]
  {
    assert |multiset(a)| == |a| && |multiset(b)| == |b|;
    assert a[0] in multiset(b);
    assert b[0] in multiset(a);
    var i :| 0 <= i < |b| && b[i] == a[0];
    var j :| 0 <= j < |a| && a[j] == b[0];
    assert !Less(b[0], a[0]) by {
      if j > 0 { assert !Less(a[j], a[0]); } else { LessIrreflexive(a[0]); }
    }
    assert !Less(a[0], b[0]) by {
      if i > 0 { assert !Less(b[i], b[0]); } else { LessIrreflexive(b[0]); }
    }
    LessTotal(a[0], b[0]);
  }

  /** Two sorted arrangements of the same strings are the same sequence. */
  lemma {:induction false} SortedUnique(a: seq<string>, b: seq<string>)
    requires Sorted(a) && Sorted(b) && multiset(a) == multiset(b)
    ensures a == b
  {
    if |a| == 0 {
      assert |multiset(b)| == 0;
    } else {
      SortedHeads(a, b);
      Tail(a);
      Tail(b);
      assert multiset(a[1..]) == multiset(a) - multiset{a[0]};
      assert multiset(b[1..]) == multiset(b) - multiset{b[0]};
      SortedUnique(a[1..], b[1..]);
    }
  }
}
