/** Finite counting: how long a list without repeats can be. */
module Counting {

  ghost predicate NoDup<T>(s: seq<T>) {
    forall i, j :: 0 <= i < j < |s| ==> s[i] != s[j]
  }

  lemma {:induction false} SubsetSize<T>(a: set<T>, b: set<T>)
    requires a <= b
    ensures |a| <= |b|
  {
    if a != {} {
      var x :| x in a;
      SubsetSize(a - {x}, b - {x});
    }
  }

  /** A list without repeats is no longer than a set that holds all of it. */
  lemma {:induction false} NoDupBounded<T>(s: seq<T>, within: set<T>)
    requires NoDup(s) && forall x :: x in s ==> x in within
    ensures |s| <= |within|
  {
    if s != [] {
      var n := |s| - 1;
      assert s[n] in within;
      forall x | x in s[..n] ensures x in within - {s[n]} {
        var i :| 0 <= i < n && s[..n][i] == x;
        assert s[i] != s[n];
      }
      NoDupBounded(s[..n], within - {s[n]});
    }
  }

  lemma JoinNoDup<T>(a: seq<T>, b: seq<T>)
    requires NoDup(a) && NoDup(b) && forall x :: x in a ==> x !in b
    ensures NoDup(a + b)
  {
    forall i, j | 0 <= i < j < |a + b| ensures (a + b)[i] != (a + b)[j] {
      if i < |a| <= j {
        assert a[i] in a && b[j - |a|] in b;
      }
    }
  }

  function ToSet<T>(s: seq<T>): set<T> {
    set x | x in s
  }

  lemma ToSetMore<T>(s: seq<T>, x: T)
    ensures ToSet(s + [x]) == ToSet(s) + {x}
  {
  }

  lemma {:induction false} RepeatsShrink<T>(s: seq<T>)
    ensures |ToSet(s)| <= |s| && (NoDup(s) <==> |ToSet(s)| == |s|)
  {
    if s != [] {
      var n := |s| - 1;
      RepeatsShrink(s[..n]);
      assert s == s[..n] + [s[n]];
      ToSetMore(s[..n], s[n]);
      if s[n] in ToSet(s[..n]) {
        assert ToSet(s) == ToSet(s[..n]);
        var i :| 0 <= i < n && s[..n][i] == s[n];
        assert s[i] == s[n];
      } else {
        assert |ToSet(s)| == |ToSet(s[..n])| + 1;
        if NoDup(s[..n]) {
          JoinNoDup(s[..n], [s[n]]);
        }
      }
    }
  }
}
