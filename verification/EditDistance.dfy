/** Nearest-path suggestions: `editDistance` and `suggestNearestPath` in packages/shared/src/template-vars.ts. */
module EditDistance {
  import opened Wrappers

  // ---- what one edit is ----

  /** `t` is `s` with one character inserted, deleted or substituted. */
  ghost predicate OneEdit(s: string, t: string) {
    exists i: nat :: EditAt(s, t, i)
  }

  ghost predicate EditAt(s: string, t: string, i: nat) {
    || (i < |t| && i <= |s| && t == s[..i] + [t[i]] + s[i..])
    || (i < |s| && t == s[..i] + s[i + 1..])
    || (i < |s| && i < |t| && t == s[..i] + [t[i]] + s[i + 1..])
  }

  /** A chain of single edits from its first string to its last. */
  ghost predicate Edits(chain: seq<string>) {
    chain != [] && forall i :: 0 <= i < |chain| - 1 ==> OneEdit(chain[i], chain[i + 1])
  }

  // ---- the distance ----

  function Min(a: nat, b: nat): nat {
    if a < b then a else b
  }

  function Cost(c: char, d: char): nat {
    if c == d then 0 else 1
  }

  /** The recurrence over last characters. */
  function Dist(a: string, b: string): nat
    decreases |a| + |b|
  {
    if a == [] then |b|
    else if b == [] then |a|
    else
      var i, j := |a| - 1, |b| - 1;
      Min(Min(Dist(a[..i], b) + 1, Dist(a, b[..j]) + 1), Dist(a[..i], b[..j]) + Cost(a[i], b[j]))
  }

  ghost function PrefixDist(a: string, b: string, i: nat, j: nat): nat
    requires i <= |a| && j <= |b|
  {
    Dist(a[..i], b[..j])
  }

  /** Row `h` of the table is done. */
  ghost predicate RowDone(rows: array2<nat>, a: string, b: string, h: nat)
    requires rows.Length0 == |a| + 1 && rows.Length1 == |b| + 1 && h <= |a|
    reads rows
  {
    forall k :: 0 <= k <= |b| ==> rows[h, k] == PrefixDist(a, b, h, k)
  }

  /** The inner loop: row `i` from row `i - 1`. */
  method FillRow(rows: array2<nat>, a: string, b: string, i: nat)
    requires rows.Length0 == |a| + 1 && rows.Length1 == |b| + 1 && 1 <= i <= |a|
    requires RowDone(rows, a, b, i - 1) && rows[i, 0] == i
    modifies rows
    ensures RowDone(rows, a, b, i)
    ensures forall h, k :: 0 <= h <= |a| && h != i && 0 <= k <= |b| ==> rows[h, k] == old(rows[h, k])
  {
    for j := 1 to |b| + 1
      invariant forall h, k :: 0 <= h <= |a| && h != i && 0 <= k <= |b| ==> rows[h, k] == old(rows[h, k])
      invariant forall k :: 0 <= k < j ==> rows[i, k] == PrefixDist(a, b, i, k)
    {
      Cell(a, b, i, j);
      rows[i, j] := Min(Min(rows[i - 1, j] + 1, rows[i, j - 1] + 1), rows[i - 1, j - 1] + Cost(a[i - 1], b[j - 1]));
    }
  }

  /** The table, filled row by row. */
  method EditDistance(a: string, b: string) returns (d: nat)
    ensures d == Dist(a, b)
  {
    var rows := new nat[|a| + 1, |b| + 1]((i: nat, j: nat) => if j == 0 then i else 0);
    for j := 1 to |b| + 1
      invariant forall k :: 0 <= k < j ==> rows[0, k] == k
      invariant forall i :: 0 <= i <= |a| ==> rows[i, 0] == i
    {
      rows[0, j] := j;
    }
    for i := 1 to |a| + 1
      invariant forall k :: i <= k <= |a| ==> rows[k, 0] == k
      invariant RowDone(rows, a, b, i - 1)
    {
      FillRow(rows, a, b, i);
    }
    assert a[..|a|] == a && b[..|b|] == b;
    assert rows[|a|, |b|] == PrefixDist(a, b, |a|, |b|);
    d := rows[|a|, |b|];
  }

  lemma Cell(a: string, b: string, i: nat, j: nat)
    requires 1 <= i <= |a| && 1 <= j <= |b|
    ensures PrefixDist(a, b, i, j) ==
      Min(Min(PrefixDist(a, b, i - 1, j) + 1, PrefixDist(a, b, i, j - 1) + 1),
          PrefixDist(a, b, i - 1, j - 1) + Cost(a[i - 1], b[j - 1]))
  {
    assert a[..i][..i - 1] == a[..i - 1];
    assert b[..j][..j - 1] == b[..j - 1];
  }

  // ---- it is a metric ----

  lemma {:induction false} DistZero(a: string, b: string)
    ensures Dist(a, b) == 0 <==> a == b
    decreases |a| + |b|
  {
    if a != [] && b != [] {
      var i, j := |a| - 1, |b| - 1;
      DistZero(a[..i], b[..j]);
      assert a == a[..i] + [a[i]] && b == b[..j] + [b[j]];
    }
  }

  lemma {:induction false} DistSymmetric(a: string, b: string)
    ensures Dist(a, b) == Dist(b, a)
    decreases |a| + |b|
  {
    if a != [] && b != [] {
      var i, j := |a| - 1, |b| - 1;
      DistSymmetric(a[..i], b);
      DistSymmetric(a, b[..j]);
      DistSymmetric(a[..i], b[..j]);
    }
  }

  /** Dropping or adding a last character moves the distance by at most one. */
  lemma {:induction false} DistLast(a: string, b: string)
    ensures a != [] ==> Dist(a, b) <= Dist(a[..|a| - 1], b) + 1
    ensures b != [] ==> Dist(a, b) <= Dist(a, b[..|b| - 1]) + 1
  {
  }

  lemma {:induction false} DistTriangle(a: string, b: string, c: string)
    ensures Dist(a, c) <= Dist(a, b) + Dist(b, c)
    decreases |a| + |b| + |c|
  {
    DistLast(a, c);
    if a == [] {
      LengthBound(b, c);
    } else if c == [] {
      LengthBound(b, a);
      DistSymmetric(b, a);
    } else if b == [] {
      LengthBound(a, c);
      DistSums(a, c);
    } else {
      var a', b', c' := a[..|a| - 1], b[..|b| - 1], c[..|c| - 1];
      if Dist(a, b) == Dist(a', b) + 1 {
        DistTriangle(a', b, c);
      } else if Dist(b, c) == Dist(b, c') + 1 {
        DistTriangle(a, b, c');
      } else if Dist(a, b) == Dist(a, b') + 1 {
        if Dist(b, c) == Dist(b', c) + 1 {
          DistTriangle(a, b', c);
        } else {
          DistTriangle(a, b', c');
        }
      } else if Dist(b, c) == Dist(b', c) + 1 {
        DistTriangle(a', b', c);
      } else {
        DistTriangle(a', b', c');
      }
    }
  }

  lemma {:induction false} LengthBound(b: string, c: string)
    ensures |c| <= |b| + Dist(b, c)
    decreases |b| + |c|
  {
    if b != [] && c != [] {
      LengthBound(b[..|b| - 1], c);
      LengthBound(b, c[..|c| - 1]);
      LengthBound(b[..|b| - 1], c[..|c| - 1]);
    }
  }

  lemma {:induction false} DistSums(a: string, c: string)
    ensures Dist(a, c) <= |a| + |c|
    decreases |a| + |c|
  {
    if a != [] && c != [] {
      DistSums(a[..|a| - 1], c);
    }
  }

  // ---- it counts edits ----

  /** A common first part costs nothing. */
  lemma {:induction false} DistPrefix(p: string, a: string, b: string)
    ensures Dist(p + a, p + b) <= Dist(a, b)
    decreases |a| + |b|
  {
    if a == [] {
      assert p + a == p;
      DistExtend(p, b);
      DistSymmetric(p, p + b);
    } else if b == [] {
      assert p + b == p;
      DistExtend(p, a);
    } else {
      var i, j := |a| - 1, |b| - 1;
      assert (p + a)[..|p + a| - 1] == p + a[..i];
      assert (p + b)[..|p + b| - 1] == p + b[..j];
      DistPrefix(p, a[..i], b);
      DistPrefix(p, a, b[..j]);
      DistPrefix(p, a[..i], b[..j]);
    }
  }

  lemma {:induction false} DistExtend(p: string, a: string)
    ensures Dist(p + a, p) <= |a|
    decreases |a|
  {
    if a == [] {
      assert p + a == p;
      DistZero(p, p);
    } else {
      assert (p + a)[..|p + a| - 1] == p + a[..|a| - 1];
      DistExtend(p, a[..|a| - 1]);
    }
  }

  /** A common last part costs nothing. */
  lemma {:induction false} DistSuffix(a: string, b: string, s: string)
    ensures Dist(a + s, b + s) <= Dist(a, b)
    decreases |s|
  {
    if s == [] {
      assert a + s == a && b + s == b;
    } else {
      var n := |s| - 1;
      assert (a + s)[..|a + s| - 1] == a + s[..n];
      assert (b + s)[..|b + s| - 1] == b + s[..n];
      DistSuffix(a, b, s[..n]);
    }
  }

  lemma EditCostsOne(s: string, t: string)
    requires OneEdit(s, t)
    ensures Dist(s, t) <= 1
  {
    var i: nat :| EditAt(s, t, i);
    if i < |t| && i <= |s| && t == s[..i] + [t[i]] + s[i..] {
      InsertionCostsOne(s, t, i);
    } else if i < |s| && t == s[..i] + s[i + 1..] {
      assert s == t[..i] + [s[i]] + t[i..];
      InsertionCostsOne(t, s, i);
      DistSymmetric(s, t);
    } else {
      SubstitutionCostsOne(s, t, i);
    }
  }

  lemma InsertionCostsOne(s: string, t: string, i: nat)
    requires i < |t| && i <= |s| && t == s[..i] + [t[i]] + s[i..]
    ensures Dist(s, t) <= 1
  {
    assert s == s[..i] + [] + s[i..];
    Around(s[..i], [], [t[i]], s[i..]);
  }

  lemma SubstitutionCostsOne(s: string, t: string, i: nat)
    requires i < |s| && i < |t| && t == s[..i] + [t[i]] + s[i + 1..]
    ensures Dist(s, t) <= 1
  {
    assert s == s[..i] + [s[i]] + s[i + 1..];
    Around(s[..i], [s[i]], [t[i]], s[i + 1..]);
  }

  lemma Around(p: string, a: string, b: string, s: string)
    ensures Dist(p + a + s, p + b + s) <= Dist(a, b)
  {
    DistSuffix(p + a, p + b, s);
    DistPrefix(p, a, b);
  }

  /** No chain of edits is shorter than the distance. */
  lemma {:induction false} NoFewerEdits(chain: seq<string>)
    requires Edits(chain)
    ensures Dist(chain[0], chain[|chain| - 1]) <= |chain| - 1
  {
    if |chain| == 1 {
      DistZero(chain[0], chain[0]);
    } else {
      var n := |chain| - 1;
      assert OneEdit(chain[n - 1], chain[n]);
      EditCostsOne(chain[n - 1], chain[n]);
      assert Edits(chain[..n]) by {
        forall i | 0 <= i < n - 1 ensures OneEdit(chain[..n][i], chain[..n][i + 1]) {
          assert OneEdit(chain[i], chain[i + 1]);
        }
      }
      NoFewerEdits(chain[..n]);
      DistTriangle(chain[0], chain[n - 1], chain[n]);
    }
  }

  /** Chains survive a character appended throughout. */
  lemma EditsAppend(chain: seq<string>, c: char) returns (r: seq<string>)
    requires Edits(chain)
    ensures Edits(r) && |r| == |chain|
    ensures r[0] == chain[0] + [c] && r[|r| - 1] == chain[|chain| - 1] + [c]
  {
    r := seq(|chain|, i requires 0 <= i < |chain| => chain[i] + [c]);
    forall i | 0 <= i < |r| - 1 ensures OneEdit(r[i], r[i + 1]) {
      var s, t := chain[i], chain[i + 1];
      assert OneEdit(s, t);
      var k: nat :| EditAt(s, t, k);
      if k < |t| && k <= |s| && t == s[..k] + [t[k]] + s[k..] {
        assert (t + [c]) == (s + [c])[..k] + [(t + [c])[k]] + (s + [c])[k..];
      } else if k < |s| && t == s[..k] + s[k + 1..] {
        assert (t + [c]) == (s + [c])[..k] + (s + [c])[k + 1..];
      } else {
        assert (t + [c]) == (s + [c])[..k] + [(t + [c])[k]] + (s + [c])[k + 1..];
      }
      assert EditAt(s + [c], t + [c], k);
    }
  }

  lemma Extended(chain: seq<string>, t: string, k: nat)
    requires Edits(chain) && EditAt(chain[|chain| - 1], t, k)
    ensures Edits(chain + [t])
  {
    forall i | 0 <= i < |chain| ensures OneEdit((chain + [t])[i], (chain + [t])[i + 1]) {
      if i < |chain| - 1 {
        assert OneEdit(chain[i], chain[i + 1]);
      }
    }
  }

  lemma Prepended(s: string, chain: seq<string>)
    requires Edits(chain) && OneEdit(s, chain[0])
    ensures Edits([s] + chain)
  {
    forall i | 0 <= i < |chain| ensures OneEdit(([s] + chain)[i], ([s] + chain)[i + 1]) {
      if i > 0 {
        assert OneEdit(chain[i - 1], chain[i]);
      }
    }
  }

  lemma EditsAtTheEnd(s: string, c: char, d: char)
    ensures EditAt(s, s + [c], |s|) && EditAt(s + [c], s, |s|) && EditAt(s + [c], s + [d], |s|)
  {
    assert s + [c] == s[..|s|] + [c] + s[|s|..];
    assert s == (s + [c])[..|s|] + (s + [c])[|s| + 1..];
    assert s + [d] == (s + [c])[..|s|] + [d] + (s + [c])[|s| + 1..];
  }

  /** The distance is reached by a chain of that many edits. */
  lemma {:induction false} EnoughEdits(a: string, b: string) returns (chain: seq<string>)
    ensures Edits(chain) && chain[0] == a && chain[|chain| - 1] == b && |chain| == Dist(a, b) + 1
    decreases |a| + |b|
  {
    if a == [] && b == [] {
      chain := [a];
    } else if b == [] || (a != [] && Dist(a, b) == Dist(a[..|a| - 1], b) + 1) {
      // Delete the last character of `a` first.
      var i := |a| - 1;
      var rest := EnoughEdits(a[..i], b);
      assert a == a[..i] + [a[i]];
      EditsAtTheEnd(a[..i], a[i], a[i]);
      Prepended(a, rest);
      chain := [a] + rest;
    } else if a == [] || Dist(a, b) == Dist(a, b[..|b| - 1]) + 1 {
      // Insert the last character of `b` last.
      var j := |b| - 1;
      var rest := EnoughEdits(a, b[..j]);
      assert b == b[..j] + [b[j]];
      EditsAtTheEnd(b[..j], b[j], b[j]);
      Extended(rest, b, j);
      chain := rest + [b];
    } else {
      var i, j := |a| - 1, |b| - 1;
      var rest := EnoughEdits(a[..i], b[..j]);
      chain := LastMatched(a, b, rest);
    }
  }

  /** Keep or substitute the last character, after a chain between the rest. */
  lemma LastMatched(a: string, b: string, rest: seq<string>) returns (chain: seq<string>)
    requires a != [] && b != [] && Edits(rest) && rest[0] == a[..|a| - 1] && rest[|rest| - 1] == b[..|b| - 1]
    ensures Edits(chain) && chain[0] == a && chain[|chain| - 1] == b
    ensures |chain| == |rest| + Cost(a[|a| - 1], b[|b| - 1])
  {
    var i, j := |a| - 1, |b| - 1;
    chain := EditsAppend(rest, a[i]);
    assert a == a[..i] + [a[i]] && b == b[..j] + [b[j]];
    if a[i] != b[j] {
      EditsAtTheEnd(b[..j], a[i], b[j]);
      Extended(chain, b, j);
      chain := chain + [b];
    }
  }

  /** The distance is the least number of insertions, deletions and substitutions from `a` to `b`. */
  lemma DistIsLeastEdits(a: string, b: string)
    ensures exists chain :: Edits(chain) && chain[0] == a && chain[|chain| - 1] == b && |chain| == Dist(a, b) + 1
    ensures forall chain :: Edits(chain) && chain[0] == a && chain[|chain| - 1] == b ==> |chain| >= Dist(a, b) + 1
  {
    var chain := EnoughEdits(a, b);
    forall other | Edits(other) && other[0] == a && other[|other| - 1] == b ensures |other| >= Dist(a, b) + 1 {
      NoFewerEdits(other);
    }
  }

  // ---- the suggestion ----

  function Threshold(path: string): nat {
    if |path| / 3 > 3 then |path| / 3 else 3
  }

  /** `c` is a first nearest candidate other than the path itself. */
  ghost predicate FirstNearest(path: string, candidates: seq<string>, i: nat) {
    && i < |candidates| && candidates[i] != path
    && (forall j ::
      0 <= j < |candidates| && candidates[j] != path ==> Dist(path, candidates[i]) <= Dist(path, candidates[j]))
    && (forall j :: 0 <= j < i && candidates[j] != path ==> Dist(path, candidates[i]) < Dist(path, candidates[j]))
  }

  method SuggestNearestPath(path: string, candidates: seq<string>) returns (best: Option<string>)
    ensures best.Some? <==> exists j ::
      0 <= j < |candidates| && candidates[j] != path && Dist(path, candidates[j]) <= Threshold(path)
    ensures best.Some? ==> exists i: nat :: FirstNearest(path, candidates, i) && best.value == candidates[i]
  {
    var at: int := -1;
    var bestScore := 0;
    for k := 0 to |candidates|
      invariant -1 <= at < k
      invariant at == -1 ==> forall j :: 0 <= j < k ==> candidates[j] == path
      invariant at >= 0 ==> FirstNearest(path, candidates[..k], at) && bestScore == Dist(path, candidates[at])
    {
      if candidates[k] != path {
        var score := EditDistance(path, candidates[k]);
        if at == -1 || score < bestScore {
          bestScore := score;
          at := k;
        }
      }
      assert candidates[..k + 1] == candidates[..k] + [candidates[k]];
    }
    assert candidates[..|candidates|] == candidates;
    if at >= 0 && bestScore <= Threshold(path) {
      best := Some(candidates[at]);
      assert FirstNearest(path, candidates, at);
    } else {
      best := None;
    }
  }
}
