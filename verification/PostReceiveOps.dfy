/** The five declared ops, and what each leaves alone (packages/connector-sdk/src/post-receive.ts). */
module PostReceiveOps {
  import opened Wrappers
  import opened PostReceive

  datatype Op =
    | Pick(path: Option<string>, keys: seq<string>)
    | Rename(path: Option<string>, from: string, to: string)
    | Filter(path: Option<string>, key: string, equals: Json)
    | MapOps(path: Option<string>, ops: seq<Op>)
    | Flatten(at: string)

  // ---- pick and rename ----

  /** The ones of the first `n` keys the object has, each once, in the order of the keys. */
  function PickedFields(fields: seq<Field>, keys: seq<string>, n: nat): seq<Field>
    requires n <= |keys|
  {
    if n == 0 then []
    else
      var before := PickedFields(fields, keys, n - 1);
      var key := keys[n - 1];
      if key !in UNSAFE_KEYS && Find(fields, key).Some? then Put(before, key, Find(fields, key).value) else before
  }

  method PickFields(fields: seq<Field>, keys: seq<string>) returns (out: seq<Field>)
    ensures out == PickedFields(fields, keys, |keys|)
  {
    out := [];
    for i := 0 to |keys|
      invariant out == PickedFields(fields, keys, i)
    {
      if keys[i] in UNSAFE_KEYS {
        continue;
      }
      var found := Find(fields, keys[i]);
      if found.Some? {
        out := Put(out, keys[i], found.value);
      }
    }
  }

  function Picked(value: Json, keys: seq<string>): Json {
    match value
    case Arr(items) => Arr(seq(|items|, i requires 0 <= i < |items| => Picked(items[i], keys)))
    case Obj(fields) => Obj(PickedFields(fields, keys, |keys|))
    case _ => value
  }

  /** The first `n` fields, `from` under its new name in its old place, and whatever held that name before left out. */
  function RenamedFields(fields: seq<Field>, from: string, to: string, n: nat): seq<Field>
    requires n <= |fields|
  {
    if n == 0 then []
    else
      var before := RenamedFields(fields, from, to, n - 1);
      var f := fields[n - 1];
      if f.key == from then Put(before, to, f.value)
      else if f.key != to then Put(before, f.key, f.value)
      else before
  }

  method RenameFields(fields: seq<Field>, from: string, to: string) returns (out: seq<Field>)
    ensures out == RenamedFields(fields, from, to, |fields|)
  {
    out := [];
    for i := 0 to |fields|
      invariant out == RenamedFields(fields, from, to, i)
    {
      var f := fields[i];
      if f.key == from {
        out := Put(out, to, f.value);
      } else if f.key != to {
        out := Put(out, f.key, f.value);
      }
    }
  }

  function Renamed(value: Json, from: string, to: string): Json {
    match value
    case Arr(items) => Arr(seq(|items|, i requires 0 <= i < |items| => Renamed(items[i], from, to)))
    case Obj(fields) =>
      if from in UNSAFE_KEYS || to in UNSAFE_KEYS || Find(fields, from).None? then value
      else Obj(RenamedFields(fields, from, to, |fields|))
    case _ => value
  }

  // ---- filter ----

  /** `===` between a value of a response and a declared one: objects and lists are never the same one. */
  predicate Same(a: Json, b: Json) {
    a == b && !a.Arr? && !a.Obj?
  }

  predicate Matches(num: Numeral, entry: Json, key: string, equals: Json) {
    entry.Obj? && Same(Look(num, entry, Segments(key)), equals)
  }

  function Filtered(num: Numeral, items: seq<Json>, key: string, equals: Json, n: nat): seq<Json>
    requires n <= |items|
  {
    if n == 0 then []
    else if Matches(num, items[n - 1], key, equals) then Filtered(num, items, key, equals, n - 1) + [items[n - 1]]
    else Filtered(num, items, key, equals, n - 1)
  }

  // ---- one op, and several ----

  function SegmentsOf(path: Option<string>): seq<string> {
    if path.Some? then Segments(path.value) else []
  }

  /** What the op makes of what lives at its path. */
  function Reshaped(num: Numeral, target: Json, op: Op): Json
    requires !op.Flatten?
    decreases op, 0
  {
    match op
    case Pick(_, keys) => Picked(target, keys)
    case Rename(_, from, to) => Renamed(target, from, to)
    case Filter(_, key, equals) =>
      if target.Arr? then Arr(Filtered(num, target.items, key, equals, |target.items|)) else target
    case MapOps(_, ops) =>
      if target.Arr? then
        var items := target.items;
        Arr(seq(|items|, i requires 0 <= i < |items| => Applied(num, items[i], ops, |ops|)))
      else target
  }

  function ApplyOp(num: Numeral, value: Json, op: Op): Json
    decreases op, 1
  {
    if op.Flatten? then Look(num, value, Segments(op.at))
    else
      var target := Look(num, value, SegmentsOf(op.path));
      if op.path.Some? && target == Undefined then value
      else if op.path.None? then Reshaped(num, target, op)
      else WithValueAt(num, value, op.path.value, Reshaped(num, target, op))
  }

  /** The first `n` ops, left to right. */
  function Applied(num: Numeral, value: Json, ops: seq<Op>, n: nat): Json
    requires n <= |ops|
    decreases ops, n
  {
    if n == 0 then value else ApplyOp(num, Applied(num, value, ops, n - 1), ops[n - 1])
  }

  // ---- what an op does where it works ----

  lemma {:induction false} PickedFind(fields: seq<Field>, keys: seq<string>, n: nat, key: string)
    requires n <= |keys|
    ensures Find(PickedFields(fields, keys, n), key) ==
      if key in keys[..n] && key !in UNSAFE_KEYS then Find(fields, key) else None
  {
    if n > 0 {
      PickedFind(fields, keys, n - 1, key);
      assert keys[..n] == keys[..n - 1] + [keys[n - 1]];
      var before := PickedFields(fields, keys, n - 1);
      if key != keys[n - 1] && keys[n - 1] !in UNSAFE_KEYS && Find(fields, keys[n - 1]).Some? {
        PutElsewhere(before, keys[n - 1], Find(fields, keys[n - 1]).value, key);
      }
    }
  }

  /** Picking keeps exactly the named fields an object has. */
  lemma PickKeepsNamed(num: Numeral, fields: seq<Field>, keys: seq<string>, key: string)
    ensures Look(num, Picked(Obj(fields), keys), [key])
      == if key in keys then Look(num, Obj(fields), [key]) else Undefined
  {
    PickedFind(fields, keys, |keys|, key);
    assert keys[..|keys|] == keys;
    LookOne(num, Obj(fields), key);
    LookOne(num, Picked(Obj(fields), keys), key);
  }

  lemma LookOne(num: Numeral, v: Json, key: string)
    ensures Look(num, v, [key]) == Child(num, v, key)
  {
    assert [key][1..] == [];
  }

  predicate DistinctKeys(fields: seq<Field>) {
    forall i, j :: 0 <= i < j < |fields| ==> fields[i].key != fields[j].key
  }

  /** The fields with `from` renamed in place and `to` left out, as a list. */
  function InPlace(fields: seq<Field>, from: string, to: string, n: nat): seq<Field>
    requires n <= |fields|
  {
    if n == 0 then []
    else
      var f := fields[n - 1];
      if f.key == from then InPlace(fields, from, to, n - 1) + [Field(to, f.value)]
      else if f.key != to then InPlace(fields, from, to, n - 1) + [f]
      else InPlace(fields, from, to, n - 1)
  }

  lemma {:induction false} PutAppends(fields: seq<Field>, key: string, v: Json)
    requires forall f :: f in fields ==> f.key != key
    ensures Put(fields, key, v) == fields + [Field(key, v)]
  {
    if fields != [] {
      PutAppends(fields[1..], key, v);
    }
  }

  lemma {:induction false} InPlaceKeys(fields: seq<Field>, from: string, to: string, n: nat)
    requires n <= |fields| && DistinctKeys(fields)
    ensures forall g :: g in InPlace(fields, from, to, n) ==>
      || (g.key == to && exists i :: 0 <= i < n && fields[i].key == from)
      || (g.key != to && g.key != from && exists i :: 0 <= i < n && fields[i] == g)
  {
    if n > 0 {
      InPlaceKeys(fields, from, to, n - 1);
    }
  }

  /** A rename keeps every field's place: no field moves to the end. */
  lemma {:induction false} RenameInPlace(fields: seq<Field>, from: string, to: string, n: nat)
    requires n <= |fields| && DistinctKeys(fields)
    ensures RenamedFields(fields, from, to, n) == InPlace(fields, from, to, n)
  {
    if n > 0 {
      RenameInPlace(fields, from, to, n - 1);
      InPlaceKeys(fields, from, to, n - 1);
      var f, before := fields[n - 1], InPlace(fields, from, to, n - 1);
      if f.key == from {
        PutAppends(before, to, f.value);
      } else if f.key != to {
        PutAppends(before, f.key, f.value);
      }
    }
  }

  /** The indices of the matching entries among the first `n`, lowest first. */
  function MatchesAt(num: Numeral, items: seq<Json>, key: string, equals: Json, n: nat): (at: seq<nat>)
    requires n <= |items|
    ensures forall k :: 0 <= k < |at| ==> at[k] < n && Matches(num, items[at[k]], key, equals)
    ensures forall j, k :: 0 <= j < k < |at| ==> at[j] < at[k]
  {
    if n == 0 then []
    else if Matches(num, items[n - 1], key, equals) then MatchesAt(num, items, key, equals, n - 1) + [n - 1]
    else MatchesAt(num, items, key, equals, n - 1)
  }

  lemma {:induction false} NoMatchMissed(num: Numeral, items: seq<Json>, key: string, equals: Json, n: nat, i: nat)
    requires i < n <= |items| && Matches(num, items[i], key, equals)
    ensures i in MatchesAt(num, items, key, equals, n)
  {
    if i < n - 1 {
      NoMatchMissed(num, items, key, equals, n - 1, i);
    }
  }

  /** A filter keeps every entry that matches and no other, in the order they stand. */
  lemma {:induction false} FilterKeepsMatches(num: Numeral, items: seq<Json>, key: string, equals: Json, n: nat)
    requires n <= |items|
    ensures PickedAt(items, MatchesAt(num, items, key, equals, n), Filtered(num, items, key, equals, n))
  {
    if n > 0 {
      hide PickedAt, Matches;
      FilterKeepsMatches(num, items, key, equals, n - 1);
      PickedMore(items, MatchesAt(num, items, key, equals, n - 1), Filtered(num, items, key, equals, n - 1), n - 1);
    } else {
      assert PickedAt(items, [], []);
    }
  }

  /** The entries are those of the list at the given places, in that order. */
  ghost predicate PickedAt(items: seq<Json>, at: seq<nat>, kept: seq<Json>) {
    |kept| == |at| && forall k :: 0 <= k < |at| ==> at[k] < |items| && kept[k] == items[at[k]]
  }

  lemma PickedMore(items: seq<Json>, at: seq<nat>, kept: seq<Json>, i: nat)
    requires PickedAt(items, at, kept) && i < |items|
    ensures PickedAt(items, at + [i], kept + [items[i]])
  {
  }

  /** Each as often as it is listed. */
  lemma {:induction false} FilterKeepsCounts(num: Numeral, items: seq<Json>, key: string, equals: Json, n: nat, x: Json)
    requires n <= |items|
    ensures multiset(Filtered(num, items, key, equals, n))[x]
         == if Matches(num, x, key, equals) then multiset(items[..n])[x] else 0
  {
    if n > 0 {
      FilterKeepsCounts(num, items, key, equals, n - 1, x);
      assert items[..n] == items[..n - 1] + [items[n - 1]];
    }
  }

  // ---- what an op leaves alone ----

  /** Followed from `v`, `keys` leads to the place `at` leads to and goes on from there. */
  predicate Through(num: Numeral, v: Json, at: seq<string>, keys: seq<string>)
    decreases |at|
  {
    && keys != []
    && (at == [] || (!Apart(num, v, at[0], keys[0]) && Through(num, Child(num, v, at[0]), at[1..], keys[1..])))
  }

  lemma {:induction false} ThroughReaches(num: Numeral, v: Json, at: seq<string>, keys: seq<string>, x: Json)
    requires Resolves(num, v, at) && Safe(keys) && Through(num, v, at, keys)
    ensures |keys| > |at|
    ensures Look(num, v, keys) == Look(num, Look(num, v, at), keys[|at|..])
    ensures Look(num, With(num, v, at, x), keys) == Look(num, x, keys[|at|..])
    decreases |at|
  {
    if at == [] {
      assert keys[0..] == keys;
    } else {
      ResolvesStep(num, v, at);
      SafeStep(keys);
      SameChild(num, v, at, x, keys);
      ThroughReaches(num, Child(num, v, at[0]), at[1..], keys[1..], x);
      assert keys[1..][|at[1..]|..] == keys[|at|..];
    }
  }

  lemma {:induction false} ThroughLonger(num: Numeral, v: Json, at: seq<string>, keys: seq<string>)
    requires Through(num, v, at, keys)
    ensures |keys| > |at|
    decreases |at|
  {
    if at != [] {
      ThroughLonger(num, Child(num, v, at[0]), at[1..], keys[1..]);
    }
  }

  /** The op works elsewhere: its path names nothing, or does not meet `keys`, or `keys` goes through it and on through
    * a list whose entry on the way is left alone by every op run on it.
    */
  predicate Spares(num: Numeral, value: Json, op: Op, keys: seq<string>)
    decreases op, 1
  {
    !op.Flatten? &&
    var at := SegmentsOf(op.path);
    var target := Look(num, value, at);
    || (op.path.Some? && target == Undefined)
    || !Safe(keys)
    || !Meets(num, value, at, keys)
    || (op.MapOps? && target != Undefined && Through(num, value, at, keys) && SparesBelow(num, value, op, keys))
  }

  /** The rest of `keys` below the op's path is left alone by the ops of a `map`. */
  predicate SparesBelow(num: Numeral, value: Json, op: Op, keys: seq<string>)
    requires op.MapOps? && Through(num, value, SegmentsOf(op.path), keys)
    decreases op, 0
  {
    var at := SegmentsOf(op.path);
    var target := Look(num, value, at);
    ThroughLonger(num, value, at, keys);
    target.Arr? ==> SparesAll(num, ItemAt(target.items, num(keys[|at|])), op.ops, |op.ops|, keys[|at| + 1..])
  }

  predicate SparesAll(num: Numeral, value: Json, ops: seq<Op>, n: nat, keys: seq<string>)
    requires n <= |ops|
    decreases ops, n
  {
    || n == 0
    || (SparesAll(num, value, ops, n - 1, keys) && Spares(num, Applied(num, value, ops, n - 1), ops[n - 1], keys))
  }

  /** What an op spares stays as it was, through any nesting of maps. */
  lemma {:induction false} OpLeavesOthers(num: Numeral, value: Json, op: Op, keys: seq<string>)
    requires Spares(num, value, op, keys)
    ensures Look(num, ApplyOp(num, value, op), keys) == Look(num, value, keys)
    decreases op, 1
  {
    var at := SegmentsOf(op.path);
    var target := Look(num, value, at);
    if op.path.Some? && target == Undefined {
    } else if !Safe(keys) {
      UnsafeLeadsNowhere(num, value, keys);
      UnsafeLeadsNowhere(num, ApplyOp(num, value, op), keys);
    } else {
      AppliedIsWith(num, value, op);
      if !Meets(num, value, at, keys) {
        PutLeavesApart(num, value, at, Reshaped(num, target, op), keys);
      } else {
        MapLeavesOthers(num, value, op, keys);
      }
    }
  }

  lemma AppliedIsWith(num: Numeral, value: Json, op: Op)
    requires !op.Flatten? && !(op.path.Some? && Look(num, value, SegmentsOf(op.path)) == Undefined)
    ensures ApplyOp(num, value, op)
      == With(num, value, SegmentsOf(op.path), Reshaped(num, Look(num, value, SegmentsOf(op.path)), op))
  {
    if op.path.Some? {
      WithValueAtIsWith(num, value, op.path.value, Reshaped(num, Look(num, value, SegmentsOf(op.path)), op));
    }
  }

  lemma {:induction false} MapLeavesOthers(num: Numeral, value: Json, op: Op, keys: seq<string>)
    requires op.MapOps? && Safe(keys) && Resolves(num, value, SegmentsOf(op.path))
    requires Through(num, value, SegmentsOf(op.path), keys) && SparesBelow(num, value, op, keys)
    ensures
      var at := SegmentsOf(op.path);
      Look(num, With(num, value, at, Reshaped(num, Look(num, value, at), op)), keys) == Look(num, value, keys)
    decreases op, 0
  {
    var at := SegmentsOf(op.path);
    var target := Look(num, value, at);
    var next := Reshaped(num, target, op);
    ThroughReaches(num, value, at, keys, next);
    var key, rest := keys[|at|], keys[|at| + 1..];
    assert keys[|at|..][1..] == rest && keys[|at|..][0] == key;
    assert key in keys;
    if target.Arr? {
      var i := num(key);
      if i.Some? && 0 <= i.value < |target.items| {
        OpsLeaveOthers(num, target.items[i.value], op.ops, |op.ops|, rest);
      }
    }
  }

  /** So do several ops, run left to right. */
  lemma {:induction false} OpsLeaveOthers(num: Numeral, value: Json, ops: seq<Op>, n: nat, keys: seq<string>)
    requires n <= |ops| && SparesAll(num, value, ops, n, keys)
    ensures Look(num, Applied(num, value, ops, n), keys) == Look(num, value, keys)
    decreases ops, n
  {
    if n > 0 {
      OpsLeaveOthers(num, value, ops, n - 1, keys);
      OpLeavesOthers(num, Applied(num, value, ops, n - 1), ops[n - 1], keys);
    }
  }
}
