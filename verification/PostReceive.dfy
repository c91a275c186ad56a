/** Declared reshaping of a response (packages/connector-sdk/src/post-receive.ts).
  * `num` stands for `Number(key)` where that is an integer; everything here holds whatever it is.
  */
module PostReceive {
  import opened Wrappers

  datatype Field = Field(key: string, value: Json)

  /** A value; an object's fields in the order they stand. */
  datatype Json =
    | Undefined
    | Null
    | Bool(b: bool)
    | Num(n: int)
    | Str(s: string)
    | Arr(items: seq<Json>)
    | Obj(fields: seq<Field>)

  type Numeral = string -> Option<int>

  const UNSAFE_KEYS: set<string> := {"__proto__", "constructor", "prototype"}

  // ---- dotted paths ----

  /** Unicode's WhiteSpace and LineTerminator, as `trim` takes them. */
  predicate IsBlank(c: char) {
    var n := c as int;
    9 <= n <= 13 || n == 32 || n == 0xA0 || n == 0x1680 || 0x2000 <= n <= 0x200A
    || n == 0x2028 || n == 0x2029 || n == 0x202F || n == 0x205F || n == 0x3000 || n == 0xFEFF
  }

  function Trim(s: string): (t: string)
    ensures |t| <= |s| && forall c :: c in t ==> c in s
    ensures t != "" ==> !IsBlank(t[0]) && !IsBlank(t[|t| - 1])
    decreases |s|
  {
    if s == "" then ""
    else if IsBlank(s[0]) then Trim(s[1..])
    else if IsBlank(s[|s| - 1]) then Trim(s[..|s| - 1])
    else s
  }

  /** The parts between dots, trimmed, the empty ones left out; `part` is what has been read of the first. */
  function SegmentsAfter(part: string, s: string): seq<string>
    decreases |s|
  {
    if s == "" then Kept(part)
    else if s[0] == '.' then Kept(part) + SegmentsAfter("", s[1..])
    else SegmentsAfter(part + [s[0]], s[1..])
  }

  function Kept(part: string): seq<string> {
    if Trim(part) == "" then [] else [Trim(part)]
  }

  function Segments(path: string): seq<string> {
    SegmentsAfter("", path)
  }

  function Join(keys: seq<string>): string {
    if |keys| == 0 then "" else if |keys| == 1 then keys[0] else keys[0] + "." + Join(keys[1..])
  }

  predicate IsSegment(key: string) {
    key != "" && Trim(key) == key && '.' !in key
  }

  predicate AreSegments(keys: seq<string>) {
    forall k :: k in keys ==> IsSegment(k)
  }

  lemma {:induction false} SkipPart(part: string, s: string, rest: string)
    requires '.' !in s
    ensures SegmentsAfter(part, s + rest) == SegmentsAfter(part + s, rest)
    decreases |s|
  {
    if s == "" {
      assert s + rest == rest && part + s == part;
    } else {
      assert (s + rest)[1..] == s[1..] + rest;
      SkipPart(part + [s[0]], s[1..], rest);
      assert part + [s[0]] + s[1..] == part + s;
    }
  }

  /** Joining segments and cutting them again gives them back. */
  lemma {:induction false} SegmentsOfJoin(keys: seq<string>)
    requires AreSegments(keys)
    ensures Segments(Join(keys)) == keys
  {
    if |keys| > 0 {
      assert keys[0] in keys && IsSegment(keys[0]);
    }
    if |keys| == 1 {
      SkipPart("", keys[0], "");
      assert keys[0] + "" == keys[0] && "" + keys[0] == keys[0];
    } else if |keys| > 1 {
      var rest := "." + Join(keys[1..]);
      SkipPart("", keys[0], rest);
      assert "" + keys[0] == keys[0] && keys[0] + "." + Join(keys[1..]) == keys[0] + rest;
      assert rest[1..] == Join(keys[1..]);
      SegmentsOfJoin(keys[1..]);
      assert keys == [keys[0]] + keys[1..];
    }
  }

  lemma {:induction false} CutsSegments(part: string, s: string)
    requires '.' !in part
    ensures AreSegments(SegmentsAfter(part, s))
    decreases |s|
  {
    TrimTwice(part);
    if s != "" && s[0] == '.' {
      CutsSegments("", s[1..]);
    } else if s != "" {
      CutsSegments(part + [s[0]], s[1..]);
    }
  }

  lemma TrimTwice(s: string)
    ensures Trim(Trim(s)) == Trim(s)
  {
  }

  // ---- looking up ----

  function Find(fields: seq<Field>, key: string): Option<Json> {
    if fields == [] then None
    else if fields[0].key == key then Some(fields[0].value)
    else Find(fields[1..], key)
  }

  function OrUndefined(v: Option<Json>): Json {
    if v.Some? then v.value else Undefined
  }

  function ItemAt(items: seq<Json>, i: Option<int>): Json {
    if i.Some? && 0 <= i.value < |items| then items[i.value] else Undefined
  }

  /** One step of a path. */
  function Child(num: Numeral, v: Json, key: string): Json {
    if key in UNSAFE_KEYS then Undefined
    else if v.Arr? then ItemAt(v.items, num(key))
    else if v.Obj? then OrUndefined(Find(v.fields, key))
    else Undefined
  }

  function Look(num: Numeral, v: Json, keys: seq<string>): Json
    decreases |keys|
  {
    if keys == [] then v else Look(num, Child(num, v, keys[0]), keys[1..])
  }

  lemma {:induction false} LookUndefined(num: Numeral, keys: seq<string>)
    ensures Look(num, Undefined, keys) == Undefined
    decreases |keys|
  {
    if keys != [] {
      LookUndefined(num, keys[1..]);
    }
  }

  lemma {:induction false} LookJoin(num: Numeral, v: Json, a: seq<string>, b: seq<string>)
    ensures Look(num, v, a + b) == Look(num, Look(num, v, a), b)
    decreases |a|
  {
    if a == [] {
      assert a + b == b;
    } else {
      assert (a + b)[1..] == a[1..] + b;
      LookJoin(num, Child(num, v, a[0]), a[1..], b);
    }
  }

  method ValueAt(num: Numeral, value: Json, path: string) returns (current: Json)
    ensures current == Look(num, value, Segments(path))
  {
    var keys := Segments(path);
    current := value;
    for i := 0 to |keys|
      invariant Look(num, value, keys) == Look(num, current, keys[i..])
    {
      var key := keys[i];
      assert keys[i..][1..] == keys[i + 1..];
      LookUndefined(num, keys[i + 1..]);
      if key in UNSAFE_KEYS {
        return Undefined;
      }
      if current.Arr? {
        var index := num(key);
        if index.None? {
          return Undefined;
        }
        current := ItemAt(current.items, index);
        continue;
      }
      if !current.Obj? {
        return Undefined;
      }
      current := OrUndefined(Find(current.fields, key));
    }
  }

  // ---- putting back ----

  function Put(fields: seq<Field>, key: string, v: Json): (r: seq<Field>)
    ensures Find(r, key) == Some(v)
  {
    if fields == [] then [Field(key, v)]
    else if fields[0].key == key then [Field(key, v)] + fields[1..]
    else [fields[0]] + Put(fields[1..], key, v)
  }

  function PutItem(items: seq<Json>, i: int, v: Json): seq<Json> {
    if i < 0 then items
    else if i < |items| then items[i := v]
    else items + seq(i - |items|, j => Undefined) + [v]
  }

  /** `withValueAt`, by the path as it is written. */
  function WithValueAt(num: Numeral, v: Json, path: string, next: Json): Json
    decreases |Segments(path)|
  {
    var keys := Segments(path);
    if keys == [] then next
    else
      var head, rest := keys[0], keys[1..];
      CutsSegments("", path);
      SegmentsOfJoin(rest);
      if head in UNSAFE_KEYS then v
      else if v.Arr? then
        if num(head).None? then v
        else Arr(PutItem(v.items, num(head).value,
          if rest == [] then next else WithValueAt(num, ItemAt(v.items, num(head)), Join(rest), next)))
      else
        var base := if v.Obj? then v.fields else [];
        var put := if rest == [] then next else WithValueAt(num, OrUndefined(Find(base, head)), Join(rest), next);
        Obj(Put(base, head, put))
  }

  /** The same by the keys. */
  function With(num: Numeral, v: Json, keys: seq<string>, next: Json): Json
    decreases |keys|
  {
    if keys == [] then next
    else if keys[0] in UNSAFE_KEYS then v
    else
      var inner := With(num, Child(num, v, keys[0]), keys[1..], next);
      if v.Arr? then
        if num(keys[0]).None? then v else Arr(PutItem(v.items, num(keys[0]).value, inner))
      else Obj(Put(if v.Obj? then v.fields else [], keys[0], inner))
  }

  lemma {:induction false} WithValueAtIsWith(num: Numeral, v: Json, path: string, next: Json)
    ensures WithValueAt(num, v, path, next) == With(num, v, Segments(path), next)
    decreases |Segments(path)|
  {
    var keys := Segments(path);
    if keys != [] && keys[0] !in UNSAFE_KEYS {
      var rest := keys[1..];
      CutsSegments("", path);
      SegmentsOfJoin(rest);
      assert Find([], keys[0]) == None;
      if rest != [] {
        WithValueAtIsWith(num, Child(num, v, keys[0]), Join(rest), next);
      }
    }
  }

  // ---- the laws ----

  predicate Resolves(num: Numeral, v: Json, keys: seq<string>) {
    Look(num, v, keys) != Undefined
  }

  lemma ResolvesStep(num: Numeral, v: Json, keys: seq<string>)
    requires Resolves(num, v, keys) && keys != []
    ensures keys[0] !in UNSAFE_KEYS && Child(num, v, keys[0]) != Undefined
      && Resolves(num, Child(num, v, keys[0]), keys[1..])
    ensures v.Obj? || (v.Arr? && num(keys[0]).Some? && 0 <= num(keys[0]).value < |v.items|)
  {
    LookUndefined(num, keys[1..]);
  }

  lemma {:induction false} PutSame(fields: seq<Field>, key: string)
    requires Find(fields, key).Some?
    ensures Put(fields, key, Find(fields, key).value) == fields
  {
    if fields[0].key != key {
      PutSame(fields[1..], key);
    }
  }

  lemma {:induction false} PutTwice(fields: seq<Field>, key: string, x: Json, y: Json)
    ensures Put(Put(fields, key, x), key, y) == Put(fields, key, y)
  {
    if fields != [] && fields[0].key != key {
      PutTwice(fields[1..], key, x, y);
      assert ([fields[0]] + Put(fields[1..], key, x))[1..] == Put(fields[1..], key, x);
    } else if fields != [] {
      assert ([Field(key, x)] + fields[1..])[1..] == fields[1..];
    }
  }

  lemma {:induction false} PutElsewhere(fields: seq<Field>, key: string, x: Json, other: string)
    requires key != other
    ensures Find(Put(fields, key, x), other) == Find(fields, other)
  {
    if fields != [] && fields[0].key != key {
      PutElsewhere(fields[1..], key, x, other);
      assert ([fields[0]] + Put(fields[1..], key, x))[1..] == Put(fields[1..], key, x);
    } else if fields != [] {
      assert ([Field(key, x)] + fields[1..])[1..] == fields[1..];
    } else {
      assert [Field(key, x)][1..] == [];
    }
  }

  /** What was put is found. */
  lemma {:induction false} PutThenGet(num: Numeral, v: Json, keys: seq<string>, x: Json)
    requires Resolves(num, v, keys)
    ensures Look(num, With(num, v, keys, x), keys) == x
    decreases |keys|
  {
    if keys != [] {
      ResolvesStep(num, v, keys);
      PutThenGet(num, Child(num, v, keys[0]), keys[1..], x);
    }
  }

  /** Putting back what is there changes nothing. */
  lemma {:induction false} GetThenPut(num: Numeral, v: Json, keys: seq<string>)
    requires Resolves(num, v, keys)
    ensures With(num, v, keys, Look(num, v, keys)) == v
    decreases |keys|
  {
    if keys != [] {
      ResolvesStep(num, v, keys);
      GetThenPut(num, Child(num, v, keys[0]), keys[1..]);
      if v.Obj? {
        PutSame(v.fields, keys[0]);
      }
    }
  }

  /** The last put stands. */
  lemma {:induction false} PutThenPut(num: Numeral, v: Json, keys: seq<string>, x: Json, y: Json)
    requires Resolves(num, v, keys)
    ensures With(num, With(num, v, keys, x), keys, y) == With(num, v, keys, y)
    decreases |keys|
  {
    if keys != [] {
      ResolvesStep(num, v, keys);
      var inner := With(num, Child(num, v, keys[0]), keys[1..], x);
      PutThenPut(num, Child(num, v, keys[0]), keys[1..], x, y);
      if v.Obj? {
        PutTwice(v.fields, keys[0], inner, With(num, inner, keys[1..], y));
      }
    }
  }

  /** Two keys lead to different places in `v`. */
  predicate Apart(num: Numeral, v: Json, a: string, b: string) {
    if v.Arr? then num(a) != num(b) else a != b
  }

  /** Followed from `v`, one path leads to or through the place the other leads to. */
  predicate Meets(num: Numeral, v: Json, a: seq<string>, b: seq<string>)
    decreases |a|
  {
    a == [] || b == [] || (!Apart(num, v, a[0], b[0]) && Meets(num, Child(num, v, a[0]), a[1..], b[1..]))
  }

  predicate Safe(keys: seq<string>) {
    forall k :: k in keys ==> k !in UNSAFE_KEYS
  }

  lemma SafeStep(keys: seq<string>)
    requires Safe(keys) && keys != []
    ensures keys[0] !in UNSAFE_KEYS && Safe(keys[1..])
  {
    assert keys[0] in keys;
    assert forall k :: k in keys[1..] ==> k in keys;
  }

  /** Keys that are not apart lead to the same child, before a put through one of them and after it. */
  lemma SameChild(num: Numeral, v: Json, keys: seq<string>, x: Json, other: seq<string>)
    requires Resolves(num, v, keys) && keys != [] && Safe(other) && other != [] && !Apart(num, v, keys[0], other[0])
    ensures Child(num, v, other[0]) == Child(num, v, keys[0])
    ensures Child(num, With(num, v, keys, x), other[0]) == With(num, Child(num, v, keys[0]), keys[1..], x)
  {
    ResolvesStep(num, v, keys);
    SafeStep(other);
  }

  /** A put leaves every path that does not meet its own. */
  lemma {:induction false} PutLeavesApart(num: Numeral, v: Json, keys: seq<string>, x: Json, other: seq<string>)
    requires Resolves(num, v, keys) && Safe(other) && !Meets(num, v, keys, other)
    ensures Look(num, With(num, v, keys, x), other) == Look(num, v, other)
    decreases |keys|
  {
    ResolvesStep(num, v, keys);
    SafeStep(other);
    if Apart(num, v, keys[0], other[0]) {
      if v.Obj? {
        PutElsewhere(v.fields, keys[0], With(num, Child(num, v, keys[0]), keys[1..], x), other[0]);
      }
    } else {
      SameChild(num, v, keys, x, other);
      PutLeavesApart(num, Child(num, v, keys[0]), keys[1..], x, other[1..]);
    }
  }

  /** Some put shows on a path that meets its own. */
  lemma {:induction false} SomePutShows(num: Numeral, v: Json, keys: seq<string>, other: seq<string>) returns (x: Json)
    requires Resolves(num, v, keys) && Safe(other) && Meets(num, v, keys, other)
    ensures Look(num, With(num, v, keys, x), other) != Look(num, v, other)
    decreases |keys|
  {
    if keys == [] {
      x := SomeValueShows(num, v, other);
    } else if other == [] {
      x := if Look(num, v, keys) == Null then Bool(true) else Null;
      PutThenGet(num, v, keys, x);
    } else {
      ResolvesStep(num, v, keys);
      SafeStep(other);
      x := SomePutShows(num, Child(num, v, keys[0]), keys[1..], other[1..]);
      SameChild(num, v, keys, x, other);
    }
  }

  /** A whole value can be chosen to look different along a path. */
  lemma SomeValueShows(num: Numeral, v: Json, other: seq<string>) returns (x: Json)
    requires Safe(other)
    ensures Look(num, x, other) != Look(num, v, other)
  {
    if Look(num, v, other) == Undefined {
      x := Along(other);
      AlongShows(num, other);
    } else {
      x := Undefined;
      LookUndefined(num, other);
    }
  }

  /** A value with something at the end of the path. */
  function Along(keys: seq<string>): Json {
    if keys == [] then Null else Obj([Field(keys[0], Along(keys[1..]))])
  }

  lemma {:induction false} AlongShows(num: Numeral, keys: seq<string>)
    requires Safe(keys)
    ensures Look(num, Along(keys), keys) == Null
    decreases |keys|
  {
    if keys != [] {
      SafeStep(keys);
      AlongShows(num, keys[1..]);
    }
  }

  /** A put leaves another path unchanged, whatever is put, exactly when the two do not meet; a path through an unsafe
    * key leads nowhere before and after.
    */
  lemma PutLeavesOthers(num: Numeral, v: Json, keys: seq<string>, other: seq<string>)
    requires Resolves(num, v, keys)
    ensures Safe(other) ==>
      ((forall x :: Look(num, With(num, v, keys, x), other) == Look(num, v, other)) <==> !Meets(num, v, keys, other))
    ensures !Safe(other) ==>
      forall w :: Look(num, w, other) == Undefined
  {
    if Safe(other) {
      if Meets(num, v, keys, other) {
        var x := SomePutShows(num, v, keys, other);
      } else {
        forall x ensures Look(num, With(num, v, keys, x), other) == Look(num, v, other) {
          PutLeavesApart(num, v, keys, x, other);
        }
      }
    } else {
      forall w ensures Look(num, w, other) == Undefined {
        UnsafeLeadsNowhere(num, w, other);
      }
    }
  }

  lemma {:induction false} UnsafeLeadsNowhere(num: Numeral, v: Json, keys: seq<string>)
    requires !Safe(keys)
    ensures Look(num, v, keys) == Undefined
    decreases |keys|
  {
    if keys[0] in UNSAFE_KEYS {
      LookUndefined(num, keys[1..]);
    } else {
      var k :| k in keys && k in UNSAFE_KEYS;
      assert k in keys[1..];
      UnsafeLeadsNowhere(num, Child(num, v, keys[0]), keys[1..]);
    }
  }

  /** Neither path is the start of the other. */
  predicate Incomparable(a: seq<string>, b: seq<string>) {
    a != [] && b != [] && (a[0] != b[0] || Incomparable(a[1..], b[1..]))
  }

  /** No key of one path names the index another key of the other path names. */
  predicate OneNameEach(num: Numeral, a: seq<string>, b: seq<string>) {
    forall x, y :: x in a && y in b && num(x).Some? && num(x) == num(y) ==> x == y
  }

  /** Paths of which neither starts the other do not meet, unless an index is written two ways on them. */
  lemma {:induction false} IncomparableApart(num: Numeral, v: Json, keys: seq<string>, other: seq<string>)
    requires Resolves(num, v, keys) && Incomparable(keys, other) && OneNameEach(num, keys, other)
    ensures !Meets(num, v, keys, other)
    decreases |keys|
  {
    ResolvesStep(num, v, keys);
    assert keys[0] in keys && other[0] in other;
    if keys[0] == other[0] {
      assert forall k :: k in keys[1..] ==> k in keys;
      assert forall k :: k in other[1..] ==> k in other;
      IncomparableApart(num, Child(num, v, keys[0]), keys[1..], other[1..]);
    }
  }

  /** Paths that write one index two ways are incomparable and meet: a put by one shows at the other. */
  lemma OneItemTwoNames(num: Numeral, x: Json)
    requires num("1") == Some(1) && num("01") == Some(1)
    ensures var v := Arr([Null, Null]);
      Look(num, With(num, v, ["1"], x), ["01"]) == x && Incomparable(["1"], ["01"]) && Meets(num, v, ["1"], ["01"])
  {
    var v := Arr([Null, Null]);
    assert |"1"| != |"01"|;
    assert ["1"][0] != ["01"][0];
    assert ["1"][1..] == [];
    assert Look(num, With(num, v, ["1"], x), ["01"]) == Child(num, With(num, v, ["1"], x), "01");
  }
}
