/** The scanner `hasNestedQuantifier` (packages/connector-sdk/src/define.ts), against regex syntax trees. */
module NestedQuantifier {

  // ---- the scanner ----

  predicate QuantifierChar(c: char) {
    c == '*' || c == '+' || c == '?' || c == '{'
  }

  /** `quantifierAt`, which `at` may run past. */
  predicate QuantifierAt(p: string, at: nat) {
    at < |p| && QuantifierChar(p[at])
  }

  predicate NameStart(c: char) {
    ('A' <= c <= 'Z') || ('a' <= c <= 'z') || c == '_' || c == '$'
  }

  predicate NameChar(c: char) {
    NameStart(c) || ('0' <= c <= '9')
  }

  /** How many name characters `s` begins with. */
  function NameRun(s: string): (n: nat)
    ensures n <= |s|
    ensures forall i :: 0 <= i < n ==> NameChar(s[i])
    ensures n < |s| ==> !NameChar(s[n])
  {
    if s == [] || !NameChar(s[0]) then 0 else 1 + NameRun(s[1..])
  }

  /** Length of what `GROUP_OPEN` matches at an opening parenthesis. */
  function GroupOpenLength(s: string): (n: nat)
    requires s != [] && s[0] == '('
    ensures 1 <= n <= |s|
  {
    if |s| < 3 || s[1] != '?' then 1
    else if s[2] == ':' || s[2] == '=' || s[2] == '!' then 3
    else if s[2] != '<' || |s| < 4 then 1
    else if s[3] == '=' || s[3] == '!' then 4
    else if NameStart(s[3]) then
      var end := 4 + NameRun(s[4..]);
      if end < |s| && s[end] == '>' then end + 1 else 1
    else 1
  }

  function Mark(flags: seq<bool>): seq<bool> {
    if flags == [] then flags else flags[..|flags| - 1] + [true]
  }

  /** One turn of the loop: a nested quantifier found, or how far to go on and with what. */
  datatype Turn = Found | Next(n: nat, quantified: seq<bool>, inClass: bool)

  function Turning(s: string, quantified: seq<bool>, inClass: bool): (t: Turn)
    requires s != []
    ensures t.Next? ==> t.n >= 1
  {
    if s[0] == '\\' then Next(2, quantified, inClass)
    else if inClass then Next(1, quantified, s[0] != ']')
    else if s[0] == '[' then Next(1, quantified, true)
    else if s[0] == '(' then Next(GroupOpenLength(s), quantified + [false], false)
    else if s[0] == ')' then Closing(quantified, QuantifierAt(s, 1))
    else Next(1, if QuantifierChar(s[0]) then Mark(quantified) else quantified, false)
  }

  function Closing(quantified: seq<bool>, repeated: bool): (t: Turn)
    ensures t.Next? ==> t.n >= 1
  {
    var heldOne := quantified != [] && quantified[|quantified| - 1];
    var outer := if quantified == [] then [] else quantified[..|quantified| - 1];
    if heldOne && repeated then Found
    else Next(1, if heldOne || repeated then Mark(outer) else outer, false)
  }

  /** The scan of what is left of the pattern, given the open groups' flags. */
  function Scan(s: string, quantified: seq<bool>, inClass: bool): bool
    decreases |s|
  {
    if s == [] then false
    else
      match Turning(s, quantified, inClass)
      case Found => true
      case Next(n, q, c) => n <= |s| && Scan(s[n..], q, c)
  }

  lemma ScanTurns(s: string, quantified: seq<bool>, inClass: bool)
    requires s != []
    ensures
      match Turning(s, quantified, inClass)
      case Found => Scan(s, quantified, inClass)
      case Next(n, q, c) => Scan(s, quantified, inClass) == (n <= |s| && Scan(s[n..], q, c))
  {
  }

  lemma ScanEnds(quantified: seq<bool>, inClass: bool)
    ensures !Scan([], quantified, inClass)
  {
  }

  method HasNestedQuantifier(pattern: string) returns (r: bool)
    ensures r == Scan(pattern, [], false)
  {
    hide Scan;
    var quantified: seq<bool> := [];
    var inClass := false;
    var i := 0;
    while i < |pattern|
      invariant 0 <= i <= |pattern| + 1
      invariant Scan(pattern, [], false) == (i <= |pattern| && Scan(pattern[i..], quantified, inClass))
    {
      var ch := pattern[i];
      ghost var turn := Turning(pattern[i..], quantified, inClass);
      ghost var at := i;
      ScanTurns(pattern[i..], quantified, inClass);
      if ch == '\\' {
        i := i + 2;
      } else if inClass {
        if ch == ']' { inClass := false; }
        i := i + 1;
      } else if ch == '[' {
        inClass := true;
        i := i + 1;
      } else if ch == '(' {
        quantified := quantified + [false];
        i := i + GroupOpenLength(pattern[i..]);
      } else if ch == ')' {
        var heldOne := quantified != [] && quantified[|quantified| - 1];
        if quantified != [] { quantified := quantified[..|quantified| - 1]; }
        var repeated := QuantifierAt(pattern, i + 1);
        if heldOne && repeated { return true; }
        if heldOne || repeated { quantified := Mark(quantified); }
        i := i + 1;
      } else {
        if QuantifierAt(pattern, i) { quantified := Mark(quantified); }
        i := i + 1;
      }
      assert turn == Next(i - at, quantified, inClass);
      assert i <= |pattern| ==> pattern[at..][i - at..] == pattern[i..];
    }
    assert i <= |pattern| ==> pattern[i..] == [];
    ScanEnds(quantified, inClass);
    r := false;
  }

  // ---- regex syntax trees ----

  datatype ClassMember = Plain(c: char) | ClassEscape(c: char)

  datatype Opening =
    | Capture
    | NonCapture
    | LookAhead
    | NotAhead
    | LookBehind
    | NotBehind
    | Named(name: string)

  /** One atom. `Literal` covers every unescaped character that is not special here, anchors and `|` included. */
  datatype Atom =
    | Literal(c: char)
    | Escaped(c: char)
    | Class(members: seq<ClassMember>)
    | Group(opening: Opening, body: Regex)

  datatype Quantifier = Star | Plus | Maybe | Exactly(n: string) | AtLeast(n: string) | Between(n: string, m: string)

  datatype Regex =
    | Empty
    | Then(atom: Atom, quantifier: Repeat, rest: Regex)

  datatype Repeat = Once | Repeated(q: Quantifier, lazy: bool)

  predicate Special(c: char) {
    c == '\\' || c == '[' || c == '(' || c == ')' || QuantifierChar(c)
  }

  predicate Digits(s: string) {
    forall i :: 0 <= i < |s| ==> '0' <= s[i] <= '9'
  }

  predicate NameOk(name: string) {
    name != [] && NameStart(name[0]) && forall i :: 0 <= i < |name| ==> NameChar(name[i])
  }

  predicate QuantifierOk(q: Quantifier) {
    match q
    case Exactly(n) => Digits(n)
    case AtLeast(n) => Digits(n)
    case Between(n, m) => Digits(n) && Digits(m)
    case _ => true
  }

  predicate MembersOk(members: seq<ClassMember>) {
    forall i :: 0 <= i < |members| ==> (members[i].Plain? ==> members[i].c != '\\' && members[i].c != ']')
  }

  predicate WellFormed(r: Regex) {
    match r
    case Empty => true
    case Then(atom, repeat, rest) =>
      && (match atom
          case Literal(c) => !Special(c)
          case Escaped(_) => true
          case Class(members) => MembersOk(members)
          case Group(opening, body) => (opening.Named? ==> NameOk(opening.name)) && WellFormed(body))
      && (repeat.Repeated? ==> QuantifierOk(repeat.q))
      && WellFormed(rest)
  }

  // ---- printing ----

  function ShowMembers(members: seq<ClassMember>): string {
    if members == [] then ""
    else (if members[0].Plain? then [members[0].c] else ['\\', members[0].c]) + ShowMembers(members[1..])
  }

  function ShowOpening(o: Opening): string {
    match o
    case Capture => "("
    case NonCapture => "(?:"
    case LookAhead => "(?="
    case NotAhead => "(?!"
    case LookBehind => "(?<="
    case NotBehind => "(?<!"
    case Named(name) => "(?<" + name + ">"
  }

  function ShowQuantifier(q: Quantifier): string {
    match q
    case Star => "*"
    case Plus => "+"
    case Maybe => "?"
    case Exactly(n) => "{" + n + "}"
    case AtLeast(n) => "{" + n + ",}"
    case Between(n, m) => "{" + n + "," + m + "}"
  }

  function ShowRepeat(r: Repeat): string {
    match r
    case Once => ""
    case Repeated(q, lazy) => ShowQuantifier(q) + if lazy then "?" else ""
  }

  function ShowAtom(atom: Atom): string {
    match atom
    case Literal(c) => [c]
    case Escaped(c) => ['\\', c]
    case Class(members) => "[" + ShowMembers(members) + "]"
    case Group(opening, body) => ShowOpening(opening) + Show(body) + ")"
  }

  function Show(r: Regex): string {
    match r
    case Empty => ""
    case Then(atom, repeat, rest) => ShowAtom(atom) + ShowRepeat(repeat) + Show(rest)
  }

  // ---- what the scanner is for ----

  /** A quantifier stands somewhere in `r`, at any depth. */
  predicate HoldsQuantifier(r: Regex) {
    match r
    case Empty => false
    case Then(atom, repeat, rest) =>
      repeat.Repeated? || (atom.Group? && HoldsQuantifier(atom.body)) || HoldsQuantifier(rest)
  }

  /** Some quantified group of `r` holds a quantifier. */
  predicate NestsQuantifiers(r: Regex) {
    match r
    case Empty => false
    case Then(atom, repeat, rest) =>
      || (atom.Group? && repeat.Repeated? && HoldsQuantifier(atom.body))
      || (atom.Group? && NestsQuantifiers(atom.body))
      || NestsQuantifiers(rest)
  }

  // ---- the scan follows the tree ----

  /** What the open groups' flags become after a regex has been read. */
  ghost function Note(flags: seq<bool>, held: bool): seq<bool> {
    if held then Mark(flags) else flags
  }

  lemma {:induction false} Regroup(a: string, b: string, c: string, d: string)
    ensures a + b + c + d == a + (b + (c + d))
  {
  }

  lemma {:induction false} TurnOver(
      head: string, rest: string, flags: seq<bool>, inClass: bool, after: seq<bool>, afterClass: bool)
    requires head != [] && Turning(head + rest, flags, inClass) == Next(|head|, after, afterClass)
    ensures Scan(head + rest, flags, inClass) == Scan(rest, after, afterClass)
  {
    assert (head + rest)[|head|..] == rest;
  }

  /** Characters that change nothing: not special, outside a class. */
  lemma {:induction false} ScanPlain(s: string, rest: string, flags: seq<bool>)
    requires forall i :: 0 <= i < |s| ==> !Special(s[i])
    ensures Scan(s + rest, flags, false) == Scan(rest, flags, false)
  {
    if s == [] {
      assert s + rest == rest;
    } else {
      assert s + rest == [s[0]] + (s[1..] + rest);
      TurnOver([s[0]], s[1..] + rest, flags, false, flags, false);
      ScanPlain(s[1..], rest, flags);
    }
  }

  lemma {:induction false} ScanMembers(members: seq<ClassMember>, rest: string, flags: seq<bool>)
    requires MembersOk(members)
    ensures Scan(ShowMembers(members) + "]" + rest, flags, true) == Scan(rest, flags, false)
  {
    if members == [] {
      assert ShowMembers(members) + "]" + rest == "]" + rest;
      TurnOver("]", rest, flags, true, flags, false);
    } else {
      var head := if members[0].Plain? then [members[0].c] else ['\\', members[0].c];
      var after := ShowMembers(members[1..]) + "]" + rest;
      assert ShowMembers(members) + "]" + rest == head + after;
      TurnOver(head, after, flags, true, flags, true);
      ScanMembers(members[1..], rest, flags);
    }
  }

  lemma {:induction false} QuantifierShape(q: Quantifier)
    requires QuantifierOk(q)
    ensures ShowQuantifier(q) != [] && QuantifierChar(ShowQuantifier(q)[0])
    ensures forall i :: 1 <= i < |ShowQuantifier(q)| ==> !Special(ShowQuantifier(q)[i])
  {
  }

  lemma {:induction false} ScanQuantifier(q: Quantifier, rest: string, flags: seq<bool>)
    requires QuantifierOk(q)
    ensures Scan(ShowQuantifier(q) + rest, flags, false) == Scan(rest, Mark(flags), false)
  {
    QuantifierShape(q);
    var s := ShowQuantifier(q);
    assert s + rest == [s[0]] + (s[1..] + rest);
    TurnOver([s[0]], s[1..] + rest, flags, false, Mark(flags), false);
    ScanPlain(s[1..], rest, Mark(flags));
  }

  lemma {:induction false} ScanRepeat(r: Repeat, rest: string, flags: seq<bool>)
    requires r.Repeated? ==> QuantifierOk(r.q)
    ensures Scan(ShowRepeat(r) + rest, flags, false) == Scan(rest, Note(flags, r.Repeated?), false)
  {
    if r.Once? {
      assert ShowRepeat(r) + rest == rest;
    } else if r.lazy {
      assert ShowRepeat(r) + rest == ShowQuantifier(r.q) + ("?" + rest);
      ScanQuantifier(r.q, "?" + rest, flags);
      assert Mark(Mark(flags)) == Mark(flags);
      TurnOver("?", rest, Mark(flags), false, Mark(flags), false);
    } else {
      assert ShowRepeat(r) + rest == ShowQuantifier(r.q) + rest;
      ScanQuantifier(r.q, rest, flags);
    }
  }

  /** What follows an atom begins with a quantifier exactly when the atom is repeated. */
  lemma {:induction false} StartsQuantified(r: Repeat, rest: string)
    requires r.Repeated? ==> QuantifierOk(r.q)
    requires !QuantifierAt(rest, 0)
    ensures QuantifierAt(ShowRepeat(r) + rest, 0) <==> r.Repeated?
  {
    if r.Repeated? {
      QuantifierShape(r.q);
      assert (ShowRepeat(r) + rest)[0] == ShowQuantifier(r.q)[0];
    } else {
      assert ShowRepeat(r) + rest == rest;
    }
  }

  lemma {:induction false} AtomStarts(atom: Atom)
    requires WellFormed(Then(atom, Once, Empty))
    ensures ShowAtom(atom) != [] && !QuantifierChar(ShowAtom(atom)[0])
  {
  }

  lemma {:induction false} ShowStarts(r: Regex, rest: string)
    requires WellFormed(r) && !QuantifierAt(rest, 0)
    ensures !QuantifierAt(Show(r) + rest, 0)
  {
    match r
    case Empty => assert Show(r) + rest == rest;
    case Then(atom, repeat, more) =>
      AtomStarts(atom);
      var shown := ShowAtom(atom);
      assert Show(r) == shown + ShowRepeat(repeat) + Show(more);
      hide Show, ShowAtom, ShowRepeat, WellFormed, QuantifierChar;
      assert (Show(r) + rest)[0] == shown[0];
  }

  lemma {:induction false} NameRunIs(name: string, rest: string)
    requires forall i :: 0 <= i < |name| ==> NameChar(name[i])
    requires rest != [] && !NameChar(rest[0])
    ensures NameRun(name + rest) == |name|
  {
    assert forall i :: 0 <= i < |name| ==> (name + rest)[i] == name[i];
    assert (name + rest)[|name|] == rest[0];
  }

  /** `GROUP_OPEN` takes the whole opening, whatever a well-formed body starts with. */
  lemma {:induction false} OpeningTaken(o: Opening, rest: string)
    requires o.Named? ==> NameOk(o.name)
    requires !QuantifierAt(rest, 0)
    ensures ShowOpening(o) != [] && (ShowOpening(o) + rest)[0] == '('
    ensures GroupOpenLength(ShowOpening(o) + rest) == |ShowOpening(o)|
  {
    if o.Named? {
      NamedTaken(o.name, rest);
    } else if o.Capture? {
      assert ("(" + rest)[1..] == rest;
    }
  }

  lemma NamedTaken(name: string, rest: string)
    requires NameOk(name)
    ensures GroupOpenLength("(?<" + name + ">" + rest) == |name| + 4
  {
    var s := "(?<" + name + ">" + rest;
    assert s == "(?<" + (name + (">" + rest));
    assert s[3] == name[0] && s[3 + |name|] == '>';
    assert s[4..] == name[1..] + (">" + rest);
    NameRunIs(name[1..], ">" + rest);
  }

  /** Reading one closed group: the scan stops if it nests, and otherwise notes what it held. */
  lemma {:induction false} ScanClose(r: Repeat, rest: string, flags: seq<bool>, held: bool)
    requires r.Repeated? ==> QuantifierOk(r.q)
    requires !QuantifierAt(rest, 0)
    ensures Scan(")" + ShowRepeat(r) + rest, flags + [held], false)
      == ((held && r.Repeated?) || Scan(rest, Note(flags, held || r.Repeated?), false))
  {
    var after := ShowRepeat(r) + rest;
    assert ")" + ShowRepeat(r) + rest == ")" + after;
    StartsQuantified(r, rest);
    assert QuantifierAt(")" + after, 1) == QuantifierAt(after, 0);
    assert (flags + [held])[..|flags|] == flags;
    assert Turning(")" + after, flags + [held], false) == Closing(flags + [held], r.Repeated?);
    if !(held && r.Repeated?) {
      var noted := Note(flags, held || r.Repeated?);
      TurnOver(")", after, flags + [held], false, noted, false);
      ScanRepeat(r, rest, noted);
      assert Note(noted, r.Repeated?) == noted;
    }
  }

  lemma {:induction false} ScanClass(members: seq<ClassMember>, tail: string, flags: seq<bool>)
    requires MembersOk(members)
    ensures Scan("[" + ShowMembers(members) + "]" + tail, flags, false) == Scan(tail, flags, false)
  {
    Regroup("[", ShowMembers(members), "]", tail);
    var inside := ShowMembers(members) + ("]" + tail);
    assert inside == ShowMembers(members) + "]" + tail;
    TurnOver("[", inside, flags, false, flags, true);
    ScanMembers(members, tail, flags);
  }

  /** An atom other than a group changes nothing. */
  lemma {:induction false} ScanAtom(atom: Atom, tail: string, flags: seq<bool>)
    requires WellFormed(Then(atom, Once, Empty)) && !atom.Group?
    ensures Scan(ShowAtom(atom) + tail, flags, false) == Scan(tail, flags, false)
  {
    match atom {
      case Literal(c) => ScanPlain([c], tail, flags);
      case Escaped(c) => TurnOver(['\\', c], tail, flags, false, flags, false);
      case Class(members) => ScanClass(members, tail, flags);
    }
  }

  lemma {:induction false} ScanOpening(o: Opening, inside: string, flags: seq<bool>)
    requires o.Named? ==> NameOk(o.name)
    requires !QuantifierAt(inside, 0)
    ensures Scan(ShowOpening(o) + inside, flags, false) == Scan(inside, flags + [false], false)
  {
    OpeningTaken(o, inside);
    TurnOver(ShowOpening(o), inside, flags, false, flags + [false], false);
  }

  /** One group, its body read by the induction hypothesis. */
  lemma {:induction false} ScanGroup(opening: Opening, body: Regex, repeat: Repeat, after: string, flags: seq<bool>)
    requires WellFormed(Then(Group(opening, body), repeat, Empty)) && !QuantifierAt(after, 0)
    ensures Scan(ShowAtom(Group(opening, body)) + (ShowRepeat(repeat) + after), flags, false)
      == ((HoldsQuantifier(body) && repeat.Repeated?) || NestsQuantifiers(body)
          || Scan(after, Note(flags, HoldsQuantifier(body) || repeat.Repeated?), false))
    decreases body, 1
  {
    var held := HoldsQuantifier(body);
    var closing := ")" + ShowRepeat(repeat) + after;
    Regroup(ShowOpening(opening), Show(body), ")", ShowRepeat(repeat) + after);
    assert ")" + (ShowRepeat(repeat) + after) == closing;
    ShowStarts(body, closing);
    ScanOpening(opening, Show(body) + closing, flags);
    ScanShow(body, closing, flags + [false]);
    assert Note(flags + [false], held) == flags + [held];
    ScanClose(repeat, after, flags, held);
  }

  lemma {:induction false} ScanShow(r: Regex, rest: string, flags: seq<bool>)
    requires WellFormed(r) && !QuantifierAt(rest, 0)
    ensures Scan(Show(r) + rest, flags, false)
      == (NestsQuantifiers(r) || Scan(rest, Note(flags, HoldsQuantifier(r)), false))
    decreases r, 0
  {
    match r
    case Empty => assert Show(r) + rest == rest;
    case Then(atom, repeat, more) =>
      var after := Show(more) + rest;
      var held := repeat.Repeated? || (atom.Group? && HoldsQuantifier(atom.body));
      ShowStarts(more, rest);
      Regroup(ShowAtom(atom), ShowRepeat(repeat), Show(more), rest);
      if atom.Group? {
        ScanGroup(atom.opening, atom.body, repeat, after, flags);
      } else {
        ScanAtom(atom, ShowRepeat(repeat) + after, flags);
        ScanRepeat(repeat, after, flags);
      }
      ScanShow(more, rest, Note(flags, held));
      assert Note(Note(flags, held), HoldsQuantifier(more)) == Note(flags, held || HoldsQuantifier(more));
  }

  /** On every well-formed regex the scanner answers true exactly when some quantified group holds a quantifier. */
  lemma {:induction false} ScannerIsExact(r: Regex)
    requires WellFormed(r)
    ensures Scan(Show(r), [], false) <==> NestsQuantifiers(r)
  {
    ScanShow(r, "", []);
    assert Show(r) + "" == Show(r);
  }
}
