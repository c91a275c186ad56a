/** Paths leaving one project and entering another (`replacePath` and the token substitution of `fromPortable`,
  * packages/shared/src/workflow-portability.ts).
  */
module PortablePaths {

  const PROJECT_PATH_TOKEN: string := "{{project.path}}"
  const PROJECT_NAME_TOKEN: string := "{{project.name}}"

  // ---- text ----

  /** `s.split(token).join(text)`. */
  function ReplaceAll(s: string, token: string, text: string): string
    requires token != ""
    decreases |s|
  {
    if |s| < |token| then s
    else if s[..|token|] == token then text + ReplaceAll(s[|token|..], token, text)
    else [s[0]] + ReplaceAll(s[1..], token, text)
  }

  predicate HoldsAt(s: string, token: string, i: int) {
    0 <= i <= |s| - |token| && s[i..i + |token|] == token
  }

  ghost predicate Holds(s: string, token: string) {
    exists i :: HoldsAt(s, token, i)
  }

  lemma HoldsLater(s: string, token: string, i: int)
    requires s != ""
    ensures HoldsAt(s[1..], token, i) ==> HoldsAt(s, token, i + 1)
  {
    if HoldsAt(s[1..], token, i) {
      assert s[1..][i..i + |token|] == s[i + 1..i + 1 + |token|];
    }
  }

  lemma {:induction false} ReplaceNothing(s: string, token: string, text: string)
    requires token != "" && !Holds(s, token)
    ensures ReplaceAll(s, token, text) == s
    decreases |s|
  {
    if |s| >= |token| {
      assert !HoldsAt(s, token, 0);
      forall i ensures !HoldsAt(s[1..], token, i) {
        HoldsLater(s, token, i);
      }
      ReplaceNothing(s[1..], token, text);
    }
  }

  lemma ReplaceFirst(token: string, rest: string, text: string)
    requires token != ""
    ensures ReplaceAll(token + rest, token, text) == text + ReplaceAll(rest, token, text)
  {
    var s := token + rest;
    assert s[..|token|] == token && s[|token|..] == rest;
  }

  // ---- separators ----

  function Slash(c: char): char {
    if c == '\\' then '/' else c
  }

  /** Every separator written one way. */
  function Slashed(p: string): string {
    seq(|p|, i requires 0 <= i < |p| => Slash(p[i]))
  }

  function DropSlashes(p: string): string {
    if p != "" && p[|p| - 1] == '/' then DropSlashes(p[..|p| - 1]) else p
  }

  function NormalizeForCompare(p: string): string {
    DropSlashes(Slashed(p))
  }

  /** A path without trailing separators of either kind. */
  function DropSeparators(p: string): string {
    if p != "" && (p[|p| - 1] == '/' || p[|p| - 1] == '\\') then DropSeparators(p[..|p| - 1]) else p
  }

  lemma SlashedJoin(a: string, b: string)
    ensures Slashed(a + b) == Slashed(a) + Slashed(b)
  {
  }

  lemma {:induction false} SlashedDropped(p: string)
    ensures Slashed(DropSeparators(p)) == NormalizeForCompare(p)
  {
    if p != "" {
      var n := |p| - 1;
      assert Slashed(p)[..n] == Slashed(p[..n]);
      SlashedDropped(p[..n]);
    }
  }

  lemma {:induction false} DropSlashesEnds(p: string)
    ensures var d := DropSlashes(p); d == "" || d[|d| - 1] != '/'
    ensures DropSlashes(p) <= p
  {
    if p != "" {
      DropSlashesEnds(p[..|p| - 1]);
    }
  }

  lemma NothingToDrop(p: string)
    requires p == "" || p[|p| - 1] != '/'
    ensures DropSlashes(p) == p
  {
  }

  // ---- out and in ----

  function ReplacePath(value: string, projectPath: string): string {
    var v := NormalizeForCompare(value);
    var root := NormalizeForCompare(projectPath);
    if root == "" then value
    else if v == root then PROJECT_PATH_TOKEN
    else if root + "/" <= v then PROJECT_PATH_TOKEN + "/" + v[|root| + 1..]
    else value
  }

  datatype Project = Project(name: string, path: string)

  /** What an import makes of one config string. */
  function Resolved(value: string, project: Project): string {
    ReplaceAll(ReplaceAll(value, PROJECT_PATH_TOKEN, DropSeparators(project.path)), PROJECT_NAME_TOKEN, project.name)
  }

  /** The path is the project's directory or lies in it; a project of nothing but separators has nothing in it. */
  predicate Inside(value: string, projectPath: string) {
    var v, root := NormalizeForCompare(value), NormalizeForCompare(projectPath);
    root != "" && (v == root || root + "/" <= v)
  }

  /** What follows the project's directory, separator first; empty for the directory itself. */
  function Tail(value: string, projectPath: string): string
    requires Inside(value, projectPath)
  {
    NormalizeForCompare(value)[|NormalizeForCompare(projectPath)|..]
  }

  lemma NormalIsTail(value: string, projectPath: string)
    requires Inside(value, projectPath)
    ensures NormalizeForCompare(value) == NormalizeForCompare(projectPath) + Tail(value, projectPath)
    ensures Tail(value, projectPath) == "" || (Tail(value, projectPath)[0] == '/' && |Tail(value, projectPath)| > 1)
    ensures Tail(value, projectPath) == "" || Tail(value, projectPath)[|Tail(value, projectPath)| - 1] != '/'
    ensures Slashed(Tail(value, projectPath)) == Tail(value, projectPath)
  {
    var v, root := NormalizeForCompare(value), NormalizeForCompare(projectPath);
    DropSlashesEnds(Slashed(value));
    assert forall i :: 0 <= i < |v| ==> v[i] == Slashed(value)[i];
    if v != root {
      assert v[|root|] == (root + "/")[|root|];
    }
  }

  lemma ReplacedIs(value: string, projectPath: string)
    requires Inside(value, projectPath)
    ensures ReplacePath(value, projectPath) == PROJECT_PATH_TOKEN + Tail(value, projectPath)
  {
    var v, root := NormalizeForCompare(value), NormalizeForCompare(projectPath);
    NormalIsTail(value, projectPath);
    if v != root {
      assert Tail(value, projectPath) == "/" + v[|root| + 1..];
      assert PROJECT_PATH_TOKEN + "/" + v[|root| + 1..] == PROJECT_PATH_TOKEN + ("/" + v[|root| + 1..]);
    }
  }

  /** Neither the tail nor the place it goes to spells out a placeholder. */
  ghost predicate Unmarked(tail: string, project: Project) {
    !Holds(tail, PROJECT_PATH_TOKEN) && !Holds(DropSeparators(project.path) + tail, PROJECT_NAME_TOKEN)
  }

  /** A path in the exporting project comes to the same place in the importing one. */
  lemma MovesWithProject(value: string, from: string, to: Project)
    requires Inside(value, from) && Unmarked(Tail(value, from), to)
    ensures Resolved(ReplacePath(value, from), to) == DropSeparators(to.path) + Tail(value, from)
  {
    var tail := Tail(value, from);
    ReplacedIs(value, from);
    ReplaceFirst(PROJECT_PATH_TOKEN, tail, DropSeparators(to.path));
    ReplaceNothing(tail, PROJECT_PATH_TOKEN, DropSeparators(to.path));
    ReplaceNothing(DropSeparators(to.path) + tail, PROJECT_NAME_TOKEN, to.name);
  }

  lemma MovedNormal(tail: string, path: string)
    requires Slashed(tail) == tail && (tail == "" || tail[|tail| - 1] != '/')
    ensures NormalizeForCompare(DropSeparators(path) + tail) == NormalizeForCompare(path) + tail
  {
    SlashedDropped(path);
    SlashedJoin(DropSeparators(path), tail);
    DropSlashesEnds(Slashed(path));
    NothingToDrop(NormalizeForCompare(path) + tail);
  }

  /** Back in the project it came from, a path is the same up to how separators are written. */
  lemma ComesHome(value: string, project: Project)
    requires Inside(value, project.path) && Unmarked(Tail(value, project.path), project)
    ensures NormalizeForCompare(Resolved(ReplacePath(value, project.path), project)) == NormalizeForCompare(value)
  {
    MovesWithProject(value, project.path, project);
    NormalIsTail(value, project.path);
    MovedNormal(Tail(value, project.path), project.path);
  }

  /** Exported again from there, it is the same placeholder exactly when that project has a directory to name. */
  lemma ExportsAgain(value: string, from: string, to: Project)
    requires Inside(value, from) && Unmarked(Tail(value, from), to)
    ensures ReplacePath(Resolved(ReplacePath(value, from), to), to.path) == ReplacePath(value, from)
      <==> NormalizeForCompare(to.path) != ""
  {
    var tail, there := Tail(value, from), DropSeparators(to.path) + Tail(value, from);
    MovesWithProject(value, from, to);
    ReplacedIs(value, from);
    NormalIsTail(value, from);
    MovedNormal(tail, to.path);
    if NormalizeForCompare(to.path) != "" {
      var root := NormalizeForCompare(to.path);
      if tail != "" {
        assert (root + tail)[..|root| + 1] == root + "/";
      }
      assert Inside(there, to.path);
      assert Tail(there, to.path) == tail;
      ReplacedIs(there, to.path);
    } else {
      SlashedDropped(to.path);
      assert |Slashed(DropSeparators(to.path))| == |DropSeparators(to.path)|;
      assert |there| < |PROJECT_PATH_TOKEN + tail|;
    }
  }

  // ---- paths that spell a placeholder ----

  function Braces(s: string): nat {
    if s == "" then 0 else if s[0] == '{' then Braces(s[1..]) + 1 else Braces(s[1..])
  }

  lemma {:induction false} BracesJoin(a: string, b: string)
    ensures Braces(a + b) == Braces(a) + Braces(b)
  {
    if a == "" {
      assert a + b == b;
    } else {
      assert (a + b)[1..] == a[1..] + b;
      BracesJoin(a[1..], b);
    }
  }

  lemma {:induction false} NoBraces(s: string)
    requires '{' !in s
    ensures Braces(s) == 0
  {
    if s != "" {
      assert s[0] in s && forall c :: c in s[1..] ==> c in s;
      NoBraces(s[1..]);
    }
  }

  /** Replacing a token by text without braces loses the token's braces wherever it stands. */
  lemma {:induction false} ReplaceLosesBraces(s: string, token: string, text: string)
    requires Braces(token) > 0 && '{' !in text
    ensures Braces(ReplaceAll(s, token, text)) <= Braces(s)
    ensures Holds(s, token) ==> Braces(ReplaceAll(s, token, text)) < Braces(s)
    decreases |s|
  {
    if |s| >= |token| {
      if s[..|token|] == token {
        var rest := s[|token|..];
        assert s == token + rest;
        BracesJoin(token, rest);
        BracesJoin(text, ReplaceAll(rest, token, text));
        NoBraces(text);
        ReplaceLosesBraces(rest, token, text);
      } else {
        assert s == [s[0]] + s[1..];
        ReplaceLosesBraces(s[1..], token, text);
        BracesJoin([s[0]], ReplaceAll(s[1..], token, text));
        BracesJoin([s[0]], s[1..]);
        if i :| HoldsAt(s, token, i) {
          HoldsSooner(s, token, i);
        }
      }
    }
  }

  lemma HoldsSooner(s: string, token: string, i: int)
    requires token != "" && HoldsAt(s, token, i) && s[..|token|] != token
    ensures HoldsAt(s[1..], token, i - 1)
  {
    assert s[0..0 + |token|] == s[..|token|];
    if i > 0 {
      assert s[1..][i - 1..i - 1 + |token|] == s[i..i + |token|];
    }
  }

  lemma {:induction false} SlashedBraces(p: string)
    ensures Braces(Slashed(p)) == Braces(p)
  {
    if p != "" {
      assert Slashed(p)[1..] == Slashed(p[1..]);
      SlashedBraces(p[1..]);
    }
  }

  lemma {:induction false} NormalBraces(p: string)
    ensures Braces(DropSlashes(p)) == Braces(p)
  {
    if p != "" && p[|p| - 1] == '/' {
      var n := |p| - 1;
      NormalBraces(p[..n]);
      assert p == p[..n] + [p[n]];
      BracesJoin(p[..n], [p[n]]);
    }
  }

  lemma NormalizedBraces(p: string)
    ensures Braces(NormalizeForCompare(p)) == Braces(p)
  {
    SlashedBraces(p);
    NormalBraces(Slashed(p));
  }

  /** A project whose name and path hold no brace. */
  predicate Plain(project: Project) {
    '{' !in project.name && '{' !in project.path
  }

  lemma TokensHaveBraces()
    ensures Braces(PROJECT_PATH_TOKEN) == 2 && Braces(PROJECT_NAME_TOKEN) == 2
  {
    var path, name := "project.path}}", "project.name}}";
    assert PROJECT_PATH_TOKEN == "{{" + path && PROJECT_NAME_TOKEN == "{{" + name;
    NoBraces(path);
    NoBraces(name);
    assert "{{"[1..] == "{" && "{"[1..] == "";
    assert Braces("{{") == 2;
    BracesJoin("{{", path);
    BracesJoin("{{", name);
  }

  lemma {:induction false} DroppedIsPrefix(p: string)
    ensures DropSeparators(p) <= p
  {
    if p != "" {
      DroppedIsPrefix(p[..|p| - 1]);
    }
  }

  lemma PlainPlace(project: Project)
    requires Plain(project)
    ensures '{' !in DropSeparators(project.path) && Braces(DropSeparators(project.path)) == 0
    ensures Braces(NormalizeForCompare(project.path)) == 0
  {
    DroppedIsPrefix(project.path);
    forall c | c in DropSeparators(project.path) ensures c in project.path {
      var i :| 0 <= i < |DropSeparators(project.path)| && DropSeparators(project.path)[i] == c;
      assert project.path[i] == c;
    }
    NoBraces(DropSeparators(project.path));
    NoBraces(project.path);
    NormalizedBraces(project.path);
  }

  /** A tail that spells a placeholder comes out of an import with fewer braces than it went in with. */
  lemma MarkedLosesBraces(value: string, from: string, to: Project)
    requires Inside(value, from) && Plain(to) && !Unmarked(Tail(value, from), to)
    ensures Braces(Resolved(ReplacePath(value, from), to)) < Braces(Tail(value, from))
  {
    var tail, place := Tail(value, from), DropSeparators(to.path);
    TokensHaveBraces();
    PlainPlace(to);
    ReplacedIs(value, from);
    ReplaceFirst(PROJECT_PATH_TOKEN, tail, place);
    var moved := ReplaceAll(tail, PROJECT_PATH_TOKEN, place);
    ReplaceLosesBraces(tail, PROJECT_PATH_TOKEN, place);
    BracesJoin(place, moved);
    ReplaceLosesBraces(place + moved, PROJECT_NAME_TOKEN, to.name);
    if !Holds(tail, PROJECT_PATH_TOKEN) {
      ReplaceNothing(tail, PROJECT_PATH_TOKEN, place);
    }
  }

  /** A path that spells no placeholder comes to the same place in any project; in one without braces no other does. */
  lemma MovesIffUnmarked(value: string, from: string, to: Project)
    requires Inside(value, from)
    ensures
      var moves := Resolved(ReplacePath(value, from), to) == DropSeparators(to.path) + Tail(value, from);
      (Unmarked(Tail(value, from), to) ==> moves) && (Plain(to) && moves ==> Unmarked(Tail(value, from), to))
  {
    if Unmarked(Tail(value, from), to) {
      MovesWithProject(value, from, to);
    } else if Plain(to) {
      MarkedLosesBraces(value, from, to);
      PlainPlace(to);
      BracesJoin(DropSeparators(to.path), Tail(value, from));
    }
  }

  /** And it comes home exactly then. */
  lemma ComesHomeIffUnmarked(value: string, project: Project)
    requires Inside(value, project.path)
    ensures
      var there := Resolved(ReplacePath(value, project.path), project);
      var home := NormalizeForCompare(there) == NormalizeForCompare(value);
      && (Unmarked(Tail(value, project.path), project) ==> home)
      && (Plain(project) && home ==> Unmarked(Tail(value, project.path), project))
  {
    if Unmarked(Tail(value, project.path), project) {
      ComesHome(value, project);
    } else if Plain(project) {
      MarkedLosesBraces(value, project.path, project);
      NormalizedBraces(Resolved(ReplacePath(value, project.path), project));
      PlainPlace(project);
      NormalIsTail(value, project.path);
      BracesJoin(NormalizeForCompare(project.path), Tail(value, project.path));
    }
  }

  /** Exported again it is the same placeholder exactly when it spells none and the project has a directory. */
  lemma ExportsAgainIffUnmarked(value: string, from: string, to: Project)
    requires Inside(value, from)
    ensures
      var again := ReplacePath(Resolved(ReplacePath(value, from), to), to.path) == ReplacePath(value, from);
      && (Unmarked(Tail(value, from), to) ==> (again <==> NormalizeForCompare(to.path) != ""))
      && (Plain(to) && again ==> Unmarked(Tail(value, from), to))
  {
    if Unmarked(Tail(value, from), to) {
      ExportsAgain(value, from, to);
    } else if Plain(to) {
      var there := Resolved(ReplacePath(value, from), to);
      MarkedLosesBraces(value, from, to);
      ReplacedIs(value, from);
      BracesJoin(PROJECT_PATH_TOKEN, Tail(value, from));
      TokensHaveBraces();
      if Inside(there, to.path) {
        ReplacedIs(there, to.path);
        NormalIsTail(there, to.path);
        NormalizedBraces(there);
        PlainPlace(to);
        BracesJoin(NormalizeForCompare(to.path), Tail(there, to.path));
        BracesJoin(PROJECT_PATH_TOKEN, Tail(there, to.path));
      }
    }
  }

  lemma {:induction false} ReplaceByItself(s: string, token: string)
    requires token != ""
    ensures ReplaceAll(s, token, token) == s
    decreases |s|
  {
    if |s| >= |token| {
      if s[..|token|] == token {
        assert s == token + s[|token|..];
        ReplaceByItself(s[|token|..], token);
      } else {
        assert s == [s[0]] + s[1..];
        ReplaceByItself(s[1..], token);
      }
    }
  }

  /** With braces in a project's name a path may spell a placeholder and arrive all the same: a project named like its
    * own placeholder changes nothing.
    */
  lemma NamedLikePlaceholder(value: string, from: string, to: Project)
    requires Inside(value, from) && to.name == PROJECT_NAME_TOKEN && !Holds(Tail(value, from), PROJECT_PATH_TOKEN)
    ensures Resolved(ReplacePath(value, from), to) == DropSeparators(to.path) + Tail(value, from)
  {
    var tail := Tail(value, from);
    ReplacedIs(value, from);
    ReplaceFirst(PROJECT_PATH_TOKEN, tail, DropSeparators(to.path));
    ReplaceNothing(tail, PROJECT_PATH_TOKEN, DropSeparators(to.path));
    ReplaceByItself(DropSeparators(to.path) + tail, PROJECT_NAME_TOKEN);
  }
}
