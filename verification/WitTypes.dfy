/** The tokenizer and the type parser for WIT, and the types they read (packages/core/crates/extensions/build.rs). */
module WitTypes {
  import opened Wrappers

  datatype Ty = Prim(name: string) | OptionOf(inner: Ty) | ListOf(inner: Ty) | Named(name: string)

  function Wit(t: Ty): string {
    match t
    case Prim(p) => p
    case Named(n) => n
    case OptionOf(u) => "option<" + Wit(u) + ">"
    case ListOf(u) => "list<" + Wit(u) + ">"
  }

  const PRIMS: set<string> := {"string", "bool", "u8", "u16", "u32", "u64", "s32", "s64", "f64"}

  /** Words that read as something else than a named type. */
  const RESERVED: set<string> := PRIMS + {"option", "list", "_", "result", "tuple"}

  const DELIMITERS: string := "{}()<>,;:.@="

  // ---- the tokenizer ----

  datatype Token = Token(line: nat, text: string)

  /** Unicode's White_Space. */
  predicate IsSpace(c: char) {
    var n := c as int;
    9 <= n <= 13 || n == 32 || n == 0x85 || n == 0xA0 || n == 0x1680 || 0x2000 <= n <= 0x200A
    || n == 0x2028 || n == 0x2029 || n == 0x202F || n == 0x205F || n == 0x3000
  }

  predicate ArrowAt(s: string, i: nat) {
    i + 1 < |s| && s[i] == '-' && s[i + 1] == '>'
  }

  /** What a word stops short of; a dash alone is part of it. */
  predicate EndsWord(s: string, i: nat)
    requires i < |s|
  {
    IsSpace(s[i]) || s[i] in DELIMITERS || ArrowAt(s, i)
  }

  function WordEnd(s: string, i: nat): (end: nat)
    requires i <= |s|
    ensures i <= end <= |s|
    ensures forall j :: i <= j < end ==> !EndsWord(s, j)
    ensures end < |s| ==> EndsWord(s, end)
    decreases |s| - i
  {
    if i == |s| || EndsWord(s, i) then i else WordEnd(s, i + 1)
  }

  function TrimStart(s: string): (t: string)
    ensures |t| <= |s|
    ensures t != "" ==> !IsSpace(t[0])
  {
    if s != "" && IsSpace(s[0]) then TrimStart(s[1..]) else s
  }

  /** How much of a text that starts with no space its first token takes. */
  function TokenLength(s: string): (n: nat)
    requires s != "" && !IsSpace(s[0])
    ensures 0 < n <= |s|
  {
    if ArrowAt(s, 0) then 2 else if s[0] in DELIMITERS then 1 else WordEnd(s, 0)
  }

  function LineTokens(rest: string): seq<string>
    decreases |rest|
  {
    var t := TrimStart(rest);
    if t == "" then [] else [t[..TokenLength(t)]] + LineTokens(t[TokenLength(t)..])
  }

  /** Where the first `//` from `i` on stands, or the length. */
  function CommentFrom(s: string, i: nat): (n: nat)
    requires i <= |s|
    ensures i <= n <= |s|
    decreases |s| - i
  {
    if i + 1 >= |s| then |s| else if s[i] == '/' && s[i + 1] == '/' then i else CommentFrom(s, i + 1)
  }

  function Uncommented(line: string): string {
    line[..CommentFrom(line, 0)]
  }

  function NewlineFrom(s: string, i: nat): (n: nat)
    requires i <= |s|
    ensures i <= n <= |s|
    decreases |s| - i
  {
    if i == |s| || s[i] == '\n' then i else NewlineFrom(s, i + 1)
  }

  /** A line's text without the return before its newline. */
  function Chomped(s: string): string {
    if s != "" && s[|s| - 1] == '\r' then s[..|s| - 1] else s
  }

  function LinesOf(text: string, start: nat): seq<string>
    requires start <= |text|
    decreases |text| - start
  {
    if start == |text| then []
    else
      var n := NewlineFrom(text, start);
      if n == |text| then [text[start..]] else [Chomped(text[start..n])] + LinesOf(text, n + 1)
  }

  function Tagged(line: nat, texts: seq<string>): seq<Token> {
    seq(|texts|, i requires 0 <= i < |texts| => Token(line, texts[i]))
  }

  /** The tokens of the first `n` lines, each with its line's number. */
  function TokensUpTo(lines: seq<string>, n: nat): seq<Token>
    requires n <= |lines|
  {
    if n == 0 then [] else TokensUpTo(lines, n - 1) + Tagged(n, LineTokens(Uncommented(lines[n - 1])))
  }

  function TokensOf(text: string): seq<Token> {
    TokensUpTo(LinesOf(text, 0), |LinesOf(text, 0)|)
  }

  method Tokens(text: string) returns (out: seq<Token>)
    ensures out == TokensOf(text)
  {
    var lines := LinesOf(text, 0);
    out := [];
    for n := 0 to |lines|
      invariant out == TokensUpTo(lines, n)
    {
      var texts := WordsOf(Uncommented(lines[n]));
      out := out + Tagged(n + 1, texts);
    }
  }

  /** The inner loop: one token at a time off the front of the line. */
  method WordsOf(line: string) returns (texts: seq<string>)
    ensures texts == LineTokens(line)
  {
    texts := [];
    var rest := line;
    while rest != ""
      invariant LineTokens(line) == texts + LineTokens(rest)
      decreases |rest|
    {
      var trimmed := TrimStart(rest);
      if trimmed == "" {
        break;
      }
      var n := TokenLength(trimmed);
      assert LineTokens(rest) == [trimmed[..n]] + LineTokens(trimmed[n..]);
      texts := texts + [trimmed[..n]];
      rest := trimmed[n..];
    }
  }

  // ---- the parser ----

  datatype Why = EndsEarly | Expected(want: string, got: string) | ExpectedName(got: string) | NotUsed(got: string)

  datatype Fail = Fail(line: nat, why: Why)

  /** What a reader makes of the tokens from some place on: a value and the place after it, or a failure. */
  datatype Read<T> = Got(value: T, at: nat) | Lost(fail: Fail)

  function LineAt(toks: seq<Token>, at: nat): nat {
    if at < |toks| then toks[at].line else if toks == [] then 1 else toks[|toks| - 1].line
  }

  function NextAt(toks: seq<Token>, at: nat): Read<string> {
    if at < |toks| then Got(toks[at].text, at + 1) else Lost(Fail(LineAt(toks, at), EndsEarly))
  }

  function EatAt(toks: seq<Token>, at: nat, want: string): Read<()> {
    if at >= |toks| then Lost(Fail(LineAt(toks, at), EndsEarly))
    else if toks[at].text == want then Got((), at + 1)
    else Lost(Fail(toks[at].line, Expected(want, toks[at].text)))
  }

  predicate IsLower(c: char) {
    'a' <= c <= 'z'
  }

  predicate IsNameChar(c: char) {
    IsLower(c) || '0' <= c <= '9' || c == '-'
  }

  predicate IsName(s: string) {
    s != "" && IsLower(s[0]) && forall c :: c in s ==> IsNameChar(c)
  }

  function Unescaped(s: string): string {
    if s != "" && s[0] == '%' then s[1..] else s
  }

  function IdentAt(toks: seq<Token>, at: nat): Read<string> {
    if at >= |toks| then Lost(Fail(LineAt(toks, at), EndsEarly))
    else
      var t := Unescaped(toks[at].text);
      if IsName(t) then Got(t, at + 1) else Lost(Fail(toks[at].line, ExpectedName(t)))
  }

  function TyAt(toks: seq<Token>, at: nat): (r: Read<Ty>)
    ensures r.Got? ==> at < r.at <= |toks|
    decreases |toks| - at
  {
    if at >= |toks| then Lost(Fail(LineAt(toks, at), EndsEarly))
    else
      var t := toks[at].text;
      if t in PRIMS then Got(Prim(t), at + 1)
      else if t == "option" || t == "list" then
        var less := EatAt(toks, at + 1, "<");
        if less.Lost? then Lost(less.fail)
        else
          var inner := TyAt(toks, less.at);
          if inner.Lost? then inner
          else
            var more := EatAt(toks, inner.at, ">");
            if more.Lost? then Lost(more.fail)
            else Got(if t == "option" then OptionOf(inner.value) else ListOf(inner.value), more.at)
      else if t == "_" || t == "result" || t == "tuple" then Lost(Fail(toks[at].line, NotUsed(t)))
      else
        var name := IdentAt(toks, at);
        if name.Lost? then Lost(name.fail) else Got(Named(name.value), name.at)
  }

  class Parser {
    const toks: seq<Token>
    var at: nat

    constructor (text: string)
      ensures toks == TokensOf(text) && at == 0
    {
      var read := Tokens(text);
      toks := read;
      at := 0;
    }

    function Line(): nat
      reads this
    {
      LineAt(toks, at)
    }

    method Next() returns (r: Result<string, Fail>)
      requires at <= |toks|
      modifies this
      ensures old(at) <= at <= |toks|
      ensures
        match NextAt(toks, old(at))
        case Got(v, next) => r == Ok(v) && at == next
        case Lost(fail) => r == Err(fail)
    {
      if at < |toks| {
        r := Ok(toks[at].text);
        at := at + 1;
      } else {
        r := Err(Fail(Line(), EndsEarly));
      }
    }

    method Eat(want: string) returns (r: Result<(), Fail>)
      requires at <= |toks|
      modifies this
      ensures old(at) <= at <= |toks|
      ensures
        match EatAt(toks, old(at), want)
        case Got(v, next) => r == Ok(v) && at == next
        case Lost(fail) => r == Err(fail)
    {
      var line := Line();
      var got := Next();
      if got.Err? {
        return Err(got.error);
      }
      r := if got.value == want then Ok(()) else Err(Fail(line, Expected(want, got.value)));
    }

    method Ident() returns (r: Result<string, Fail>)
      requires at <= |toks|
      modifies this
      ensures old(at) <= at <= |toks|
      ensures
        match IdentAt(toks, old(at))
        case Got(v, next) => r == Ok(v) && at == next
        case Lost(fail) => r == Err(fail)
    {
      var line := Line();
      var t := Next();
      if t.Err? {
        return t;
      }
      var name := Unescaped(t.value);
      r := if IsName(name) then Ok(name) else Err(Fail(line, ExpectedName(name)));
    }

    /** Ends on every input: each type takes a token. */
    method Type() returns (r: Result<Ty, Fail>)
      requires at <= |toks|
      modifies this
      ensures old(at) <= at <= |toks|
      ensures match TyAt(toks, old(at)) case Got(v, next) => r == Ok(v) && at == next case Lost(fail) => r == Err(fail)
      decreases |toks| - at
    {
      var line := Line();
      var next := Next();
      if next.Err? {
        return Err(next.error);
      }
      var t := next.value;
      if t in PRIMS {
        return Ok(Prim(t));
      }
      if t == "option" || t == "list" {
        var less := Eat("<");
        if less.Err? {
          return Err(less.error);
        }
        var inner := Type();
        if inner.Err? {
          return inner;
        }
        var more := Eat(">");
        if more.Err? {
          return Err(more.error);
        }
        return Ok(if t == "option" then OptionOf(inner.value) else ListOf(inner.value));
      }
      if t == "_" || t == "result" || t == "tuple" {
        return Err(Fail(line, NotUsed(t)));
      }
      at := at - 1;
      var name := Ident();
      r := if name.Err? then Err(name.error) else Ok(Named(name.value));
    }
  }
}
