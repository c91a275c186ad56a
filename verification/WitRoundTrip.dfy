/** Which types come back from their own WIT text (`Ty::wit` against `tokens` and `Parser::ty`,
  * packages/core/crates/extensions/build.rs).
  */
module WitRoundTrip {
  import opened WitTypes

  /** Printing the type and reading the text gives the type back and uses up every token. */
  predicate ComesBack(t: Ty) {
    var toks := TokensOf(Wit(t));
    TyAt(toks, 0) == Got(t, |toks|)
  }

  predicate EndsInDash(s: string) {
    s != "" && s[|s| - 1] == '-'
  }

  /** The names a type may hold; inside brackets none ends in a dash. */
  predicate Readable(t: Ty, nested: bool) {
    match t
    case Prim(p) => p in PRIMS
    case Named(n) => IsName(n) && n !in RESERVED && (nested ==> !EndsInDash(n))
    case OptionOf(u) => Readable(u, true)
    case ListOf(u) => Readable(u, true)
  }

  /** What the parser makes: known primitives and well-formed names, reserved ones among them if they were escaped. */
  predicate Parsed(t: Ty) {
    match t
    case Prim(p) => p in PRIMS
    case Named(n) => IsName(n)
    case OptionOf(u) => Parsed(u)
    case ListOf(u) => Parsed(u)
  }

  lemma {:induction false} ParserMakesParsed(toks: seq<Token>, at: nat)
    ensures TyAt(toks, at).Got? ==> Parsed(TyAt(toks, at).value)
    decreases |toks| - at
  {
    if at < |toks| && toks[at].text !in PRIMS && (toks[at].text == "option" || toks[at].text == "list") {
      if EatAt(toks, at + 1, "<").Got? {
        ParserMakesParsed(toks, at + 2);
      }
    }
  }

  // ---- the text of a type is one line, without comments ----

  predicate Plain(s: string) {
    forall c :: c in s ==> c != '\n' && c != '/'
  }

  lemma {:induction false} NoComment(s: string, i: nat)
    requires Plain(s) && i <= |s|
    ensures CommentFrom(s, i) == |s|
    decreases |s| - i
  {
    if i + 1 < |s| {
      assert s[i] in s;
      NoComment(s, i + 1);
    }
  }

  lemma {:induction false} NoNewline(s: string, i: nat)
    requires Plain(s) && i <= |s|
    ensures NewlineFrom(s, i) == |s|
    decreases |s| - i
  {
    if i < |s| {
      assert s[i] in s;
      NoNewline(s, i + 1);
    }
  }

  lemma PlainTokens(s: string)
    requires Plain(s)
    ensures TokensOf(s) == Tagged(1, LineTokens(s))
  {
    NoNewline(s, 0);
    NoComment(s, 0);
    assert s[..|s|] == s && s[0..] == s;
    if s == "" {
      assert LinesOf(s, 0) == [];
      assert LineTokens("") == [];
      assert TokensOf(s) == [] == Tagged(1, []);
    } else {
      assert LinesOf(s, 0) == [s];
      assert TokensUpTo([s], 0) == [];
      assert TokensUpTo([s], 1) == [] + Tagged(1, LineTokens(s));
    }
  }

  lemma PrimsAreNames(p: string)
    requires p in PRIMS
    ensures IsName(p) && !EndsInDash(p)
  {
  }

  lemma NamesArePlain(s: string)
    requires IsName(s)
    ensures Plain(s)
  {
  }

  lemma {:induction false} WitIsPlain(t: Ty)
    requires Parsed(t)
    ensures Plain(Wit(t))
  {
    match t
    case Prim(p) => PrimsAreNames(p); NamesArePlain(p);
    case Named(n) => NamesArePlain(n);
    case OptionOf(u) => WitIsPlain(u);
    case ListOf(u) => WitIsPlain(u);
  }

  // ---- tokens ----

  /** `k` closing brackets. */
  function Closers(k: nat): string {
    if k == 0 then "" else ">" + Closers(k - 1)
  }

  function CloserTokens(k: nat): seq<string> {
    seq(k, i requires 0 <= i < k => ">")
  }

  /** A leaf under `k` brackets: a dash before the first bracket is read as an arrow. */
  function LeafTokens(s: string, k: nat): seq<string> {
    if k > 0 && EndsInDash(s) then [s[..|s| - 1], "->"] + CloserTokens(k - 1) else [s] + CloserTokens(k)
  }

  /** The tokens of a type under `k` brackets. */
  function TypeTokens(t: Ty, k: nat): seq<string> {
    match t
    case Prim(p) => LeafTokens(p, k)
    case Named(n) => LeafTokens(n, k)
    case OptionOf(u) => ["option", "<"] + TypeTokens(u, k + 1)
    case ListOf(u) => ["list", "<"] + TypeTokens(u, k + 1)
  }

  lemma {:induction false} CloserTokensOf(k: nat)
    ensures LineTokens(Closers(k)) == CloserTokens(k)
  {
    if k > 0 {
      var s := Closers(k);
      assert s[0] == '>' && s[1..] == Closers(k - 1) && s[..1] == ">";
      assert TrimStart(s) == s && TokenLength(s) == 1;
      CloserTokensOf(k - 1);
      assert CloserTokens(k) == [">"] + CloserTokens(k - 1);
    }
  }

  /** One token of length `n` off the front. */
  lemma FirstToken(s: string, n: nat)
    requires s != "" && !IsSpace(s[0]) && n == TokenLength(s)
    ensures LineTokens(s) == [s[..n]] + LineTokens(s[n..])
  {
    assert TrimStart(s) == s;
  }

  lemma WordLength(s: string, n: nat)
    requires 0 < n <= |s| && (forall i :: 0 <= i < n ==> !EndsWord(s, i)) && (n < |s| ==> EndsWord(s, n))
    ensures !IsSpace(s[0]) && TokenLength(s) == n
  {
    assert !EndsWord(s, 0);
  }

  lemma NameChars(s: string, rest: string, i: nat)
    requires IsName(s) && i < |s|
    ensures EndsWord(s + rest, i) <==> i == |s| - 1 && s[i] == '-' && rest != "" && rest[0] == '>'
  {
    var w := s + rest;
    assert w[i] == s[i] && s[i] in s;
    if i + 1 < |s| {
      assert w[i + 1] == s[i + 1] && s[i + 1] in s;
    } else if rest != "" {
      assert w[i + 1] == rest[0];
    }
  }

  lemma LeafTokensOf(s: string, k: nat)
    requires IsName(s)
    ensures LineTokens(s + Closers(k)) == LeafTokens(s, k)
  {
    var w := s + Closers(k);
    assert w[0] == s[0];
    forall i | 0 <= i < |s| ensures EndsWord(w, i) <==> i == |s| - 1 && s[i] == '-' && k > 0 {
      NameChars(s, Closers(k), i);
    }
    if k > 0 && EndsInDash(s) {
      DashedTokensOf(s, k);
    } else {
      assert k > 0 ==> w[|s|] == '>';
      WordLength(w, |s|);
      FirstToken(w, |s|);
      assert w[..|s|] == s && w[|s|..] == Closers(k);
      CloserTokensOf(k);
    }
  }

  lemma DashedTokensOf(s: string, k: nat)
    requires IsName(s) && EndsInDash(s) && k > 0
    requires forall i :: 0 <= i < |s| ==> (EndsWord(s + Closers(k), i) <==> i == |s| - 1)
    ensures LineTokens(s + Closers(k)) == LeafTokens(s, k)
  {
    var w, n := s + Closers(k), |s| - 1;
    assert w[0] == s[0];
    WordLength(w, n);
    FirstToken(w, n);
    assert w[..n] == s[..n];
    ArrowToken(k);
    assert w[n..] == "->" + Closers(k - 1);
  }

  lemma ArrowToken(k: nat)
    requires k > 0
    ensures LineTokens("->" + Closers(k - 1)) == ["->"] + CloserTokens(k - 1)
  {
    var v := "->" + Closers(k - 1);
    assert v[0] == '-' && v[1] == '>';
    FirstToken(v, 2);
    assert v[..2] == "->" && v[2..] == Closers(k - 1);
    CloserTokensOf(k - 1);
  }

  lemma WordToken(word: string, rest: string)
    requires (word == "option" || word == "list") && rest != "" && rest[0] == '<'
    ensures LineTokens(word + rest) == [word] + LineTokens(rest)
  {
    var w, n := word + rest, |word|;
    forall i | 0 <= i < n ensures !EndsWord(w, i) {
      assert w[i] == word[i];
    }
    assert w[n] == '<';
    WordLength(w, n);
    FirstToken(w, n);
    assert w[..n] == word && w[n..] == rest;
  }

  lemma BracketToken(rest: string)
    ensures LineTokens("<" + rest) == ["<"] + LineTokens(rest)
  {
    var v := "<" + rest;
    FirstToken(v, 1);
    assert v[..1] == "<" && v[1..] == rest;
  }

  /** A word and the bracket it opens. */
  lemma OpenTokens(word: string, rest: string)
    requires word == "option" || word == "list"
    ensures LineTokens(word + ("<" + rest)) == [word, "<"] + LineTokens(rest)
  {
    WordToken(word, "<" + rest);
    BracketToken(rest);
  }

  lemma {:induction false} TypeTokensOf(t: Ty, k: nat)
    requires Parsed(t)
    ensures LineTokens(Wit(t) + Closers(k)) == TypeTokens(t, k)
    decreases t, 0
  {
    match t
    case Prim(p) =>
      PrimsAreNames(p);
      LeafTokensOf(p, k);
    case Named(n) => LeafTokensOf(n, k);
    case OptionOf(u) =>
      WrappedTokensOf("option", u, k);
      assert "option" + "<" == "option<";
    case ListOf(u) =>
      WrappedTokensOf("list", u, k);
      assert "list" + "<" == "list<";
  }

  lemma {:induction false} WrappedTokensOf(word: string, u: Ty, k: nat)
    requires Parsed(u) && (word == "option" || word == "list")
    ensures LineTokens(word + "<" + Wit(u) + ">" + Closers(k)) == [word, "<"] + TypeTokens(u, k + 1)
    decreases u, 1
  {
    TypeTokensOf(u, k + 1);
    OpenTokens(word, Wit(u) + Closers(k + 1));
    Regrouped(word, Wit(u), Closers(k));
  }

  lemma Regrouped(word: string, inner: string, rest: string)
    ensures word + "<" + inner + ">" + rest == word + ("<" + (inner + (">" + rest)))
  {
  }

  // ---- reading them ----

  /** The tokens from `at` on are `texts`. */
  predicate From(toks: seq<Token>, at: nat, texts: seq<string>) {
    at + |texts| == |toks| && forall i :: 0 <= i < |texts| ==> toks[at + i].text == texts[i]
  }

  lemma FromTail(toks: seq<Token>, at: nat, a: string, b: string, rest: seq<string>)
    requires From(toks, at, [a, b] + rest)
    ensures From(toks, at + 2, rest) && toks[at].text == a && toks[at + 1].text == b
  {
    var texts := [a, b] + rest;
    assert toks[at + 0].text == texts[0] && toks[at + 1].text == texts[1];
    forall i | 0 <= i < |rest| ensures toks[at + 2 + i].text == rest[i] {
      assert toks[at + (i + 2)].text == texts[i + 2];
    }
  }

  /** A type that is readable under its brackets is read, down to the brackets that close others. */
  lemma {:induction false} ReadBack(toks: seq<Token>, at: nat, t: Ty, k: nat)
    requires Readable(t, k > 0) && From(toks, at, TypeTokens(t, k))
    ensures k <= |toks| && TyAt(toks, at) == Got(t, |toks| - k)
    decreases t
  {
    hide From, TyAt;
    match t
    case Prim(_) => ReadLeaf(toks, at, t, k);
    case Named(_) => ReadLeaf(toks, at, t, k);
    case OptionOf(u) =>
      FromTail(toks, at, "option", "<", TypeTokens(u, k + 1));
      ReadBack(toks, at + 2, u, k + 1);
      LastCloses(toks, at + 2, u, k + 1);
      ReadWrapped(toks, at, u, k);
    case ListOf(u) =>
      FromTail(toks, at, "list", "<", TypeTokens(u, k + 1));
      ReadBack(toks, at + 2, u, k + 1);
      LastCloses(toks, at + 2, u, k + 1);
      ReadWrapped(toks, at, u, k);
  }

  lemma ReadLeaf(toks: seq<Token>, at: nat, t: Ty, k: nat)
    requires (t.Prim? || t.Named?) && Readable(t, k > 0) && From(toks, at, TypeTokens(t, k))
    ensures k <= |toks| && TyAt(toks, at) == Got(t, |toks| - k)
  {
    hide From;
    match t
    case Prim(p) =>
      PrimsAreNames(p);
      LeafFrom(toks, at, p, k);
    case Named(n) => LeafFrom(toks, at, n, k);
  }

  lemma ReadWrapped(toks: seq<Token>, at: nat, u: Ty, k: nat)
    requires at + 2 <= |toks| && toks[at + 1].text == "<"
    requires k < |toks| && toks[|toks| - k - 1].text == ">" && TyAt(toks, at + 2) == Got(u, |toks| - k - 1)
    ensures toks[at].text == "option" ==> TyAt(toks, at) == Got(OptionOf(u), |toks| - k)
    ensures toks[at].text == "list" ==> TyAt(toks, at) == Got(ListOf(u), |toks| - k)
  {
    hide EatAt, IdentAt, LineAt;
    EatsIt(toks, at + 1, "<");
    EatsIt(toks, |toks| - k - 1, ">");
  }

  lemma EatsIt(toks: seq<Token>, at: nat, want: string)
    requires at < |toks| && toks[at].text == want
    ensures EatAt(toks, at, want) == Got((), at + 1)
  {
  }

  lemma LeafFrom(toks: seq<Token>, at: nat, s: string, k: nat)
    requires From(toks, at, LeafTokens(s, k)) && !(k > 0 && EndsInDash(s)) && IsName(s)
    ensures at < |toks| && toks[at].text == s && at + 1 == |toks| - k && Unescaped(s) == s
    ensures k > 0 ==> toks[|toks| - k].text == ">"
  {
    var texts := [s] + CloserTokens(k);
    assert toks[at + 0].text == texts[0];
    if k > 0 {
      assert toks[at + 1].text == texts[1];
    }
  }

  /** Under two brackets or more, the one after the next closes as well. */
  lemma {:induction false} LastCloses(toks: seq<Token>, at: nat, t: Ty, k: nat)
    requires Readable(t, true) && From(toks, at, TypeTokens(t, k)) && k > 0
    ensures forall i :: |toks| - k <= i < |toks| ==> 0 <= i && toks[i].text == ">"
    decreases t
  {
    match t
    case Prim(p) => LeafCloses(toks, at, p, k);
    case Named(n) => LeafCloses(toks, at, n, k);
    case OptionOf(u) =>
      FromTail(toks, at, "option", "<", TypeTokens(u, k + 1));
      LastCloses(toks, at + 2, u, k + 1);
    case ListOf(u) =>
      FromTail(toks, at, "list", "<", TypeTokens(u, k + 1));
      LastCloses(toks, at + 2, u, k + 1);
  }

  lemma LeafCloses(toks: seq<Token>, at: nat, s: string, k: nat)
    requires From(toks, at, LeafTokens(s, k)) && (s in PRIMS || !EndsInDash(s))
    ensures forall i :: |toks| - k <= i < |toks| ==> 0 <= i && toks[i].text == ">"
  {
    if s in PRIMS {
      PrimsAreNames(s);
    }
    var texts := [s] + CloserTokens(k);
    forall i | |toks| - k <= i < |toks| ensures 0 <= i && toks[i].text == ">" {
      assert toks[at + (i - at)].text == texts[i - at];
    }
  }

  /** A reserved word, or a name whose dash is taken for an arrow, is not read back. */
  lemma {:induction false} NotReadBack(toks: seq<Token>, at: nat, t: Ty, k: nat)
    requires Parsed(t) && !Readable(t, k > 0) && From(toks, at, TypeTokens(t, k))
    ensures TyAt(toks, at).Got? ==> TyAt(toks, at).value != t
    decreases t
  {
    match t
    case Prim(_) =>
    case Named(n) => NameNotReadBack(toks, at, n, k);
    case OptionOf(u) =>
      FromTail(toks, at, "option", "<", TypeTokens(u, k + 1));
      NotReadBack(toks, at + 2, u, k + 1);
    case ListOf(u) =>
      FromTail(toks, at, "list", "<", TypeTokens(u, k + 1));
      NotReadBack(toks, at + 2, u, k + 1);
  }

  lemma NameNotReadBack(toks: seq<Token>, at: nat, n: string, k: nat)
    requires IsName(n) && (n in RESERVED || (k > 0 && EndsInDash(n))) && From(toks, at, LeafTokens(n, k))
    ensures TyAt(toks, at).Got? ==> TyAt(toks, at).value != Named(n)
  {
    var texts := LeafTokens(n, k);
    assert toks[at + 0].text == texts[0];
    if |texts| > 1 {
      assert toks[at + 1].text == texts[1];
    }
    if k > 0 && EndsInDash(n) {
      assert |texts[0]| < |n|;
      assert |Unescaped(texts[0])| <= |texts[0]|;
    }
  }

  lemma TextTokens(t: Ty)
    requires Parsed(t)
    ensures From(TokensOf(Wit(t)), 0, TypeTokens(t, 0))
  {
    WitIsPlain(t);
    PlainTokens(Wit(t));
    TypeTokensOf(t, 0);
    assert Wit(t) + Closers(0) == Wit(t);
  }

  /** A type comes back exactly when its names are names, not reserved, and inside brackets end in no dash. */
  lemma ComesBackIffReadable(t: Ty)
    ensures ComesBack(t) <==> Readable(t, false)
  {
    var toks := TokensOf(Wit(t));
    if Readable(t, false) {
      ReadableIsParsed(t, false);
      TextTokens(t);
      ReadBack(toks, 0, t, 0);
    } else if Parsed(t) {
      TextTokens(t);
      NotReadBack(toks, 0, t, 0);
    } else {
      ParserMakesParsed(toks, 0);
    }
  }

  lemma {:induction false} ReadableIsParsed(t: Ty, nested: bool)
    requires Readable(t, nested)
    ensures Parsed(t)
  {
    match t
    case Prim(_) =>
    case Named(_) =>
    case OptionOf(u) => ReadableIsParsed(u, true);
    case ListOf(u) => ReadableIsParsed(u, true);
  }
}
