/** Whole numbers as they are written into text. */
module Decimals {

  function Digit(d: nat): char
    requires d < 10
  {
    '0' + d as char
  }

  function Show(n: nat): (s: string)
    ensures s != "" && forall c :: c in s ==> '0' <= c <= '9'
  {
    if n < 10 then [Digit(n)] else Show(n / 10) + [Digit(n % 10)]
  }

  /** What a string of digits stands for. */
  function Value(s: string): nat
    requires forall c :: c in s ==> '0' <= c <= '9'
  {
    if s == "" then 0
    else
      var n := |s| - 1;
      assert s[n] in s;
      assert forall c :: c in s[..n] ==> c in s;
      Value(s[..n]) * 10 + (s[n] as nat - '0' as nat)
  }

  lemma {:induction false} ShowThenValue(n: nat)
    ensures Value(Show(n)) == n
  {
    var s := Show(n);
    if n < 10 {
      assert s[..0] == "";
    } else {
      assert s[..|s| - 1] == Show(n / 10);
      ShowThenValue(n / 10);
    }
  }

  /** No two numbers are written alike. */
  lemma ShowInjective(a: nat, b: nat)
    requires Show(a) == Show(b)
    ensures a == b
  {
    ShowThenValue(a);
    ShowThenValue(b);
  }

  /** A minus sign for what is below zero. */
  function ShowInt(n: int): string {
    if n < 0 then "-" + Show(-n) else Show(n)
  }

  lemma ShowIntInjective(a: int, b: int)
    requires ShowInt(a) == ShowInt(b)
    ensures a == b
  {
    var s, t := ShowInt(a), ShowInt(b);
    assert a < 0 <==> s[0] == '-' by {
      if a >= 0 {
        assert s[0] in Show(a);
      }
    }
    assert b < 0 <==> t[0] == '-' by {
      if b >= 0 {
        assert t[0] in Show(b);
      }
    }
    if a < 0 {
      assert s[1..] == Show(-a) && t[1..] == Show(-b);
      ShowInjective(-a, -b);
    } else {
      ShowInjective(a, b);
    }
  }
}
