/** The binary-operator precedence table `BinopPrecedence` and the lookup
    `GetTokPrecedence` performs on it. */
module Precedence {
  import opened Lexer

  /** `isascii(CurTok)`: only a raw character below 128 can be an operator. */
  predicate IsAscii(t: Token) { 0 <= Code(t) < 128 }

  /** The table after `BinopPrecedence[CurTok]` has been evaluated for an
      ASCII token: `operator[]` inserts 0 under a missing key. */
  function Touch(m: map<char, int>, t: Token): (m': map<char, int>)
    ensures m.Keys <= m'.Keys
    ensures forall c :: c in m ==> m'[c] == m[c]
    ensures forall c :: c in m' && c !in m ==> m'[c] == 0
    ensures IsAscii(t) ==> t.c in m'
    ensures m'.Keys == m.Keys + (if IsAscii(t) then {t.c} else {})
  {
    if IsAscii(t) && t.c !in m then m[t.c := 0] else m
  }

  /** The value `GetTokPrecedence` returns for token `t`: -1 unless `t` is an
      ASCII character whose entry is positive, and then that entry. */
  function Lookup(m: map<char, int>, t: Token): (p: int)
    ensures p == -1 || p > 0
    ensures p > 0 <==> IsAscii(t) && t.c in m && m[t.c] > 0
    ensures p > 0 ==> p == m[t.c]
  {
    if !IsAscii(t) then -1
    else
      var tokPrec := Touch(m, t)[t.c];
      if tokPrec <= 0 then -1 else tokPrec
  }

  /** The entries that make a character a binary operator. */
  function Effective(m: map<char, int>): (e: map<char, int>)
    ensures forall c :: c in e <==> c in m && c as int < 128 && m[c] > 0
    ensures forall c :: c in e ==> e[c] == m[c]
  {
    map c | c in m && c as int < 128 && m[c] > 0 :: m[c]
  }

  /** The 0 that `operator[]` inserts never changes a later lookup. */
  lemma TouchKeepsLookup(m: map<char, int>, t: Token, u: Token)
    ensures Lookup(Touch(m, t), u) == Lookup(m, u)
  {
  }

  /** ... nor the operators the table defines. */
  lemma TouchKeepsEffective(m: map<char, int>, t: Token)
    ensures Effective(Touch(m, t)) == Effective(m)
  {
  }

  /** Looking a token up in the operators alone gives what the whole table gives. */
  lemma EffectiveLookup(m: map<char, int>, t: Token)
    ensures Lookup(Effective(m), t) == Lookup(m, t)
  {
  }

  /** The operators `main` installs. */
  function DefaultTable(): map<char, int>
  {
    map['<' := 10, '>' := 10, '=' := 10, '+' := 20, '-' := 20, '*' := 40, '/' := 40]
  }

  /** With the default table exactly `< > = + - * /` are binary operators,
      comparisons binding loosest and `*`, `/` tightest. */
  lemma DefaultOperators(c: char)
    ensures Lookup(DefaultTable(), TokChar(c)) > 0 <==> c in {'<', '>', '=', '+', '-', '*', '/'}
    ensures c in {'<', '>', '='} ==> Lookup(DefaultTable(), TokChar(c)) == 10
    ensures c in {'+', '-'} ==> Lookup(DefaultTable(), TokChar(c)) == 20
    ensures c in {'*', '/'} ==> Lookup(DefaultTable(), TokChar(c)) == 40
  {
  }

  lemma DefaultTableEffective()
    ensures Effective(DefaultTable()) == DefaultTable()
  {
  }
}
