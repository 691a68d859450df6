/** The parser as the source runs it: the current token `CurTok`, the
    precedence table `BinopPrecedence` and the lexer are state that the
    parsing routines update in place. Each routine is proved to compute what
    the corresponding function of `Grammar` describes. */
module Parser {
  import opened Wrappers
  import opened Lexer
  import opened Precedence
  import opened Ast
  import Grammar

  class Parser {
    /** `CurTok`. */
    var curTok: Token
    /** `BinopPrecedence`. */
    var binopPrecedence: map<char, int>
    /** The lexer `gettok` reads from. */
    const scanner: Scanner

    ghost predicate Valid()
      reads this, scanner
    {
      scanner.Valid() && (curTok == TokEof ==> scanner.Pending() == [])
    }

    /** The tokens still to be parsed: the current token and those the lexer
        will return after it. */
    ghost function Tokens(): seq<Token>
      reads this, scanner
    {
      if curTok == TokEof then [] else [curTok] + Tokenize(scanner.Pending())
    }

    /** The binary operators the table defines. */
    ghost function Operators(): map<char, int>
      reads this
    {
      Effective(binopPrecedence)
    }

    /** `r` is the null-or-tree a routine returned for the outcome `s`, and
        the tokens left are those `s` leaves. */
    ghost predicate Yields<T>(r: Option<T>, s: Grammar.Parse<T>)
      reads this, scanner
    {
      (r.Some? <==> s.Parsed?) && (r.Some? ==> r.value == s.value) && Tokens() == s.rest
    }

    /** `main`'s set-up: the standard operators, then the first token. */
    constructor (text: seq<char>)
      ensures Valid() && fresh(scanner)
      ensures binopPrecedence == DefaultTable()
      ensures Tokens() == Tokenize(text)
    {
      binopPrecedence := DefaultTable();
      var s := new Scanner(text);
      var t := s.GetTok();
      FirstToken(text, t, s.Pending());
      scanner := s;
      curTok := t;
    }

    /** `getNextToken`. */
    method GetNextToken() returns (t: Token)
      requires Valid()
      modifies this, scanner
      ensures Valid() && binopPrecedence == old(binopPrecedence)
      ensures Tokens() == Grammar.Next(old(Tokens()))
      ensures t == curTok
    {
      t := scanner.GetTok();
      curTok := t;
    }

    /** `GetTokPrecedence`: `BinopPrecedence[CurTok]` inserts 0 under a
        missing ASCII key, which leaves the operators as they were. */
    method GetTokPrecedence() returns (p: int)
      modifies this`binopPrecedence
      ensures p == Lookup(old(binopPrecedence), curTok) == Lookup(Operators(), curTok)
      ensures binopPrecedence == Touch(old(binopPrecedence), curTok)
      ensures Operators() == old(Operators())
    {
      TouchKeepsEffective(binopPrecedence, curTok);
      EffectiveLookup(binopPrecedence, curTok);
      if !(0 <= Code(curTok) < 128) {
        return -1;
      }
      if curTok.c !in binopPrecedence {
        binopPrecedence := binopPrecedence[curTok.c := 0];
      }
      var tokPrec := binopPrecedence[curTok.c];
      if tokPrec <= 0 {
        return -1;
      }
      return tokPrec;
    }

    /** `ParseNumberExpr`. */
    method ParseNumberExpr() returns (r: Option<Expr>)
      requires Valid() && curTok.TokNumber?
      modifies this, scanner
      ensures Valid() && binopPrecedence == old(binopPrecedence)
      ensures Yields(r, Grammar.ParseNumberExpr(old(Tokens())))
    {
      var result := Number(curTok.lexeme);
      var _ := GetNextToken();
      return Some(result);
    }

    /** `ParsePrimary`. */
    method ParsePrimary() returns (r: Option<Expr>)
      requires Valid()
      modifies this, scanner
      ensures Valid() && Operators() == old(Operators())
      ensures Yields(r, Grammar.ParsePrimary(old(Operators()), old(Tokens())))
      decreases |Tokens()|, 1
    {
      match curTok
      case TokNumber(_) =>
        r := ParseNumberExpr();
      case TokChar(c) =>
        if c == '(' {
          r := ParseParenExpr();
        } else {
          r := None;
        }
      case _ =>
        r := None;
    }

    /** `ParseParenExpr`. */
    method ParseParenExpr() returns (r: Option<Expr>)
      requires Valid() && curTok == TokChar('(')
      modifies this, scanner
      ensures Valid() && Operators() == old(Operators())
      ensures Yields(r, Grammar.ParseParenExpr(old(Operators()), old(Tokens())))
      decreases |Tokens()|, 0
    {
      var _ := GetNextToken();
      var v := ParseExpression();
      if v.None? {
        return None;
      }
      if curTok != TokChar(')') {
        return None;
      }
      var _ := GetNextToken();
      return v;
    }

    /** `ParseExpression`. */
    method ParseExpression() returns (r: Option<Expr>)
      requires Valid()
      modifies this, scanner
      ensures Valid() && Operators() == old(Operators())
      ensures Yields(r, Grammar.ParseExpression(old(Operators()), old(Tokens())))
      decreases |Tokens()|, 2
    {
      var lhs := ParsePrimary();
      if lhs.None? {
        return None;
      }
      r := ParseBinOpRHS(0, lhs.value);
    }

    /** `ParseBinOpRHS`: the `while (true)` loop of precedence climbing. */
    method ParseBinOpRHS(exprPrec: int, lhs0: Expr) returns (r: Option<Expr>)
      requires Valid() && 0 <= exprPrec
      modifies this, scanner
      ensures Valid() && Operators() == old(Operators())
      ensures Yields(r, Grammar.ParseBinOpRHS(old(Operators()), exprPrec, lhs0, old(Tokens())))
      decreases |Tokens()|, 3
    {
      ghost var ops := Operators();
      ghost var goal := Grammar.ParseBinOpRHS(ops, exprPrec, lhs0, Tokens());
      var lhs := lhs0;
      while true
        invariant Valid() && Operators() == ops
        invariant |Tokens()| <= old(|Tokens()|)
        invariant Grammar.ParseBinOpRHS(ops, exprPrec, lhs, Tokens()) == goal
        decreases |Tokens()|
      {
        ghost var ts := Tokens();
        var tokPrec := GetTokPrecedence();
        if tokPrec < exprPrec {
          return Some(lhs);
        }
        var binOp := curTok.c;
        var _ := GetNextToken();
        var rhs := ParseOperand(tokPrec);
        if rhs.None? {
          return None;
        }
        lhs := Binary(binOp, lhs, rhs.value);
      }
    }

    /** The part of a round of `ParseBinOpRHS` after the operator: the
        primary, and the inner call when the operator after it binds
        tighter. */
    method ParseOperand(tokPrec: int) returns (r: Option<Expr>)
      requires Valid() && 0 <= tokPrec
      modifies this, scanner
      ensures Valid() && Operators() == old(Operators())
      ensures Yields(r, Grammar.ParseOperand(old(Operators()), tokPrec, old(Tokens())))
      decreases |Tokens()|, 4
    {
      var rhs := ParsePrimary();
      if rhs.None? {
        return None;
      }
      var nextPrec := GetTokPrecedence();
      if tokPrec < nextPrec {
        r := ParseBinOpRHS(tokPrec + 1, rhs.value);
      } else {
        r := rhs;
      }
    }

    /** `ParseTopLevelExpr`. */
    method ParseTopLevelExpr() returns (r: Option<FunctionAst>)
      requires Valid()
      modifies this, scanner
      ensures Valid() && Operators() == old(Operators())
      ensures Yields(r, Grammar.ParseTopLevelExpr(old(Operators()), old(Tokens())))
    {
      var e := ParseExpression();
      if e.None? {
        return None;
      }
      var proto := Prototype(AnonName, []);
      return Some(FunctionAst(proto, e.value));
    }
  }
}
