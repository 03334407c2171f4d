/** The `Tokenizer` object of gen/template.py: it chops characters off its text in place, collects
    the tokens, and then serves as the parser's cursor. */
module Tokenizing {
  import opened Wrappers
  import opened Lexer

  /** A token list the lexer produced in full. */
  predicate Terminated(tokens: seq<Lexeme>) {
    tokens != [] && tokens[|tokens| - 1] == Eof
  }

  lemma {:induction false} TokenizeTerminates(text: string)
    requires Tokenize(text).Success?
    ensures Terminated(Tokenize(text).value)
    decreases |text|
  {
    if text != "" {
      TokenizeTerminates(LexOne(text).value.rest);
    }
  }

  class Tokenizer {
    var toLex: string
    var tokens: seq<Lexeme>
    var tokenPos: nat
    /** The exception the constructor raised, if any. */
    var failure: Option<LexError>

    predicate Valid()
      reads this
    {
      failure.None? && Terminated(tokens) && tokenPos < |tokens|
    }

    /** The tokens still to be parsed. */
    function Ahead(): seq<Lexeme>
      reads this
      requires tokenPos <= |tokens|
    {
      tokens[tokenPos..]
    }

    constructor (corpus: string)
      ensures match Tokenize(corpus)
              case Failure(e) => failure == Some(e)
              case Success(all) => Valid() && tokenPos == 0 && tokens == all
    {
      toLex := corpus;
      tokens := [];
      tokenPos := 0;
      failure := None;
      new;
      PrependNoTokens(Tokenize(corpus));
      while toLex != ""
        invariant failure.None? && tokenPos == 0
        invariant Tokenize(corpus) == PrependTokens(tokens, Tokenize(toLex))
        decreases |toLex|
      {
        var token := ReadToken();
        if token.Failure? {
          failure := Some(token.error);
          return;
        }
        PrependToken(tokens, token.value.value, Tokenize(toLex));
        tokens := tokens + [token.value.value];
      }
      tokens := tokens + [Eof];
      TokenizeTerminates(corpus);
    }

    method Peek() returns (token: Lexeme)
      requires tokenPos < |tokens|
      ensures token == tokens[tokenPos]
    {
      token := tokens[tokenPos];
    }

    /** Moving on from the last token would raise. */
    method Advance()
      requires Valid() && tokens[tokenPos] != Eof
      modifies this`tokenPos
      ensures Valid() && tokenPos == old(tokenPos) + 1
      ensures Ahead() == old(Ahead())[1..]
    {
      tokenPos := tokenPos + 1;
    }

    method ReadWhitespace() returns (r: Result<string, LexError>)
      modifies this`toLex
      ensures r == ReadSpace(old(toLex))
      ensures r.Success? ==> toLex == r.value
    {
      if toLex == "" {
        return Failure(IndexError);
      }
      if toLex[0] != ' ' {
        return Failure(SyntaxError);
      }
      if |toLex| == 1 {
        return Failure(IndexError);
      }
      if IsSpace(toLex[1]) {
        return Failure(SyntaxError);
      }
      toLex := toLex[1..];
      r := Success(toLex);
    }

    method ReadName() returns (r: Reading<string>)
      modifies this`toLex
      ensures r == ReadIdentifier(old(toLex))
      ensures r.Success? ==> toLex == r.value.rest
    {
      var start :- ReadWhitespace();
      var identifier := "";
      PrependNothing(TakeIdentifier(start));
      while toLex != "" && IsNameCharacter(toLex[0])
        invariant TakeIdentifier(start) == PrependText(identifier, TakeIdentifier(toLex))
        decreases |toLex|
      {
        PrependOne(identifier, toLex[0], TakeIdentifier(toLex[1..]));
        identifier := identifier + [toLex[0]];
        toLex := toLex[1..];
      }
      if toLex == "" {
        return Failure(IndexError);
      }
      assert identifier + "" == identifier;
      r := Success(Read(identifier, toLex));
    }

    method ReadQuoted() returns (r: Reading<string>)
      modifies this`toLex
      ensures r == ReadString(old(toLex))
      ensures r.Success? ==> toLex == r.value.rest
    {
      var start :- ReadWhitespace();
      if toLex[0] != '"' {
        return Failure(SyntaxError);
      }
      toLex := toLex[1..];
      ghost var body := toLex;
      var value := "";
      var hasBackslash := false;
      PrependNothing(TakeString(body, false));
      while true
        invariant TakeString(body, false) == PrependText(value, TakeString(toLex, hasBackslash))
        decreases |toLex|
      {
        if toLex == "" {
          return Failure(SyntaxError);
        }
        var cur := toLex[0];
        toLex := toLex[1..];
        if cur in {'\n', '\r'} {
          return Failure(SyntaxError);
        }
        if hasBackslash {
          if cur in {'"', '\\'} {
            PrependOne(value, cur, TakeString(toLex, false));
            value := value + [cur];
          } else {
            return Failure(SyntaxError);
          }
          hasBackslash := false;
        } else if cur == '\\' {
          hasBackslash := true;
        } else if cur == '"' {
          assert value + "" == value;
          return Success(Read(value, toLex));
        } else {
          PrependOne(value, cur, TakeString(toLex, false));
          value := value + [cur];
        }
      }
    }

    method ReadControlEnd() returns (r: Result<string, LexError>)
      modifies this`toLex
      ensures r == ReadEnd(old(toLex))
      ensures r.Success? ==> toLex == r.value
    {
      var end :- ReadWhitespace();
      if !("%}" <= toLex) {
        return Failure(SyntaxError);
      }
      toLex := toLex[2..];
      r := Success(toLex);
    }

    /** Everything up to the next opening brace. */
    method ReadBlob() returns (text: string)
      modifies this`toLex
      ensures text == old(toLex)[..BlobLength(old(toLex))]
      ensures toLex == old(toLex)[BlobLength(old(toLex))..]
    {
      var n := 0;
      while n < |toLex| && toLex[n] != '{'
        invariant n <= |toLex| && BlobLength(toLex) == n + BlobLength(toLex[n..])
      {
        assert toLex[n..][1..] == toLex[n + 1..];
        n := n + 1;
      }
      text := toLex[..n];
      toLex := toLex[n..];
    }

    /** `__read_token`, while there is text left. */
    method ReadToken() returns (r: Reading<Lexeme>)
      requires toLex != ""
      modifies this`toLex
      ensures r == LexOne(old(toLex))
      ensures r.Success? ==> toLex == r.value.rest
    {
      if toLex[0] != '{' {
        var blob := ReadBlob();
        return Success(Read(Blob(blob), toLex));
      }
      if "{{{{" <= toLex {
        toLex := toLex[4..];
        return Success(Read(Blob("{{"), toLex));
      }
      if "{{{" <= toLex {
        return Failure(SyntaxError);
      } else if "{%" <= toLex {
        toLex := toLex[2..];
        r := ReadControl();
      } else if "{{" <= toLex {
        toLex := toLex[2..];
        r := ReadSubstitution();
      } else {
        toLex := toLex[1..];
        r := Success(Read(Blob("{"), toLex));
      }
    }

    method ReadControl() returns (r: Reading<Lexeme>)
      modifies this`toLex
      ensures r == LexControl(old(toLex))
      ensures r.Success? ==> toLex == r.value.rest
    {
      var control :- ReadWhitespace();
      if "switch" <= toLex {
        toLex := toLex[6..];
        var identifier :- ReadName();
        var rest :- ReadControlEnd();
        r := Success(Read(SwitchStart(identifier.value), toLex));
      } else if "case" <= toLex {
        toLex := toLex[4..];
        var value :- ReadQuoted();
        var rest :- ReadControlEnd();
        r := Success(Read(CaseStart(value.value), toLex));
      } else if "endswitch" <= toLex {
        toLex := toLex[9..];
        var rest :- ReadControlEnd();
        r := Success(Read(SwitchEnd, toLex));
      } else if "for" <= toLex {
        toLex := toLex[3..];
        r := ReadFor();
      } else if "endfor" <= toLex {
        toLex := toLex[6..];
        var rest :- ReadControlEnd();
        r := Success(Read(ForEnd, toLex));
      } else {
        r := Failure(SyntaxError);
      }
    }

    method ReadFor() returns (r: Reading<Lexeme>)
      modifies this`toLex
      ensures r == LexFor(old(toLex))
      ensures r.Success? ==> toLex == r.value.rest
    {
      var newVar :- ReadName();
      var keyword :- ReadWhitespace();
      if !("in" <= toLex) {
        return Failure(SyntaxError);
      }
      toLex := toLex[2..];
      var iterable :- ReadName();
      var rest :- ReadControlEnd();
      r := Success(Read(ForStart(newVar.value, iterable.value), toLex));
    }

    method ReadSubstitution() returns (r: Reading<Lexeme>)
      modifies this`toLex
      ensures r == LexSubstitution(old(toLex))
      ensures r.Success? ==> toLex == r.value.rest
    {
      var identifier :- ReadName();
      if identifier.value == "" {
        return Failure(SyntaxError);
      }
      var after :- ReadWhitespace();
      var filter: Option<string> := None;
      if "|" <= toLex {
        toLex := toLex[1..];
        var name :- ReadName();
        filter := Some(name.value);
        after :- ReadWhitespace();
      }
      if !("}}" <= toLex) {
        return Failure(SyntaxError);
      }
      toLex := toLex[2..];
      r := Success(Read(Substitution(identifier.value, filter), toLex));
    }
  }

  // ---------------------------------------------------------------- putting what was read in front

  ghost function PrependText(text: string, r: Reading<string>): Reading<string> {
    match r
    case Failure(e) => Failure(e)
    case Success(more) => Success(Read(text + more.value, more.rest))
  }

  lemma PrependOne(text: string, c: char, r: Reading<string>)
    ensures PrependText(text, PrependText([c], r)) == PrependText(text + [c], r)
  {
    match r {
      case Failure(_) =>
      case Success(more) => assert text + ([c] + more.value) == text + [c] + more.value;
    }
  }

  ghost function PrependTokens(tokens: seq<Lexeme>, r: Result<seq<Lexeme>, LexError>): Result<seq<Lexeme>, LexError> {
    match r
    case Failure(e) => Failure(e)
    case Success(more) => Success(tokens + more)
  }

  lemma PrependNothing(r: Reading<string>)
    ensures PrependText("", r) == r
  {
    match r {
      case Failure(_) =>
      case Success(more) => assert "" + more.value == more.value;
    }
  }

  lemma PrependNoTokens(r: Result<seq<Lexeme>, LexError>)
    ensures PrependTokens([], r) == r
  {
    match r {
      case Failure(_) =>
      case Success(more) => assert [] + more == more;
    }
  }

  lemma PrependToken(tokens: seq<Lexeme>, token: Lexeme, r: Result<seq<Lexeme>, LexError>)
    ensures PrependTokens(tokens, PrependTokens([token], r)) == PrependTokens(tokens + [token], r)
  {
    match r {
      case Failure(_) =>
      case Success(more) => assert tokens + ([token] + more) == tokens + [token] + more;
    }
  }
}
