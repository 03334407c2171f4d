/** The recursive-descent parser of gen/template.py, and the printer it inverts. */
module Parser {
  import opened Wrappers
  import opened Templates
  import opened Lexer
  import opened Tokenizing

  datatype ParseError = LexicalError(error: LexError) | ValueError | AssertionError

  /** What was parsed, and the tokens after it. */
  datatype Parsed<+T> = Parsed(value: T, rest: seq<Lexeme>)

  type Parsing<+T> = Result<Parsed<T>, ParseError>

  // ---------------------------------------------------------------- the grammar

  function ParseChunks(tokens: seq<Lexeme>): (r: Parsing<Ast>)
    requires Terminated(tokens)
    ensures r.Success? ==> Terminated(r.value.rest) && |r.value.rest| <= |tokens|
    ensures r.Success? && StartsChunk(tokens[0]) ==> |r.value.rest| < |tokens|
    decreases |tokens|, 2
  {
    if StartsChunk(tokens[0]) then
      var chunk :- ParseChunk(tokens);
      var more :- ParseChunks(chunk.rest);
      Success(Parsed(Cons(chunk.value, more.value), more.rest))
    else Success(Parsed(Nil, tokens))
  }

  predicate StartsChunk(token: Lexeme) {
    token.Blob? || token.Substitution? || token.SwitchStart? || token.ForStart?
  }

  function ParseChunk(tokens: seq<Lexeme>): (r: Parsing<Chunk>)
    requires Terminated(tokens) && StartsChunk(tokens[0])
    ensures r.Success? ==> Terminated(r.value.rest) && |r.value.rest| < |tokens|
    decreases |tokens|, 1
  {
    match tokens[0]
    case Blob(text) => Success(Parsed(Text(text), tokens[1..]))
    case Substitution(id, filter) => Success(Parsed(Replacement(id, filter), tokens[1..]))
    case SwitchStart(id) =>
      var cases :- ParseCases(tokens[1..], NoCases, true);
      Success(Parsed(Switch(id, cases.value), cases.rest))
    case ForStart(newVar, iterable) =>
      var body :- ParseChunks(tokens[1..]);
      if body.rest[0] == ForEnd then Success(Parsed(For(newVar, iterable, body.value), body.rest[1..]))
      else Failure(ValueError)
  }

  /** The inside of a switch; only white space may come before its first case. */
  function ParseCases(tokens: seq<Lexeme>, cases: Cases, isFirst: bool): (r: Parsing<Cases>)
    requires Terminated(tokens)
    ensures r.Success? ==> Terminated(r.value.rest) && |r.value.rest| < |tokens|
    decreases |tokens|, 0
  {
    match tokens[0]
    case CaseStart(value) =>
      var body :- ParseChunks(tokens[1..]);
      ParseCases(body.rest, SetCase(cases, value, body.value), false)
    case SwitchEnd => Success(Parsed(cases, tokens[1..]))
    case Blob(text) =>
      if !isFirst then Failure(AssertionError)
      else if !IsBlank(text) then Failure(ValueError)
      else ParseCases(tokens[1..], cases, false)
    case _ => Failure(ValueError)
  }

  /** One case, in front of the others. */
  lemma CaseParsed(
      value: string, body: Ast, inside: seq<Lexeme>, others: seq<Lexeme>, before: Cases, isFirst: bool)
    requires Terminated(inside) && Terminated(others) && ParseChunks(inside) == Success(Parsed(body, others))
    ensures Terminated([CaseStart(value)] + inside)
    ensures ParseCases([CaseStart(value)] + inside, before, isFirst)
         == ParseCases(others, SetCase(before, value, body), false)
  {
    hide ParseChunks, SetCase, IsBlank;
    assert ([CaseStart(value)] + inside)[1..] == inside;
  }

  predicate IsBlank(text: string) {
    text != "" && forall i | 0 <= i < |text| :: IsSpace(text[i])
  }

  /** Dictionary assignment: an earlier case with this value keeps its place. */
  function SetCase(cases: Cases, value: string, body: Ast): Cases {
    match cases
    case NoCases => Case(value, body, NoCases)
    case Case(v, b, rest) => if v == value then Case(v, body, rest) else Case(v, b, SetCase(rest, value, body))
  }

  function ParseStr(text: string): Result<Ast, ParseError> {
    match Tokenize(text)
    case Failure(e) => Failure(LexicalError(e))
    case Success(tokens) =>
      TokenizeTerminates(text);
      var ast :- ParseChunks(tokens);
      if ast.rest[0] == Eof then Success(ast.value) else Failure(ValueError)
  }

  // ---------------------------------------------------------------- the parser, driving the cursor

  /** The chunks collected so far, in front of what follows. */
  ghost function Before(chunks: seq<Chunk>, rest: Ast): Ast {
    if chunks == [] then rest else Cons(chunks[0], Before(chunks[1..], rest))
  }

  lemma {:induction false} BeforeOne(chunks: seq<Chunk>, chunk: Chunk, rest: Ast)
    ensures Before(chunks + [chunk], rest) == Before(chunks, Cons(chunk, rest))
  {
    if chunks == [] {
      assert chunks + [chunk] == [chunk];
    } else {
      assert (chunks + [chunk])[1..] == chunks[1..] + [chunk];
      BeforeOne(chunks[1..], chunk, rest);
    }
  }

  ghost function PrependChunks(chunks: seq<Chunk>, r: Parsing<Ast>): Parsing<Ast> {
    match r
    case Failure(e) => Failure(e)
    case Success(more) => Success(Parsed(Before(chunks, more.value), more.rest))
  }

  method ListAst(chunks: seq<Chunk>) returns (ast: Ast)
    ensures ast == Before(chunks, Nil)
  {
    ast := Nil;
    for i := |chunks| downto 0
      invariant ast == Before(chunks[i..], Nil)
    {
      assert chunks[i..][1..] == chunks[i + 1..];
      ast := Cons(chunks[i], ast);
    }
    assert chunks[0..] == chunks;
  }

  method ReadChunks(tokenizer: Tokenizer) returns (r: Result<Ast, ParseError>)
    requires tokenizer.Valid()
    modifies tokenizer`tokenPos
    ensures tokenizer.Valid()
    ensures old(tokenizer.tokenPos) <= tokenizer.tokenPos
    ensures var spec := ParseChunks(old(tokenizer.Ahead()));
            if spec.Success? then r == Success(spec.value.value) && tokenizer.Ahead() == spec.value.rest
            else r == Failure(spec.error)
    decreases |tokenizer.tokens| - tokenizer.tokenPos, 2
  {
    ghost var start := tokenizer.Ahead();
    ghost var spec := ParseChunks(start);
    var chunks := [];
    while true
      invariant tokenizer.Valid() && tokenizer.tokenPos >= old(tokenizer.tokenPos)
      invariant Terminated(tokenizer.Ahead())
      invariant spec == PrependChunks(chunks, ParseChunks(tokenizer.Ahead()))
      decreases |tokenizer.tokens| - tokenizer.tokenPos
    {
      ghost var here := tokenizer.Ahead();
      var token := tokenizer.Peek();
      if !StartsChunk(token) {
        var ast := ListAst(chunks);
        return Success(ast);
      }
      var chunk :- ReadChunk(tokenizer);
      PrependChunk(chunks, chunk, ParseChunks(tokenizer.Ahead()));
      chunks := chunks + [chunk];
    }
  }

  lemma PrependChunk(chunks: seq<Chunk>, chunk: Chunk, r: Parsing<Ast>)
    ensures PrependChunks(chunks, PrependChunks([chunk], r)) == PrependChunks(chunks + [chunk], r)
    ensures r.Success? ==>
              PrependChunks([chunk], r) == Success(Parsed(Cons(chunk, r.value.value), r.value.rest))
  {
    if r.Success? {
      var rest := r.value.value;
      BeforeOne(chunks, chunk, rest);
      assert [chunk][1..] == [];
      assert Before([chunk], rest) == Cons(chunk, rest);
    }
  }

  method ReadChunk(tokenizer: Tokenizer) returns (r: Result<Chunk, ParseError>)
    requires tokenizer.Valid() && StartsChunk(tokenizer.tokens[tokenizer.tokenPos])
    modifies tokenizer`tokenPos
    ensures tokenizer.Valid()
    ensures old(tokenizer.tokenPos) < tokenizer.tokenPos
    ensures var spec := ParseChunk(old(tokenizer.Ahead()));
            if spec.Success? then r == Success(spec.value.value) && tokenizer.Ahead() == spec.value.rest
            else r == Failure(spec.error)
    decreases |tokenizer.tokens| - tokenizer.tokenPos, 1
  {
    var token := tokenizer.Peek();
    match token {
      case Blob(text) =>
        tokenizer.Advance();
        r := Success(Text(text));
      case Substitution(id, filter) =>
        tokenizer.Advance();
        r := Success(Replacement(id, filter));
      case SwitchStart(id) =>
        r := ReadSwitch(tokenizer, id);
      case ForStart(newVar, iterable) =>
        r := ReadFor(tokenizer, newVar, iterable);
    }
  }

  /** `_parse_for`. */
  method ReadFor(tokenizer: Tokenizer, newVar: string, iterable: string) returns (r: Result<Chunk, ParseError>)
    requires tokenizer.Valid() && tokenizer.tokens[tokenizer.tokenPos] == ForStart(newVar, iterable)
    modifies tokenizer`tokenPos
    ensures tokenizer.Valid()
    ensures old(tokenizer.tokenPos) < tokenizer.tokenPos
    ensures var spec := ParseChunk(old(tokenizer.Ahead()));
            if spec.Success? then r == Success(spec.value.value) && tokenizer.Ahead() == spec.value.rest
            else r == Failure(spec.error)
    decreases |tokenizer.tokens| - tokenizer.tokenPos, 0
  {
    tokenizer.Advance();
    var body :- ReadChunks(tokenizer);
    var end := tokenizer.Peek();
    if end != ForEnd {
      return Failure(ValueError);
    }
    tokenizer.Advance();
    r := Success(For(newVar, iterable, body));
  }

  /** `_parse_switch`. */
  method ReadSwitch(tokenizer: Tokenizer, identifier: string) returns (r: Result<Chunk, ParseError>)
    requires tokenizer.Valid() && tokenizer.tokens[tokenizer.tokenPos] == SwitchStart(identifier)
    modifies tokenizer`tokenPos
    ensures tokenizer.Valid()
    ensures old(tokenizer.tokenPos) < tokenizer.tokenPos
    ensures var spec := ParseChunk(old(tokenizer.Ahead()));
            if spec.Success? then r == Success(spec.value.value) && tokenizer.Ahead() == spec.value.rest
            else r == Failure(spec.error)
    decreases |tokenizer.tokens| - tokenizer.tokenPos, 0
  {
    var cases := NoCases;
    var isFirst := true;
    tokenizer.Advance();
    ghost var spec := ParseCases(tokenizer.Ahead(), NoCases, true);
    while true
      invariant tokenizer.Valid() && tokenizer.tokenPos > old(tokenizer.tokenPos)
      invariant Terminated(tokenizer.Ahead())
      invariant spec == ParseCases(tokenizer.Ahead(), cases, isFirst)
      decreases |tokenizer.tokens| - tokenizer.tokenPos
    {
      var token := tokenizer.Peek();
      match token {
        case CaseStart(value) =>
          tokenizer.Advance();
          var body :- ReadChunks(tokenizer);
          cases := SetCase(cases, value, body);
        case SwitchEnd =>
          tokenizer.Advance();
          return Success(Switch(identifier, cases));
        case Blob(text) =>
          if !isFirst {
            return Failure(AssertionError);
          }
          if !IsBlank(text) {
            return Failure(ValueError);
          }
          tokenizer.Advance();
        case _ =>
          return Failure(ValueError);
      }
      isFirst := false;
    }
  }

  /** `parse_str`. */
  method ReadTemplate(text: string) returns (r: Result<Ast, ParseError>)
    ensures r == ParseStr(text)
  {
    var tokenizer := new Tokenizer(text);
    if tokenizer.failure.Some? {
      return Failure(LexicalError(tokenizer.failure.value));
    }
    assert tokenizer.Ahead() == tokenizer.tokens;
    var ast :- ReadChunks(tokenizer);
    var end := tokenizer.Peek();
    if end != Eof {
      return Failure(ValueError);
    }
    r := Success(ast);
  }
}
