/** Printing a template, and the round trip: the parser takes a printed tree back to itself
    exactly when the tree is one that some text parses to. */
module Printing {
  import opened Wrappers
  import opened Templates
  import opened Lexer
  import opened Tokenizing
  import opened Parser
  import opened Grammar

  // ---------------------------------------------------------------- printing

  function TokensOf(ast: Ast): seq<Lexeme> {
    match ast
    case Nil => []
    case Cons(head, tail) => TokensOfChunk(head) + TokensOf(tail)
  }

  function TokensOfChunk(chunk: Chunk): seq<Lexeme> {
    match chunk
    case Text(text) => [Blob(text)]
    case Replacement(id, filter) => [Substitution(id, filter)]
    case Switch(id, cases) => [SwitchStart(id)] + TokensOfCases(cases) + [SwitchEnd]
    case For(newVar, iterable, body) => [ForStart(newVar, iterable)] + TokensOf(body) + [ForEnd]
  }

  function TokensOfCases(cases: Cases): seq<Lexeme> {
    match cases
    case NoCases => []
    case Case(value, body, rest) => [CaseStart(value)] + TokensOf(body) + TokensOfCases(rest)
  }

  /** A template as source text. */
  function Print(ast: Ast): string {
    SpellAll(TokensOf(ast) + [Eof])
  }

  // ---------------------------------------------------------------- the trees a text can parse to

  function CaseValues(cases: Cases): set<string> {
    match cases
    case NoCases => {}
    case Case(value, _, rest) => {value} + CaseValues(rest)
  }

  /** A tree as the parser builds it, in front of a text: names are identifiers, a dictionary has
      no value twice, and text is cut into pieces the way the lexer cuts it. */
  predicate CanonicalAst(ast: Ast, next: string) {
    match ast
    case Nil => true
    case Cons(head, tail) =>
      CanonicalChunk(head, SpellAll(TokensOf(tail)) + next) && CanonicalAst(tail, next)
  }

  predicate CanonicalChunk(chunk: Chunk, next: string) {
    match chunk
    case Text(text) => Canonical(Blob(text), next)
    case Replacement(id, filter) => Canonical(Substitution(id, filter), next)
    case Switch(id, cases) => IsIdentifier(id) && CanonicalCases(cases)
    case For(newVar, iterable, body) =>
      IsIdentifier(newVar) && IsIdentifier(iterable) && CanonicalAst(body, "{%")
  }

  /** A body is always followed by another directive. */
  predicate CanonicalCases(cases: Cases) {
    match cases
    case NoCases => true
    case Case(value, body, rest) =>
      && '\n' !in value && '\r' !in value && value !in CaseValues(rest)
      && CanonicalAst(body, "{%") && CanonicalCases(rest)
  }

  // ---------------------------------------------------------------- only the next character matters

  predicate SameStart(a: string, b: string) {
    (a == "" <==> b == "") && (a != "" ==> a[0] == b[0])
  }

  lemma SameStartAfter(text: string, a: string, b: string)
    requires SameStart(a, b)
    ensures SameStart(text + a, text + b)
  {
    assert "" + a == a && "" + b == b;
  }

  lemma {:induction false} CanonicalElsewhere(ast: Ast, a: string, b: string)
    requires CanonicalAst(ast, a) && SameStart(a, b)
    ensures CanonicalAst(ast, b)
  {
    if ast.Cons? {
      SameStartAfter(SpellAll(TokensOf(ast.tail)), a, b);
      CanonicalElsewhere(ast.tail, a, b);
    }
  }

  /** Putting `b` after the text after a token. */
  lemma Later(prefix: string, a: string, b: string)
    ensures prefix + (a + b) == (prefix + a) + b
  {
  }

  lemma SubstitutionLater(id: string, filter: Option<string>, a: string, b: string)
    ensures Spell(Substitution(id, filter), a + b) == Spell(Substitution(id, filter), a) + b
  {
    Later("}}", a, b);
    var close := " " + ("}}" + a);
    Later(" ", "}}" + a, b);
    var tail := if filter.Some? then " " + ("|" + (" " + (filter.value + close))) else close;
    if filter.Some? {
      Later(filter.value, close, b);
      Later(" ", filter.value + close, b);
      Later("|", " " + (filter.value + close), b);
      Later(" ", "|" + (" " + (filter.value + close)), b);
    }
    Later(id, tail, b);
    Later(" ", id + tail, b);
    Later("{{", " " + (id + tail), b);
  }

  lemma DirectiveLater(keyword: string, tail: string, b: string)
    ensures "{%" + (" " + (keyword + (tail + b))) == ("{%" + (" " + (keyword + tail))) + b
  {
    Later(keyword, tail, b);
    Later(" ", keyword + tail, b);
    Later("{%", " " + (keyword + tail), b);
  }

  lemma SpellAppend(token: Lexeme, a: string, b: string)
    ensures Spell(token, a + b) == Spell(token, a) + b
  {
    var end := " " + ("%}" + a);
    Later("%}", a, b);
    Later(" ", "%}" + a, b);
    match token {
      case Eof =>
      case Blob(text) =>
        Later(if text == "{{" then "{{{{" else text, a, b);
      case Substitution(id, filter) =>
        SubstitutionLater(id, filter, a, b);
      case SwitchStart(id) =>
        Later(id, end, b);
        Later(" ", id + end, b);
        DirectiveLater("switch", " " + (id + end), b);
      case CaseStart(value) =>
        Later("\"", end, b);
        Later(Escape(value), "\"" + end, b);
        Later("\"", Escape(value) + ("\"" + end), b);
        Later(" ", "\"" + (Escape(value) + ("\"" + end)), b);
        DirectiveLater("case", " " + ("\"" + (Escape(value) + ("\"" + end))), b);
      case SwitchEnd =>
        DirectiveLater("endswitch", end, b);
      case ForStart(newVar, iterable) =>
        var tail := "in" + (" " + (iterable + end));
        Later(iterable, end, b);
        Later(" ", iterable + end, b);
        Later("in", " " + (iterable + end), b);
        Later(" ", tail, b);
        Later(newVar, " " + tail, b);
        Later(" ", newVar + (" " + tail), b);
        DirectiveLater("for", " " + (newVar + (" " + tail)), b);
      case ForEnd =>
        DirectiveLater("endfor", end, b);
    }
  }

  lemma {:induction false} SpellAllAppend(a: seq<Lexeme>, b: seq<Lexeme>)
    ensures SpellAll(a + b) == SpellAll(a) + SpellAll(b)
  {
    hide Spell;
    if a == [] {
      assert a + b == b;
      assert "" + SpellAll(b) == SpellAll(b);
    } else {
      assert (a + b)[1..] == a[1..] + b;
      SpellAllAppend(a[1..], b);
      SpellAppend(a[0], SpellAll(a[1..]), SpellAll(b));
    }
  }

  // ---------------------------------------------------------------- printed tokens parse back

  lemma {:induction false} AstParsed(ast: Ast, next: string, rest: seq<Lexeme>)
    requires CanonicalAst(ast, next)
    requires Terminated(rest) && !StartsChunk(rest[0])
    ensures Terminated(TokensOf(ast) + rest)
    ensures ParseChunks(TokensOf(ast) + rest) == Success(Parsed(ast, rest))
    decreases ast, 1
  {
    hide ParseChunk, CanonicalChunk, TokensOfChunk, SpellAll;
    match ast {
      case Nil => assert TokensOf(ast) + rest == rest;
      case Cons(head, tail) =>
        AstParsed(tail, next, rest);
        ChunkParsed(head, SpellAll(TokensOf(tail)) + next, TokensOf(tail) + rest);
        assert TokensOf(ast) + rest == TokensOfChunk(head) + (TokensOf(tail) + rest);
    }
  }

  lemma {:induction false} ChunkParsed(chunk: Chunk, next: string, rest: seq<Lexeme>)
    requires CanonicalChunk(chunk, next)
    requires Terminated(rest)
    ensures var tokens := TokensOfChunk(chunk) + rest;
            Terminated(tokens) && StartsChunk(tokens[0]) && ParseChunk(tokens) == Success(Parsed(chunk, rest))
    decreases chunk, 0
  {
    hide ParseChunks, ParseCases, CanonicalAst, CanonicalCases, TokensOf, TokensOfCases, Canonical;
    var tokens := TokensOfChunk(chunk) + rest;
    match chunk {
      case Text(_) => assert tokens[1..] == rest;
      case Replacement(_, _) => assert tokens[1..] == rest;
      case Switch(id, cases) =>
        var inside := TokensOfCases(cases) + ([SwitchEnd] + rest);
        CasesParsed(cases, NoCases, true, rest);
        assert tokens == [SwitchStart(id)] + inside;
        NothingAppended(cases);
        SwitchParsed(id, cases, inside, rest);
      case For(newVar, iterable, body) =>
        var end := [ForEnd] + rest;
        AstParsed(body, "{%", end);
        assert tokens == [ForStart(newVar, iterable)] + (TokensOf(body) + end);
        ForParsed(newVar, iterable, body, TokensOf(body) + end, rest);
    }
  }

  lemma NothingAppended(cases: Cases)
    ensures CaseValues(NoCases) !! CaseValues(cases) && Appended(NoCases, cases) == cases
  {
  }

  lemma SwitchParsed(id: string, cases: Cases, inside: seq<Lexeme>, rest: seq<Lexeme>)
    requires Terminated(inside) && Terminated(rest) && ParseCases(inside, NoCases, true) == Success(Parsed(cases, rest))
    ensures var tokens := [SwitchStart(id)] + inside;
            Terminated(tokens) && ParseChunk(tokens) == Success(Parsed(Switch(id, cases), rest))
  {
    hide ParseCases;
    assert ([SwitchStart(id)] + inside)[1..] == inside;
  }

  lemma ForParsed(newVar: string, iterable: string, body: Ast, inside: seq<Lexeme>, rest: seq<Lexeme>)
    requires Terminated(inside) && Terminated(rest) && ParseChunks(inside) == Success(Parsed(body, [ForEnd] + rest))
    ensures var tokens := [ForStart(newVar, iterable)] + inside;
            Terminated(tokens) && ParseChunk(tokens) == Success(Parsed(For(newVar, iterable, body), rest))
  {
    hide ParseChunks;
    assert ([ForStart(newVar, iterable)] + inside)[1..] == inside;
    assert ([ForEnd] + rest)[1..] == rest;
  }

  function Appended(a: Cases, b: Cases): Cases {
    match a
    case NoCases => b
    case Case(value, body, rest) => Case(value, body, Appended(rest, b))
  }

  lemma {:induction false} SetNewCase(cases: Cases, value: string, body: Ast, more: Cases)
    requires value !in CaseValues(cases)
    ensures Appended(SetCase(cases, value, body), more) == Appended(cases, Case(value, body, more))
    ensures CaseValues(SetCase(cases, value, body)) == CaseValues(cases) + {value}
  {
    if cases.Case? {
      SetNewCase(cases.rest, value, body, more);
    }
  }

  lemma {:induction false} AppendNoCases(cases: Cases)
    ensures Appended(cases, NoCases) == cases
  {
    if cases.Case? {
      AppendNoCases(cases.rest);
    }
  }

  lemma {:induction false} CasesParsed(cases: Cases, before: Cases, isFirst: bool, rest: seq<Lexeme>)
    requires CanonicalCases(cases) && CaseValues(before) !! CaseValues(cases)
    requires Terminated(rest)
    ensures var tokens := TokensOfCases(cases) + ([SwitchEnd] + rest);
            && Terminated(tokens)
            && ParseCases(tokens, before, isFirst) == Success(Parsed(Appended(before, cases), rest))
    decreases cases, 0
  {
    hide CanonicalAst, CanonicalCases, TokensOf, ParseChunks, ParseCases, SpellAll, SetCase, Appended, CaseValues;
    match cases {
      case NoCases =>
        EndParsed(before, isFirst, rest);
      case Case(value, body, more) =>
        var others := TokensOfCases(more) + ([SwitchEnd] + rest);
        OtherValues(value, body, more, before);
        SetNewCase(before, value, body, more);
        CasesParsed(more, SetCase(before, value, body), false, rest);
        CasesStart(more, rest);
        AstParsed(body, "{%", others);
        CaseParsed(value, body, TokensOf(body) + others, others, before, isFirst);
        CaseTokens(value, body, more, [SwitchEnd] + rest);
    }
  }

  lemma EndParsed(before: Cases, isFirst: bool, rest: seq<Lexeme>)
    requires Terminated(rest)
    ensures var tokens := TokensOfCases(NoCases) + ([SwitchEnd] + rest);
            && Terminated(tokens)
            && ParseCases(tokens, before, isFirst) == Success(Parsed(Appended(before, NoCases), rest))
  {
    hide Appended;
    var end := [SwitchEnd] + rest;
    assert TokensOfCases(NoCases) + end == end && end[1..] == rest;
    AppendNoCases(before);
  }

  lemma CaseTokens(value: string, body: Ast, more: Cases, end: seq<Lexeme>)
    ensures TokensOfCases(Case(value, body, more)) + end
         == [CaseStart(value)] + (TokensOf(body) + (TokensOfCases(more) + end))
  {
    hide TokensOf;
  }

  lemma OtherValues(value: string, body: Ast, more: Cases, before: Cases)
    requires CanonicalCases(Case(value, body, more)) && CaseValues(before) !! CaseValues(Case(value, body, more))
    ensures value !in CaseValues(before) && CaseValues(before) + {value} !! CaseValues(more)
    ensures CanonicalCases(more) && CanonicalAst(body, "{%")
  {
  }

  lemma CasesStart(cases: Cases, rest: seq<Lexeme>)
    ensures var tokens := TokensOfCases(cases) + ([SwitchEnd] + rest);
            !StartsChunk(tokens[0]) && SameStart("{%", SpellAll(tokens))
  {
  }

  // ---------------------------------------------------------------- printed tokens are canonical

  lemma {:induction false} AstIsCanonical(ast: Ast, rest: seq<Lexeme>)
    requires CanonicalAst(ast, SpellAll(rest)) && CanonicalAll(rest)
    ensures CanonicalAll(TokensOf(ast) + rest)
    decreases ast, 1
  {
    hide Canonical, Spell;
    match ast {
      case Nil => assert TokensOf(ast) + rest == rest;
      case Cons(head, tail) =>
        AstIsCanonical(tail, rest);
        SpellAllAppend(TokensOf(tail), rest);
        ChunkIsCanonical(head, TokensOf(tail) + rest);
        assert TokensOf(ast) + rest == TokensOfChunk(head) + (TokensOf(tail) + rest);
    }
  }

  lemma OneMore(token: Lexeme, rest: seq<Lexeme>)
    requires Canonical(token, SpellAll(rest)) && CanonicalAll(rest)
    ensures CanonicalAll([token] + rest)
  {
    assert ([token] + rest)[1..] == rest;
  }

  lemma {:induction false} ChunkIsCanonical(chunk: Chunk, rest: seq<Lexeme>)
    requires CanonicalChunk(chunk, SpellAll(rest)) && CanonicalAll(rest)
    ensures CanonicalAll(TokensOfChunk(chunk) + rest)
    decreases chunk, 0
  {
    hide CanonicalAst, CanonicalCases, CanonicalAll, TokensOf, TokensOfCases, IsIdentifier;
    match chunk {
      case Text(text) => OneMore(Blob(text), rest);
      case Replacement(id, filter) => OneMore(Substitution(id, filter), rest);
      case Switch(id, cases) =>
        CasesAreCanonical(cases, rest);
        var inner := TokensOfCases(cases) + ([SwitchEnd] + rest);
        OneMore(SwitchStart(id), inner);
        assert TokensOfChunk(chunk) + rest == [SwitchStart(id)] + inner;
      case For(newVar, iterable, body) =>
        var end := [ForEnd] + rest;
        OneMore(ForEnd, rest);
        CanonicalElsewhere(body, "{%", SpellAll(end));
        AstIsCanonical(body, end);
        OneMore(ForStart(newVar, iterable), TokensOf(body) + end);
        assert TokensOfChunk(chunk) + rest == [ForStart(newVar, iterable)] + (TokensOf(body) + end);
    }
  }

  lemma {:induction false} CasesAreCanonical(cases: Cases, rest: seq<Lexeme>)
    requires CanonicalCases(cases) && CanonicalAll(rest)
    ensures CanonicalAll(TokensOfCases(cases) + ([SwitchEnd] + rest))
    decreases cases, 0
  {
    hide CanonicalAst, SpellAll, TokensOf;
    var end := [SwitchEnd] + rest;
    match cases {
      case NoCases =>
        OneMore(SwitchEnd, rest);
        assert TokensOfCases(cases) + end == end;
      case Case(value, body, more) =>
        var others := TokensOfCases(more) + end;
        CasesAreCanonical(more, rest);
        CasesStart(more, rest);
        CanonicalElsewhere(body, "{%", SpellAll(others));
        AstIsCanonical(body, others);
        OneMore(CaseStart(value), TokensOf(body) + others);
        assert TokensOfCases(cases) + end == [CaseStart(value)] + (TokensOf(body) + others);
    }
  }

  // ---------------------------------------------------------------- what was parsed is canonical

  lemma {:induction false} ParsedChunksAreCanonical(tokens: seq<Lexeme>)
    requires CanonicalAll(tokens) && Terminated(tokens) && ParseChunks(tokens).Success?
    ensures var Parsed(ast, rest) := ParseChunks(tokens).value;
            && CanonicalAll(rest) && !StartsChunk(rest[0])
            && CanonicalAst(ast, SpellAll(rest))
            && SameStart(SpellAll(tokens), SpellAll(TokensOf(ast)) + SpellAll(rest))
    decreases |tokens|, 2
  {
    hide Canonical, Spell;
    var Parsed(ast, rest) := ParseChunks(tokens).value;
    if StartsChunk(tokens[0]) {
      ParsedChunkIsCanonical(tokens);
      var chunk := ParseChunk(tokens).value;
      ParsedChunksAreCanonical(chunk.rest);
      var tail := ParseChunks(chunk.rest).value.value;
      ConsIsCanonical(chunk.value, tail, SpellAll(chunk.rest), SpellAll(rest));
    } else {
      assert "" + SpellAll(rest) == SpellAll(rest);
    }
  }

  /** A chunk, in front of a tail whose text starts as `here` does. */
  lemma ConsIsCanonical(chunk: Chunk, tail: Ast, here: string, next: string)
    requires CanonicalChunk(chunk, here) && CanonicalAst(tail, next)
    requires SameStart(here, SpellAll(TokensOf(tail)) + next)
    ensures CanonicalAst(Cons(chunk, tail), next)
    ensures SameStart(SpellAll(TokensOfChunk(chunk)) + here, SpellAll(TokensOf(Cons(chunk, tail))) + next)
  {
    hide Spell, SpellAll, TokensOfChunk;
    var after := SpellAll(TokensOf(tail)) + next;
    ChunkElsewhere(chunk, here, after);
    SpellAllAppend(TokensOfChunk(chunk), TokensOf(tail));
    ChunkStart(chunk, after, here);
    assert SpellAll(TokensOf(Cons(chunk, tail))) + next == SpellAll(TokensOfChunk(chunk)) + after;
  }

  lemma ChunkElsewhere(chunk: Chunk, a: string, b: string)
    requires CanonicalChunk(chunk, a) && SameStart(a, b)
    ensures CanonicalChunk(chunk, b)
  {
  }

  /** A chunk's first character does not depend on what follows it. */
  lemma ChunkStart(chunk: Chunk, a: string, b: string)
    requires CanonicalChunk(chunk, b)
    ensures SpellAll(TokensOfChunk(chunk)) != ""
    ensures SameStart(SpellAll(TokensOfChunk(chunk)) + a, SpellAll(TokensOfChunk(chunk)) + b)
  {
  }

  lemma {:induction false} ParsedChunkIsCanonical(tokens: seq<Lexeme>)
    requires CanonicalAll(tokens) && Terminated(tokens) && StartsChunk(tokens[0]) && ParseChunk(tokens).Success?
    ensures var Parsed(chunk, rest) := ParseChunk(tokens).value;
            && CanonicalAll(rest)
            && CanonicalChunk(chunk, SpellAll(rest))
            && SameStart(SpellAll(tokens), SpellAll(TokensOfChunk(chunk)) + SpellAll(rest))
    decreases |tokens|, 1
  {
    hide Spell, IsIdentifier;
    var Parsed(chunk, rest) := ParseChunk(tokens).value;
    match tokens[0] {
      case Blob(_) =>
        SpellAllAppend(TokensOfChunk(chunk), rest);
      case Substitution(_, _) =>
        SpellAllAppend(TokensOfChunk(chunk), rest);
      case SwitchStart(id) =>
        ParsedCasesAreCanonical(tokens[1..], NoCases, true);
        DirectiveStart(tokens, chunk, rest);
      case ForStart(newVar, iterable) =>
        ParsedChunksAreCanonical(tokens[1..]);
        var body := ParseChunks(tokens[1..]).value;
        DirectiveIsNext(body.rest);
        CanonicalElsewhere(body.value, SpellAll(body.rest), "{%");
        DirectiveStart(tokens, chunk, rest);
    }
  }

  predicate IsDirective(token: Lexeme) {
    token.SwitchStart? || token.CaseStart? || token.SwitchEnd? || token.ForStart? || token.ForEnd?
  }

  lemma DirectiveIsNext(tokens: seq<Lexeme>)
    requires tokens != [] && IsDirective(tokens[0])
    ensures SameStart(SpellAll(tokens), "{%")
  {
  }

  lemma DirectiveStart(tokens: seq<Lexeme>, chunk: Chunk, rest: seq<Lexeme>)
    requires tokens != [] && IsDirective(tokens[0]) && (chunk.Switch? || chunk.For?)
    ensures SameStart(SpellAll(tokens), SpellAll(TokensOfChunk(chunk)) + SpellAll(rest))
  {
    DirectiveIsNext(tokens);
    DirectiveIsNext(TokensOfChunk(chunk));
  }

  lemma {:induction false} SetKeepsCanonical(cases: Cases, value: string, body: Ast)
    requires CanonicalCases(cases)
    requires '\n' !in value && '\r' !in value && CanonicalAst(body, "{%")
    ensures CanonicalCases(SetCase(cases, value, body))
    ensures CaseValues(SetCase(cases, value, body)) == CaseValues(cases) + {value}
  {
    if cases.Case? && cases.value != value {
      SetKeepsCanonical(cases.rest, value, body);
    }
  }

  lemma {:induction false} ParsedCasesAreCanonical(tokens: seq<Lexeme>, cases: Cases, isFirst: bool)
    requires CanonicalAll(tokens) && Terminated(tokens) && CanonicalCases(cases)
    requires ParseCases(tokens, cases, isFirst).Success?
    ensures var Parsed(all, rest) := ParseCases(tokens, cases, isFirst).value;
            CanonicalAll(rest) && CanonicalCases(all)
    ensures !isFirst ==> IsDirective(tokens[0])
    decreases |tokens|, 0
  {
    hide Spell, IsIdentifier;
    match tokens[0] {
      case CaseStart(value) =>
        ParsedChunksAreCanonical(tokens[1..]);
        var body := ParseChunks(tokens[1..]).value;
        SetKept(cases, value, body);
        ParsedCasesAreCanonical(body.rest, SetCase(cases, value, body.value), false);
      case SwitchEnd =>
      case Blob(text) =>
        ParsedCasesAreCanonical(tokens[1..], cases, false);
    }
  }

  /** A body that ends where the switch goes on. */
  lemma SetKept(cases: Cases, value: string, body: Parsed<Ast>)
    requires CanonicalCases(cases) && '\n' !in value && '\r' !in value
    requires body.rest != [] && IsDirective(body.rest[0]) && CanonicalAst(body.value, SpellAll(body.rest))
    ensures CanonicalCases(SetCase(cases, value, body.value))
  {
    DirectiveIsNext(body.rest);
    CanonicalElsewhere(body.value, SpellAll(body.rest), "{%");
    SetKeepsCanonical(cases, value, body.value);
  }

  // ---------------------------------------------------------------- the round trip

  /** Whatever a text parses to is canonical. */
  lemma ParsedIsCanonical(text: string)
    requires ParseStr(text).Success?
    ensures CanonicalAst(ParseStr(text).value, "")
  {
    TokenizeTerminates(text);
    var tokens := Tokenize(text).value;
    TokenizeIff(text, tokens);
    ParsedChunksAreCanonical(tokens);
    var rest := ParseChunks(tokens).value.rest;
    assert rest == [Eof] + rest[1..];
    assert |rest| == 1;
    SpellEof();
  }

  /** Printing and parsing again gives a tree back exactly when it is canonical, which the trees
      that texts parse to all are. */
  lemma PrintedParsesIff(ast: Ast)
    ensures ParseStr(Print(ast)) == Success(ast) <==> CanonicalAst(ast, "")
  {
    if ParseStr(Print(ast)) == Success(ast) {
      ParsedIsCanonical(Print(ast));
    }
    if CanonicalAst(ast, "") {
      var tokens := TokensOf(ast) + [Eof];
      SpellEof();
      AstIsCanonical(ast, [Eof]);
      TokenizeIff(Print(ast), tokens);
      AstParsed(ast, "", [Eof]);
    }
  }

  /** So printing is a normal form: it parses to the tree of the text it was printed from. */
  lemma ReprintParsesAlike(text: string)
    requires ParseStr(text).Success?
    ensures ParseStr(Print(ParseStr(text).value)) == ParseStr(text)
  {
    ParsedIsCanonical(text);
    PrintedParsesIff(ParseStr(text).value);
  }

  // ---------------------------------------------------------------- white space before the first case

  /** Text before the first case of a switch is dropped if it is white space, and else an error. */
  lemma BlankBeforeCases(id: string, blank: string, cases: Cases, rest: seq<Lexeme>)
    requires CanonicalCases(cases) && blank != "" && Terminated(rest)
    ensures var tokens := [SwitchStart(id), Blob(blank)] + (TokensOfCases(cases) + ([SwitchEnd] + rest));
            && Terminated(tokens)
            && ParseChunk(tokens)
            == if AllWhite(blank) then Success(Parsed(Switch(id, cases), rest)) else Failure(ValueError)
  {
    hide AllWhite, IsBlank, CanonicalCases;
    var inside := TokensOfCases(cases) + ([SwitchEnd] + rest);
    var tokens := [SwitchStart(id), Blob(blank)] + inside;
    CasesParsed(cases, NoCases, false, rest);
    NothingAppended(cases);
    BlankIffWhite(blank);
    assert tokens[1..] == [Blob(blank)] + inside && tokens[1..][1..] == inside;
    hide TokensOfCases, Appended;
  }

  /** The same in a whole text: a template that starts with a switch. */
  lemma BlankTextBeforeCases(id: string, blank: string, cases: Cases, after: Ast)
    requires CanonicalAst(Cons(Switch(id, cases), after), "") && blank != "" && '{' !in blank
    ensures var inside := TokensOfCases(cases) + ([SwitchEnd] + (TokensOf(after) + [Eof]));
            ParseStr(SpellAll([SwitchStart(id), Blob(blank)] + inside))
            == if AllWhite(blank) then Success(Cons(Switch(id, cases), after)) else Failure(ValueError)
  {
    hide AllWhite, ParseChunk, ParseChunks, ParseCases, Tokenize, Spell;
    var rest := TokensOf(after) + [Eof];
    var inside := TokensOfCases(cases) + ([SwitchEnd] + rest);
    var tokens := [SwitchStart(id), Blob(blank)] + inside;
    SpellEof();
    AstIsCanonical(after, [Eof]);
    CasesAreCanonical(cases, rest);
    CasesStart(cases, rest);
    OneMore(Blob(blank), inside);
    OneMore(SwitchStart(id), [Blob(blank)] + inside);
    assert tokens == [SwitchStart(id)] + ([Blob(blank)] + inside);
    TokenizeIff(SpellAll(tokens), tokens);
    AstParsed(after, "", [Eof]);
    BlankBeforeCases(id, blank, cases, rest);
    FirstChunk(tokens);
  }

  lemma FirstChunk(tokens: seq<Lexeme>)
    requires Terminated(tokens) && StartsChunk(tokens[0])
    ensures ParseChunk(tokens).Failure? ==> ParseChunks(tokens) == Failure(ParseChunk(tokens).error)
    ensures ParseChunk(tokens).Success? && ParseChunks(ParseChunk(tokens).value.rest).Success? ==>
              var Parsed(chunk, rest) := ParseChunk(tokens).value;
              var Parsed(more, end) := ParseChunks(rest).value;
              ParseChunks(tokens) == Success(Parsed(Cons(chunk, more), end))
  {
    hide ParseChunk;
  }

  // ---------------------------------------------------------------- a substitution, from text to text

  /** A text that is one substitution renders to its argument, filtered if it names a filter. */
  lemma SubstitutionRenders(id: string, filter: Option<string>, env: Env, host: Host)
    requires IsIdentifier(id) && (filter.Some? ==> IsIdentifier(filter.value))
    ensures var bar := match filter case None => "" case Some(name) => " | " + name;
            var parsed := ParseStr("{{ " + id + bar + " }}");
            && parsed.Success?
            && Rendered(parsed.value, env, host)
            == if id !in env then Failure(UnsetParameter(id))
               else if filter.Some? && filter.value !in host.filters then Failure(UnsetParameter(filter.value))
               else if filter.Some? then Success(host.filters[filter.value](env[id]))
               else Success(if env[id].Str? then env[id].text else host.listText(env[id].items))
  {
    var ast := Cons(Replacement(id, filter), Nil);
    PrintedParsesIff(ast);
    SubstitutionPrinted(id, filter);
    var chunk := RenderedChunk(ast.head, env, host);
    if chunk.Success? {
      assert chunk.value + "" == chunk.value;
    }
  }

  lemma SubstitutionPrinted(id: string, filter: Option<string>)
    ensures Print(Cons(Replacement(id, filter), Nil))
         == "{{ " + id + (match filter case None => "" case Some(name) => " | " + name) + " }}"
  {
    var tokens := [Substitution(id, filter), Eof];
    assert TokensOf(Cons(Replacement(id, filter), Nil)) + [Eof] == tokens && tokens[1..] == [Eof];
    SpellEof();
    assert SpellAll(tokens) == Spell(tokens[0], "");
    assert "}}" + "" == "}}";
    match filter {
      case None =>
        assert "{{" + (" " + (id + (" " + "}}"))) == "{{ " + id + "" + " }}";
      case Some(name) =>
        assert "{{" + (" " + (id + (" " + ("|" + (" " + (name + (" " + "}}")))))))
            == "{{ " + id + (" | " + name) + " }}";
    }
  }

  // ---------------------------------------------------------------- escaping literal text

  predicate BracePair(text: string) {
    |text| >= 2 && text[0] == '{' && text[1] == '{'
  }

  /** Doubling every pair of braces, from the left. */
  function EscapeBraces(text: string): string {
    if text == "" then ""
    else if BracePair(text) then "{{{{" + EscapeBraces(text[2..])
    else [text[0]] + EscapeBraces(text[1..])
  }

  predicate BracePercent(text: string) {
    |text| >= 2 && text[0] == '{' && text[1] == '%'
  }

  /** Some odd run of braces stands right before a percent sign. */
  predicate OpensDirective(text: string) {
    && text != ""
    && if BracePair(text) then OpensDirective(text[2..]) else BracePercent(text) || OpensDirective(text[1..])
  }

  /** After the blobs, nothing. */
  predicate AllBlobs(tokens: seq<Lexeme>) {
    if |tokens| <= 1 then tokens == [Eof] else tokens[0].Blob? && AllBlobs(tokens[1..])
  }

  /** After some blobs comes a directive. */
  predicate BlobsThenDirective(tokens: seq<Lexeme>) {
    tokens != [] && if tokens[0].Blob? then BlobsThenDirective(tokens[1..]) else IsDirective(tokens[0])
  }

  function BlobText(tokens: seq<Lexeme>): string {
    if tokens == [] || !tokens[0].Blob? then "" else tokens[0].text + BlobText(tokens[1..])
  }

  lemma {:induction false} PlainRun(text: string)
    ensures var n := BlobLength(text);
            && EscapeBraces(text) == text[..n] + EscapeBraces(text[n..])
            && OpensDirective(text) == OpensDirective(text[n..])
    decreases |text|
  {
    var n := BlobLength(text);
    if text == "" || text[0] == '{' {
      assert text[..n] == "" && text[n..] == text;
      assert "" + EscapeBraces(text) == EscapeBraces(text);
    } else {
      PlainRun(text[1..]);
      var tail := text[1..];
      assert text[..n] == [text[0]] + tail[..n - 1] && text[n..] == tail[n - 1..];
      assert [text[0]] + (tail[..n - 1] + EscapeBraces(text[n..])) == text[..n] + EscapeBraces(text[n..]);
    }
  }

  lemma EscapeStart(text: string)
    requires text != ""
    ensures EscapeBraces(text) != "" && EscapeBraces(text)[0] == text[0]
  {
  }

  lemma PlainRead(text: string)
    requires text != "" && text[0] != '{'
    ensures var n := BlobLength(text);
            && n > 0 && EscapeBraces(text) != ""
            && LexOne(EscapeBraces(text)) == Success(Read(Blob(text[..n]), EscapeBraces(text[n..])))
            && OpensDirective(text) == OpensDirective(text[n..])
  {
    var n := BlobLength(text);
    var rest := EscapeBraces(text[n..]);
    PlainRun(text);
    if text[n..] != "" { EscapeStart(text[n..]); }
    BlobIsRead(text[..n], rest);
  }

  lemma PairRead(text: string)
    requires BracePair(text)
    ensures EscapeBraces(text) != ""
    ensures LexOne(EscapeBraces(text)) == Success(Read(Blob("{{"), EscapeBraces(text[2..])))
  {
    BlobIsRead("{{", EscapeBraces(text[2..]));
  }

  /** What the lexer makes of a text's escaped form. */
  predicate ReadsBack(text: string, r: Result<seq<Lexeme>, LexError>) {
    if OpensDirective(text) then r.Success? ==> BlobsThenDirective(r.value)
    else r.Success? && AllBlobs(r.value) && BlobText(r.value) == text
  }

  lemma {:induction false} EscapedTokens(text: string)
    ensures ReadsBack(text, Tokenize(EscapeBraces(text)))
    decreases |text|
  {
    hide LexOne, ReadsBack;
    if text == "" {
      EmptyReadsBack();
    } else if text[0] != '{' {
      PlainRead(text);
      var n := BlobLength(text);
      EscapedTokens(text[n..]);
      BlobFirst(text[..n], text[n..], text, Tokenize(EscapeBraces(text[n..])));
    } else if BracePair(text) {
      PairRead(text);
      EscapedTokens(text[2..]);
      BlobFirst("{{", text[2..], text, Tokenize(EscapeBraces(text[2..])));
    } else {
      LoneBrace(text);
      if BracePercent(text) {
        DirectiveReadsBack(text);
      } else {
        EscapedTokens(text[1..]);
        BlobFirst("{", text[1..], text, Tokenize(EscapeBraces(text[1..])));
      }
    }
  }

  lemma EmptyReadsBack()
    ensures ReadsBack("", Success([Eof]))
  {
  }

  lemma BlobFirst(piece: string, rest: string, text: string, others: Result<seq<Lexeme>, LexError>)
    requires ReadsBack(rest, others) && (others.Success? ==> others.value != [])
    requires text == piece + rest && OpensDirective(text) == OpensDirective(rest)
    ensures ReadsBack(text, match others case Failure(e) => Failure(e)
                                         case Success(more) => Success([Blob(piece)] + more))
  {
    hide OpensDirective;
    if others.Success? {
      assert ([Blob(piece)] + others.value)[1..] == others.value;
    }
  }

  lemma LoneBrace(text: string)
    requires text != "" && text[0] == '{' && !BracePair(text)
    ensures var escaped := EscapeBraces(text);
            && escaped != ""
            && if BracePercent(text)
               then LexOne(escaped).Success? ==> IsDirective(LexOne(escaped).value.value)
               else LexOne(escaped) == Success(Read(Blob("{"), EscapeBraces(text[1..])))
  {
    hide LexOne;
    var rest := EscapeBraces(text[1..]);
    if |text| > 1 { EscapeStart(text[1..]); }
    assert EscapeBraces(text) == "{" + rest;
    if BracePercent(text) {
      DirectiveRead(rest);
    } else {
      LoneBlob(rest);
    }
  }

  lemma DirectiveRead(rest: string)
    requires rest != "" && rest[0] == '%'
    ensures LexOne("{" + rest).Success? ==> IsDirective(LexOne("{" + rest).value.value)
  {
    hide LexControl, LexSubstitution;
    var text := "{" + rest;
    assert text[0] == '{' && text[1] == '%';
    NoPrefix("{{{", text, 1);
    NoPrefix("{{{{", text, 1);
    assert "{%" <= text;
    ControlIsDirective(text[2..]);
  }

  lemma ControlIsDirective(text: string)
    ensures LexControl(text).Success? ==> IsDirective(LexControl(text).value.value)
  {
    hide ReadSpace, ReadIdentifier, ReadString, ReadEnd;
  }

  lemma LoneBlob(rest: string)
    requires rest == "" || (rest[0] != '{' && rest[0] != '%')
    ensures "{" + rest != "" && LexOne("{" + rest) == Success(Read(Blob("{"), rest))
  {
    hide LexOne;
    BlobIsRead("{", rest);
  }

  lemma DirectiveReadsBack(text: string)
    requires BracePercent(text)
    ensures ReadsBack(text, Tokenize(EscapeBraces(text)))
  {
    LoneBrace(text);
  }

  lemma {:induction false} BlobsRender(tokens: seq<Lexeme>, env: Env, host: Host)
    requires AllBlobs(tokens) && Terminated(tokens)
    ensures ParseChunks(tokens).Success?
    ensures var Parsed(ast, rest) := ParseChunks(tokens).value;
            rest[0] == Eof && Rendered(ast, env, host) == Success(BlobText(tokens))
    decreases |tokens|
  {
    if |tokens| > 1 {
      BlobsRender(tokens[1..], env, host);
    }
  }

  lemma {:induction false} DirectiveNeedsArguments(tokens: seq<Lexeme>, host: Host)
    requires BlobsThenDirective(tokens) && Terminated(tokens) && ParseChunks(tokens).Success?
    ensures var Parsed(ast, rest) := ParseChunks(tokens).value;
            rest[0] == Eof ==> Rendered(ast, map[], host).Failure?
    decreases |tokens|
  {
    if tokens[0].Blob? {
      DirectiveNeedsArguments(tokens[1..], host);
    }
  }

  /** Escaped text parses and renders to the text, whatever the arguments, unless an odd run of
      braces stands before a percent sign: then it does not, if there are no arguments. */
  lemma EscapedRendersIff(text: string, env: Env, host: Host)
    ensures var parsed := ParseStr(EscapeBraces(text));
            && (!OpensDirective(text) ==> parsed.Success? && Rendered(parsed.value, env, host) == Success(text))
            && (OpensDirective(text) ==> parsed.Failure? || Rendered(parsed.value, map[], host).Failure?)
  {
    EscapedTokens(text);
    var escaped := EscapeBraces(text);
    if Tokenize(escaped).Success? {
      TokenizeTerminates(escaped);
      var tokens := Tokenize(escaped).value;
      if !OpensDirective(text) {
        BlobsRender(tokens, env, host);
      } else if ParseChunks(tokens).Success? {
        DirectiveNeedsArguments(tokens, host);
      }
    }
  }
}
