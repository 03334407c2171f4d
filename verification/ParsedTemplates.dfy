/** Late binding of a template as it is written: parsing already keeps delimiters out of its names. */
module ParsedTemplates {
  import opened Wrappers
  import opened Templates
  import opened Settings
  import opened Tokens
  import opened Lexer
  import opened Parser
  import opened Printing
  import opened LateBinding

  predicate NamesOnly(pieces: seq<Piece>) {
    forall name <- Holes(pieces) :: IsIdentifier(name)
  }

  lemma NamesOfTwoParts(a: seq<Piece>, b: seq<Piece>)
    requires NamesOnly(a) && NamesOnly(b)
    ensures NamesOnly(a + b)
  {
    forall name <- Holes(a + b)
      ensures name in Holes(a) || name in Holes(b)
    {
      assert exists piece :: piece in a + b && piece.Hole? && piece.name == name;
    }
  }

  /** Every hole of a parsed template has an identifier for its name. */
  lemma {:induction false} HolesAreNames(ast: Ast, next: string, env: Env, late: set<string>, host: Host)
    requires CanonicalAst(ast, next) && RenderedOpen(ast, env, late, host).Success?
    ensures NamesOnly(RenderedOpen(ast, env, late, host).value)
    decreases ast, 0
  {
    hide IsIdentifier;
    if ast.Cons? {
      HolesOfChunkAreNames(ast.head, SpellAll(TokensOf(ast.tail)) + next, env, late, host);
      HolesAreNames(ast.tail, next, env, late, host);
      NamesOfTwoParts(OpenChunk(ast.head, env, late, host).value, RenderedOpen(ast.tail, env, late, host).value);
    }
  }

  lemma {:induction false} HolesOfChunkAreNames(chunk: Chunk, next: string, env: Env, late: set<string>, host: Host)
    requires CanonicalChunk(chunk, next) && OpenChunk(chunk, env, late, host).Success?
    ensures NamesOnly(OpenChunk(chunk, env, late, host).value)
    decreases chunk, 0
  {
    hide IsIdentifier;
    match chunk {
      case Text(_) =>
      case Replacement(_, _) =>
      case Switch(id, cases) =>
        var body := Templates.Chosen(id, env[id], cases).value;
        ChosenIsCanonical(cases, env[id].text);
        HolesAreNames(body, "{%", env, late, host);
      case For(newVar, iterable, body) =>
        HolesOfLoopAreNames(body, newVar, env[iterable].items, env, late - {newVar}, host);
    }
  }

  lemma {:induction false} HolesOfLoopAreNames(
      body: Ast, newVar: string, items: seq<Value>, env: Env, late: set<string>, host: Host)
    requires CanonicalAst(body, "{%") && OpenLoop(body, newVar, items, env, late, host).Success?
    ensures NamesOnly(OpenLoop(body, newVar, items, env, late, host).value)
    decreases body, |items| + 1
  {
    hide IsIdentifier;
    if items != [] {
      var inner := env[newVar := items[0]];
      HolesAreNames(body, "{%", inner, late, host);
      HolesOfLoopAreNames(body, newVar, items[1..], env, late, host);
      NamesOfTwoParts(
        RenderedOpen(body, inner, late, host).value, OpenLoop(body, newVar, items[1..], env, late, host).value);
    }
  }

  lemma {:induction false} ChosenIsCanonical(cases: Cases, choice: string)
    requires CanonicalCases(cases) && Lookup(cases, choice).Some?
    ensures CanonicalAst(Lookup(cases, choice).value, "{%")
    decreases cases
  {
    if Lookup(cases.rest, choice).Some? {
      ChosenIsCanonical(cases.rest, choice);
    }
  }

  /** No run of output between the holes contains a delimiter. */
  predicate OutputIsClean(pieces: seq<Piece>) {
    forall part | part in Runs(pieces) && part.Literal? :: Clean(PLACEHOLDER_START, PLACEHOLDER_END, part.text)
  }

  lemma {:induction false} TokensAreHoles(pieces: seq<Piece>)
    ensures forall part | part in Runs(pieces) && part.Token? :: part.body in Holes(pieces)
  {
    if pieces != [] {
      TokensAreHoles(pieces[1..]);
      assert pieces == [pieces[0]] + pieces[1..];
      assert Holes(pieces[1..]) <= Holes(pieces);
      if pieces[0].Hole? {
        assert pieces[0].name in Holes(pieces);
      }
    }
  }

  lemma NamedHolesAreClean(pieces: seq<Piece>)
    requires NamesOnly(pieces)
    ensures NoStrayDelimiter(pieces) <==> OutputIsClean(pieces)
  {
    hide Clean, IsIdentifier, Runs;
    TokensAreHoles(pieces);
    forall part | part in Runs(pieces) && part.Token?
      ensures Clean(PLACEHOLDER_START, PLACEHOLDER_END, part.body)
    {
      IdentifierIsClean(part.body);
    }
  }

  /** For a template that was parsed from text, late binding commutes with rendering as soon as the
      output between the placeholders contains no delimiter. */
  lemma ParsedLateBindingCommutes(
      text: string, early: Env, final: Env, late: set<string>, values: map<string, string>, host: Host)
    requires ParseStr(text).Success? && OnlyInserted(ParseStr(text).value, late)
    requires SameOutside(late, early, final)
    requires Binds(early, late, PlaceholdersOf(late)) && Binds(final, late, values)
    requires var open := RenderedOpen(ParseStr(text).value, early, late, host);
             open.Success? ==> OutputIsClean(open.value)
    ensures var ast := ParseStr(text).value;
            match Rendered(ast, early, host)
            case Failure(e) => Rendered(ast, final, host) == Failure(e)
            case Success(content) =>
              && LateRendered(content, values).Success?
              && Rendered(ast, final, host) == Success(LateRendered(content, values).value)
  {
    hide ParseStr, RenderedOpen, OutputIsClean, NoStrayDelimiter;
    var ast := ParseStr(text).value;
    ParsedIsCanonical(text);
    var open := RenderedOpen(ast, early, late, host);
    if open.Success? {
      HolesAreNames(ast, "", early, late, host);
      NamedHolesAreClean(open.value);
    }
    LateBindingCommutes(ast, early, final, late, values, host);
  }
}
