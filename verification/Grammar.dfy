/** Which texts are templates, and which tree each of them is. A switch may have white space before
    its first case, and may name a case twice; the parser accepts exactly this. */
module Grammar {
  import opened Wrappers
  import opened Templates
  import opened Lexer
  import opened Tokenizing
  import opened Parser

  /** A template as it is written. */
  datatype Doc = Empty | More(head: Part, tail: Doc)

  datatype Part =
    | Plain(text: string)
    | Hole(id: string, filter: Option<string>)
    | Choice(id: string, blank: string, arms: Arms)
    | Loop(newVar: string, iterable: string, body: Doc)

  datatype Arms = NoArms | Arm(value: string, body: Doc, rest: Arms)

  function Written(doc: Doc): seq<Lexeme> {
    match doc
    case Empty => []
    case More(head, tail) => WrittenPart(head) + Written(tail)
  }

  function WrittenPart(part: Part): seq<Lexeme> {
    match part
    case Plain(text) => [Blob(text)]
    case Hole(id, filter) => [Substitution(id, filter)]
    case Choice(id, blank, arms) => [SwitchStart(id)] + WrittenBlank(blank) + WrittenArms(arms) + [SwitchEnd]
    case Loop(newVar, iterable, body) => [ForStart(newVar, iterable)] + Written(body) + [ForEnd]
  }

  function WrittenBlank(blank: string): seq<Lexeme> {
    if blank == "" then [] else [Blob(blank)]
  }

  function WrittenArms(arms: Arms): seq<Lexeme> {
    match arms
    case NoArms => []
    case Arm(value, body, rest) => [CaseStart(value)] + Written(body) + WrittenArms(rest)
  }

  /** The code points that count as white space in Python. */
  predicate IsWhite(code: int) {
    || 9 <= code <= 13 || 28 <= code <= 32 || code in {133, 160, 5760, 8232, 8233, 8239, 8287, 12288}
    || 8192 <= code <= 8202
  }

  predicate AllWhite(text: string) {
    forall i | 0 <= i < |text| :: IsWhite(text[i] as int)
  }

  /** Nothing but white space before any first case. */
  predicate Tidy(doc: Doc) {
    doc.More? ==> TidyPart(doc.head) && Tidy(doc.tail)
  }

  predicate TidyPart(part: Part) {
    match part
    case Plain(_) => true
    case Hole(_, _) => true
    case Choice(_, blank, arms) => AllWhite(blank) && TidyArms(arms)
    case Loop(_, _, body) => Tidy(body)
  }

  predicate TidyArms(arms: Arms) {
    arms.Arm? ==> Tidy(arms.body) && TidyArms(arms.rest)
  }

  // ---------------------------------------------------------------- the tree that is meant

  function Meaning(doc: Doc): Ast {
    match doc
    case Empty => Nil
    case More(head, tail) => Cons(MeaningOfPart(head), Meaning(tail))
  }

  function MeaningOfPart(part: Part): Chunk {
    match part
    case Plain(text) => Text(text)
    case Hole(id, filter) => Replacement(id, filter)
    case Choice(id, _, arms) => Switch(id, Collected(arms, NoCases))
    case Loop(newVar, iterable, body) => For(newVar, iterable, Meaning(body))
  }

  /** The dictionary of the cases, filled from the first arm to the last. */
  function Collected(arms: Arms, cases: Cases): Cases {
    match arms
    case NoArms => cases
    case Arm(value, body, rest) => Collected(rest, SetCase(cases, value, Meaning(body)))
  }

  /** The last arm with this value. */
  function LastArm(arms: Arms, value: string): Option<Doc> {
    match arms
    case NoArms => None
    case Arm(v, body, rest) =>
      match LastArm(rest, value)
      case Some(later) => Some(later)
      case None => if v == value then Some(body) else None
  }

  lemma {:induction false} SetCaseLooksUp(cases: Cases, value: string, body: Ast, choice: string)
    requires Once(cases)
    ensures Once(SetCase(cases, value, body))
    ensures forall v :: v in Values(SetCase(cases, value, body)) <==> v in Values(cases) || v == value
    ensures Lookup(SetCase(cases, value, body), choice)
         == if choice == value then Some(body) else Lookup(cases, choice)
  {
    if cases.Case? {
      SetCaseLooksUp(cases.rest, value, body, choice);
      NotListed(cases.rest, cases.value);
      if cases.value != value {
        NotListed(SetCase(cases.rest, value, body), cases.value);
      }
    }
  }

  function Values(cases: Cases): seq<string> {
    match cases
    case NoCases => []
    case Case(value, _, rest) => [value] + Values(rest)
  }

  /** No value is listed twice. */
  predicate Once(cases: Cases) {
    cases.Case? ==> cases.value !in Values(cases.rest) && Once(cases.rest)
  }

  lemma {:induction false} NotListed(cases: Cases, value: string)
    requires value !in Values(cases)
    ensures Lookup(cases, value) == None
  {
    if cases.Case? {
      NotListed(cases.rest, value);
    }
  }

  /** A switch takes the last of the arms written for a value. */
  lemma {:induction false} LastArmWins(arms: Arms, cases: Cases, choice: string)
    requires Once(cases)
    ensures Once(Collected(arms, cases))
    ensures Lookup(Collected(arms, cases), choice)
         == match LastArm(arms, choice) case Some(body) => Some(Meaning(body)) case None => Lookup(cases, choice)
  {
    match arms {
      case NoArms =>
      case Arm(value, body, rest) =>
        SetCaseLooksUp(cases, value, Meaning(body), choice);
        LastArmWins(rest, SetCase(cases, value, Meaning(body)), choice);
    }
  }

  /** A switch renders the last of the arms written for the argument's text. */
  lemma SwitchRenders(id: string, blank: string, arms: Arms, env: Env, host: Host)
    ensures RenderedChunk(MeaningOfPart(Choice(id, blank, arms)), env, host)
         == if id !in env then Failure(UnsetParameter(id))
            else if env[id].List? then Failure(Unhashable(id))
            else
              match LastArm(arms, env[id].text)
              case Some(body) => Rendered(Meaning(body), env, host)
              case None => Failure(UnhandledCase(id, env[id].text))
  {
    if id in env && env[id].Str? {
      LastArmWins(arms, NoCases, env[id].text);
    }
  }

  // ---------------------------------------------------------------- what is written parses

  lemma BlankIffWhite(text: string)
    ensures IsBlank(text) <==> text != "" && AllWhite(text)
  {
    forall i | 0 <= i < |text|
      ensures IsSpace(text[i]) <==> IsWhite(text[i] as int)
    {
      SpaceIffWhite(text[i]);
    }
  }

  lemma SpaceIffWhite(c: char)
    ensures IsSpace(c) <==> IsWhite(c as int)
  {
  }

  /** Two pieces of text before the first case: the second is an assertion failure, not a ValueError. */
  lemma TwoBlanks(id: string, first: string, second: string, rest: seq<Lexeme>)
    requires Terminated(rest)
    ensures var tokens := [SwitchStart(id), Blob(first), Blob(second)] + rest;
            && Terminated(tokens)
            && ParseChunk(tokens) == Failure(if first != "" && AllWhite(first) then AssertionError else ValueError)
  {
    hide IsBlank, AllWhite;
    BlankIffWhite(first);
    var tokens := [SwitchStart(id), Blob(first), Blob(second)] + rest;
    assert ParseCases([Blob(second)] + rest, NoCases, false) == Failure(AssertionError);
    assert tokens[1..] == [Blob(first), Blob(second)] + rest && tokens[1..][1..] == [Blob(second)] + rest;
  }

  lemma {:induction false} WrittenParses(doc: Doc, rest: seq<Lexeme>)
    requires Tidy(doc) && Terminated(rest) && !StartsChunk(rest[0])
    ensures Terminated(Written(doc) + rest)
    ensures ParseChunks(Written(doc) + rest) == Success(Parsed(Meaning(doc), rest))
    decreases doc, 1
  {
    hide ParseChunk, WrittenPart, TidyPart, MeaningOfPart;
    match doc {
      case Empty => assert Written(doc) + rest == rest;
      case More(head, tail) =>
        WrittenParses(tail, rest);
        PartParses(head, Written(tail) + rest);
        assert Written(doc) + rest == WrittenPart(head) + (Written(tail) + rest);
    }
  }

  lemma {:induction false} PartParses(part: Part, rest: seq<Lexeme>)
    requires TidyPart(part) && Terminated(rest)
    ensures var tokens := WrittenPart(part) + rest;
            && Terminated(tokens) && StartsChunk(tokens[0])
            && ParseChunk(tokens) == Success(Parsed(MeaningOfPart(part), rest))
    decreases part, 0
  {
    hide ParseChunks, ParseCases, Written, WrittenArms, Tidy, TidyArms, IsBlank;
    var tokens := WrittenPart(part) + rest;
    match part {
      case Plain(_) => assert tokens[1..] == rest;
      case Hole(_, _) => assert tokens[1..] == rest;
      case Choice(id, blank, arms) =>
        var inside := WrittenArms(arms) + ([SwitchEnd] + rest);
        ArmsParse(arms, NoCases, blank == "", rest);
        BlankParses(blank, inside);
        assert tokens[1..] == WrittenBlank(blank) + inside;
      case Loop(newVar, iterable, body) =>
        var end := [ForEnd] + rest;
        WrittenParses(body, end);
        assert tokens[1..] == Written(body) + end && end[1..] == rest;
    }
  }

  lemma BlankParses(blank: string, inside: seq<Lexeme>)
    requires AllWhite(blank) && Terminated(inside)
    ensures Terminated(WrittenBlank(blank) + inside)
    ensures ParseCases(WrittenBlank(blank) + inside, NoCases, true) == ParseCases(inside, NoCases, blank == "")
  {
    BlankIffWhite(blank);
    if blank == "" {
      assert WrittenBlank(blank) + inside == inside;
    } else {
      assert ([Blob(blank)] + inside)[1..] == inside;
    }
  }

  lemma EndParses(cases: Cases, isFirst: bool, rest: seq<Lexeme>)
    requires Terminated(rest)
    ensures ParseCases([SwitchEnd] + rest, cases, isFirst) == Success(Parsed(cases, rest))
  {
    assert ([SwitchEnd] + rest)[1..] == rest;
  }

  lemma {:induction false} ArmsParse(arms: Arms, cases: Cases, isFirst: bool, rest: seq<Lexeme>)
    requires TidyArms(arms) && Terminated(rest)
    ensures var tokens := WrittenArms(arms) + ([SwitchEnd] + rest);
            && Terminated(tokens) && !StartsChunk(tokens[0])
            && ParseCases(tokens, cases, isFirst) == Success(Parsed(Collected(arms, cases), rest))
    decreases arms, 0
  {
    hide ParseChunks, ParseCases, Written, Tidy, SetCase;
    var end := [SwitchEnd] + rest;
    var tokens := WrittenArms(arms) + end;
    match arms {
      case NoArms =>
        assert tokens == end;
        EndParses(cases, isFirst, rest);
      case Arm(value, body, more) =>
        var others := WrittenArms(more) + end;
        ArmsParse(more, SetCase(cases, value, Meaning(body)), false, rest);
        WrittenParses(body, others);
        assert tokens == [CaseStart(value)] + (Written(body) + others);
        CaseParsed(value, Meaning(body), Written(body) + others, others, cases, isFirst);
    }
  }

  // ---------------------------------------------------------------- what parses was written

  lemma {:induction false} ParsedIsWritten(tokens: seq<Lexeme>) returns (doc: Doc)
    requires Terminated(tokens) && ParseChunks(tokens).Success?
    ensures var Parsed(ast, rest) := ParseChunks(tokens).value;
            Tidy(doc) && tokens == Written(doc) + rest && Meaning(doc) == ast
    decreases |tokens|, 2
  {
    hide ParseChunk;
    if StartsChunk(tokens[0]) {
      var head := ChunkIsWritten(tokens);
      var chunk := ParseChunk(tokens).value;
      var tail := ParsedIsWritten(chunk.rest);
      doc := More(head, tail);
      var rest := ParseChunks(tokens).value.rest;
      assert WrittenPart(head) + (Written(tail) + rest) == Written(doc) + rest;
    } else {
      doc := Empty;
    }
  }

  lemma {:induction false} ChunkIsWritten(tokens: seq<Lexeme>) returns (part: Part)
    requires Terminated(tokens) && StartsChunk(tokens[0]) && ParseChunk(tokens).Success?
    ensures var Parsed(chunk, rest) := ParseChunk(tokens).value;
            TidyPart(part) && tokens == WrittenPart(part) + rest && MeaningOfPart(part) == chunk
    decreases |tokens|, 1
  {
    hide ParseChunks, ParseCases, Written, WrittenArms, Tidy, TidyArms, AllWhite, Meaning, Collected;
    var rest := ParseChunk(tokens).value.rest;
    assert tokens == [tokens[0]] + tokens[1..];
    match tokens[0] {
      case Blob(text) => part := Plain(text);
      case Substitution(id, filter) => part := Hole(id, filter);
      case SwitchStart(id) =>
        var blank, arms := CasesAreWritten(tokens[1..], NoCases, true);
        part := Choice(id, blank, arms);
        assert WrittenPart(part) + rest
            == [tokens[0]] + (WrittenBlank(blank) + WrittenArms(arms) + ([SwitchEnd] + rest));
      case ForStart(newVar, iterable) =>
        var body := ParsedIsWritten(tokens[1..]);
        part := Loop(newVar, iterable, body);
        assert WrittenPart(part) + rest == [tokens[0]] + (Written(body) + ([ForEnd] + rest));
        assert ParseChunks(tokens[1..]).value.rest == [ForEnd] + rest;
    }
  }

  lemma {:induction false} CasesAreWritten(tokens: seq<Lexeme>, cases: Cases, isFirst: bool)
    returns (blank: string, arms: Arms)
    requires Terminated(tokens) && ParseCases(tokens, cases, isFirst).Success?
    ensures var Parsed(all, rest) := ParseCases(tokens, cases, isFirst).value;
            && AllWhite(blank) && (!isFirst ==> blank == "") && TidyArms(arms)
            && tokens == WrittenBlank(blank) + WrittenArms(arms) + ([SwitchEnd] + rest)
            && Collected(arms, cases) == all
    decreases |tokens|, 0
  {
    hide ParseChunks, Written, Tidy, SetCase, IsBlank, AllWhite, Meaning, StartsChunk, WrittenBlank, WrittenArms;
    var rest := ParseCases(tokens, cases, isFirst).value.rest;
    blank, arms := "", NoArms;
    NothingIsWhite();
    assert tokens == [tokens[0]] + tokens[1..];
    match tokens[0] {
      case CaseStart(value) =>
        var body := ParsedIsWritten(tokens[1..]);
        var parsed := ParseChunks(tokens[1..]).value;
        var none, others := CasesAreWritten(parsed.rest, SetCase(cases, value, parsed.value), false);
        arms := Arm(value, body, others);
        ArmTokens(value, body, others, [SwitchEnd] + rest);
      case SwitchEnd =>
        EndTokens(rest);
      case Blob(text) =>
        BlankIffWhite(text);
        var none, others := CasesAreWritten(tokens[1..], cases, false);
        blank, arms := text, others;
        BlankTokens(text, others, [SwitchEnd] + rest);
    }
  }

  lemma ArmTokens(value: string, body: Doc, others: Arms, end: seq<Lexeme>)
    ensures WrittenBlank("") + WrittenArms(Arm(value, body, others)) + end
         == [CaseStart(value)] + (Written(body) + (WrittenBlank("") + WrittenArms(others) + end))
  {
    hide Written;
    assert [] + WrittenArms(others) == WrittenArms(others);
  }

  lemma EndTokens(rest: seq<Lexeme>)
    ensures WrittenBlank("") + WrittenArms(NoArms) + ([SwitchEnd] + rest) == [SwitchEnd] + rest
  {
  }

  lemma BlankTokens(blank: string, arms: Arms, end: seq<Lexeme>)
    requires blank != ""
    ensures [Blob(blank)] + (WrittenBlank("") + WrittenArms(arms) + end)
         == WrittenBlank(blank) + WrittenArms(arms) + end
  {
    hide WrittenArms;
  }

  lemma NothingIsWhite()
    ensures AllWhite("")
  {
  }

  // ---------------------------------------------------------------- texts

  /** The text is this template, written as the lexer reads it. */
  predicate Spells(doc: Doc, text: string) {
    Tidy(doc) && CanonicalAll(Written(doc) + [Eof]) && SpellAll(Written(doc) + [Eof]) == text
  }

  /** The end of the text is the last token. */
  lemma {:induction false} OnlyTheEnd(tokens: seq<Lexeme>, before: seq<Lexeme>, rest: seq<Lexeme>)
    requires CanonicalAll(tokens) && tokens == before + rest && rest != [] && rest[0] == Eof
    ensures rest == [Eof]
    decreases |before|
  {
    hide SpellAll;
    if before == [] {
      assert tokens == rest;
    } else {
      assert tokens[0] == before[0] && tokens[1..] == before[1..] + rest;
      OnlyTheEnd(tokens[1..], before[1..], rest);
    }
  }

  /** A text parses to a tree exactly when it is written so. */
  lemma ParsesIff(text: string, ast: Ast)
    ensures ParseStr(text) == Success(ast) <==> exists doc :: Spells(doc, text) && Meaning(doc) == ast
  {
    hide ParseChunks, CanonicalAll, SpellAll, Tokenize, Written, Tidy, Meaning;
    if ParseStr(text) == Success(ast) {
      var tokens := Tokenize(text).value;
      TokenizeIff(text, tokens);
      TokenizeTerminates(text);
      var doc := ParsedIsWritten(tokens);
      OnlyTheEnd(tokens, Written(doc), ParseChunks(tokens).value.rest);
      assert Spells(doc, text);
    }
    forall doc | Spells(doc, text) && Meaning(doc) == ast
      ensures ParseStr(text) == Success(ast)
    {
      TokenizeIff(text, Written(doc) + [Eof]);
      WrittenParses(doc, [Eof]);
    }
  }
}
