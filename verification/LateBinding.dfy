/** Late values: a name known only at launch is rendered as a placeholder, and the placeholders
    are replaced on the host (`render_late_content` of gen/__init__.py). Doing it late gives the
    text that rendering with the final values would have given. */
module LateBinding {
  import opened Wrappers
  import opened Templates
  import opened Settings
  import opened Tokens
  import opened Lexer

  // ---------------------------------------------------------------- filling in late values

  /** Any exception of the source: a malformed text or an unknown name. */
  datatype LateError = BadLateConfig

  function Filled(parts: seq<Part>, values: map<string, string>): Result<string, LateError> {
    if parts == [] then Success("")
    else
      var rest :- Filled(parts[1..], values);
      match parts[0]
      case Literal(text) => Success(text + rest)
      case Token(body) => if body in values then Success(values[body] + rest) else Failure(BadLateConfig)
  }

  function LateRendered(content: string, values: map<string, string>): Result<string, LateError> {
    match Split(PLACEHOLDER_START, PLACEHOLDER_END, content)
    case Failure(_) => Failure(BadLateConfig)
    case Success(parts) => Filled(parts, values)
  }

  /** Filling in fails exactly for a placeholder whose name has no value. */
  lemma {:induction false} FilledIff(parts: seq<Part>, values: map<string, string>)
    ensures Filled(parts, values).Success?
       <==> forall i | 0 <= i < |parts| :: parts[i].Token? ==> parts[i].body in values
  {
    if parts != [] {
      FilledIff(parts[1..], values);
      assert forall i | 0 <= i < |parts[1..]| :: parts[1..][i] == parts[i + 1];
      assert forall i | 0 < i < |parts| :: parts[i] == parts[1..][i - 1];
    }
  }

  /** `render_late_content`. */
  method RenderLateContent(content: string, values: map<string, string>) returns (r: Result<string, LateError>)
    ensures r == LateRendered(content, values)
  {
    var pieces := SplitByToken(PLACEHOLDER_START, PLACEHOLDER_END, content, true);
    if pieces.Failure? {
      return Failure(BadLateConfig);
    }
    ghost var parts := Split(PLACEHOLDER_START, PLACEHOLDER_END, content).value;
    var joined := "";
    assert parts[0..] == parts;
    PrependNothing(Filled(parts, values));
    for i := 0 to |pieces.value|
      invariant Filled(parts, values) == PrependLate(joined, Filled(parts[i..], values))
    {
      var (text, isToken) := pieces.value[i];
      assert parts[i..][0] == parts[i] && parts[i..][1..] == parts[i + 1..];
      assert pieces.value[i] == Shown(PLACEHOLDER_START, PLACEHOLDER_END, true, parts[i]);
      if isToken && text !in values {
        assert Filled(parts[i..], values).Failure?;
        assert Filled(parts[i..], values).error.BadLateConfig?;
        return Failure(BadLateConfig);
      }
      var value := if isToken then values[text] else text;
      PrependLateTwice(joined, value, Filled(parts[i + 1..], values));
      joined := joined + value;
    }
    assert joined + "" == joined;
    r := Success(joined);
  }

  function PrependLate(text: string, r: Result<string, LateError>): Result<string, LateError> {
    if r.Success? then Success(text + r.value) else r
  }

  lemma PrependNothing(r: Result<string, LateError>)
    ensures PrependLate("", r) == r
  {
    if r.Success? {
      assert "" + r.value == r.value;
    }
  }

  lemma PrependLateTwice(a: string, b: string, r: Result<string, LateError>)
    ensures PrependLate(a + b, r) == PrependLate(a, PrependLate(b, r))
  {
    if r.Success? {
      assert a + b + r.value == a + (b + r.value);
    }
  }

  // ---------------------------------------------------------------- the delimiters

  lemma DelimitersAreUnbordered()
    ensures Unbordered(PLACEHOLDER_START) && Unbordered(PLACEHOLDER_END)
  {
    forall k | 0 < k < |PLACEHOLDER_START|
      ensures !OccursAt(PLACEHOLDER_START, PLACEHOLDER_START[..k], |PLACEHOLDER_START| - k)
    {
      var word := PLACEHOLDER_START;
      assert word[..k][0] == word[0] == 'L';
      assert word[..k][k - 1] == word[k - 1];
      assert word[|word| - k + (k - 1)] == '_';
    }
    forall k | 0 < k < |PLACEHOLDER_END|
      ensures !OccursAt(PLACEHOLDER_END, PLACEHOLDER_END[..k], |PLACEHOLDER_END| - k)
    {
      var word := PLACEHOLDER_END;
      assert word[..k][0] == word[0] == '_';
      assert word[..k][k - 1] == word[k - 1];
      assert word[|word| - k + (k - 1)] == 'D';
    }
  }

  // ---------------------------------------------------------------- rendering with holes

  datatype Piece = Plain(text: string) | Hole(name: string)

  type Pieces = Result<seq<Piece>, RenderError>

  /** The rendering of a template with the late names left open. A loop variable hides a late
      name inside its loop. */
  function RenderedOpen(ast: Ast, env: Env, late: set<string>, host: Host): Pieces
    decreases ast, 0
  {
    match ast
    case Nil => Success([])
    case Cons(head, tail) =>
      var first :- OpenChunk(head, env, late, host);
      var others :- RenderedOpen(tail, env, late, host);
      Success(first + others)
  }

  function OpenChunk(chunk: Chunk, env: Env, late: set<string>, host: Host): Pieces
    decreases chunk, 0
  {
    match chunk
    case Text(text) => Success([Plain(text)])
    case Replacement(id, filter) =>
      if id in late && filter.None? then Success([Hole(id)])
      else
        var text :- RenderedChunk(chunk, env, host);
        Success([Plain(text)])
    case Switch(id, cases) =>
      var value :- Argument(id, env);
      var body :- Templates.Chosen(id, value, cases);
      RenderedOpen(body, env, late, host)
    case For(newVar, iterable, body) =>
      var items :- Iterable(iterable, env);
      var pieces :- OpenLoop(body, newVar, items, env, late - {newVar}, host);
      if items == [] && newVar !in env then Failure(DelOfUnbound(newVar)) else Success(pieces)
  }

  function OpenLoop(
      body: Ast, newVar: string, items: seq<Value>, env: Env, late: set<string>, host: Host): Pieces
    decreases body, |items| + 1
  {
    if items == [] then Success([])
    else
      var first :- RenderedOpen(body, env[newVar := items[0]], late, host);
      var others :- OpenLoop(body, newVar, items[1..], env, late, host);
      Success(first + others)
  }

  /** Late names occur only where their value is inserted as it is. */
  predicate OnlyInserted(ast: Ast, late: set<string>)
    decreases ast
  {
    ast.Cons? ==> OnlyInsertedChunk(ast.head, late) && OnlyInserted(ast.tail, late)
  }

  predicate OnlyInsertedChunk(chunk: Chunk, late: set<string>)
    decreases chunk
  {
    match chunk
    case Text(_) => true
    case Replacement(id, filter) => filter.Some? ==> id !in late
    case Switch(id, cases) => id !in late && OnlyInsertedCases(cases, late)
    case For(newVar, iterable, body) => iterable !in late && OnlyInserted(body, late - {newVar})
  }

  predicate OnlyInsertedCases(cases: Cases, late: set<string>)
    decreases cases
  {
    cases.Case? ==> OnlyInserted(cases.body, late) && OnlyInsertedCases(cases.rest, late)
  }

  lemma {:induction false} LookupOnlyInserted(cases: Cases, choice: string, late: set<string>)
    requires OnlyInsertedCases(cases, late) && Lookup(cases, choice).Some?
    ensures OnlyInserted(Lookup(cases, choice).value, late)
    decreases cases
  {
    if Lookup(cases.rest, choice).Some? {
      LookupOnlyInserted(cases.rest, choice, late);
    }
  }

  function Fill(pieces: seq<Piece>, values: map<string, string>): string {
    if pieces == [] then "" else PieceText(pieces[0], values) + Fill(pieces[1..], values)
  }

  function PieceText(piece: Piece, values: map<string, string>): string {
    match piece
    case Plain(text) => text
    case Hole(name) => if name in values then values[name] else ""
  }

  function FillAll(pieces: Pieces, values: map<string, string>): Rendering {
    match pieces
    case Failure(e) => Failure(e)
    case Success(open) => Success(Fill(open, values))
  }

  lemma {:induction false} FillAppend(a: seq<Piece>, b: seq<Piece>, values: map<string, string>)
    ensures Fill(a + b, values) == Fill(a, values) + Fill(b, values)
  {
    if a == [] {
      assert a + b == b;
    } else {
      assert (a + b)[1..] == a[1..] + b;
      FillAppend(a[1..], b, values);
    }
  }

  /** `env` gives every late name the value it has in `values`. */
  ghost predicate Binds(env: Env, late: set<string>, values: map<string, string>) {
    forall name | name in late :: name in env && name in values && env[name] == Str(values[name])
  }

  /** Rendering in an environment is rendering with holes, filled from that environment. */
  lemma {:induction false} OpenThenFill(
      ast: Ast, env: Env, late: set<string>, values: map<string, string>, host: Host)
    requires OnlyInserted(ast, late) && Binds(env, late, values)
    ensures Rendered(ast, env, host) == FillAll(RenderedOpen(ast, env, late, host), values)
    decreases ast, 0
  {
    if ast.Cons? {
      OpenThenFillChunk(ast.head, env, late, values, host);
      OpenThenFill(ast.tail, env, late, values, host);
      var first := OpenChunk(ast.head, env, late, host);
      var others := RenderedOpen(ast.tail, env, late, host);
      if first.Success? && others.Success? {
        FillAppend(first.value, others.value, values);
      }
    }
  }

  lemma {:induction false} OpenThenFillChunk(
      chunk: Chunk, env: Env, late: set<string>, values: map<string, string>, host: Host)
    requires OnlyInsertedChunk(chunk, late) && Binds(env, late, values)
    ensures RenderedChunk(chunk, env, host) == FillAll(OpenChunk(chunk, env, late, host), values)
    decreases chunk, 0
  {
    match chunk {
      case Text(text) =>
        FillOne(Plain(text), values);
      case Replacement(id, filter) =>
        var r := RenderedChunk(chunk, env, host);
        if id in late && filter.None? {
          FillOne(Hole(id), values);
        } else if r.Success? {
          FillOne(Plain(r.value), values);
        }
      case Switch(id, cases) =>
        if id in env && Templates.Chosen(id, env[id], cases).Success? {
          LookupOnlyInserted(cases, env[id].text, late);
          OpenThenFill(Templates.Chosen(id, env[id], cases).value, env, late, values, host);
        }
      case For(newVar, iterable, body) =>
        if Iterable(iterable, env).Success? {
          OpenThenFillLoop(body, newVar, Iterable(iterable, env).value, env, late - {newVar}, values, host);
        }
    }
  }

  lemma {:induction false} OpenThenFillLoop(
      body: Ast, newVar: string, items: seq<Value>, env: Env, late: set<string>, values: map<string, string>,
      host: Host)
    requires OnlyInserted(body, late) && newVar !in late && Binds(env, late, values)
    ensures RenderedLoop(body, newVar, items, env, host)
         == FillAll(OpenLoop(body, newVar, items, env, late, host), values)
    decreases body, |items| + 1
  {
    if items != [] {
      var inner := env[newVar := items[0]];
      OpenThenFill(body, inner, late, values, host);
      OpenThenFillLoop(body, newVar, items[1..], env, late, values, host);
      var first := RenderedOpen(body, inner, late, host);
      var others := OpenLoop(body, newVar, items[1..], env, late, host);
      if first.Success? && others.Success? {
        FillAppend(first.value, others.value, values);
      }
    }
  }

  lemma FillOne(piece: Piece, values: map<string, string>)
    ensures Fill([piece], values) == PieceText(piece, values)
  {
    assert [piece][1..] == [];
  }

  /** The holes of a rendering do not depend on what the late names are bound to. */
  lemma {:induction false} OpenIgnoresLate(ast: Ast, a: Env, b: Env, late: set<string>, host: Host)
    requires OnlyInserted(ast, late) && SameOutside(late, a, b) && late <= a.Keys && late <= b.Keys
    ensures RenderedOpen(ast, a, late, host) == RenderedOpen(ast, b, late, host)
    decreases ast, 0
  {
    if ast.Cons? {
      OpenChunkIgnoresLate(ast.head, a, b, late, host);
      OpenIgnoresLate(ast.tail, a, b, late, host);
    }
  }

  lemma {:induction false} OpenChunkIgnoresLate(chunk: Chunk, a: Env, b: Env, late: set<string>, host: Host)
    requires OnlyInsertedChunk(chunk, late) && SameOutside(late, a, b) && late <= a.Keys && late <= b.Keys
    ensures OpenChunk(chunk, a, late, host) == OpenChunk(chunk, b, late, host)
    decreases chunk, 0
  {
    match chunk {
      case Text(_) =>
      case Replacement(id, filter) =>
        assert id !in late ==> Argument(id, a) == Argument(id, b);
      case Switch(id, cases) =>
        assert Argument(id, a) == Argument(id, b);
        if id in a && Templates.Chosen(id, a[id], cases).Success? {
          LookupOnlyInserted(cases, a[id].text, late);
          OpenIgnoresLate(Templates.Chosen(id, a[id], cases).value, a, b, late, host);
        }
      case For(newVar, iterable, body) =>
        assert Argument(iterable, a) == Argument(iterable, b);
        assert newVar !in late ==> Argument(newVar, a) == Argument(newVar, b);
        if Iterable(iterable, a).Success? {
          OpenLoopIgnoresLate(body, newVar, Iterable(iterable, a).value, a, b, late - {newVar}, host);
        }
    }
  }

  lemma {:induction false} OpenLoopIgnoresLate(
      body: Ast, newVar: string, items: seq<Value>, a: Env, b: Env, late: set<string>, host: Host)
    requires OnlyInserted(body, late) && SameOutside(late + {newVar}, a, b) && late <= a.Keys && late <= b.Keys
    ensures OpenLoop(body, newVar, items, a, late, host) == OpenLoop(body, newVar, items, b, late, host)
    decreases body, |items| + 1
  {
    if items != [] {
      forall name | name !in late
        ensures Argument(name, a[newVar := items[0]]) == Argument(name, b[newVar := items[0]])
      {
        assert name != newVar ==> Argument(name, a) == Argument(name, b);
      }
      OpenIgnoresLate(body, a[newVar := items[0]], b[newVar := items[0]], late, host);
      OpenLoopIgnoresLate(body, newVar, items[1..], a, b, late, host);
    }
  }

  // ---------------------------------------------------------------- runs of text between holes

  /** Adjacent texts run together, and empty runs vanish. */
  function Runs(pieces: seq<Piece>): seq<Part> {
    if pieces == [] then []
    else
      var rest := Runs(pieces[1..]);
      match pieces[0]
      case Hole(name) => [Token(name)] + rest
      case Plain(text) => WithRun(text, rest)
  }

  function WithRun(text: string, rest: seq<Part>): seq<Part> {
    if text == "" then rest
    else if rest != [] && rest[0].Literal? then [Literal(text + rest[0].text)] + rest[1..]
    else [Literal(text)] + rest
  }

  /** The runs as a split string: no output at all is one empty literal. */
  function AsSplit(pieces: seq<Piece>): seq<Part> {
    if Runs(pieces) == [] then [Literal("")] else Runs(pieces)
  }

  function TextOf(part: Part): string {
    match part
    case Literal(text) => text
    case Token(body) => body
  }

  /** No run of output and no late name contains a delimiter. */
  predicate NoStrayDelimiter(pieces: seq<Piece>) {
    forall part | part in Runs(pieces) ::
      Clean(PLACEHOLDER_START, PLACEHOLDER_END, TextOf(part))
  }

  function PlaceholdersOf(names: set<string>): map<string, string> {
    map name | name in names :: Placeholder(name)
  }

  function Holes(pieces: seq<Piece>): set<string> {
    set piece | piece in pieces && piece.Hole? :: piece.name
  }

  lemma {:induction false} RunsJoin(pieces: seq<Piece>, names: set<string>)
    requires Holes(pieces) <= names
    ensures Join(PLACEHOLDER_START, PLACEHOLDER_END, Runs(pieces)) == Fill(pieces, PlaceholdersOf(names))
  {
    if pieces != [] {
      assert Holes(pieces[1..]) <= Holes(pieces);
      RunsJoin(pieces[1..], names);
      assert pieces[0].Hole? ==> pieces[0] in pieces && pieces[0].name in Holes(pieces);
      var rest := Runs(pieces[1..]);
      match pieces[0] {
        case Hole(name) => JoinCons(PLACEHOLDER_START, PLACEHOLDER_END, Token(name), rest);
        case Plain(text) => RunJoins(text, rest);
      }
    }
  }

  lemma RunJoins(text: string, rest: seq<Part>)
    ensures Join(PLACEHOLDER_START, PLACEHOLDER_END, WithRun(text, rest))
         == text + Join(PLACEHOLDER_START, PLACEHOLDER_END, rest)
  {
    if text == "" {
      assert "" + Join(PLACEHOLDER_START, PLACEHOLDER_END, rest) == Join(PLACEHOLDER_START, PLACEHOLDER_END, rest);
    } else if rest != [] && rest[0].Literal? {
      var tail := Join(PLACEHOLDER_START, PLACEHOLDER_END, rest[1..]);
      JoinCons(PLACEHOLDER_START, PLACEHOLDER_END, Literal(text + rest[0].text), rest[1..]);
      assert text + rest[0].text + tail == text + (rest[0].text + tail);
    } else {
      JoinCons(PLACEHOLDER_START, PLACEHOLDER_END, Literal(text), rest);
    }
  }

  lemma {:induction false} RunsFill(pieces: seq<Piece>, values: map<string, string>)
    requires Holes(pieces) <= values.Keys
    ensures Filled(Runs(pieces), values) == Success(Fill(pieces, values))
  {
    if pieces != [] {
      var rest := Runs(pieces[1..]);
      assert Holes(pieces[1..]) <= Holes(pieces);
      RunsFill(pieces[1..], values);
      match pieces[0] {
        case Hole(name) =>
          assert pieces[0] in pieces && name in Holes(pieces);
          assert ([Token(name)] + rest)[1..] == rest;
        case Plain(text) =>
          if text == "" {
            assert "" + Fill(pieces[1..], values) == Fill(pieces[1..], values);
          } else if rest != [] && rest[0].Literal? {
            var merged := [Literal(text + rest[0].text)] + rest[1..];
            assert merged[1..] == rest[1..];
            var tail := Filled(rest[1..], values).value;
            assert text + rest[0].text + tail == text + (rest[0].text + tail);
          } else {
            assert ([Literal(text)] + rest)[1..] == rest;
          }
      }
    }
  }

  lemma {:induction false} RunsAreTidy(pieces: seq<Piece>)
    ensures Tidy(PLACEHOLDER_START, PLACEHOLDER_END, Runs(pieces)) <==> NoStrayDelimiter(pieces)
  {
    RunsNeverMeet(pieces);
    TidyIsClean(Runs(pieces));
  }

  predicate NeverMeet(parts: seq<Part>) {
    forall i | 0 <= i < |parts| && parts[i].Literal? ::
      parts[i].text != "" && (i + 1 < |parts| ==> parts[i + 1].Token?)
  }

  lemma {:induction false} RunsNeverMeet(pieces: seq<Piece>)
    ensures NeverMeet(Runs(pieces))
  {
    if pieces != [] {
      RunsNeverMeet(pieces[1..]);
    }
  }

  lemma {:induction false} TidyIsClean(parts: seq<Part>)
    requires NeverMeet(parts)
    ensures Tidy(PLACEHOLDER_START, PLACEHOLDER_END, parts)
       <==> forall part | part in parts ::
              Clean(PLACEHOLDER_START, PLACEHOLDER_END, TextOf(part))
  {
    if parts != [] {
      var rest := parts[1..];
      assert parts == [parts[0]] + rest;
      assert forall i | 0 <= i < |rest| :: rest[i] == parts[i + 1];
      assert NeverMeet(rest);
      assert parts[0].Literal? ==> parts[0].text != "" && (|parts| > 1 ==> parts[0 + 1].Token?);
      TidyIsClean(rest);
      hide Clean;
      assert Tidy(PLACEHOLDER_START, PLACEHOLDER_END, parts)
        <==> Tidy(PLACEHOLDER_START, PLACEHOLDER_END, rest)
             && Clean(PLACEHOLDER_START, PLACEHOLDER_END, TextOf(parts[0]));
      assert forall part :: part in parts <==> part == parts[0] || part in rest;
    }
  }

  /** The placeholders of a rendering are found again exactly when nothing else in it looks like
      a delimiter. */
  lemma PlaceholdersFoundIff(pieces: seq<Piece>, names: set<string>)
    requires Holes(pieces) <= names
    ensures Split(PLACEHOLDER_START, PLACEHOLDER_END, Fill(pieces, PlaceholdersOf(names))) == Success(AsSplit(pieces))
       <==> NoStrayDelimiter(pieces)
  {
    var text := Fill(pieces, PlaceholdersOf(names));
    DelimitersAreUnbordered();
    RunsJoin(pieces, names);
    RunsAreTidy(pieces);
    RunsNeverMeet(pieces);
    SplitIff(PLACEHOLDER_START, PLACEHOLDER_END, text, AsSplit(pieces));
    if Runs(pieces) == [] {
      assert [Literal("")][1..] == [];
      assert Join(PLACEHOLDER_START, PLACEHOLDER_END, [Literal("")]) == "";
    } else {
      assert Runs(pieces) != [Literal("")];
    }
  }

  // ---------------------------------------------------------------- late binding commutes

  lemma {:induction false} HolesAreLate(ast: Ast, env: Env, late: set<string>, host: Host)
    requires RenderedOpen(ast, env, late, host).Success?
    ensures Holes(RenderedOpen(ast, env, late, host).value) <= late
    decreases ast, 0
  {
    if ast.Cons? {
      HolesOfChunkAreLate(ast.head, env, late, host);
      HolesAreLate(ast.tail, env, late, host);
    }
  }

  lemma {:induction false} HolesOfChunkAreLate(chunk: Chunk, env: Env, late: set<string>, host: Host)
    requires OpenChunk(chunk, env, late, host).Success?
    ensures Holes(OpenChunk(chunk, env, late, host).value) <= late
    decreases chunk, 0
  {
    match chunk {
      case Text(_) =>
      case Replacement(_, _) =>
      case Switch(id, cases) =>
        HolesAreLate(Templates.Chosen(id, env[id], cases).value, env, late, host);
      case For(newVar, iterable, body) =>
        HolesOfLoopAreLate(body, newVar, env[iterable].items, env, late - {newVar}, host);
    }
  }

  lemma {:induction false} HolesOfLoopAreLate(
      body: Ast, newVar: string, items: seq<Value>, env: Env, late: set<string>, host: Host)
    requires OpenLoop(body, newVar, items, env, late, host).Success?
    ensures Holes(OpenLoop(body, newVar, items, env, late, host).value) <= late
    decreases body, |items| + 1
  {
    if items != [] {
      HolesAreLate(body, env[newVar := items[0]], late, host);
      HolesOfLoopAreLate(body, newVar, items[1..], env, late, host);
    }
  }

  /** Rendering with placeholders and filling them in later is rendering with the final values:
      the same text, or the same error. */
  lemma LateBindingCommutes(
      ast: Ast, early: Env, final: Env, late: set<string>, values: map<string, string>, host: Host)
    requires OnlyInserted(ast, late)
    requires SameOutside(late, early, final)
    requires Binds(early, late, PlaceholdersOf(late)) && Binds(final, late, values)
    requires var open := RenderedOpen(ast, early, late, host); open.Success? ==> NoStrayDelimiter(open.value)
    ensures match Rendered(ast, early, host)
            case Failure(e) => Rendered(ast, final, host) == Failure(e)
            case Success(content) =>
              && LateRendered(content, values).Success?
              && Rendered(ast, final, host) == Success(LateRendered(content, values).value)
  {
    var open := RenderedOpen(ast, early, late, host);
    OpenIgnoresLate(ast, early, final, late, host);
    OpenThenFill(ast, early, late, PlaceholdersOf(late), host);
    OpenThenFill(ast, final, late, values, host);
    if open.Success? {
      HolesAreLate(ast, early, late, host);
      PlaceholdersFoundIff(open.value, late);
      RunsFill(open.value, values);
      if Runs(open.value) == [] {
        assert [Literal("")][1..] == [];
        assert "" + "" == "";
      }
    }
  }

  // ---------------------------------------------------------------- identifiers are no delimiters

  /** The names a template can spell never contain a delimiter. */
  lemma IdentifierIsClean(name: string)
    requires IsIdentifier(name)
    ensures Clean(PLACEHOLDER_START, PLACEHOLDER_END, name)
  {
    forall i: nat
      ensures !OccursAt(name, PLACEHOLDER_START, i) && !OccursAt(name, PLACEHOLDER_END, i)
    {
      assert PLACEHOLDER_START[0] == 'L' && PLACEHOLDER_END[1] == 'L';
      if i + 1 < |name| {
        assert IsNameCharacter(name[i]) && IsNameCharacter(name[i + 1]);
      }
    }
  }
}
