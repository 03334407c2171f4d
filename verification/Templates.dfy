/** The template language of gen/template.py: its syntax tree and its renderer.

    `Rendered` is the meaning of a template: it passes an environment down and never updates it.
    `RenderAst` is the renderer as written: it overwrites the caller's arguments while a loop
    runs and puts them back afterwards. */
module Templates {
  import opened Wrappers

  datatype Ast = Nil | Cons(head: Chunk, tail: Ast)

  datatype Chunk =
    | Text(text: string)
    | Replacement(id: string, filter: Option<string>)
    | Switch(id: string, cases: Cases)
    | For(newVar: string, iterable: string, body: Ast)

  /** The `cases` dictionary of a switch, in insertion order. */
  datatype Cases = NoCases | Case(value: string, body: Ast, rest: Cases)

  /** An argument is a string, or (for loops) a list. */
  datatype Value = Str(text: string) | List(items: seq<Value>)

  type Env = map<string, Value>

  /** What the renderer takes from outside: filter functions, and `str` applied to a list. */
  datatype Host = Host(filters: map<string, Value -> string>, listText: seq<Value> -> string)

  datatype RenderError =
    | UnsetParameter(name: string)
    | UnhandledCase(name: string, choice: string)
    | Unhashable(name: string)
    | NotAList(name: string)
    | DelOfUnbound(name: string)

  type Rendering = Result<string, RenderError>

  /** Dictionary lookup: the last binding of a value wins. */
  function Lookup(cases: Cases, choice: string): Option<Ast>
    ensures Lookup(cases, choice).Some? ==> Lookup(cases, choice).value < cases
  {
    match cases
    case NoCases => None
    case Case(value, body, rest) =>
      match Lookup(rest, choice)
      case Some(later) => Some(later)
      case None => if value == choice then Some(body) else None
  }

  function Show(value: Value, host: Host): string {
    match value
    case Str(text) => text
    case List(items) => host.listText(items)
  }

  function Argument(name: string, env: Env): Result<Value, RenderError> {
    if name in env then Success(env[name]) else Failure(UnsetParameter(name))
  }

  // ---------------------------------------------------------------- the pure renderer

  function Rendered(ast: Ast, env: Env, host: Host): Rendering
    decreases ast, 0
  {
    match ast
    case Nil => Success("")
    case Cons(head, tail) =>
      var first :- RenderedChunk(head, env, host);
      var others :- Rendered(tail, env, host);
      Success(first + others)
  }

  function RenderedChunk(chunk: Chunk, env: Env, host: Host): Rendering
    decreases chunk, 0
  {
    match chunk
    case Text(text) => Success(text)
    case Replacement(id, filter) =>
      var value :- Argument(id, env);
      Filtered(value, filter, host)
    case Switch(id, cases) =>
      var value :- Argument(id, env);
      var body :- Chosen(id, value, cases);
      Rendered(body, env, host)
    case For(newVar, iterable, body) =>
      var items :- Iterable(iterable, env);
      var text :- RenderedLoop(body, newVar, items, env, host);
      if items == [] && newVar !in env then Failure(DelOfUnbound(newVar)) else Success(text)
  }

  function RenderedLoop(body: Ast, newVar: string, items: seq<Value>, env: Env, host: Host): Rendering
    decreases body, |items| + 1
  {
    if items == [] then Success("")
    else
      var first :- Rendered(body, env[newVar := items[0]], host);
      var others :- RenderedLoop(body, newVar, items[1..], env, host);
      Success(first + others)
  }

  function Concatenated(texts: seq<string>): string {
    if texts == [] then "" else texts[0] + Concatenated(texts[1..])
  }

  /** A loop renders to what its body gives for the items in turn. */
  lemma {:induction false} LoopJoins(
      body: Ast, newVar: string, items: seq<Value>, env: Env, host: Host, texts: seq<string>)
    requires |texts| == |items|
    requires forall i | 0 <= i < |items| :: Rendered(body, env[newVar := items[i]], host) == Success(texts[i])
    ensures RenderedLoop(body, newVar, items, env, host) == Success(Concatenated(texts))
    decreases |items|
  {
    if items != [] {
      assert forall i | 0 <= i < |items[1..]| :: items[1..][i] == items[i + 1] && texts[1..][i] == texts[i + 1];
      LoopJoins(body, newVar, items[1..], env, host, texts[1..]);
    }
  }

  /** The first item its body fails for is the error of the loop. */
  lemma {:induction false} LoopFails(
      body: Ast, newVar: string, items: seq<Value>, env: Env, host: Host, k: nat, error: RenderError)
    requires k < |items| && Rendered(body, env[newVar := items[k]], host) == Failure(error)
    requires forall i | 0 <= i < k :: Rendered(body, env[newVar := items[i]], host).Success?
    ensures RenderedLoop(body, newVar, items, env, host) == Failure(error)
    decreases |items|
  {
    if k > 0 {
      assert forall i | 0 <= i < |items[1..]| :: items[1..][i] == items[i + 1];
      LoopFails(body, newVar, items[1..], env, host, k - 1, error);
    }
  }

  function Filtered(value: Value, filter: Option<string>, host: Host): Rendering {
    match filter
    case None => Success(Show(value, host))
    case Some(name) =>
      if name in host.filters then Success(host.filters[name](value)) else Failure(UnsetParameter(name))
  }

  function Chosen(id: string, value: Value, cases: Cases): (r: Result<Ast, RenderError>)
    ensures r.Success? ==> r.value < cases
  {
    match value
    case List(_) => Failure(Unhashable(id))
    case Str(choice) =>
      match Lookup(cases, choice)
      case Some(body) => Success(body)
      case None => Failure(UnhandledCase(id, choice))
  }

  function Iterable(name: string, env: Env): Result<seq<Value>, RenderError> {
    var value :- Argument(name, env);
    if value.List? then Success(value.items) else Failure(NotAList(name))
  }

  /** The variables some loop of a template binds. */
  function LoopVars(ast: Ast): set<string>
    decreases ast
  {
    match ast
    case Nil => {}
    case Cons(head, tail) => LoopVarsOfChunk(head) + LoopVars(tail)
  }

  function LoopVarsOfChunk(chunk: Chunk): set<string>
    decreases chunk
  {
    match chunk
    case Text(_) => {}
    case Replacement(_, _) => {}
    case Switch(_, cases) => LoopVarsOfCases(cases)
    case For(newVar, _, body) => {newVar} + LoopVars(body)
  }

  function LoopVarsOfCases(cases: Cases): set<string>
    decreases cases
  {
    match cases
    case NoCases => {}
    case Case(_, body, rest) => LoopVars(body) + LoopVarsOfCases(rest)
  }

  lemma {:induction false} LookupLoopVars(cases: Cases, choice: string)
    requires Lookup(cases, choice).Some?
    ensures LoopVars(Lookup(cases, choice).value) <= LoopVarsOfCases(cases)
    decreases cases
  {
    if Lookup(cases.rest, choice).Some? {
      LookupLoopVars(cases.rest, choice);
    }
  }

  // ---------------------------------------------------------------- the in-place renderer

  /** The dictionary of arguments a caller hands to `render`. */
  class Arguments {
    var bindings: Env

    constructor (bindings: Env)
      ensures this.bindings == bindings
    {
      this.bindings := bindings;
    }
  }

  /** Two environments differ at most on the given names. */
  ghost predicate SameOutside(names: set<string>, a: Env, b: Env) {
    forall name :: name !in names ==> Argument(name, a) == Argument(name, b)
  }

  function Prepend(text: string, r: Rendering): Rendering {
    match r
    case Success(more) => Success(text + more)
    case Failure(e) => Failure(e)
  }

  lemma PrependTwice(a: string, b: string, r: Rendering)
    ensures Prepend(a + b, r) == Prepend(a, Prepend(b, r))
    ensures Prepend("", r) == r
  {
    if r.Success? {
      assert a + b + r.value == a + (b + r.value);
      assert "" + r.value == r.value;
    }
  }

  method RenderAst(ast: Ast, arguments: Arguments, host: Host) returns (r: Rendering)
    modifies arguments
    ensures r == Rendered(ast, old(arguments.bindings), host)
    ensures r.Success? ==> arguments.bindings == old(arguments.bindings)
    ensures SameOutside(LoopVars(ast), arguments.bindings, old(arguments.bindings))
    decreases ast
  {
    var rendered := "";
    var rest := ast;
    PrependTwice("", "", Rendered(ast, arguments.bindings, host));
    while rest.Cons?
      invariant rest == ast || rest < ast
      invariant LoopVars(rest) <= LoopVars(ast)
      invariant arguments.bindings == old(arguments.bindings)
      invariant Rendered(ast, old(arguments.bindings), host)
             == Prepend(rendered, Rendered(rest, old(arguments.bindings), host))
      decreases rest
    {
      var piece := RenderChunk(rest.head, arguments, host);
      if piece.Failure? {
        return piece;
      }
      PrependTwice(rendered, piece.value, Rendered(rest.tail, arguments.bindings, host));
      rendered := rendered + piece.value;
      rest := rest.tail;
    }
    assert rendered + "" == rendered;
    r := Success(rendered);
  }

  method RenderChunk(chunk: Chunk, arguments: Arguments, host: Host) returns (r: Rendering)
    modifies arguments
    ensures r == RenderedChunk(chunk, old(arguments.bindings), host)
    ensures r.Success? ==> arguments.bindings == old(arguments.bindings)
    ensures SameOutside(LoopVarsOfChunk(chunk), arguments.bindings, old(arguments.bindings))
    decreases chunk
  {
    match chunk {
      case Text(text) =>
        r := Success(text);
      case Replacement(id, filter) =>
        var value := Argument(id, arguments.bindings);
        if value.Failure? {
          return Failure(value.error);
        }
        r := Filtered(value.value, filter, host);
      case Switch(id, cases) =>
        var value := Argument(id, arguments.bindings);
        if value.Failure? {
          return Failure(value.error);
        }
        var body := Chosen(id, value.value, cases);
        if body.Failure? {
          return Failure(body.error);
        }
        LookupLoopVars(cases, value.value.text);
        r := RenderAst(body.value, arguments, host);
      case For(_, _, _) =>
        r := RenderFor(chunk, arguments, host);
    }
  }

  /** One `for` loop: stash the variable, bind it to each item in turn, put it back. */
  method RenderFor(chunk: Chunk, arguments: Arguments, host: Host) returns (r: Rendering)
    requires chunk.For?
    modifies arguments
    ensures r == RenderedChunk(chunk, old(arguments.bindings), host)
    ensures r.Success? ==> arguments.bindings == old(arguments.bindings)
    ensures SameOutside(LoopVarsOfChunk(chunk), arguments.bindings, old(arguments.bindings))
    decreases chunk, 0
  {
    var name := chunk.newVar;
    var items := Iterable(chunk.iterable, arguments.bindings);
    if items.Failure? {
      return Failure(items.error);
    }
    var original := if name in arguments.bindings then Some(arguments.bindings[name]) else None;
    ghost var env := arguments.bindings;

    var rendered := "";
    var i := 0;
    assert items.value[0..] == items.value;
    PrependTwice("", "", RenderedLoop(chunk.body, name, items.value, env, host));
    while i < |items.value|
      invariant 0 <= i <= |items.value|
      invariant arguments.bindings == if i == 0 then env else env[name := items.value[i - 1]]
      invariant RenderedLoop(chunk.body, name, items.value, env, host)
             == Prepend(rendered, RenderedLoop(chunk.body, name, items.value[i..], env, host))
    {
      arguments.bindings := arguments.bindings[name := items.value[i]];
      assert arguments.bindings == env[name := items.value[i]];
      var piece := RenderAst(chunk.body, arguments, host);
      if piece.Failure? {
        return piece;
      }
      PrependTwice(rendered, piece.value, RenderedLoop(chunk.body, name, items.value[i + 1..], env, host));
      rendered := rendered + piece.value;
      assert items.value[i..][1..] == items.value[i + 1..];
      i := i + 1;
    }

    assert rendered + "" == rendered;
    match original {
      case None =>
        if name !in arguments.bindings {
          return Failure(DelOfUnbound(name));
        }
        arguments.bindings := arguments.bindings - {name};
        assert arguments.bindings == env;
      case Some(value) =>
        arguments.bindings := arguments.bindings[name := value];
        assert arguments.bindings == env;
    }
    r := Success(rendered);
  }
}
