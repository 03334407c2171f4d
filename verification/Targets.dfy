/** The schema of a template: `Target` and `Scope` of gen/internals.py, their merging, their
    extraction from a syntax tree (gen/template.py), and what a validated schema buys. */
module Targets {
  import opened Wrappers
  import opened Templates

  /** Variables always needed, and for each switch the variables each of its cases needs. */
  datatype Target = Target(variables: set<string>, scopes: map<string, Scope>)

  datatype Scope = Scope(cases: map<string, Target>)

  const EmptyTarget := Target({}, map[])

  // ---------------------------------------------------------------- merging

  /** `Target.__iadd__`: None when an assertion of the source fails, because two switches over
      one variable handle different cases. */
  function Merge(a: Target, b: Target): Option<Target>
    decreases a
  {
    if forall name | name in a.scopes && name in b.scopes :: MergeScope(a.scopes[name], b.scopes[name]).Some? then
      Some(Target(a.variables + b.variables,
                  map name | name in a.scopes.Keys + b.scopes.Keys ::
                    if name !in b.scopes then a.scopes[name]
                    else if name !in a.scopes then b.scopes[name]
                    else MergeScope(a.scopes[name], b.scopes[name]).value))
    else None
  }

  function MergeScope(a: Scope, b: Scope): Option<Scope>
    decreases a
  {
    if && a.cases.Keys == b.cases.Keys
       && forall value | value in a.cases :: Merge(a.cases[value], b.cases[value]).Some? then
      Some(Scope(map value | value in a.cases :: Merge(a.cases[value], b.cases[value]).value))
    else None
  }

  // ---------------------------------------------------------------- when two targets merge

  /** Down some switches: the name of each, and the case that is taken. */
  type Route = seq<(string, string)>

  /** The target at the end of a route. */
  ghost function Reached(target: Target, route: Route): Option<Target>
    decreases |route|
  {
    if route == [] then Some(target)
    else
      var (name, value) := route[0];
      if name in target.scopes && value in target.scopes[name].cases then
        Reached(target.scopes[name].cases[value], route[1..])
      else None
  }

  /** At the end of the route, both targets switch over the name, and handle different values. */
  ghost predicate Clash(a: Target, b: Target, route: Route, name: string) {
    && Reached(a, route).Some? && Reached(b, route).Some?
    && var (x, y) := (Reached(a, route).value, Reached(b, route).value);
       name in x.scopes && name in y.scopes && x.scopes[name].cases.Keys != y.scopes[name].cases.Keys
  }

  /** Two targets merge exactly when no two switches over one name, in the same cases of the same
      switches, handle different values. */
  lemma {:induction false} MergesIff(a: Target, b: Target)
    ensures Merge(a, b).Some? <==> forall route, name :: !Clash(a, b, route, name)
  {
    if Merge(a, b).None? {
      var route, name := FindClash(a, b);
    }
    forall route, name | Clash(a, b, route, name)
      ensures Merge(a, b).None?
    {
      ClashStops(a, b, route, name);
    }
  }

  lemma {:induction false} FindClash(a: Target, b: Target) returns (route: Route, name: string)
    requires Merge(a, b).None?
    ensures Clash(a, b, route, name)
    decreases a
  {
    var first :| first in a.scopes && first in b.scopes && MergeScope(a.scopes[first], b.scopes[first]).None?;
    var mine, other := a.scopes[first].cases, b.scopes[first].cases;
    if mine.Keys != other.Keys {
      route, name := [], first;
    } else {
      var value :| value in mine && Merge(mine[value], other[value]).None?;
      var rest;
      rest, name := FindClash(mine[value], other[value]);
      route := [(first, value)] + rest;
      assert route[1..] == rest;
    }
  }

  lemma {:induction false} ClashStops(a: Target, b: Target, route: Route, name: string)
    requires Clash(a, b, route, name)
    ensures Merge(a, b).None?
    decreases |route|
  {
    if route == [] {
      assert MergeScope(a.scopes[name], b.scopes[name]).None?;
    } else {
      var (first, value) := route[0];
      var mine, other := a.scopes[first], b.scopes[first];
      assert Clash(mine.cases[value], other.cases[value], route[1..], name);
      ClashStops(mine.cases[value], other.cases[value], route[1..], name);
      assert MergeScope(mine, other).None?;
    }
  }

  /** What the merged target is at the end of a route. */
  lemma {:induction false} MergedReaches(a: Target, b: Target, route: Route)
    requires Merge(a, b).Some?
    ensures match (Reached(a, route), Reached(b, route))
            case (None, None) => Reached(Merge(a, b).value, route) == None
            case (Some(x), None) => Reached(Merge(a, b).value, route) == Some(x)
            case (None, Some(y)) => Reached(Merge(a, b).value, route) == Some(y)
            case (Some(x), Some(y)) => Merge(x, y).Some? && Reached(Merge(a, b).value, route) == Merge(x, y)
    decreases |route|
  {
    if route != [] {
      var (first, value) := route[0];
      if first in a.scopes && first in b.scopes {
        var mine, other := a.scopes[first], b.scopes[first];
        assert MergeScope(mine, other).Some?;
        if value in mine.cases {
          MergedReaches(mine.cases[value], other.cases[value], route[1..]);
        }
      }
    }
  }

  /** A merged target merges with a third one exactly when both of its parts do. */
  lemma MergedMergesIff(a: Target, b: Target, c: Target)
    requires Merge(a, b).Some?
    ensures Merge(Merge(a, b).value, c).Some? <==> Merge(a, c).Some? && Merge(b, c).Some?
  {
    hide Merge, Reached, Clash;
    var both := Merge(a, b).value;
    MergesIff(a, c);
    MergesIff(b, c);
    MergesIff(both, c);
    forall route, name
      ensures Clash(both, c, route, name) <==> Clash(a, c, route, name) || Clash(b, c, route, name)
    {
      PartClashes(a, b, c, route, name);
    }
  }

  lemma PartClashes(a: Target, b: Target, c: Target, route: Route, name: string)
    requires Merge(a, b).Some?
    ensures Clash(Merge(a, b).value, c, route, name) <==> Clash(a, c, route, name) || Clash(b, c, route, name)
  {
    hide Reached;
    MergedReaches(a, b, route);
  }

  // ---------------------------------------------------------------- coverage

  /** The arguments supply everything the target asks for in the cases they select. */
  ghost predicate Covers(target: Target, env: Env)
    decreases target
  {
    && target.variables <= env.Keys
    && forall name | name in target.scopes :: CoversScope(name, target.scopes[name], env)
  }

  ghost predicate CoversScope(name: string, scope: Scope, env: Env)
    decreases scope
  {
    && name in env
    && env[name].Str?
    && env[name].text in scope.cases
    && Covers(scope.cases[env[name].text], env)
  }

  /** Covering a merged target is covering both of its parts. */
  lemma {:induction false} MergeCovers(a: Target, b: Target, env: Env)
    requires Merge(a, b).Some?
    ensures Covers(Merge(a, b).value, env) <==> Covers(a, env) && Covers(b, env)
    decreases a
  {
    var both := Merge(a, b).value;
    forall name | name in a.scopes && name in b.scopes
      ensures CoversScope(name, both.scopes[name], env)
         <==> CoversScope(name, a.scopes[name], env) && CoversScope(name, b.scopes[name], env)
    {
      MergeScopeCovers(name, a.scopes[name], b.scopes[name], env);
    }
    assert forall name | name in a.scopes && name !in b.scopes :: both.scopes[name] == a.scopes[name];
    assert forall name | name in b.scopes && name !in a.scopes :: both.scopes[name] == b.scopes[name];
    assert both.scopes.Keys == a.scopes.Keys + b.scopes.Keys;
  }

  lemma {:induction false} MergeScopeCovers(name: string, a: Scope, b: Scope, env: Env)
    requires MergeScope(a, b).Some?
    ensures CoversScope(name, MergeScope(a, b).value, env) <==> CoversScope(name, a, env) && CoversScope(name, b, env)
    decreases a
  {
    if name in env && env[name].Str? && env[name].text in a.cases {
      MergeCovers(a.cases[env[name].text], b.cases[env[name].text], env);
    }
  }

  // ---------------------------------------------------------------- extraction

  /** `variables_from_ast`: `blacklist` holds the variables of the enclosing loops. */
  function TargetOf(ast: Ast, blacklist: set<string>): Option<Target> {
    Extend(EmptyTarget, ast, blacklist)
  }

  function Extend(target: Target, ast: Ast, blacklist: set<string>): Option<Target>
    decreases ast, 1
  {
    match ast
    case Nil => Some(target)
    case Cons(head, tail) =>
      var own :- TargetOfChunk(head, blacklist);
      var merged :- Merge(target, own);
      Extend(merged, tail, blacklist)
  }

  function TargetOfChunk(chunk: Chunk, blacklist: set<string>): Option<Target>
    decreases chunk, 1
  {
    match chunk
    case Text(_) => Some(EmptyTarget)
    case Replacement(id, _) => Some(if id in blacklist then EmptyTarget else Target({id}, map[]))
    case Switch(id, cases) =>
      var scope :- ExtendScope(map[], cases, blacklist);
      Some(Target({}, map[id := Scope(scope)]))
    case For(newVar, _, body) => Extend(EmptyTarget, body, blacklist + {newVar})
  }

  function ExtendScope(scope: map<string, Target>, cases: Cases, blacklist: set<string>): Option<map<string, Target>>
    decreases cases, 1
  {
    match cases
    case NoCases => Some(scope)
    case Case(value, body, rest) =>
      var target :- Extend(EmptyTarget, body, blacklist);
      ExtendScope(scope[value := target], rest, blacklist)
  }

  /** What each chunk of a template asks for. */
  function ChunkTargets(ast: Ast, blacklist: set<string>): seq<Option<Target>> {
    match ast
    case Nil => []
    case Cons(head, tail) => [TargetOfChunk(head, blacklist)] + ChunkTargets(tail, blacklist)
  }

  /** There are targets, and no two of them clash anywhere. */
  ghost predicate Harmonious(targets: seq<Option<Target>>) {
    && (forall i | 0 <= i < |targets| :: targets[i].Some?)
    && forall i, j, route, name | 0 <= i < j < |targets| ::
         !Clash(targets[i].value, targets[j].value, route, name)
  }

  /** A template has a target exactly when its chunks have, and no two of these clash. */
  lemma TargetIff(ast: Ast, blacklist: set<string>)
    ensures TargetOf(ast, blacklist).Some? <==> Harmonious(ChunkTargets(ast, blacklist))
  {
    hide Clash, Merge, TargetOfChunk;
    var targets := ChunkTargets(ast, blacklist);
    ExtendIff(EmptyTarget, ast, blacklist);
    forall i | 0 <= i < |targets| && targets[i].Some?
      ensures Merge(EmptyTarget, targets[i].value).Some?
    {
      MergeEmpty(targets[i].value);
    }
    forall i, j | 0 <= i < j < |targets| && targets[i].Some? && targets[j].Some?
      ensures Merge(targets[i].value, targets[j].value).Some?
         <==> forall route, name :: !Clash(targets[i].value, targets[j].value, route, name)
    {
      MergesIff(targets[i].value, targets[j].value);
    }
  }

  /** These can be merged one after the other into a target. */
  ghost predicate MergeInTurn(target: Target, targets: seq<Option<Target>>) {
    && (forall i | 0 <= i < |targets| :: targets[i].Some? && Merge(target, targets[i].value).Some?)
    && forall i, j | 0 <= i < j < |targets| :: Merge(targets[i].value, targets[j].value).Some?
  }

  lemma {:induction false} ExtendIff(target: Target, ast: Ast, blacklist: set<string>)
    ensures Extend(target, ast, blacklist).Some? <==> MergeInTurn(target, ChunkTargets(ast, blacklist))
    decreases ast, 1
  {
    hide Merge, TargetOfChunk, MergeInTurn;
    match ast {
      case Nil =>
        NothingToMerge(target);
      case Cons(head, tail) =>
        var own, others := TargetOfChunk(head, blacklist), ChunkTargets(tail, blacklist);
        if own.Some? && Merge(target, own.value).Some? {
          ExtendIff(Merge(target, own.value).value, tail, blacklist);
        }
        FirstInTurn(target, own, others);
    }
  }

  lemma NothingToMerge(target: Target)
    ensures MergeInTurn(target, [])
  {
  }

  lemma FirstInTurn(target: Target, own: Option<Target>, others: seq<Option<Target>>)
    ensures MergeInTurn(target, [own] + others)
       <==> own.Some? && Merge(target, own.value).Some? && MergeInTurn(Merge(target, own.value).value, others)
  {
    hide Merge;
    var all := [own] + others;
    assert forall i | 0 <= i < |others| :: all[i + 1] == others[i];
    if own.Some? && Merge(target, own.value).Some? {
      forall i | 0 <= i < |others| && others[i].Some?
        ensures Merge(Merge(target, own.value).value, others[i].value).Some?
           <==> Merge(target, others[i].value).Some? && Merge(own.value, others[i].value).Some?
      {
        MergedMergesIff(target, own.value, others[i].value);
      }
    }
    if MergeInTurn(target, all) {
      assert all[0] == own;
    }
  }

  // ---------------------------------------------------------------- what the target means

  /** Everything a rendering reads from outside its own loops, in the cases it selects. */
  ghost predicate Supplied(ast: Ast, bound: set<string>, env: Env)
    decreases ast
  {
    ast.Cons? ==> SuppliedChunk(ast.head, bound, env) && Supplied(ast.tail, bound, env)
  }

  ghost predicate SuppliedChunk(chunk: Chunk, bound: set<string>, env: Env)
    decreases chunk
  {
    match chunk
    case Text(_) => true
    case Replacement(id, _) => id in bound || id in env
    case Switch(id, cases) =>
      && id in env
      && env[id].Str?
      && Lookup(cases, env[id].text).Some?
      && Supplied(Lookup(cases, env[id].text).value, bound, env)
    case For(newVar, _, body) => Supplied(body, bound + {newVar}, env)
  }

  lemma {:induction false} TargetMeansSupplied(ast: Ast, blacklist: set<string>, env: Env)
    requires TargetOf(ast, blacklist).Some?
    ensures Covers(TargetOf(ast, blacklist).value, env) <==> Supplied(ast, blacklist, env)
  {
    ExtendMeansSupplied(EmptyTarget, ast, blacklist, env);
  }

  lemma {:induction false} ExtendMeansSupplied(target: Target, ast: Ast, blacklist: set<string>, env: Env)
    requires Extend(target, ast, blacklist).Some?
    ensures Covers(Extend(target, ast, blacklist).value, env) <==> Covers(target, env) && Supplied(ast, blacklist, env)
    decreases ast, 1
  {
    match ast {
      case Nil =>
      case Cons(head, tail) =>
        var own := TargetOfChunk(head, blacklist).value;
        ChunkMeansSupplied(head, blacklist, env);
        MergeCovers(target, own, env);
        ExtendMeansSupplied(Merge(target, own).value, tail, blacklist, env);
    }
  }

  lemma {:induction false} ChunkMeansSupplied(chunk: Chunk, blacklist: set<string>, env: Env)
    requires TargetOfChunk(chunk, blacklist).Some?
    ensures Covers(TargetOfChunk(chunk, blacklist).value, env) <==> SuppliedChunk(chunk, blacklist, env)
    decreases chunk, 1
  {
    match chunk {
      case Text(_) =>
      case Replacement(_, _) =>
      case Switch(id, cases) =>
        var scope := ExtendScope(map[], cases, blacklist).value;
        var target := TargetOfChunk(chunk, blacklist).value;
        assert target.scopes[id] == Scope(scope);
        assert Covers(target, env) <==> CoversScope(id, Scope(scope), env);
        if id in env && env[id].Str? {
          ScopeMeansSupplied(map[], cases, env[id].text, blacklist, env);
        }
      case For(newVar, _, body) =>
        ExtendMeansSupplied(EmptyTarget, body, blacklist + {newVar}, env);
    }
  }

  lemma {:induction false} ScopeMeansSupplied(
      scope: map<string, Target>, cases: Cases, choice: string, blacklist: set<string>, env: Env)
    requires ExtendScope(scope, cases, blacklist).Some?
    ensures var full := ExtendScope(scope, cases, blacklist).value;
            match Lookup(cases, choice)
            case None => (choice in full <==> choice in scope) && (choice in scope ==> full[choice] == scope[choice])
            case Some(body) =>
              choice in full && (Covers(full[choice], env) <==> Supplied(body, blacklist, env))
    decreases cases, 1
  {
    match cases {
      case NoCases =>
      case Case(value, body, rest) =>
        var target := Extend(EmptyTarget, body, blacklist).value;
        ScopeMeansSupplied(scope[value := target], rest, choice, blacklist, env);
        ExtendMeansSupplied(EmptyTarget, body, blacklist, env);
    }
  }

  // ---------------------------------------------------------------- what the target leaves out

  /** A switch finds its case among these arguments. */
  ghost predicate Selects(id: string, cases: Cases, env: Env) {
    id in env && env[id].Str? && Lookup(cases, env[id].text).Some?
  }

  /** What rendering needs beyond a covered target, in the arguments `inner` inside the loops that
      bind `bound`. The target records neither filters nor the iterables of loops, and it takes a
      switch on a loop variable for one on an argument: in the case that the item selects, nothing
      is known to be supplied (`covered` is false there). */
  ghost predicate Disciplined(ast: Ast, bound: set<string>, inner: Env, covered: bool, host: Host)
    decreases ast
  {
    ast.Cons? ==>
      && DisciplinedChunk(ast.head, bound, inner, covered, host)
      && Disciplined(ast.tail, bound, inner, covered, host)
  }

  ghost predicate DisciplinedChunk(chunk: Chunk, bound: set<string>, inner: Env, covered: bool, host: Host)
    decreases chunk
  {
    match chunk
    case Text(_) => true
    case Replacement(id, filter) => (covered || id in inner) && (filter.Some? ==> filter.value in host.filters)
    case Switch(id, cases) =>
      && ((covered && id !in bound) || Selects(id, cases, inner))
      && (Selects(id, cases, inner) ==>
            Disciplined(Lookup(cases, inner[id].text).value, bound, inner, covered && id !in bound, host))
    case For(newVar, iterable, body) =>
      && iterable in inner
      && inner[iterable].List?
      && var items := inner[iterable].items;
         && (items == [] ==> newVar in inner)
         && forall i | 0 <= i < |items| ::
              Disciplined(body, bound + {newVar}, inner[newVar := items[i]], covered, host)
  }

  /** What a rendering does not look at, although the target records it: the body of a loop over an
      empty list, and the argument behind a switch on a loop variable, must be supplied too. */
  ghost predicate Recorded(ast: Ast, bound: set<string>, env: Env, inner: Env)
    decreases ast
  {
    ast.Cons? ==> RecordedChunk(ast.head, bound, env, inner) && Recorded(ast.tail, bound, env, inner)
  }

  ghost predicate RecordedChunk(chunk: Chunk, bound: set<string>, env: Env, inner: Env)
    decreases chunk
  {
    match chunk
    case Text(_) => true
    case Replacement(_, _) => true
    case Switch(id, cases) =>
      if id in bound then SuppliedChunk(chunk, bound, env)
      else Selects(id, cases, inner) ==> Recorded(Lookup(cases, inner[id].text).value, bound, env, inner)
    case For(newVar, iterable, body) =>
      if iterable in inner && inner[iterable].List? && inner[iterable].items != [] then
        Recorded(body, bound + {newVar}, env, inner[newVar := inner[iterable].items[0]])
      else Supplied(body, bound + {newVar}, env)
  }

  /** `inner` is the environment inside the loops that bind `bound`. */
  ghost predicate Inside(bound: set<string>, env: Env, inner: Env) {
    bound <= inner.Keys && SameOutside(bound, env, inner)
  }

  /** Where the target is covered, a template renders exactly when it is disciplined; where it
      renders, its target is covered exactly when what it skipped is supplied. */
  lemma {:induction false} RendersIffCovered(ast: Ast, env: Env, host: Host)
    requires TargetOf(ast, {}).Some?
    ensures Covers(TargetOf(ast, {}).value, env) ==>
              (Rendered(ast, env, host).Success? <==> Disciplined(ast, {}, env, true, host))
    ensures Rendered(ast, env, host).Success? ==>
              (Covers(TargetOf(ast, {}).value, env) <==> Recorded(ast, {}, env, env))
  {
    TargetMeansSupplied(ast, {}, env);
    if Supplied(ast, {}, env) {
      SuppliedRendersIff(ast, {}, env, env, true, host);
    }
    if Rendered(ast, env, host).Success? {
      RenderedIsSuppliedIff(ast, {}, env, env, host);
    }
  }

  lemma {:induction false} SuppliedRendersIff(
      ast: Ast, bound: set<string>, env: Env, inner: Env, covered: bool, host: Host)
    requires Inside(bound, env, inner) && (covered ==> Supplied(ast, bound, env))
    ensures Rendered(ast, inner, host).Success? <==> Disciplined(ast, bound, inner, covered, host)
    decreases ast, 0
  {
    match ast {
      case Nil =>
      case Cons(head, tail) =>
        SuppliedChunkRendersIff(head, bound, env, inner, covered, host);
        SuppliedRendersIff(tail, bound, env, inner, covered, host);
    }
  }

  lemma {:induction false} SuppliedChunkRendersIff(
      chunk: Chunk, bound: set<string>, env: Env, inner: Env, covered: bool, host: Host)
    requires Inside(bound, env, inner) && (covered ==> SuppliedChunk(chunk, bound, env))
    ensures RenderedChunk(chunk, inner, host).Success? <==> DisciplinedChunk(chunk, bound, inner, covered, host)
    decreases chunk, 0
  {
    match chunk {
      case Text(_) =>
      case Replacement(id, _) =>
        assert id !in bound ==> Argument(id, env) == Argument(id, inner);
      case Switch(id, cases) =>
        assert id !in bound ==> Argument(id, env) == Argument(id, inner);
        if Selects(id, cases, inner) {
          var body := Lookup(cases, inner[id].text).value;
          SuppliedRendersIff(body, bound, env, inner, covered && id !in bound, host);
        }
      case For(newVar, iterable, body) =>
        if iterable in inner && inner[iterable].List? {
          SuppliedLoopRendersIff(body, newVar, inner[iterable].items, bound, env, inner, covered, host);
        }
    }
  }

  lemma {:induction false} SuppliedLoopRendersIff(
      body: Ast, newVar: string, items: seq<Value>, bound: set<string>, env: Env, inner: Env, covered: bool,
      host: Host)
    requires Inside(bound, env, inner) && (covered ==> Supplied(body, bound + {newVar}, env))
    ensures RenderedLoop(body, newVar, items, inner, host).Success?
       <==> forall i | 0 <= i < |items| ::
              Disciplined(body, bound + {newVar}, inner[newVar := items[i]], covered, host)
    decreases body, |items| + 1
  {
    if items != [] {
      var rest := items[1..];
      SuppliedRendersIff(body, bound + {newVar}, env, inner[newVar := items[0]], covered, host);
      SuppliedLoopRendersIff(body, newVar, rest, bound, env, inner, covered, host);
      assert forall i | 0 <= i < |rest| :: rest[i] == items[i + 1];
      assert forall i | 0 < i < |items| :: items[i] == rest[i - 1];
    }
  }

  lemma {:induction false} RenderedIsSuppliedIff(ast: Ast, bound: set<string>, env: Env, inner: Env, host: Host)
    requires Inside(bound, env, inner) && Rendered(ast, inner, host).Success?
    ensures Supplied(ast, bound, env) <==> Recorded(ast, bound, env, inner)
    decreases ast, 0
  {
    match ast {
      case Nil =>
      case Cons(head, tail) =>
        RenderedChunkIsSuppliedIff(head, bound, env, inner, host);
        RenderedIsSuppliedIff(tail, bound, env, inner, host);
    }
  }

  lemma {:induction false} RenderedChunkIsSuppliedIff(
      chunk: Chunk, bound: set<string>, env: Env, inner: Env, host: Host)
    requires Inside(bound, env, inner) && RenderedChunk(chunk, inner, host).Success?
    ensures SuppliedChunk(chunk, bound, env) <==> RecordedChunk(chunk, bound, env, inner)
    decreases chunk, 0
  {
    match chunk {
      case Text(_) =>
      case Replacement(id, _) =>
        assert id !in bound ==> Argument(id, env) == Argument(id, inner);
      case Switch(id, cases) =>
        if id !in bound {
          assert Argument(id, env) == Argument(id, inner);
          RenderedIsSuppliedIff(Lookup(cases, inner[id].text).value, bound, env, inner, host);
        }
      case For(newVar, iterable, body) =>
        var items := inner[iterable].items;
        if items != [] {
          RenderedIsSuppliedIff(body, bound + {newVar}, env, inner[newVar := items[0]], host);
        }
    }
  }

  // ---------------------------------------------------------------- why the discipline is needed

  /** A switch on a loop variable is validated against the argument of the same name, and then
      rendered with the item of the loop. */
  lemma SwitchOnLoopVariable(host: Host)
    ensures var ast := Cons(For("x", "items", Cons(Switch("x", Case("a", Nil, NoCases)), Nil)), Nil);
            var env := map["items" := List([Str("b")]), "x" := Str("a")];
            && TargetOf(ast, {}).Some?
            && Covers(TargetOf(ast, {}).value, env)
            && Rendered(ast, env, host) == Failure(UnhandledCase("x", "b"))
  {
    var switch := Switch("x", Case("a", Nil, NoCases));
    var body := Cons(switch, Nil);
    var ast := Cons(For("x", "items", body), Nil);
    var env := map["items" := List([Str("b")]), "x" := Str("a")];
    var scope := map["a" := EmptyTarget];
    assert ExtendScope(map[], Case("a", Nil, NoCases), {"x"}) == Some(scope);
    var target := Target({}, map["x" := Scope(scope)]);
    assert TargetOfChunk(switch, {"x"}) == Some(target);
    MergeEmpty(target);
    assert Extend(EmptyTarget, body, {"x"}) == Some(target);
    assert {} + {"x"} == {"x"};
    assert TargetOf(ast, {}) == Some(target);
    var inner := env["x" := Str("b")];
    assert RenderedChunk(switch, inner, host) == Failure(UnhandledCase("x", "b"));
    assert Rendered(body, inner, host) == Failure(UnhandledCase("x", "b"));
    assert RenderedLoop(body, "x", [Str("b")], env, host) == Failure(UnhandledCase("x", "b"));
  }

  lemma MergeEmpty(target: Target)
    ensures Merge(EmptyTarget, target) == Some(target)
  {
    assert {} + target.variables == target.variables;
    assert (map name | name in EmptyTarget.scopes.Keys + target.scopes.Keys :: target.scopes[name]) == target.scopes;
    assert Merge(EmptyTarget, target).value.scopes == target.scopes;
  }

  /** The iterable of a loop is not part of the target, and a loop over an empty list deletes
      its variable even if nothing bound it. */
  lemma LoopsAreNotInTheTarget(host: Host)
    ensures var ast := Cons(For("x", "items", Nil), Nil);
            && TargetOf(ast, {}) == Some(EmptyTarget)
            && Rendered(ast, map[], host) == Failure(UnsetParameter("items"))
            && Rendered(ast, map["items" := List([])], host) == Failure(DelOfUnbound("x"))
  {
    MergeEmpty(EmptyTarget);
  }
}
