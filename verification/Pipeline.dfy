/** From templates to rendered text: the path through gen/__init__.py that extracts a schema,
    resolves it and renders. */
module Pipeline {
  import opened Wrappers
  import opened Templates
  import opened Targets
  import opened Extraction
  import opened Settings
  import opened Journal
  import opened Resolving

  // ---------------------------------------------------------------- one target for all templates

  /** `target_from_templates`: the targets of all templates, merged from left to right. */
  function TargetOfAll(asts: seq<Ast>): Option<Target> {
    if asts == [] then Some(EmptyTarget)
    else
      var before :- TargetOfAll(asts[..|asts| - 1]);
      var own :- TargetOf(asts[|asts| - 1], {});
      Merge(before, own)
  }

  method TargetFromTemplates(asts: seq<Ast>) returns (target: Option<Target>)
    ensures target == TargetOfAll(asts)
  {
    var merged := new TargetObject();
    for i := 0 to |asts|
      invariant fresh(merged)
      invariant TargetOfAll(asts[..i]) == Some(merged.Contents())
    {
      assert asts[..i + 1][..i] == asts[..i];
      var own := VariablesFromAst(asts[i], {});
      var ok := own != null;
      if ok {
        ok := merged.Absorb(Target(own.variables, own.subScopes));
      }
      if !ok {
        assert TargetOfAll(asts[..i + 1]).None?;
        FirstConflict(asts, i + 1);
        return None;
      }
    }
    assert asts[..|asts|] == asts;
    target := Some(Target(merged.variables, merged.subScopes));
  }

  lemma {:induction false} FirstConflict(asts: seq<Ast>, k: nat)
    requires k <= |asts| && TargetOfAll(asts[..k]).None?
    ensures TargetOfAll(asts).None?
  {
    if k < |asts| {
      var init := asts[..|asts| - 1];
      assert init[..k] == asts[..k];
      FirstConflict(init, k);
    } else {
      assert asts[..k] == asts;
    }
  }

  /** A merged target merges with another one exactly when every template's does. */
  lemma {:induction false} WholeMergesIff(asts: seq<Ast>, other: Target)
    requires TargetOfAll(asts).Some?
    ensures forall i | 0 <= i < |asts| :: TargetOf(asts[i], {}).Some?
    ensures Merge(TargetOfAll(asts).value, other).Some?
       <==> forall i | 0 <= i < |asts| :: Merge(TargetOf(asts[i], {}).value, other).Some?
  {
    hide Merge, TargetOf;
    if asts == [] {
      MergeEmpty(other);
    } else {
      var init, last := asts[..|asts| - 1], asts[|asts| - 1];
      WholeMergesIff(init, other);
      assert forall i | 0 <= i < |init| :: init[i] == asts[i];
      MergedMergesIff(TargetOfAll(init).value, TargetOf(last, {}).value, other);
    }
  }

  /** The templates have one target exactly when each has its own, and no two of these clash. */
  lemma {:induction false} AllMergeIff(asts: seq<Ast>)
    ensures TargetOfAll(asts).Some? <==> Harmonious(seq(|asts|, i requires 0 <= i < |asts| => TargetOf(asts[i], {})))
  {
    hide Merge, TargetOf, Clash;
    if asts != [] {
      var init, last := asts[..|asts| - 1], asts[|asts| - 1];
      var all := seq(|asts|, i requires 0 <= i < |asts| => TargetOf(asts[i], {}));
      var some := seq(|init|, i requires 0 <= i < |init| => TargetOf(init[i], {}));
      AllMergeIff(init);
      assert forall i | 0 <= i < |init| :: init[i] == asts[i] && some[i] == all[i];
      if TargetOfAll(init).Some? && TargetOf(last, {}).Some? {
        WholeMergesIff(init, TargetOf(last, {}).value);
        forall i | 0 <= i < |init|
          ensures Merge(TargetOf(init[i], {}).value, TargetOf(last, {}).value).Some?
             <==> forall route, name :: !Clash(TargetOf(init[i], {}).value, TargetOf(last, {}).value, route, name)
        {
          MergesIff(TargetOf(init[i], {}).value, TargetOf(last, {}).value);
        }
      }
      LastHarmonious(some, all);
    }
  }

  lemma LastHarmonious(some: seq<Option<Target>>, all: seq<Option<Target>>)
    requires |all| == |some| + 1 && forall i | 0 <= i < |some| :: some[i] == all[i]
    ensures Harmonious(all) <==>
              && Harmonious(some)
              && all[|some|].Some?
              && forall i, route, name | 0 <= i < |some| :: !Clash(all[i].value, all[|some|].value, route, name)
  {
    hide Clash;
  }

  lemma {:induction false} AllCovered(asts: seq<Ast>, env: Env)
    requires TargetOfAll(asts).Some?
    ensures Covers(TargetOfAll(asts).value, env)
       <==> forall ast | ast in asts :: TargetOf(ast, {}).Some? && Covers(TargetOf(ast, {}).value, env)
  {
    if asts != [] {
      var init, last := asts[..|asts| - 1], asts[|asts| - 1];
      assert asts == init + [last];
      AllCovered(init, env);
      MergeCovers(TargetOfAll(init).value, TargetOf(last, {}).value, env);
    }
  }

  // ---------------------------------------------------------------- a validated run covers its targets

  /** The names that some switch of a target reads. */
  ghost function ScopeNames(target: Target): set<string>
    decreases target
  {
    target.scopes.Keys
    + set name, inner | name in target.scopes.Keys && inner in CaseNames(target.scopes[name]) :: inner
  }

  ghost function CaseNames(scope: Scope): set<string>
    decreases scope
  {
    set value, inner | value in scope.cases.Keys && inner in ScopeNames(scope.cases[value]) :: inner
  }

  /** Every finalised name is bound without error, and those that decide a switch have their final
      value; any other name may have been overwritten. */
  ghost predicate Provides(env: Env, memo: Memo, switches: set<string>) {
    forall name | name in memo ::
      !memo[name].Failed? && name in env && (name in switches ==> env[name] == Str(ValueOf(name, memo[name])))
  }

  lemma {:induction false} VisitedIsCovered(target: Target, memo: Memo, env: Env, switches: set<string>)
    requires Visited(target, memo) && ScopeNames(target) <= switches && Provides(env, memo, switches)
    ensures Covers(target, env)
    decreases target
  {
    forall name | name in target.scopes
      ensures CoversScope(name, target.scopes[name], env)
    {
      var scope := target.scopes[name];
      assert VisitedScope(name, scope, memo);
      var value := ValueOf(name, memo[name]);
      assert ScopeNames(scope.cases[value]) <= CaseNames(scope) <= ScopeNames(target);
      VisitedIsCovered(scope.cases[value], memo, env, switches);
    }
  }

  /** Validated means renderable: once the resolver has visited the target of a template and nothing
      failed, the template renders exactly when it is disciplined, whatever was overwritten since
      except what a switch reads. */
  lemma ValidatedRenders(asts: seq<Ast>, ast: Ast, memo: Memo, env: Env, host: Host)
    requires ast in asts && TargetOfAll(asts).Some? && Visited(TargetOfAll(asts).value, memo)
    requires Provides(env, memo, ScopeNames(TargetOfAll(asts).value))
    ensures Rendered(ast, env, host).Success? <==> Disciplined(ast, {}, env, true, host)
  {
    var target := TargetOfAll(asts).value;
    VisitedIsCovered(target, memo, env, ScopeNames(target));
    AllCovered(asts, env);
    RendersIffCovered(ast, env, host);
  }

  /** Overwriting what a switch reads undoes the validation. */
  lemma OverwrittenSwitch(host: Host)
    ensures var ast := Cons(Switch("x", Case("a", Nil, NoCases)), Nil);
            && Disciplined(ast, {}, map["x" := Str("a")], true, host)
            && Rendered(ast, map["x" := Str("a")], host) == Success("")
            && Rendered(ast, map["x" := Str("b")], host) == Failure(UnhandledCase("x", "b"))
  {
    var switch := Switch("x", Case("a", Nil, NoCases));
    assert Lookup(switch.cases, "a") == Some(Nil) && Lookup(switch.cases, "b") == None;
    assert RenderedChunk(switch, map["x" := Str("a")], host) == Success("") && "" + "" == "";
    assert RenderedChunk(switch, map["x" := Str("b")], host) == Failure(UnhandledCase("x", "b"));
  }

  // ---------------------------------------------------------------- a discipline to check beforehand

  /** Disciplined whatever the configuration resolves to: the lists of all loops, in all cases, are
      among the arguments the program adds itself, and no switch reads a loop variable. */
  ghost predicate DisciplinedAnyway(ast: Ast, bound: set<string>, known: Env, host: Host)
    decreases ast
  {
    ast.Cons? ==>
      DisciplinedChunkAnyway(ast.head, bound, known, host) && DisciplinedAnyway(ast.tail, bound, known, host)
  }

  ghost predicate DisciplinedChunkAnyway(chunk: Chunk, bound: set<string>, known: Env, host: Host)
    decreases chunk
  {
    match chunk
    case Text(_) => true
    case Replacement(_, filter) => filter.Some? ==> filter.value in host.filters
    case Switch(id, cases) => id !in bound && DisciplinedCasesAnyway(cases, bound, known, host)
    case For(newVar, iterable, body) =>
      && iterable in known
      && known[iterable].List?
      && var items := known[iterable].items;
         && (items == [] ==> newVar in known)
         && forall i | 0 <= i < |items| ::
              DisciplinedAnyway(body, bound + {newVar}, known[newVar := items[i]], host)
  }

  ghost predicate DisciplinedCasesAnyway(cases: Cases, bound: set<string>, known: Env, host: Host)
    decreases cases
  {
    cases.Case? ==>
      DisciplinedAnyway(cases.body, bound, known, host) && DisciplinedCasesAnyway(cases.rest, bound, known, host)
  }

  ghost predicate Within(known: Env, env: Env) {
    forall name | name in known :: name in env && env[name] == known[name]
  }

  lemma {:induction false} AnywayIsDisciplined(ast: Ast, bound: set<string>, known: Env, env: Env, host: Host)
    requires DisciplinedAnyway(ast, bound, known, host) && Within(known, env)
    ensures Disciplined(ast, bound, env, true, host)
    decreases ast, 0
  {
    if ast.Cons? {
      match ast.head {
        case Text(_) =>
        case Replacement(_, _) =>
        case Switch(id, cases) =>
          if Selects(id, cases, env) {
            LookupAnyway(cases, env[id].text, bound, known, host);
            AnywayIsDisciplined(Lookup(cases, env[id].text).value, bound, known, env, host);
          }
        case For(newVar, iterable, body) =>
          var items := known[iterable].items;
          forall i | 0 <= i < |items|
            ensures Disciplined(body, bound + {newVar}, env[newVar := items[i]], true, host)
          {
            AnywayIsDisciplined(body, bound + {newVar}, known[newVar := items[i]], env[newVar := items[i]], host);
          }
      }
      AnywayIsDisciplined(ast.tail, bound, known, env, host);
    }
  }

  lemma {:induction false} LookupAnyway(cases: Cases, choice: string, bound: set<string>, known: Env, host: Host)
    requires DisciplinedCasesAnyway(cases, bound, known, host) && Lookup(cases, choice).Some?
    ensures DisciplinedAnyway(Lookup(cases, choice).value, bound, known, host)
    decreases cases
  {
    if Lookup(cases.rest, choice).Some? {
      LookupAnyway(cases.rest, choice, bound, known, host);
    }
  }

  // ---------------------------------------------------------------- the whole path

  datatype Generated =
    | Texts(texts: seq<string>)
    | SchemaConflict
    | Exception
    | Invalid
    | RenderFailed(error: RenderError)

  /** The arguments that templates are rendered with: the final values, overwritten by the program's own. */
  function FinalEnv(values: map<string, string>, extra: Env): Env {
    (map name | name in values :: Str(values[name])) + extra
  }

  /** Every finalised name that was not overwritten has its final value. */
  ghost predicate FinalOutside(extra: Env, memo: Memo, env: Env) {
    forall name | name in memo && name !in extra ::
      !memo[name].Failed? && name in env && env[name] == Str(ValueOf(name, memo[name]))
  }

  ghost predicate AllDisciplined(asts: seq<Ast>, env: Env, host: Host) {
    forall ast | ast in asts :: Disciplined(ast, {}, env, true, host)
  }

  /** Some finalised name failed, or some set of parameters was rejected. */
  ghost predicate Faulty(multiChecks: seq<MultiCheck>, memo: Memo) {
    || (exists name :: name in memo && memo[name].Failed?)
    || (exists check :: check in multiChecks && RejectedBy(check, memo))
  }

  /** How validation ends: `Refused` is the ValidationError, `Escaped` any other exception. */
  datatype Status = Passed | Refused | Escaped

  /** `validate_and_raise`: a configuration is refused exactly for a name that failed or a set of
      parameters that was rejected in this very run. */
  method ValidateAndRaise(config: Config) returns (resolver: Resolver, status: Status)
    ensures resolver.config == config && Sound(config, resolver.log)
    ensures status == Escaped ==>
              || Blame(config, resolver.log)
              || LateSwitch(config, resolver.log)
              || CrashingCheck(config, MemoOf(resolver.log))
    ensures status != Escaped ==>
              && (forall target | target in config.targets :: Visited(target, MemoOf(resolver.log)))
              && !CrashingCheck(config, MemoOf(resolver.log))
              && (status == Refused <==> Faulty(config.multiChecks, MemoOf(resolver.log)))
              && forall name | name in MemoOf(resolver.log) :: DemandedByOne(config, MemoOf(resolver.log), name)
    ensures status == Passed ==> resolver.Valid() && resolver.evalStack == [] && resolver.StatusOk()
  {
    resolver := new Resolver(config);
    var ok := resolver.Resolve();
    if !ok {
      return resolver, Escaped;
    }
    hide Sound, Tracks, Books, Visited, CrashingCheck, RejectedBy, Demanded;
    resolver.OkMeansNoFailure();
    NoSetRejected(config.multiChecks, MemoOf(resolver.log), resolver.setErrors);
    status := if resolver.StatusOk() then Passed else Refused;
  }

  lemma NoSetRejected(multiChecks: seq<MultiCheck>, memo: Memo, setErrors: set<set<string>>)
    requires forall names :: names in setErrors <==>
               exists check :: check in multiChecks && check.names == names && RejectedBy(check, memo)
    ensures setErrors == {} <==> !exists check :: check in multiChecks && RejectedBy(check, memo)
  {
    hide RejectedBy;
    if check :| check in multiChecks && RejectedBy(check, memo) {
      assert check.names in setErrors;
    }
  }

  /** `generate`: extract the target, resolve it, stop if the status is not ok, then overwrite and add
      some arguments of the program's own, and render every template. If none of these is read by a
      switch, rendering fails exactly when some template is not disciplined. */
  method Generate(
      setters: map<string, seq<Setter>>, validators: map<string, seq<string -> Verdict>>,
      multiChecks: seq<MultiCheck>, asts: seq<Ast>, extra: Env, host: Host)
    returns (r: Generated, resolver: Resolver?, ghost env: Env)
    ensures r.SchemaConflict? <==> TargetOfAll(asts).None?
    ensures r.SchemaConflict? <==> resolver == null
    ensures resolver != null ==>
              && resolver.config == Config(setters, validators, multiChecks, [TargetOfAll(asts).value])
              && Sound(resolver.config, resolver.log)
    ensures r.Exception? ==>
              || Blame(resolver.config, resolver.log)
              || LateSwitch(resolver.config, resolver.log)
              || CrashingCheck(resolver.config, MemoOf(resolver.log))
    ensures resolver != null && !r.Exception? ==>
              && Visited(TargetOfAll(asts).value, MemoOf(resolver.log))
              && !CrashingCheck(resolver.config, MemoOf(resolver.log))
              && (r.Invalid? <==> Faulty(multiChecks, MemoOf(resolver.log)))
              && forall name | name in MemoOf(resolver.log) ::
                   Demanded(resolver.config, TargetOfAll(asts).value, MemoOf(resolver.log), name)
    ensures r.Texts? || r.RenderFailed? ==>
              && Within(extra, env) && FinalOutside(extra, MemoOf(resolver.log), env)
              && forall name | name in env :: name in extra || name in MemoOf(resolver.log)
    ensures (r.Texts? || r.RenderFailed?) && extra.Keys !! ScopeNames(TargetOfAll(asts).value) ==>
              && (r.Texts? <==> AllDisciplined(asts, env, host))
              && (r.RenderFailed? ==> exists ast :: ast in asts && !DisciplinedAnyway(ast, {}, extra, host))
    ensures r.Texts? ==> AllRendered(asts, r.texts, env, host)
    ensures r.RenderFailed? ==> FirstFailure(asts, r.error, env, host)
  {
    resolver, env := null, map[];
    var target := TargetFromTemplates(asts);
    if target.None? {
      return SchemaConflict, null, env;
    }
    hide Sound, Books, Tracks, Visited, CrashingCheck, Faulty, Demanded, TargetOfAll, Blame, LateSwitch;
    hide AllDisciplined, DisciplinedAnyway, ScopeNames, Within, FinalOutside, AllRendered, FirstFailure;
    var status;
    resolver, status := ValidateAndRaise(Config(setters, validators, multiChecks, [target.value]));
    OneTarget(resolver.config, target.value, MemoOf(resolver.log));
    if status != Passed {
      return if status == Escaped then Exception else Invalid, resolver, env;
    }
    r, env := RenderFinal(asts, resolver, extra, host);
  }

  lemma OneTarget(config: Config, target: Target, memo: Memo)
    requires config.targets == [target]
    ensures target in config.targets
    ensures forall name :: DemandedByOne(config, memo, name) ==> Demanded(config, target, memo, name)
  {
    hide Demanded;
  }

  /** `generate` once the configuration is valid: the final arguments, the program's own, the texts. */
  method RenderFinal(asts: seq<Ast>, resolver: Resolver, extra: Env, host: Host)
    returns (r: Generated, ghost env: Env)
    requires resolver.Valid() && resolver.evalStack == [] && resolver.StatusOk()
    requires TargetOfAll(asts).Some? && Visited(TargetOfAll(asts).value, MemoOf(resolver.log))
    ensures r.Texts? || r.RenderFailed?
    ensures Within(extra, env) && FinalOutside(extra, MemoOf(resolver.log), env)
    ensures forall name | name in env :: name in extra || name in MemoOf(resolver.log)
    ensures extra.Keys !! ScopeNames(TargetOfAll(asts).value) ==>
              && (r.Texts? <==> AllDisciplined(asts, env, host))
              && (r.RenderFailed? ==> exists ast :: ast in asts && !DisciplinedAnyway(ast, {}, extra, host))
    ensures r.Texts? ==> AllRendered(asts, r.texts, env, host)
    ensures r.RenderFailed? ==> FirstFailure(asts, r.error, env, host)
  {
    hide Sound, Books, Visited, AllDisciplined, DisciplinedAnyway, ScopeNames, AllRendered, FirstFailure;
    var values := resolver.FinalArguments();
    env := FinalEnv(values, extra);
    r := RenderAll(asts, values, extra, host, MemoOf(resolver.log));
    if r.RenderFailed? && extra.Keys !! ScopeNames(TargetOfAll(asts).value) {
      SomeUndisciplined(asts, extra, env, host);
    }
  }

  lemma SomeUndisciplined(asts: seq<Ast>, extra: Env, env: Env, host: Host)
    requires !AllDisciplined(asts, env, host) && Within(extra, env)
    ensures exists ast :: ast in asts && !DisciplinedAnyway(ast, {}, extra, host)
  {
    var ast :| ast in asts && !Disciplined(ast, {}, env, true, host);
    if DisciplinedAnyway(ast, {}, extra, host) {
      AnywayIsDisciplined(ast, {}, extra, env, host);
    }
  }

  /** `texts` are the templates rendered with these arguments. */
  ghost predicate AllRendered(asts: seq<Ast>, texts: seq<string>, env: Env, host: Host) {
    && |texts| == |asts|
    && forall i | 0 <= i < |asts| :: Rendered(asts[i], env, host) == Success(texts[i])
  }

  /** Some template fails with this error, and those before it render. */
  ghost predicate FirstFailure(asts: seq<Ast>, error: RenderError, env: Env, host: Host) {
    exists k | 0 <= k < |asts| ::
      Rendered(asts[k], env, host) == Failure(error) && forall i | 0 <= i < k :: Rendered(asts[i], env, host).Success?
  }

  /** `render_templates`: one dictionary of arguments serves all templates. */
  method RenderAll(asts: seq<Ast>, values: map<string, string>, extra: Env, host: Host, ghost memo: Memo)
    returns (r: Generated)
    requires TargetOfAll(asts).Some? && Visited(TargetOfAll(asts).value, memo)
    requires forall name | name in memo ::
               !memo[name].Failed? && name in values && values[name] == ValueOf(name, memo[name])
    ensures r.Texts? || r.RenderFailed?
    ensures extra.Keys !! ScopeNames(TargetOfAll(asts).value) ==>
              (r.Texts? <==> AllDisciplined(asts, FinalEnv(values, extra), host))
    ensures r.Texts? ==> AllRendered(asts, r.texts, FinalEnv(values, extra), host)
    ensures r.RenderFailed? ==> FirstFailure(asts, r.error, FinalEnv(values, extra), host)
  {
    hide Visited, Rendered, Disciplined, ScopeNames, TargetOfAll;
    var env := FinalEnv(values, extra);
    ghost var switches := ScopeNames(TargetOfAll(asts).value);
    var arguments := new Arguments(env);
    var texts := [];
    for i := 0 to |asts|
      invariant arguments.bindings == env
      invariant |texts| == i
      invariant forall k | 0 <= k < i :: Rendered(asts[k], env, host) == Success(texts[k])
      invariant extra.Keys !! switches ==> forall k | 0 <= k < i :: Disciplined(asts[k], {}, env, true, host)
    {
      var text := RenderAst(asts[i], arguments, host);
      if extra.Keys !! switches {
        assert Provides(env, memo, switches);
        ValidatedRenders(asts, asts[i], memo, env, host);
      }
      if text.Failure? {
        assert asts[i] in asts;
        return RenderFailed(text.error);
      }
      texts := texts + [text.value];
    }
    r := Texts(texts);
  }
}
