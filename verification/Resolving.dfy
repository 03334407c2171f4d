/** The depth-first, memoising resolver of gen/internals.py.

    `Resolver` keeps the source's fields, and a ghost log of the order in which names were
    finalised. Its methods promise that the log is sound; what a sound log proves is in Journal. */
module Resolving {
  import opened Wrappers
  import opened Targets
  import opened Settings
  import opened Journal

  datatype Resolvable = Unresolved | Finalised(outcome: Outcome)

  /** How a call ends: normally, with the CalculatorError of a cycle, or with an exception
      that no handler of the resolver stops. */
  datatype Exit = Returned | CycleFound | Aborted

  datatype NameExit = Value(value: string) | Skip | NameAborted

  datatype SelectExit = Selected(setters: seq<Setter>) | SelectSkips | SelectAborted

  datatype LateExit = NoneLate | SomeLate | LateCycle | LateAborted

  datatype GatherExit = Gathered(kwargs: map<string, string>) | GatherSkips | GatherAborted

  datatype CalculateExit = Outcome(outcome: Outcome) | CalculateAborted

  // ---------------------------------------------------------------- state invariants

  ghost predicate Tracks(arguments: map<string, Resolvable>, memo: Memo, stack: seq<string>) {
    && (forall name :: name in arguments <==> name in memo || name in stack)
    && (forall name | name in memo :: name !in stack && arguments[name] == Finalised(memo[name]))
    && (forall name | name in stack :: arguments[name] == Unresolved)
  }

  ghost predicate Books(errors: set<string>, unset: set<string>, late: set<string>, memo: Memo) {
    && (forall name :: name in errors <==> name in memo && memo[name] in {Failed(Reported), Failed(Cyclic)})
    && (forall name :: name in unset <==> name in memo && memo[name] == Failed(Unset))
    && (forall name :: name in late <==> name in memo && memo[name] == Late)
  }

  ghost predicate Distinct(names: seq<string>) {
    names != [] ==> names[|names| - 1] !in names[..|names| - 1] && Distinct(names[..|names| - 1])
  }

  ghost predicate Grows(small: Memo, large: Memo) {
    forall name | name in small :: name in large && large[name] == small[name]
  }

  /** A finalised resolvable never changes. */
  ghost predicate Kept(before: map<string, Resolvable>, after: map<string, Resolvable>) {
    forall name | name in before && before[name].Finalised? :: name in after && after[name] == before[name]
  }

  /** Why the resolver aborts, by what this run has finalised so far: some name needs itself, or the
      calculation of some name now ends in an exception that is not an AssertionError, or its
      setters contradict each other. */
  ghost predicate Blame(config: Config, log: Log) {
    || (exists name :: OnCycle(config, name))
    || (exists name :: Step(config, name, MemoOf(log)) == Aborts)
  }

  ghost function Elements(names: seq<string>): set<string> {
    set name | name in names
  }

  lemma CycleOnStack(config: Config, stack: seq<string>, name: string)
    requires stack != [] && Linked(config, stack)
    requires name in stack && name in Deps(config, stack[|stack| - 1])
    ensures OnCycle(config, stack[|stack| - 1])
  {
    hide Linked, Deps;
    var k :| 0 <= k < |stack| && stack[k] == name;
    var path := stack[k..];
    LinkedDrop(config, stack, k);
    assert path[|path| - 1] == stack[|stack| - 1] && path[0] == name;
    assert Cycle(config, path);
    assert path[|path| - 1] in path;
  }

  lemma LinkedPush(config: Config, stack: seq<string>, name: string)
    requires Linked(config, stack)
    requires stack != [] ==> name in Deps(config, stack[|stack| - 1])
    ensures Linked(config, stack + [name])
  {
    assert (stack + [name])[..|stack + [name]| - 1] == stack;
  }

  lemma TracksPop(arguments: map<string, Resolvable>, memo: Memo, stack: seq<string>, outcome: Outcome)
    requires Tracks(arguments, memo, stack) && Distinct(stack) && stack != []
    ensures var name := stack[|stack| - 1];
            && name !in memo
            && Tracks(arguments[name := Finalised(outcome)], memo[name := outcome], stack[..|stack| - 1])
  {
    var rest, name := stack[..|stack| - 1], stack[|stack| - 1];
    SplitLast(stack);
    assert name !in rest;
  }

  lemma SplitLast(stack: seq<string>)
    requires stack != []
    ensures var rest, last := stack[..|stack| - 1], stack[|stack| - 1];
            last in stack && forall other :: other in stack <==> other in rest || other == last
  {
    assert stack == stack[..|stack| - 1] + [stack[|stack| - 1]];
  }

  lemma BooksPop(
      errors: set<string>, unset: set<string>, late: set<string>, memo: Memo, name: string, outcome: Outcome)
    requires Books(errors, unset, late, memo) && name !in memo
    ensures Books(if outcome in {Failed(Reported), Failed(Cyclic)} then errors + {name} else errors,
                  if outcome == Failed(Unset) then unset + {name} else unset,
                  if outcome == Late then late + {name} else late,
                  memo[name := outcome])
  {
  }

  // ---------------------------------------------------------------- walking the targets

  /** Every name the target needs was finalised, down the case that each switch selects. */
  ghost predicate Visited(target: Target, memo: Memo)
    decreases target
  {
    && (forall name | name in target.variables :: name in memo)
    && forall name | name in target.scopes :: VisitedScope(name, target.scopes[name], memo)
  }

  ghost predicate VisitedScope(name: string, scope: Scope, memo: Memo)
    decreases scope
  {
    && name in memo
    && (!memo[name].Failed? ==>
          && ValueOf(name, memo[name]) in scope.cases
          && Visited(scope.cases[ValueOf(name, memo[name])], memo))
  }

  lemma {:induction false} VisitedMonotone(target: Target, small: Memo, large: Memo)
    requires Visited(target, small) && Grows(small, large)
    ensures Visited(target, large)
    decreases target
  {
    forall name | name in target.scopes
      ensures VisitedScope(name, target.scopes[name], large)
    {
      VisitedScopeMonotone(name, target.scopes[name], small, large);
    }
  }

  lemma {:induction false} VisitedScopeMonotone(name: string, scope: Scope, small: Memo, large: Memo)
    requires VisitedScope(name, scope, small) && Grows(small, large)
    ensures VisitedScope(name, scope, large)
    decreases scope
  {
    if !small[name].Failed? {
      VisitedMonotone(scope.cases[ValueOf(name, small[name])], small, large);
    }
  }

  /** Validation lets through only the values that the switches of this target handle. */
  ghost predicate Guarded(config: Config, target: Target) {
    forall name, value | AllowedByAll(config, name, value) :: Allowed(target, name, value)
  }

  ghost predicate AllowedByAll(config: Config, name: string, value: string) {
    forall target | target in config.targets :: Allowed(target, name, value)
  }

  lemma CaseIsGuarded(config: Config, target: Target, name: string, value: string)
    requires Guarded(config, target) && name in target.scopes && value in target.scopes[name].cases
    ensures Guarded(config, target.scopes[name].cases[value])
  {
    forall other, choice | AllowedByAll(config, other, choice)
      ensures Allowed(target.scopes[name].cases[value], other, choice)
    {
      assert AllowedByScope(name, target.scopes[name], other, choice);
    }
  }

  lemma AllowedIsCase(config: Config, target: Target, name: string, value: string)
    requires Guarded(config, target) && name in target.scopes
    ensures AllowedByAll(config, name, value) ==> value in target.scopes[name].cases
  {
    if AllowedByAll(config, name, value) {
      assert AllowedByScope(name, target.scopes[name], name, value);
    }
  }

  lemma FailedIsVisited(name: string, scope: Scope, memo: Memo)
    requires name in memo && memo[name].Failed?
    ensures VisitedScope(name, scope, memo)
  {
  }

  /** A name this run found late is switched on, and its placeholder is no case of the switch. */
  ghost predicate LateSwitch(config: Config, log: Log) {
    exists name ::
      && name in MemoOf(log)
      && MemoOf(log)[name] == Late
      && !AllowedByAll(config, name, Placeholder(name))
  }

  lemma ValueIsGuarded(config: Config, log: Log, name: string)
    requires Sound(config, log) && name in MemoOf(log) && !MemoOf(log)[name].Failed?
    ensures AllowedByAll(config, name, ValueOf(name, MemoOf(log)[name])) || LateSwitch(config, log)
  {
    if MemoOf(log)[name].Resolved? {
      ResolvedIsValidated(config, log, name);
    }
  }

  /** The name itself and all it needs. */
  ghost function Needed(config: Config, name: string): set<string> {
    {name} + set other | other in Universe(config) && Needs(config, name, other)
  }

  lemma NeedsOn(config: Config, name: string, other: string, dep: string)
    requires Needs(config, name, other) && dep in Deps(config, other)
    ensures Needs(config, name, dep)
  {
    hide Deps, Linked;
    var path :| Leads(config, path, name, other);
    LinkedPush(config, path, dep);
    assert Leads(config, path + [dep], name, dep);
  }

  lemma NeededIsClosed(config: Config, name: string)
    ensures Closed(config, Needed(config, name))
  {
    hide Deps, Needs, Universe;
    forall other, dep | other in Needed(config, name) && dep in Deps(config, other)
      ensures dep in Needed(config, name)
    {
      DepIsInUniverse(config, other, dep);
      if other == name {
        NeedsDep(config, name, dep);
      } else {
        NeedsOn(config, name, other, dep);
      }
    }
  }

  // ---------------------------------------------------------------- what the targets ask for

  /** Every switch of the route has the value of the case that the route takes. */
  ghost predicate Travelled(memo: Memo, route: Route) {
    forall i | 0 <= i < |route| ::
      var (name, value) := route[i];
      name in memo && !memo[name].Failed? && ValueOf(name, memo[name]) == value
  }

  /** A variable or a switch of the target at the end of such a route. */
  ghost predicate AskedAt(target: Target, route: Route, memo: Memo, name: string) {
    && Travelled(memo, route)
    && Reached(target, route).Some?
    && name in Reached(target, route).value.variables + Reached(target, route).value.scopes.Keys
  }

  /** The target asks for the name, or for one that needs it. */
  ghost predicate Demanded(config: Config, target: Target, memo: Memo, name: string) {
    exists route, asked :: AskedAt(target, route, memo, asked) && name in Needed(config, asked)
  }

  ghost predicate DemandedByOne(config: Config, memo: Memo, name: string) {
    exists target <- config.targets :: Demanded(config, target, memo, name)
  }

  lemma DemandedLater(config: Config, target: Target, small: Memo, large: Memo, name: string)
    requires Demanded(config, target, small, name) && Grows(small, large)
    ensures Demanded(config, target, large, name)
  {
    hide Reached, Needed, ValueOf;
    var route, asked :| AskedAt(target, route, small, asked) && name in Needed(config, asked);
    assert AskedAt(target, route, large, asked);
  }

  lemma DemandedAtOnce(config: Config, target: Target, memo: Memo, asked: string, name: string)
    requires asked in target.variables + target.scopes.Keys && name in Needed(config, asked)
    ensures Demanded(config, target, memo, name)
  {
    hide Needed;
    assert AskedAt(target, [], memo, asked);
  }

  lemma DemandedInCase(config: Config, target: Target, switch: string, memo: Memo, name: string)
    requires switch in target.scopes && switch in memo && !memo[switch].Failed?
    requires var value := ValueOf(switch, memo[switch]);
             value in target.scopes[switch].cases
             && Demanded(config, target.scopes[switch].cases[value], memo, name)
    ensures Demanded(config, target, memo, name)
  {
    hide Needed, ValueOf;
    var value := ValueOf(switch, memo[switch]);
    var inner := target.scopes[switch].cases[value];
    var route, asked :| AskedAt(inner, route, memo, asked) && name in Needed(config, asked);
    var longer := [(switch, value)] + route;
    assert longer[1..] == route;
    assert forall i | 0 < i < |longer| :: longer[i] == route[i - 1];
    assert AskedAt(target, longer, memo, asked);
  }

  /** Whether a multi-argument validation is run, and with what. */
  ghost predicate Applicable(check: MultiCheck, memo: Memo) {
    forall name | name in check.names :: name in memo && !memo[name].Failed?
  }

  ghost function MultiVerdict(check: MultiCheck, memo: Memo): Verdict
    requires Applicable(check, memo)
  {
    FirstVerdict(check.checks, map name | name in check.names :: ValueOf(name, memo[name]))
  }

  ghost predicate RejectedBy(check: MultiCheck, memo: Memo) {
    Applicable(check, memo) && MultiVerdict(check, memo) == Rejects
  }

  ghost predicate CrashedBy(check: MultiCheck, memo: Memo) {
    Applicable(check, memo) && MultiVerdict(check, memo) == Crashes
  }

  ghost predicate CrashingCheck(config: Config, memo: Memo) {
    exists check :: check in config.multiChecks && CrashedBy(check, memo)
  }

  /** Arguments gathered so far, with the values their names were finalised to. */
  ghost predicate ValuesHeld(kwargs: map<string, string>, memo: Memo) {
    forall p | p in kwargs :: p in memo && !memo[p].Failed? && kwargs[p] == ValueOf(p, memo[p])
  }

  lemma NoValuesHeld(memo: Memo)
    ensures ValuesHeld(map[], memo)
  {
  }

  lemma OneMoreValueHeld(kwargs: map<string, string>, small: Memo, large: Memo, p: string, text: string)
    requires ValuesHeld(kwargs, small) && Grows(small, large)
    requires p in large && !large[p].Failed? && text == ValueOf(p, large[p])
    ensures ValuesHeld(kwargs[p := text], large)
  {
    hide ValueOf;
  }

  lemma AllValuesHeld(kwargs: map<string, string>, setter: Setter, memo: Memo)
    requires ValuesHeld(kwargs, memo) && kwargs.Keys == setter.Parameters()
    ensures KnownParameters(setter, memo) && forall p | p in setter.Parameters() :: !memo[p].Failed?
    ensures kwargs == map p | p in setter.Parameters() :: ValueOf(p, memo[p])
  {
    hide ValueOf;
  }

  class Resolver {
    const config: Config
    var arguments: map<string, Resolvable>
    var errors: set<string>
    var setErrors: set<set<string>>
    var unset: set<string>
    var late: set<string>
    var evalStack: seq<string>
    ghost var log: Log

    constructor (config: Config)
      ensures this.config == config
      ensures Valid() && evalStack == [] && log == [] && setErrors == {}
    {
      this.config := config;
      arguments, errors, setErrors, unset, late, evalStack := map[], {}, {}, {}, {}, [];
      log := [];
    }

    ghost predicate Valid()
      reads this
    {
      && Sound(config, log)
      && Linked(config, evalStack)
      && Distinct(evalStack)
      && Tracks(arguments, MemoOf(log), evalStack)
      && Books(errors, unset, late, MemoOf(log))
    }

    /** The next name looked at is a dependency of the one being calculated. */
    ghost predicate Reachable(name: string, universe: set<string>)
      reads this
    {
      && Closed(config, universe)
      && name in universe
      && (evalStack != [] ==> name in Deps(config, evalStack[|evalStack| - 1]))
    }

    ghost predicate Calculating(name: string, universe: set<string>)
      reads this
    {
      && Closed(config, universe)
      && name in universe
      && evalStack != []
      && evalStack[|evalStack| - 1] == name
    }

    /** What every call promises that does not abort: only names of this universe are finalised. */
    twostate predicate Continues(universe: set<string>)
      reads this
    {
      && GoesOn()
      && forall name | name in MemoOf(log) :: name in old(MemoOf(log)) || name in universe
    }

    twostate predicate GoesOn()
      reads this
    {
      && Valid()
      && evalStack == old(evalStack)
      && setErrors == old(setErrors)
      && old(log) <= log
      && Grows(old(MemoOf(log)), MemoOf(log))
    }

    /** What is left when an exception escapes. */
    twostate predicate Broken()
      reads this
    {
      && Sound(config, log)
      && Blame(config, log)
      && forall name | name in old(evalStack) :: name in arguments && arguments[name] == Unresolved
    }

    /** `_ensure_finalized`, with `_stack_layer` inlined. */
    method EnsureFinalized(name: string, ghost universe: set<string>) returns (r: Exit)
      requires Valid() && Reachable(name, universe)
      modifies this
      ensures Kept(old(arguments), arguments)
      ensures r != Aborted ==> Continues(universe)
      ensures r == Returned ==> name in MemoOf(log)
      ensures r == CycleFound ==> evalStack != [] && OnCycle(config, evalStack[|evalStack| - 1])
      ensures r == CycleFound <==> name in old(evalStack)
      ensures r == Aborted ==> Broken()
      decreases universe - Elements(evalStack), 1
    {
      hide Step, Books;
      if name in arguments && arguments[name].Finalised? {
        return Returned;
      }
      if name in evalStack {
        CycleOnStack(config, evalStack, name);
        return CycleFound;
      }
      r := CalculateOnStack(name, universe);
    }

    /** The body of `_stack_layer`: calculate a name on top of the stack, and finalise it. */
    method CalculateOnStack(name: string, ghost universe: set<string>) returns (r: Exit)
      requires Valid() && Reachable(name, universe) && name !in arguments
      modifies this
      ensures Kept(old(arguments), arguments)
      ensures r != CycleFound
      ensures r == Returned ==> Continues(universe) && name in MemoOf(log)
      ensures r == Aborted ==> Broken()
      decreases universe - Elements(evalStack), 0
    {
      hide Step, Tracks, Books, Deps, Distinct, Linked, Sound, Blame;
      ghost var outer := evalStack;
      NotOnStack(name);
      Push(name);
      assert name in Elements(evalStack) && name in universe - Elements(outer);
      assert universe - Elements(evalStack) < universe - Elements(outer);
      var calculated := Calculate(name, universe);
      match calculated {
        case CalculateAborted =>
          arguments := arguments[name := Finalised(Failed(Reported))];
          errors := errors + {name};
          r := Aborted;
        case Outcome(outcome) =>
          Pop(name, outcome);
          assert evalStack == outer;
          r := Returned;
      }
    }

    method Push(name: string)
      requires Valid() && name !in arguments
      requires evalStack != [] ==> name in Deps(config, evalStack[|evalStack| - 1])
      modifies this
      ensures Valid() && evalStack == old(evalStack) + [name]
      ensures log == old(log) && setErrors == old(setErrors)
      ensures arguments == old(arguments)[name := Unresolved]
    {
      LinkedPush(config, evalStack, name);
      arguments := arguments[name := Unresolved];
      evalStack := evalStack + [name];
    }

    /** Finalise the name on top of the stack and take it off. */
    method Pop(name: string, outcome: Outcome)
      requires Valid() && evalStack != [] && evalStack[|evalStack| - 1] == name
      requires Justified(config, MemoOf(log), Entry(name, outcome))
      modifies this
      ensures Valid() && evalStack == old(evalStack)[..|old(evalStack)| - 1]
      ensures log == old(log) + [Entry(name, outcome)] && setErrors == old(setErrors)
      ensures Grows(old(MemoOf(log)), MemoOf(log)) && name in MemoOf(log)
      ensures arguments == old(arguments)[name := Finalised(outcome)]
    {
      hide Step, Tracks, Books, Deps, Sound, MemoOf, Justified, OnCycle;
      ghost var memo := MemoOf(log);
      TracksPop(arguments, memo, evalStack, outcome);
      BooksPop(errors, unset, late, memo, name, outcome);
      Append(config, log, Entry(name, outcome));
      log := log + [Entry(name, outcome)];
      assert MemoOf(log) == memo[name := outcome];
      arguments := arguments[name := Finalised(outcome)];
      errors := if outcome in {Failed(Reported), Failed(Cyclic)} then errors + {name} else errors;
      unset := if outcome == Failed(Unset) then unset + {name} else unset;
      late := if outcome == Late then late + {name} else late;
      evalStack := evalStack[..|evalStack| - 1];
    }

    /** `_resolve_name`: its `finally` clause turns the error of a cycle into an abort. */
    method ResolveName(name: string, ghost universe: set<string>) returns (r: NameExit)
      requires Valid() && Reachable(name, universe)
      modifies this
      ensures Kept(old(arguments), arguments)
      ensures !r.NameAborted? ==> Continues(universe) && name in MemoOf(log)
      ensures r.Skip? ==> MemoOf(log)[name].Failed?
      ensures r.Value? ==> !MemoOf(log)[name].Failed? && r.value == ValueOf(name, MemoOf(log)[name])
      ensures r.NameAborted? ==> Broken()
      decreases universe - Elements(evalStack), 2
    {
      var exit := EnsureFinalized(name, universe);
      match exit {
        case Aborted => return NameAborted;
        case CycleFound => return NameAborted;
        case Returned =>
          var outcome := arguments[name].outcome;
          if outcome.Failed? {
            return Skip;
          }
          return Value(ValueOf(name, outcome));
      }
    }

    /** `all_conditions_met`, over the conditions of one setter. */
    method CheckConditions(owner: string, setter: Setter, ghost universe: set<string>) returns (r: Truth)
      requires Valid() && Calculating(owner, universe) && DepsOfSetter(setter) <= Deps(config, owner)
      modifies this
      ensures Kept(old(arguments), arguments)
      ensures r != Unknown ==> Continues(universe) && ConditionsMet(setter.conditions, MemoOf(log)) == r
      ensures r == Unknown ==> Broken()
      decreases universe - Elements(evalStack), 4
    {
      hide Step, Tracks, Books, ConditionsMet;
      var i := 0;
      NoConditions(MemoOf(log));
      assert setter.conditions[..0] == [];
      while i < |setter.conditions|
        invariant 0 <= i <= |setter.conditions|
        invariant Continues(universe) && Kept(old(arguments), arguments)
        invariant ConditionsMet(setter.conditions[..i], MemoOf(log)) == Holds
      {
        r := CheckNextCondition(owner, setter, i, universe);
        if r == Unknown {
          return;
        }
        if r != Holds {
          FirstDecides(setter.conditions, i + 1, MemoOf(log));
          return;
        }
        i := i + 1;
      }
      assert setter.conditions[..i] == setter.conditions;
      r := Holds;
    }

    /** The next condition, when those before it hold. */
    method CheckNextCondition(owner: string, setter: Setter, i: nat, ghost universe: set<string>) returns (r: Truth)
      requires Valid() && Calculating(owner, universe) && DepsOfSetter(setter) <= Deps(config, owner)
      requires i < |setter.conditions| && ConditionsMet(setter.conditions[..i], MemoOf(log)) == Holds
      modifies this
      ensures Kept(old(arguments), arguments)
      ensures r != Unknown ==> Continues(universe) && ConditionsMet(setter.conditions[..i + 1], MemoOf(log)) == r
      ensures r == Unknown ==> Broken()
      decreases universe - Elements(evalStack), 3
    {
      hide Step, Tracks, Books, ConditionsMet;
      var (name, expected) := setter.conditions[i];
      assert (name, expected) in setter.conditions;
      assert name in DepsOfSetter(setter);
      ghost var memo := MemoOf(log);
      var value := ResolveName(name, universe);
      if value.NameAborted? {
        return Unknown;
      }
      ConditionsMonotone(setter.conditions[..i], memo, MemoOf(log));
      OneMoreCondition(setter.conditions, i, MemoOf(log));
      r := if value.Skip? then Raises else if value.value == expected then Holds else Fails;
    }

    static lemma NoConditions(memo: Memo)
      ensures ConditionsMet([], memo) == Holds
    {
    }

    static lemma OneMoreCondition(conditions: seq<(string, string)>, i: nat, memo: Memo)
      requires i < |conditions| && ConditionsMet(conditions[..i], memo) == Holds
      ensures var (name, value) := conditions[i];
              ConditionsMet(conditions[..i + 1], memo)
              == if name !in memo then Unknown
                 else if memo[name].Failed? then Raises
                 else if ValueOf(name, memo[name]) == value then Holds
                 else Fails
    {
      assert conditions[..i + 1][..i] == conditions[..i];
    }

    static lemma {:induction false} FirstDecides(conditions: seq<(string, string)>, k: nat, memo: Memo)
      requires k <= |conditions| && ConditionsMet(conditions[..k], memo) != Holds
      ensures ConditionsMet(conditions, memo) == ConditionsMet(conditions[..k], memo)
    {
      if k < |conditions| {
        var init := conditions[..|conditions| - 1];
        assert init[..k] == conditions[..k];
        FirstDecides(init, k, memo);
      } else {
        assert conditions[..k] == conditions;
      }
    }

    static lemma {:induction false} FirstRaises(setters: seq<Setter>, k: nat, memo: Memo)
      requires k <= |setters| && Feasible(setters[..k], memo).Raised?
      ensures Feasible(setters, memo).Raised?
    {
      if k < |setters| {
        var init := setters[..|setters| - 1];
        assert init[..k] == setters[..k];
        FirstRaises(init, k, memo);
      } else {
        assert setters[..k] == setters;
      }
    }

    /** `filter(all_conditions_met, ...)` over the setters of a name. */
    method SelectFeasible(name: string, ghost universe: set<string>) returns (r: SelectExit)
      requires Valid() && Calculating(name, universe)
      modifies this
      ensures Kept(old(arguments), arguments)
      ensures !r.SelectAborted? ==> Continues(universe)
      ensures r.Selected? ==> Feasible(SettersOf(config, name), MemoOf(log)) == Setters(r.setters)
      ensures r.SelectSkips? ==> Feasible(SettersOf(config, name), MemoOf(log)).Raised?
      ensures r.SelectAborted? ==> Broken()
      decreases universe - Elements(evalStack), 5
    {
      hide Step, Tracks, Books, Linked, Distinct, Sound, Blame, ConditionsMet;
      var setters := SettersOf(config, name);
      var feasible := [];
      var i := 0;
      while i < |setters|
        invariant 0 <= i <= |setters|
        invariant Continues(universe) && Kept(old(arguments), arguments)
        invariant Feasible(setters[..i], MemoOf(log)) == Setters(feasible)
      {
        assert setters[i] in setters;
        assert DepsOfSetter(setters[i]) <= Deps(config, name);
        ghost var memo := MemoOf(log);
        var truth := CheckConditions(name, setters[i], universe);
        if truth == Unknown {
          return SelectAborted;
        }
        FeasibleMonotone(setters[..i], memo, MemoOf(log));
        assert setters[..i + 1][..i] == setters[..i];
        if truth == Raises {
          FirstRaises(setters, i + 1, MemoOf(log));
          return SelectSkips;
        }
        if truth == Holds {
          feasible := feasible + [setters[i]];
        }
        i := i + 1;
      }
      assert setters[..i] == setters;
      r := Selected(feasible);
    }

    /** `has_no_late_parameters`: it walks a set, in an order of Python's choosing, and stops at
        the first late parameter. */
    method FindLate(owner: string, setter: Setter, ghost universe: set<string>) returns (r: LateExit)
      requires Valid() && Calculating(owner, universe) && DepsOfSetter(setter) <= Deps(config, owner)
      modifies this
      ensures Kept(old(arguments), arguments)
      ensures r != LateAborted ==> Continues(universe)
      ensures r == NoneLate ==> KnownParameters(setter, MemoOf(log)) && !HasLateParameter(setter, MemoOf(log))
      ensures r == SomeLate ==> HasLateParameter(setter, MemoOf(log))
      ensures r == LateCycle ==> OnCycle(config, owner)
      ensures r == LateAborted ==> Broken()
      decreases universe - Elements(evalStack), 3
    {
      hide Step, Tracks, Books, Linked, Distinct, Sound, Deps, Blame;
      var todo := setter.Parameters();
      while todo != {}
        invariant todo <= setter.Parameters()
        invariant Continues(universe) && Kept(old(arguments), arguments)
        invariant forall p | p in setter.Parameters() - todo :: p in MemoOf(log) && MemoOf(log)[p] != Late
        decreases todo
      {
        var p :| p in todo;
        var exit := EnsureFinalized(p, universe);
        match exit {
          case Aborted => return LateAborted;
          case CycleFound => return LateCycle;
          case Returned =>
            FinalisedAsLogged(p);
            if arguments[p].outcome == Late {
              return SomeLate;
            }
            todo := todo - {p};
        }
      }
      r := NoneLate;
    }

    /** `list(filter(has_no_late_parameters, ...))`. */
    method DropLate(owner: string, setters: seq<Setter>, ghost universe: set<string>)
      returns (r: LateExit, kept: seq<Setter>)
      requires Valid() && Calculating(owner, universe)
      requires forall setter | setter in setters :: DepsOfSetter(setter) <= Deps(config, owner)
      modifies this
      ensures Kept(old(arguments), arguments)
      ensures r != LateAborted ==> Continues(universe)
      ensures r != SomeLate
      ensures r == NoneLate ==> WithoutLate(setters, MemoOf(log)) == Setters(kept)
      ensures r == LateCycle ==> OnCycle(config, owner)
      ensures r == LateAborted ==> Broken()
      decreases universe - Elements(evalStack), 4
    {
      hide Step, Tracks, Books;
      kept := [];
      var i := 0;
      while i < |setters|
        invariant 0 <= i <= |setters|
        invariant Continues(universe) && Kept(old(arguments), arguments)
        invariant WithoutLate(setters[..i], MemoOf(log)) == Setters(kept)
      {
        assert setters[i] in setters;
        ghost var memo := MemoOf(log);
        r := FindLate(owner, setters[i], universe);
        if r == LateAborted || r == LateCycle {
          return;
        }
        WithoutLateMonotone(setters[..i], memo, MemoOf(log));
        assert setters[..i + 1][..i] == setters[..i];
        if r == NoneLate {
          kept := kept + [setters[i]];
        }
        i := i + 1;
      }
      assert setters[..i] == setters;
      r := NoneLate;
    }

    /** `_calculate`. */
    method Calculate(name: string, ghost universe: set<string>) returns (r: CalculateExit)
      requires Valid() && Calculating(name, universe)
      modifies this
      ensures Kept(old(arguments), arguments)
      ensures r.Outcome? ==> Continues(universe) && Justified(config, MemoOf(log), Entry(name, r.outcome))
      ensures r.CalculateAborted? ==> Broken()
      decreases universe - Elements(evalStack), 9
    {
      var selection := SelectFeasible(name, universe);
      match selection {
        case SelectAborted => return CalculateAborted;
        case SelectSkips => return Outcome(Failed(Skipped));
        case Selected(feasible) =>
          FeasibleAreSetters(SettersOf(config, name), MemoOf(log));
          r := ChooseAmong(name, feasible, universe);
      }
    }

    /** `_calculate`, once the conditions are known. */
    method ChooseAmong(name: string, feasible: seq<Setter>, ghost universe: set<string>) returns (r: CalculateExit)
      requires Valid() && Calculating(name, universe)
      requires Feasible(SettersOf(config, name), MemoOf(log)) == Setters(feasible)
      requires forall setter | setter in feasible :: setter in SettersOf(config, name)
      modifies this
      ensures Kept(old(arguments), arguments)
      ensures r.Outcome? ==> Continues(universe) && Justified(config, MemoOf(log), Entry(name, r.outcome))
      ensures r.CalculateAborted? ==> Broken()
      decreases universe - Elements(evalStack), 8
    {
      hide Books, Deps;
      if feasible == [] {
        return Outcome(Failed(Unset));
      }
      if |feasible| == 1 {
        assert Chosen(config, name, MemoOf(log)) == Some(feasible[0]);
        r := ApplySetter(name, feasible[0], universe);
        return;
      }
      var musts := Musts(feasible);
      if musts == [] {
        assert Step(config, name, MemoOf(log)) == Aborts;
        return CalculateAborted;
      }
      if |musts| == 1 {
        assert Chosen(config, name, MemoOf(log)) == Some(musts[0]);
        r := ApplySetter(name, musts[0], universe);
        return;
      }
      r := SettleMusts(name, feasible, universe);
    }

    lemma NotOnStack(name: string)
      requires Valid() && name !in arguments
      ensures name !in evalStack
    {
    }

    lemma FinalisedAsLogged(name: string)
      requires Valid() && name in MemoOf(log)
      ensures name in arguments && arguments[name] == Finalised(MemoOf(log)[name])
    {
    }

    lemma StackIsUnresolved()
      requires Valid()
      ensures forall name | name in evalStack :: name in arguments && arguments[name] == Unresolved
    {
    }

    /** `_calculate`, when several musts are feasible. */
    method SettleMusts(name: string, feasible: seq<Setter>, ghost universe: set<string>) returns (r: CalculateExit)
      requires Valid() && Calculating(name, universe)
      requires Feasible(SettersOf(config, name), MemoOf(log)) == Setters(feasible)
      requires forall setter | setter in feasible :: setter in SettersOf(config, name)
      requires |feasible| > 1 && |Musts(feasible)| > 1
      modifies this
      ensures Kept(old(arguments), arguments)
      ensures r.Outcome? ==> Continues(universe) && Justified(config, MemoOf(log), Entry(name, r.outcome))
      ensures r.CalculateAborted? ==> Broken()
      decreases universe - Elements(evalStack), 7
    {
      hide Tracks, Books, Step, Chosen, Sound, Linked, Distinct, WithoutLate, Single, Feasible, OnCycle, Blame;
      MustsAreSetters(feasible);
      ghost var memo := MemoOf(log);
      assert forall setter | setter in SettersOf(config, name) :: DepsOfSetter(setter) <= Deps(config, name);
      var exit, remaining := DropLate(name, Musts(feasible), universe);
      if exit == LateAborted {
        return CalculateAborted;
      }
      if exit == LateCycle {
        return Outcome(Failed(Cyclic));
      }
      FeasibleMonotone(SettersOf(config, name), memo, MemoOf(log));
      MustsSettle(config, name, MemoOf(log), feasible, remaining);
      r := SettleRemaining(name, remaining, universe);
    }

    /** `_calculate`, when late parameters have withdrawn some musts. */
    method SettleRemaining(name: string, remaining: seq<Setter>, ghost universe: set<string>)
      returns (r: CalculateExit)
      requires Valid() && Calculating(name, universe)
      requires Step(config, name, MemoOf(log)) == Single(config, name, remaining, MemoOf(log))
      requires Chosen(config, name, MemoOf(log)) == if |remaining| == 1 then Some(remaining[0]) else None
      modifies this
      ensures Kept(old(arguments), arguments)
      ensures r.Outcome? ==> Continues(universe) && Justified(config, MemoOf(log), Entry(name, r.outcome))
      ensures r.CalculateAborted? ==> Broken()
      decreases universe - Elements(evalStack), 6
    {
      hide Tracks, Books, Step, Chosen, Sound, Linked, Distinct, Apply, OnCycle;
      if |remaining| > 1 {
        return Outcome(Failed(Reported));
      }
      if remaining == [] {
        StackIsUnresolved();
        return CalculateAborted;
      }
      r := ApplySetter(name, remaining[0], universe);
    }

    /** `_calculate`, once one setter is left. */
    method ApplySetter(name: string, setter: Setter, ghost universe: set<string>) returns (r: CalculateExit)
      requires Valid() && Calculating(name, universe)
      requires Chosen(config, name, MemoOf(log)) == Some(setter)
      modifies this
      ensures Kept(old(arguments), arguments)
      ensures r.Outcome? ==> Continues(universe) && Justified(config, MemoOf(log), Entry(name, r.outcome))
      ensures r.CalculateAborted? ==> Broken()
      decreases universe - Elements(evalStack), 5
    {
      hide Chosen, Step, Tracks, Books, Justified;
      var exit := CheckLate(name, setter, universe);
      match exit {
        case LateAborted => r := CalculateAborted;
        case LateCycle => r := Outcome(Failed(Cyclic));
        case SomeLate => r := Outcome(Late);
        case NoneLate => r := ApplyKnown(name, setter, universe);
      }
    }

    /** Is a parameter of the one setter late? */
    method CheckLate(name: string, setter: Setter, ghost universe: set<string>) returns (exit: LateExit)
      requires Valid() && Calculating(name, universe)
      requires Chosen(config, name, MemoOf(log)) == Some(setter)
      modifies this
      ensures Kept(old(arguments), arguments)
      ensures exit != LateAborted ==> Continues(universe) && Chosen(config, name, MemoOf(log)) == Some(setter)
      ensures exit == NoneLate ==> KnownParameters(setter, MemoOf(log)) && !HasLateParameter(setter, MemoOf(log))
      ensures exit == SomeLate ==> Justified(config, MemoOf(log), Entry(name, Late))
      ensures exit == LateCycle ==> Justified(config, MemoOf(log), Entry(name, Failed(Cyclic)))
      ensures exit == LateAborted ==> Broken()
      decreases universe - Elements(evalStack), 4
    {
      ghost var memo := MemoOf(log);
      ChosenDecides(config, name, memo, memo);
      assert DepsOfSetter(setter) <= Deps(config, name);
      hide Chosen, Step, Apply, Tracks, Books, KnownParameters, HasLateParameter, Linked, Distinct, Sound;
      exit := FindLate(name, setter, universe);
      if exit != LateAborted {
        ChosenDecides(config, name, memo, MemoOf(log));
        if exit == SomeLate {
          LateDecides(config, name, setter, MemoOf(log));
        }
      }
    }

    static lemma LateDecides(config: Config, name: string, setter: Setter, memo: Memo)
      requires HasLateParameter(setter, memo)
      ensures Apply(config, name, setter, memo) == Is(Late)
    {
    }

    /** `_calculate`, once no parameter of the setter is late. */
    method ApplyKnown(name: string, setter: Setter, ghost universe: set<string>) returns (r: CalculateExit)
      requires Valid() && Calculating(name, universe)
      requires Chosen(config, name, MemoOf(log)) == Some(setter)
      requires KnownParameters(setter, MemoOf(log)) && !HasLateParameter(setter, MemoOf(log))
      modifies this
      ensures Kept(old(arguments), arguments)
      ensures r.Outcome? ==> Continues(universe) && Justified(config, MemoOf(log), Entry(name, r.outcome))
      ensures r.CalculateAborted? ==> Broken()
      decreases universe - Elements(evalStack), 4
    {
      ghost var memo := MemoOf(log);
      ChosenDecides(config, name, memo, memo);
      assert DepsOfSetter(setter) <= Deps(config, name);
      hide Chosen, Step, Tracks, Books;
      var gathered := GatherArguments(name, setter, universe);
      if gathered.GatherAborted? {
        return CalculateAborted;
      }
      ParametersMonotone(setter, memo, MemoOf(log));
      ChosenDecides(config, name, memo, MemoOf(log));
      match gathered {
        case GatherSkips => r := Outcome(Failed(Skipped));
        case Gathered(kwargs) => r := CallSetter(name, setter, kwargs);
      }
    }

    /** The values of a setter's parameters, none of which is late. */
    method GatherArguments(owner: string, setter: Setter, ghost universe: set<string>) returns (r: GatherExit)
      requires Valid() && Calculating(owner, universe) && DepsOfSetter(setter) <= Deps(config, owner)
      modifies this
      ensures Kept(old(arguments), arguments)
      ensures !r.GatherAborted? ==> Continues(universe)
      ensures r.GatherSkips? ==> exists p :: p in setter.Parameters() && p in MemoOf(log) && MemoOf(log)[p].Failed?
      ensures r.Gathered? ==>
                && KnownParameters(setter, MemoOf(log))
                && (forall p | p in setter.Parameters() :: !MemoOf(log)[p].Failed?)
                && r.kwargs == map p | p in setter.Parameters() :: ValueOf(p, MemoOf(log)[p])
      ensures r.GatherAborted? ==> Broken()
      decreases universe - Elements(evalStack), 3
    {
      hide Step, Tracks, Books, ValuesHeld, Linked, Distinct, Sound, Deps, Blame;
      var kwargs: map<string, string> := map[];
      NoValuesHeld(MemoOf(log));
      var todo := setter.Parameters();
      while todo != {}
        invariant todo <= setter.Parameters()
        invariant Continues(universe) && Kept(old(arguments), arguments)
        invariant kwargs.Keys == setter.Parameters() - todo
        invariant ValuesHeld(kwargs, MemoOf(log))
        decreases todo
      {
        var p :| p in todo;
        ghost var memo := MemoOf(log);
        var value := ResolveName(p, universe);
        match value {
          case NameAborted => return GatherAborted;
          case Skip => return GatherSkips;
          case Value(text) =>
            OneMoreValueHeld(kwargs, memo, MemoOf(log), p, text);
            kwargs := kwargs[p := text];
            todo := todo - {p};
        }
      }
      AllValuesHeld(kwargs, setter, MemoOf(log));
      r := Gathered(kwargs);
    }

    /** The call of `calc` and the single-argument validation of its result. */
    method CallSetter(name: string, setter: Setter, kwargs: map<string, string>) returns (r: CalculateExit)
      requires Valid()
      requires Step(config, name, MemoOf(log)) == Evaluate(config, name, setter, kwargs)
      ensures r.Outcome? ==> Justified(config, MemoOf(log), Entry(name, r.outcome))
      ensures r.CalculateAborted? ==> Blame(config, log)
    {
      var result := setter.Call(kwargs);
      match result {
        case LateBound => r := Outcome(Late);
        case Rejected => r := Outcome(Failed(Reported));
        case Crashed => r := CalculateAborted;
        case Calculated(value) =>
          var verdict := ValidateSingle(config, name, value);
          match verdict {
            case Accepts => r := Outcome(Resolved(value));
            case Rejects => r := Outcome(Failed(Reported));
            case Crashes => r := CalculateAborted;
          }
      }
    }

    // -------------------------------------------------------------- the whole run

    /** A call from outside any calculation: it cannot meet a cycle of its own. */
    method FinalizeTop(name: string) returns (ok: bool)
      requires Valid() && evalStack == []
      modifies this
      ensures Kept(old(arguments), arguments)
      ensures ok ==> Continues(Needed(config, name)) && name in MemoOf(log)
      ensures !ok ==> Sound(config, log) && Blame(config, log)
    {
      NeededIsClosed(config, name);
      var exit := EnsureFinalized(name, Needed(config, name));
      ok := exit == Returned;
    }

    method FinalizeAll(names: set<string>) returns (ok: bool)
      requires Valid() && evalStack == []
      modifies this
      ensures Kept(old(arguments), arguments)
      ensures ok ==> GoesOn() && forall name | name in names :: name in MemoOf(log)
      ensures ok ==> forall other | other in MemoOf(log) ::
                other in old(MemoOf(log)) || exists name <- names :: other in Needed(config, name)
      ensures !ok ==> Sound(config, log) && Blame(config, log)
    {
      hide Step, Tracks, Books, Needed, Sound;
      var todo := names;
      while todo != {}
        invariant todo <= names
        invariant GoesOn() && Kept(old(arguments), arguments)
        invariant forall other | other in MemoOf(log) ::
                    other in old(MemoOf(log)) || exists name <- names :: other in Needed(config, name)
        invariant forall name | name in names - todo :: name in MemoOf(log)
        decreases todo
      {
        var name :| name in todo;
        ok := FinalizeTop(name);
        if !ok {
          return;
        }
        todo := todo - {name};
      }
      ok := true;
    }

    /** Nothing is finalised that the target does not ask for. */
    twostate predicate OnlyDemanded(target: Target)
      reads this
    {
      forall name | name in MemoOf(log) ::
        name in old(MemoOf(log)) || Demanded(config, target, MemoOf(log), name)
    }

    /** `_calculate_target`. */
    method CalculateTarget(target: Target) returns (ok: bool)
      requires Valid() && evalStack == [] && Guarded(config, target)
      modifies this
      ensures Kept(old(arguments), arguments)
      ensures ok ==> GoesOn() && Visited(target, MemoOf(log)) && OnlyDemanded(target)
      ensures !ok ==> Sound(config, log) && (Blame(config, log) || LateSwitch(config, log))
      decreases target
    {
      hide Step, Tracks, Books, Demanded, Needed, Sound;
      ok := FinalizeAll(target.variables);
      if !ok {
        return;
      }
      forall name | name in MemoOf(log) && name !in old(MemoOf(log))
        ensures Demanded(config, target, MemoOf(log), name)
      {
        var asked :| asked in target.variables && name in Needed(config, asked);
        DemandedAtOnce(config, target, MemoOf(log), asked, name);
      }
      var todo := target.scopes.Keys;
      while todo != {}
        invariant todo <= target.scopes.Keys
        invariant GoesOn() && Kept(old(arguments), arguments) && OnlyDemanded(target)
        invariant forall name | name in target.variables :: name in MemoOf(log)
        invariant forall name | name in target.scopes.Keys - todo ::
                    VisitedScope(name, target.scopes[name], MemoOf(log))
        decreases todo
      {
        var name :| name in todo;
        ghost var memo := MemoOf(log);
        ok := CalculateScope(target, name);
        if !ok {
          return;
        }
        forall other | other in memo
          ensures other in old(MemoOf(log)) || Demanded(config, target, MemoOf(log), other)
        {
          if Demanded(config, target, memo, other) {
            DemandedLater(config, target, memo, MemoOf(log), other);
          }
        }
        forall done | done in target.scopes.Keys - todo
          ensures VisitedScope(done, target.scopes[done], MemoOf(log))
        {
          VisitedScopeMonotone(done, target.scopes[done], memo, MemoOf(log));
        }
        todo := todo - {name};
      }
      ok := true;
    }

    /** One switch: finalise its variable, then calculate the case that its value selects. */
    method CalculateScope(target: Target, name: string) returns (ok: bool)
      requires Valid() && evalStack == [] && Guarded(config, target) && name in target.scopes
      modifies this
      ensures Kept(old(arguments), arguments)
      ensures ok ==> GoesOn() && VisitedScope(name, target.scopes[name], MemoOf(log)) && OnlyDemanded(target)
      ensures !ok ==> Sound(config, log) && (Blame(config, log) || LateSwitch(config, log))
      decreases target, 1
    {
      hide Step, Books, Demanded, Needed, Sound, Linked, Distinct, LateSwitch, Blame, Guarded, VisitedScope;
      ok := FinalizeTop(name);
      if !ok {
        return;
      }
      ghost var memo := MemoOf(log);
      var outcome := arguments[name].outcome;
      if outcome.Failed? {
        FailedIsVisited(name, target.scopes[name], memo);
      } else {
        ValueIsGuarded(config, log, name);
        var value := ValueOf(name, outcome);
        AllowedIsCase(config, target, name, value);
        if value !in target.scopes[name].cases {
          return false;
        }
        ok := CalculateCase(target, name, value);
        if !ok {
          return;
        }
      }
      forall other | other in memo && other !in old(MemoOf(log))
        ensures Demanded(config, target, MemoOf(log), other)
      {
        DemandedAtOnce(config, target, MemoOf(log), name, other);
      }
    }

    method CalculateCase(target: Target, name: string, value: string) returns (ok: bool)
      requires Valid() && evalStack == [] && Guarded(config, target)
      requires name in target.scopes && value in target.scopes[name].cases
      requires name in MemoOf(log) && !MemoOf(log)[name].Failed? && ValueOf(name, MemoOf(log)[name]) == value
      modifies this
      ensures Kept(old(arguments), arguments)
      ensures ok ==> GoesOn() && VisitedScope(name, target.scopes[name], MemoOf(log)) && OnlyDemanded(target)
      ensures !ok ==> Sound(config, log) && (Blame(config, log) || LateSwitch(config, log))
      decreases target, 0
    {
      hide Step, Tracks, Books, Demanded, Sound;
      var inner := target.scopes[name].cases[value];
      CaseIsGuarded(config, target, name, value);
      ok := CalculateTarget(inner);
      if ok {
        forall other | other in MemoOf(log) && other !in old(MemoOf(log))
          ensures Demanded(config, target, MemoOf(log), other)
        {
          DemandedInCase(config, target, name, MemoOf(log), other);
        }
      }
    }

    /** `resolve`: false when an exception escapes. */
    method Resolve() returns (ok: bool)
      requires Valid() && evalStack == [] && setErrors == {}
      modifies this
      ensures Kept(old(arguments), arguments)
      ensures ok ==> Valid() && evalStack == []
      ensures ok ==> forall target | target in config.targets :: Visited(target, MemoOf(log))
      ensures ok ==> forall name | name in MemoOf(log) ::
                name in old(MemoOf(log)) || DemandedByOne(config, MemoOf(log), name)
      ensures ok ==> forall names :: names in setErrors <==>
                exists check :: check in config.multiChecks && check.names == names && RejectedBy(check, MemoOf(log))
      ensures ok ==> !CrashingCheck(config, MemoOf(log))
      ensures !ok ==>
                && Sound(config, log)
                && (Blame(config, log) || LateSwitch(config, log) || CrashingCheck(config, MemoOf(log)))
    {
      hide Step, Tracks, Books, Demanded, Sound;
      var i := 0;
      while i < |config.targets|
        invariant 0 <= i <= |config.targets|
        invariant GoesOn() && Kept(old(arguments), arguments) && setErrors == {}
        invariant forall name | name in MemoOf(log) ::
                    name in old(MemoOf(log)) || DemandedByOne(config, MemoOf(log), name)
        invariant forall target | target in config.targets[..i] :: Visited(target, MemoOf(log))
      {
        ghost var memo := MemoOf(log);
        assert config.targets[i] in config.targets;
        ok := CalculateTarget(config.targets[i]);
        if !ok {
          return;
        }
        forall name | name in memo && name !in old(MemoOf(log))
          ensures DemandedByOne(config, MemoOf(log), name)
        {
          var target :| target in config.targets && Demanded(config, target, memo, name);
          DemandedLater(config, target, memo, MemoOf(log), name);
        }
        forall target | target in config.targets[..i]
          ensures Visited(target, MemoOf(log))
        {
          VisitedMonotone(target, memo, MemoOf(log));
        }
        i := i + 1;
      }
      ok := ValidateMultiple();
    }

    /** `yield_multi_argument_validate_errors`: it reads no value that is not finalised. */
    method ValidateMultiple() returns (ok: bool)
      requires Valid() && evalStack == [] && setErrors == {}
      modifies this`setErrors
      ensures ok ==> forall names :: names in setErrors <==>
                exists check :: check in config.multiChecks && check.names == names && RejectedBy(check, MemoOf(log))
      ensures ok <==> !CrashingCheck(config, MemoOf(log))
    {
      hide Step, Books;
      var i := 0;
      while i < |config.multiChecks|
        invariant 0 <= i <= |config.multiChecks|
        invariant forall names :: names in setErrors <==>
                    exists k :: 0 <= k < i && config.multiChecks[k].names == names
                      && RejectedBy(config.multiChecks[k], MemoOf(log))
        invariant forall k | 0 <= k < i :: !CrashedBy(config.multiChecks[k], MemoOf(log))
      {
        var verdict := ValidateSet(config.multiChecks[i]);
        if verdict == Crashes {
          assert config.multiChecks[i] in config.multiChecks;
          return false;
        }
        if verdict == Rejects {
          setErrors := setErrors + {config.multiChecks[i].names};
        }
        i := i + 1;
      }
      ok := true;
    }

    method ValidateSet(check: MultiCheck) returns (verdict: Verdict)
      requires Valid() && evalStack == []
      ensures verdict == Rejects <==> RejectedBy(check, MemoOf(log))
      ensures verdict == Crashes <==> CrashedBy(check, MemoOf(log))
    {
      hide Step, Books;
      var kwargs: map<string, string> := map[];
      var todo := check.names;
      while todo != {}
        invariant todo <= check.names
        invariant kwargs.Keys == check.names - todo
        invariant forall name | name in kwargs ::
                    && name in MemoOf(log)
                    && !MemoOf(log)[name].Failed?
                    && kwargs[name] == ValueOf(name, MemoOf(log)[name])
        decreases todo
      {
        var name :| name in todo;
        if name !in arguments || arguments[name].outcome.Failed? {
          return Accepts;
        }
        kwargs := kwargs[name := ValueOf(name, arguments[name].outcome)];
        todo := todo - {name};
      }
      assert kwargs == map name | name in check.names :: ValueOf(name, MemoOf(log)[name]);
      verdict := FirstVerdict(check.checks, kwargs);
    }

    // -------------------------------------------------------------- results

    /** `status_dict` reports ok. */
    predicate StatusOk()
      reads this
    {
      errors == {} && setErrors == {} && unset == {}
    }

    /** Status ok is exact: every resolvable ever created is resolved or late, and no set was rejected. */
    lemma OkMeansNoFailure()
      requires Valid() && evalStack == []
      ensures StatusOk() <==> setErrors == {} && forall name | name in MemoOf(log) :: !MemoOf(log)[name].Failed?
      ensures StatusOk() ==>
                forall name | name in arguments :: arguments[name].Finalised? && !arguments[name].outcome.Failed?
    {
      hide Step;
      if StatusOk() {
        forall name | name in MemoOf(log) && MemoOf(log)[name].Failed?
          ensures MemoOf(log)[name] == Failed(Skipped)
        {
          assert name !in errors && name !in unset;
          match MemoOf(log)[name].cause {
            case Unset =>
            case Reported =>
            case Cyclic =>
            case Skipped =>
          }
        }
        NothingRecordedNothingFailed(config, log);
      } else {
        NothingFailedNothingRecorded();
      }
    }

    lemma NothingFailedNothingRecorded()
      requires Valid()
      ensures (errors == {} && unset == {}) || exists name :: name in MemoOf(log) && MemoOf(log)[name].Failed?
    {
      hide Sound, Linked, Distinct, Tracks;
      if errors != {} {
        var name :| name in errors;
        assert MemoOf(log)[name].Failed?;
      } else if unset != {} {
        var name :| name in unset;
        assert MemoOf(log)[name].Failed?;
      }
    }

    /** `get_final_arguments`: a resolved value, or the placeholder of a late one. */
    method FinalArguments() returns (values: map<string, string>)
      requires Valid() && evalStack == [] && StatusOk()
      ensures values.Keys == arguments.Keys
      ensures forall name | name in MemoOf(log) :: !MemoOf(log)[name].Failed?
      ensures forall name | name in MemoOf(log) :: name in values && values[name] == ValueOf(name, MemoOf(log)[name])
    {
      hide Step, Books;
      OkMeansNoFailure();
      values := map name | name in arguments :: ValueOf(name, arguments[name].outcome);
    }
  }
}
