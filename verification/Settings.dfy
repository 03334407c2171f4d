/** What the resolver of gen/internals.py works from, and what one name means given the
    outcomes of others. Nothing here says in which order names are worked out. */
module Settings {
  import opened Wrappers
  import opened Targets

  /** A calculation or a validation: its result, an AssertionError, or any other exception. */
  datatype CalcResult = Calculated(value: string) | Rejected | LateBound | Crashed

  datatype Verdict = Accepts | Rejects | Crashes

  datatype SetterValue =
    | Fixed(text: string)
    | LateExpression(expression: string)
    | Callable(names: set<string>, compute: map<string, string> -> CalcResult)

  datatype Setter = Setter(value: SetterValue, isOptional: bool, conditions: seq<(string, string)>, isUser: bool) {
    function Parameters(): set<string> {
      if value.Callable? then value.names else {}
    }

    function Call(kwargs: map<string, string>): CalcResult {
      match value
      case Fixed(text) => Calculated(text)
      case LateExpression(_) => LateBound
      case Callable(_, compute) => compute(kwargs)
    }
  }

  /** A validation over several parameters. */
  datatype MultiCheck = MultiCheck(names: set<string>, checks: seq<map<string, string> -> Verdict>)

  datatype Config = Config(
    setters: map<string, seq<Setter>>,
    validators: map<string, seq<string -> Verdict>>,
    multiChecks: seq<MultiCheck>,
    targets: seq<Target>)

  function SettersOf(config: Config, name: string): seq<Setter> {
    if name in config.setters then config.setters[name] else []
  }

  /** The names the setters of `name` may look at. */
  ghost function Deps(config: Config, name: string): set<string> {
    set setter, dep | setter in SettersOf(config, name) && dep in DepsOfSetter(setter) :: dep
  }

  function DepsOfSetter(setter: Setter): set<string> {
    setter.Parameters() + set condition | condition in setter.conditions :: condition.0
  }

  // ---------------------------------------------------------------- validation

  /** Checks are tried in order, and the first that does not accept decides. */
  function FirstVerdict<T>(checks: seq<T -> Verdict>, value: T): Verdict {
    if checks == [] then Accepts
    else
      var verdict := checks[0](value);
      if verdict == Accepts then FirstVerdict(checks[1..], value) else verdict
  }

  /** `yield_validates`: every switch over `name`, at any depth, handles `value`. */
  predicate Allowed(target: Target, name: string, value: string)
    decreases target
  {
    forall scope | scope in target.scopes :: AllowedByScope(scope, target.scopes[scope], name, value)
  }

  predicate AllowedByScope(scopeName: string, scope: Scope, name: string, value: string)
    decreases scope
  {
    && (scopeName == name ==> value in scope.cases)
    && forall choice | choice in scope.cases :: Allowed(scope.cases[choice], name, value)
  }

  function ValidateSingle(config: Config, name: string, value: string): Verdict {
    var verdict := if name in config.validators then FirstVerdict(config.validators[name], value) else Accepts;
    if verdict != Accepts then verdict
    else if forall target | target in config.targets :: Allowed(target, name, value) then Accepts
    else Rejects
  }

  // ---------------------------------------------------------------- outcomes

  /** Why a name ended in an error. Unset names go to the resolver's `_unset`, Reported and
      Cyclic ones to its `_errors`, and Skipped ones are silent: a name they need has an error. */
  datatype Cause = Unset | Reported | Cyclic | Skipped

  datatype Outcome = Resolved(value: string) | Late | Failed(cause: Cause)

  const PLACEHOLDER_START := "LATE_BIND_PLACEHOLDER_START_"
  const PLACEHOLDER_END := "_LATE_BIND_PLACEHOLDER_END"

  function Placeholder(name: string): string {
    PLACEHOLDER_START + name + PLACEHOLDER_END
  }

  /** `Resolvable.value` of a name that is not in error. */
  function ValueOf(name: string, outcome: Outcome): string
    requires !outcome.Failed?
  {
    if outcome.Late? then Placeholder(name) else outcome.value
  }

  // ---------------------------------------------------------------- the meaning of one name

  /** Outcomes known so far. */
  type Memo = imap<string, Outcome>

  ghost predicate Agrees(names: set<string>, small: Memo, large: Memo) {
    forall name | name in names && name in small :: name in large && large[name] == small[name]
  }

  datatype Truth = Holds | Fails | Raises | Unknown

  /** Conditions are tried from left to right, and the first false one decides. */
  ghost function ConditionsMet(conditions: seq<(string, string)>, memo: Memo): Truth {
    if conditions == [] then Holds
    else
      var last := conditions[|conditions| - 1];
      var before := ConditionsMet(conditions[..|conditions| - 1], memo);
      if before != Holds then before
      else if last.0 !in memo then Unknown
      else if memo[last.0].Failed? then Raises
      else if ValueOf(last.0, memo[last.0]) == last.1 then Holds
      else Fails
  }

  datatype Selection = Setters(setters: seq<Setter>) | Raised | Undecided

  /** The setters whose conditions hold. */
  ghost function Feasible(setters: seq<Setter>, memo: Memo): Selection {
    if setters == [] then Setters([])
    else
      var last := setters[|setters| - 1];
      match Feasible(setters[..|setters| - 1], memo)
      case Raised => Raised
      case Undecided => Undecided
      case Setters(before) =>
        match ConditionsMet(last.conditions, memo)
        case Holds => Setters(before + [last])
        case Fails => Setters(before)
        case Raises => Raised
        case Unknown => Undecided
  }

  function Musts(setters: seq<Setter>): seq<Setter> {
    if setters == [] then []
    else
      var last := setters[|setters| - 1];
      Musts(setters[..|setters| - 1]) + if last.isOptional then [] else [last]
  }

  ghost predicate HasLateParameter(setter: Setter, memo: Memo) {
    exists name :: name in setter.Parameters() && name in memo && memo[name] == Late
  }

  ghost predicate KnownParameters(setter: Setter, memo: Memo) {
    forall name | name in setter.Parameters() :: name in memo
  }

  /** Drop the setters that take a late parameter. */
  ghost function WithoutLate(setters: seq<Setter>, memo: Memo): Selection {
    if setters == [] then Setters([])
    else
      var last := setters[|setters| - 1];
      match WithoutLate(setters[..|setters| - 1], memo)
      case Raised => Raised
      case Undecided => Undecided
      case Setters(before) =>
        if HasLateParameter(last, memo) then Setters(before)
        else if KnownParameters(last, memo) then Setters(before + [last])
        else Undecided
  }

  /** What the calculation of a name comes to: an outcome, an exception that escapes the
      resolver, or nothing yet because a name it needs is missing from the memo. */
  datatype Ruling = Is(outcome: Outcome) | Aborts | Pending

  ghost function Step(config: Config, name: string, memo: Memo): Ruling {
    match Feasible(SettersOf(config, name), memo)
    case Undecided => Pending
    case Raised => Is(Failed(Skipped))
    case Setters(feasible) => Choose(config, name, feasible, memo)
  }

  ghost function Choose(config: Config, name: string, feasible: seq<Setter>, memo: Memo): Ruling {
    if feasible == [] then Is(Failed(Unset))
    else if |feasible| == 1 then Single(config, name, feasible, memo)
    else
      var musts := Musts(feasible);
      if musts == [] then Aborts
      else if |musts| == 1 then Single(config, name, musts, memo)
      else
        match WithoutLate(musts, memo)
        case Undecided => Pending
        case Raised => Pending
        case Setters(remaining) => Single(config, name, remaining, memo)
  }

  ghost function Single(config: Config, name: string, remaining: seq<Setter>, memo: Memo): Ruling {
    if |remaining| > 1 then Is(Failed(Reported))
    else if remaining == [] then Aborts
    else Apply(config, name, remaining[0], memo)
  }

  ghost function Apply(config: Config, name: string, setter: Setter, memo: Memo): Ruling {
    if HasLateParameter(setter, memo) then Is(Late)
    else if !KnownParameters(setter, memo) then Pending
    else if exists p :: p in setter.Parameters() && memo[p].Failed? then Is(Failed(Skipped))
    else Evaluate(config, name, setter, map p | p in setter.Parameters() :: ValueOf(p, memo[p]))
  }

  function Evaluate(config: Config, name: string, setter: Setter, kwargs: map<string, string>): Ruling {
    match setter.Call(kwargs)
    case LateBound => Is(Late)
    case Rejected => Is(Failed(Reported))
    case Crashed => Aborts
    case Calculated(value) =>
      match ValidateSingle(config, name, value)
      case Accepts => Is(Resolved(value))
      case Rejects => Is(Failed(Reported))
      case Crashes => Aborts
  }

  // ---------------------------------------------------------------- a ruling is final

  lemma {:induction false} ConditionsMonotone(conditions: seq<(string, string)>, small: Memo, large: Memo)
    requires Agrees(set c | c in conditions :: c.0, small, large)
    requires ConditionsMet(conditions, small) != Unknown
    ensures ConditionsMet(conditions, large) == ConditionsMet(conditions, small)
  {
    if conditions != [] {
      var init, last := conditions[..|conditions| - 1], conditions[|conditions| - 1];
      assert last in conditions && last.0 in (set c | c in conditions :: c.0);
      assert forall c | c in init :: c in conditions;
      ConditionsMonotone(init, small, large);
    }
  }

  lemma {:induction false} FeasibleMonotone(setters: seq<Setter>, small: Memo, large: Memo)
    requires forall setter | setter in setters :: Agrees(DepsOfSetter(setter), small, large)
    requires !Feasible(setters, small).Undecided?
    ensures Feasible(setters, large) == Feasible(setters, small)
  {
    if setters != [] {
      var init, last := setters[..|setters| - 1], setters[|setters| - 1];
      FeasibleMonotone(init, small, large);
      if Feasible(init, small).Setters? {
        assert last in setters;
        ConditionsMonotone(last.conditions, small, large);
      }
    }
  }

  lemma {:induction false} FeasibleAreSetters(setters: seq<Setter>, memo: Memo)
    requires Feasible(setters, memo).Setters?
    ensures forall setter | setter in Feasible(setters, memo).setters ::
              setter in setters && ConditionsMet(setter.conditions, memo) == Holds
  {
    if setters != [] {
      FeasibleAreSetters(setters[..|setters| - 1], memo);
    }
  }

  lemma {:induction false} MustsAreSetters(setters: seq<Setter>)
    ensures forall setter :: setter in Musts(setters) <==> setter in setters && !setter.isOptional
  {
    if setters != [] {
      var init, last := setters[..|setters| - 1], setters[|setters| - 1];
      MustsAreSetters(init);
      assert setters == init + [last];
    }
  }

  lemma {:induction false} WithoutLateAreSetters(setters: seq<Setter>, memo: Memo)
    ensures !WithoutLate(setters, memo).Raised?
    ensures WithoutLate(setters, memo).Setters? ==>
              forall setter | setter in WithoutLate(setters, memo).setters :: setter in setters
  {
    if setters != [] {
      WithoutLateAreSetters(setters[..|setters| - 1], memo);
    }
  }

  lemma ParametersMonotone(setter: Setter, small: Memo, large: Memo)
    requires Agrees(DepsOfSetter(setter), small, large)
    ensures KnownParameters(setter, small) ==> KnownParameters(setter, large)
    ensures HasLateParameter(setter, small) ==> HasLateParameter(setter, large)
    ensures KnownParameters(setter, small) && HasLateParameter(setter, large) ==> HasLateParameter(setter, small)
  {
    if KnownParameters(setter, small) && HasLateParameter(setter, large) {
      var p :| p in setter.Parameters() && p in large && large[p] == Late;
      assert p in small;
    }
  }

  lemma {:induction false} WithoutLateMonotone(setters: seq<Setter>, small: Memo, large: Memo)
    requires forall setter | setter in setters :: Agrees(DepsOfSetter(setter), small, large)
    requires WithoutLate(setters, small).Setters?
    ensures WithoutLate(setters, large) == WithoutLate(setters, small)
  {
    if setters != [] {
      WithoutLateMonotone(setters[..|setters| - 1], small, large);
      ParametersMonotone(setters[|setters| - 1], small, large);
    }
  }

  lemma ApplyMonotone(config: Config, name: string, setter: Setter, small: Memo, large: Memo)
    requires Agrees(DepsOfSetter(setter), small, large)
    requires Apply(config, name, setter, small) != Pending
    ensures Apply(config, name, setter, large) == Apply(config, name, setter, small)
  {
    ParametersMonotone(setter, small, large);
    if !HasLateParameter(setter, small) {
      assert forall p | p in setter.Parameters() :: p in small && large[p] == small[p];
      if !exists p :: p in setter.Parameters() && small[p].Failed? {
        assert (map p | p in setter.Parameters() :: ValueOf(p, small[p]))
            == (map p | p in setter.Parameters() :: ValueOf(p, large[p]));
      }
    }
  }

  /** Later outcomes never change a ruling: it depends on the memo at the name's dependencies only,
      and not on names that were never looked at. */
  lemma StepMonotone(config: Config, name: string, small: Memo, large: Memo)
    requires Agrees(Deps(config, name), small, large)
    requires Step(config, name, small) != Pending
    ensures Step(config, name, large) == Step(config, name, small)
  {
    var setters := SettersOf(config, name);
    forall setter | setter in setters
      ensures Agrees(DepsOfSetter(setter), small, large)
    {
      assert DepsOfSetter(setter) <= Deps(config, name);
    }
    FeasibleMonotone(setters, small, large);
    if Feasible(setters, small).Setters? {
      var feasible := Feasible(setters, small).setters;
      FeasibleAreSetters(setters, small);
      ChooseMonotone(config, name, feasible, small, large);
    }
  }

  lemma ChooseMonotone(config: Config, name: string, feasible: seq<Setter>, small: Memo, large: Memo)
    requires forall setter | setter in feasible :: Agrees(DepsOfSetter(setter), small, large)
    requires Choose(config, name, feasible, small) != Pending
    ensures Choose(config, name, feasible, large) == Choose(config, name, feasible, small)
  {
    MustsAreSetters(feasible);
    var musts := Musts(feasible);
    if |feasible| == 1 {
      SingleMonotone(config, name, feasible, small, large);
    } else if |musts| == 1 {
      SingleMonotone(config, name, musts, small, large);
    } else if |feasible| > 1 && |musts| > 1 {
      WithoutLateAreSetters(musts, small);
      WithoutLateMonotone(musts, small, large);
      SingleMonotone(config, name, WithoutLate(musts, small).setters, small, large);
    }
  }

  lemma SingleMonotone(config: Config, name: string, remaining: seq<Setter>, small: Memo, large: Memo)
    requires forall setter | setter in remaining :: Agrees(DepsOfSetter(setter), small, large)
    requires Single(config, name, remaining, small) != Pending
    ensures Single(config, name, remaining, large) == Single(config, name, remaining, small)
  {
    if |remaining| == 1 {
      assert remaining[0] in remaining;
      ApplyMonotone(config, name, remaining[0], small, large);
    }
  }
}
