/** What a ruling comes to, told by the setters of the table itself: whose conditions hold, which
    of them are musts, and which take a late parameter. */
module Rulings {
  import opened Wrappers
  import opened Targets
  import opened Settings
  import opened Journal

  // ---------------------------------------------------------------- conditions

  ghost predicate Met(condition: (string, string), memo: Memo) {
    && condition.0 in memo
    && !memo[condition.0].Failed?
    && ValueOf(condition.0, memo[condition.0]) == condition.1
  }

  ghost predicate AllMet(conditions: seq<(string, string)>, memo: Memo) {
    forall i | 0 <= i < |conditions| :: Met(conditions[i], memo)
  }

  ghost predicate FirstUnmet(conditions: seq<(string, string)>, k: nat, memo: Memo) {
    k < |conditions| && !Met(conditions[k], memo) && forall i | 0 <= i < k :: Met(conditions[i], memo)
  }

  /** Some condition is not met, and the first such one has another value. */
  ghost predicate Refuted(conditions: seq<(string, string)>, memo: Memo) {
    exists k: nat ::
      FirstUnmet(conditions, k, memo) && conditions[k].0 in memo && !memo[conditions[k].0].Failed?
  }

  /** The first condition that is not met is on a name in error. */
  ghost predicate Stumbles(conditions: seq<(string, string)>, memo: Memo) {
    exists k: nat :: FirstUnmet(conditions, k, memo) && conditions[k].0 in memo && memo[conditions[k].0].Failed?
  }

  ghost predicate Settled(conditions: seq<(string, string)>, memo: Memo) {
    AllMet(conditions, memo) || Refuted(conditions, memo)
  }

  /** The last condition matters only if all before it are met. */
  lemma LastUnmet(conditions: seq<(string, string)>, memo: Memo)
    requires conditions != []
    ensures var n := |conditions| - 1;
            var init, last := conditions[..n], conditions[n];
            && (AllMet(conditions, memo) <==> AllMet(init, memo) && Met(last, memo))
            && (forall k: nat | k < n :: FirstUnmet(init, k, memo) <==> FirstUnmet(conditions, k, memo))
            && (FirstUnmet(conditions, n, memo) <==> AllMet(init, memo) && !Met(last, memo))
  {
    hide Met;
    var init := conditions[..|conditions| - 1];
    assert forall i | 0 <= i < |init| :: init[i] == conditions[i];
  }

  lemma {:induction false} ConditionsMean(conditions: seq<(string, string)>, memo: Memo)
    ensures ConditionsMet(conditions, memo) == Holds <==> AllMet(conditions, memo)
    ensures ConditionsMet(conditions, memo) == Fails <==> Refuted(conditions, memo)
    ensures ConditionsMet(conditions, memo) == Raises <==> Stumbles(conditions, memo)
  {
    hide Met, ConditionsMet, AllMet, FirstUnmet;
    if conditions == [] {
      NoConditions(memo);
    } else {
      var init := conditions[..|conditions| - 1];
      ConditionsMean(init, memo);
      LastUnmet(conditions, memo);
      LastCondition(conditions, memo);
      UnmetInRange(conditions, memo);
      UnmetInRange(init, memo);
      assert forall k: nat | k < |init| :: init[k] == conditions[k];
    }
  }

  lemma NoConditions(memo: Memo)
    ensures ConditionsMet([], memo) == Holds && AllMet([], memo) && forall k: nat :: !FirstUnmet([], k, memo)
  {
  }

  lemma UnmetInRange(conditions: seq<(string, string)>, memo: Memo)
    ensures forall k: nat :: FirstUnmet(conditions, k, memo) ==> k < |conditions| && !AllMet(conditions, memo)
    ensures forall j: nat, k: nat :: FirstUnmet(conditions, j, memo) && FirstUnmet(conditions, k, memo) ==> j == k
  {
    hide Met;
  }

  lemma LastCondition(conditions: seq<(string, string)>, memo: Memo)
    requires conditions != []
    ensures var init, last := conditions[..|conditions| - 1], conditions[|conditions| - 1];
            ConditionsMet(conditions, memo)
            == if ConditionsMet(init, memo) != Holds then ConditionsMet(init, memo)
               else if Met(last, memo) then Holds
               else if last.0 !in memo then Unknown
               else if memo[last.0].Failed? then Raises
               else Fails
  {
    hide ValueOf;
  }

  // ---------------------------------------------------------------- picking setters

  /** `some` is what `all` has at these places, in their order. */
  ghost predicate Picks(all: seq<Setter>, at: seq<nat>, some: seq<Setter>) {
    && |some| == |at|
    && (forall k | 0 <= k < |at| :: at[k] < |all| && some[k] == all[at[k]])
    && (forall j, k | 0 <= j < k < |at| :: at[j] < at[k])
  }

  lemma PickOneMore(all: seq<Setter>, at: seq<nat>, some: seq<Setter>, place: nat)
    requires Picks(all, at, some) && place < |all| && forall i <- at :: i < place
    ensures Picks(all, at + [place], some + [all[place]])
    ensures forall i: nat :: i in at + [place] <==> i in at || i == place
  {
    assert forall k | 0 <= k < |at| :: at[k] in at;
  }

  /** All but the last place. */
  lemma PicksInit(all: seq<Setter>, at: seq<nat>, some: seq<Setter>)
    requires Picks(all, at, some) && some != []
    ensures |at| == |some|
    ensures var init, place := at[..|at| - 1], at[|at| - 1];
            && Picks(all, init, some[..|some| - 1])
            && place < |all| && some[|some| - 1] == all[place] && (forall i <- init :: i < place)
            && forall i: nat :: i in at <==> i in init || i == place
  {
    assert at == at[..|at| - 1] + [at[|at| - 1]];
  }

  lemma NothingPickedAtAll(all: seq<Setter>, at: seq<nat>, some: seq<Setter>)
    requires Picks(all, at, some) && some == []
    ensures at == [] && Picks(all, [], [])
  {
  }

  lemma PicksInRange(all: seq<Setter>, at: seq<nat>, some: seq<Setter>)
    requires Picks(all, at, some)
    ensures forall i <- at :: i < |all|
  {
  }

  /** The feasible setters are exactly those whose conditions all hold, each in its place, as long as
      every setter is settled; if one is not, there is no choice to make. */
  lemma {:induction false} FeasiblePicked(setters: seq<Setter>, memo: Memo) returns (at: seq<nat>)
    ensures Feasible(setters, memo).Setters?
       <==> forall i | 0 <= i < |setters| :: Settled(setters[i].conditions, memo)
    ensures Feasible(setters, memo).Raised? <==>
              exists k | 0 <= k < |setters| ::
                Stumbles(setters[k].conditions, memo) && forall i | 0 <= i < k :: Settled(setters[i].conditions, memo)
    ensures Feasible(setters, memo).Setters? ==>
              && Picks(setters, at, Feasible(setters, memo).setters)
              && forall i: nat :: i in at <==> i < |setters| && AllMet(setters[i].conditions, memo)
  {
    hide ConditionsMet, AllMet, Refuted, Stumbles;
    at := [];
    if setters != [] {
      var init, last := setters[..|setters| - 1], setters[|setters| - 1];
      at := FeasiblePicked(init, memo);
      ConditionsMean(last.conditions, memo);
      assert forall i | 0 <= i < |init| :: init[i] == setters[i];
      assert Feasible(init, memo).Setters? ==> forall i <- at :: i < |init|;
      if Feasible(init, memo).Setters? {
        assert Picks(setters, at, Feasible(init, memo).setters);
        if ConditionsMet(last.conditions, memo) == Holds {
          PickOneMore(setters, at, Feasible(init, memo).setters, |init|);
          at := at + [|init|];
        }
      }
    }
  }

  lemma {:induction false} MustsPicked(all: seq<Setter>, at: seq<nat>, some: seq<Setter>) returns (places: seq<nat>)
    requires Picks(all, at, some)
    ensures Picks(all, places, Musts(some))
    ensures forall i: nat :: i in places <==> i in at && !all[i].isOptional
    decreases |some|
  {
    hide Picks;
    PicksInRange(all, at, some);
    places := [];
    if some == [] {
      NothingPickedAtAll(all, at, some);
    } else {
      PicksInit(all, at, some);
      var init, place := at[..|at| - 1], at[|at| - 1];
      var fewer := Musts(some[..|some| - 1]);
      assert fewer + [] == fewer;
      places := MustsPicked(all, init, some[..|some| - 1]);
      if !all[place].isOptional {
        PickOneMore(all, places, fewer, place);
        places := places + [place];
      }
    }
  }

  /** Whether a setter is late is known. */
  ghost predicate LatenessKnown(setter: Setter, memo: Memo) {
    HasLateParameter(setter, memo) || KnownParameters(setter, memo)
  }

  lemma {:induction false} SurvivorsPicked(all: seq<Setter>, at: seq<nat>, some: seq<Setter>, memo: Memo)
    returns (places: seq<nat>)
    requires Picks(all, at, some) && forall i <- at :: LatenessKnown(all[i], memo)
    ensures WithoutLate(some, memo).Setters? && Picks(all, places, WithoutLate(some, memo).setters)
    ensures forall i: nat :: i in places <==> i in at && !HasLateParameter(all[i], memo)
    decreases |some|
  {
    hide HasLateParameter, KnownParameters, Picks;
    PicksInRange(all, at, some);
    places := [];
    if some == [] {
      NothingPickedAtAll(all, at, some);
    } else {
      PicksInit(all, at, some);
      var init, place := at[..|at| - 1], at[|at| - 1];
      places := SurvivorsPicked(all, init, some[..|some| - 1], memo);
      assert place in at && LatenessKnown(all[place], memo);
      if !HasLateParameter(all[place], memo) {
        PickOneMore(all, places, WithoutLate(some[..|some| - 1], memo).setters, place);
        places := places + [place];
      }
    }
  }

  lemma TwoAreIn(at: seq<nat>)
    requires |at| > 1 && forall j, k | 0 <= j < k < |at| :: at[j] < at[k]
    ensures at[0] in at && at[1] in at && at[0] < at[1]
  {
  }

  lemma PickedOnce(at: seq<nat>, place: nat)
    requires place in at && (forall i <- at :: i == place) && forall j, k | 0 <= j < k < |at| :: at[j] < at[k]
    ensures at == [place]
  {
    assert forall k | 0 <= k < |at| :: at[k] in at;
    if |at| > 1 {
      TwoAreIn(at);
      assert false;
    }
  }

  lemma FirstIsIn(at: seq<nat>)
    requires at != []
    ensures at[0] in at
  {
  }

  lemma NothingPicked(at: seq<nat>)
    requires forall i: nat :: i !in at
    ensures at == []
  {
    if at != [] {
      FirstIsIn(at);
      assert false;
    }
  }

  lemma PickedTwice(at: seq<nat>, a: nat, b: nat)
    requires a in at && b in at && a != b
    ensures |at| > 1
  {
  }

  // ---------------------------------------------------------------- rulings

  /** Every condition that has to be looked at is decided, and on a name without error. */
  ghost predicate Decided(config: Config, name: string, memo: Memo) {
    forall i | 0 <= i < |SettersOf(config, name)| :: Settled(SettersOf(config, name)[i].conditions, memo)
  }

  /** The conditions of the i-th setter of a name hold. */
  ghost predicate Candidate(config: Config, name: string, memo: Memo, i: nat) {
    i < |SettersOf(config, name)| && AllMet(SettersOf(config, name)[i].conditions, memo)
  }

  ghost predicate Must(config: Config, name: string, memo: Memo, i: nat) {
    Candidate(config, name, memo, i) && !SettersOf(config, name)[i].isOptional
  }

  ghost predicate MustsKnown(config: Config, name: string, memo: Memo) {
    forall i: nat | Must(config, name, memo, i) :: LatenessKnown(SettersOf(config, name)[i], memo)
  }

  /** A must that takes no late parameter. */
  ghost predicate Survivor(config: Config, name: string, memo: Memo, i: nat) {
    Must(config, name, memo, i) && !HasLateParameter(SettersOf(config, name)[i], memo)
  }

  lemma Candidates(config: Config, name: string, memo: Memo) returns (at: seq<nat>, feasible: seq<Setter>)
    requires Decided(config, name, memo)
    ensures Feasible(SettersOf(config, name), memo) == Setters(feasible)
    ensures Picks(SettersOf(config, name), at, feasible)
    ensures forall i: nat :: i in at <==> Candidate(config, name, memo, i)
  {
    at := FeasiblePicked(SettersOf(config, name), memo);
    feasible := Feasible(SettersOf(config, name), memo).setters;
  }

  /** No setter's conditions hold. */
  lemma NothingHolds(config: Config, name: string, memo: Memo)
    requires Decided(config, name, memo) && forall i: nat :: !Candidate(config, name, memo, i)
    ensures Step(config, name, memo) == Is(Failed(Unset))
  {
    hide Decided, Candidate;
    var at, feasible := Candidates(config, name, memo);
    NothingPicked(at);
  }

  /** A single candidate decides, must or not. */
  lemma LoneCandidate(config: Config, name: string, memo: Memo, i: nat)
    requires Decided(config, name, memo)
    requires Candidate(config, name, memo, i) && forall j: nat | Candidate(config, name, memo, j) :: j == i
    ensures Step(config, name, memo) == Apply(config, name, SettersOf(config, name)[i], memo)
  {
    hide Decided, Candidate, Apply;
    var at, feasible := Candidates(config, name, memo);
    PickedOnce(at, i);
  }

  /** Several defaults without a must contradict each other. */
  lemma DefaultsClash(config: Config, name: string, memo: Memo, i: nat, j: nat)
    requires Decided(config, name, memo)
    requires Candidate(config, name, memo, i) && Candidate(config, name, memo, j) && i != j
    requires forall k: nat :: !Must(config, name, memo, k)
    ensures Step(config, name, memo) == Aborts
  {
    hide Decided, Candidate, Apply, Feasible;
    var at, feasible := Candidates(config, name, memo);
    PickedTwice(at, i, j);
    var places := MustsPicked(SettersOf(config, name), at, feasible);
    assert forall k: nat :: k in places <==> Must(config, name, memo, k);
    NothingPicked(places);
  }

  /** One must decides alone, however many defaults stand beside it. */
  lemma MustBeatsDefaults(config: Config, name: string, memo: Memo, i: nat)
    requires Decided(config, name, memo)
    requires Must(config, name, memo, i) && forall j: nat | Must(config, name, memo, j) :: j == i
    ensures Step(config, name, memo) == Apply(config, name, SettersOf(config, name)[i], memo)
  {
    hide Decided, Candidate, Apply, Feasible;
    var at, feasible := Candidates(config, name, memo);
    var places := MustsPicked(SettersOf(config, name), at, feasible);
    assert forall k: nat :: k in places <==> Must(config, name, memo, k);
    PickedOnce(places, i);
    if |feasible| == 1 {
      assert at[0] in at && i in at;
    }
  }

  /** Several musts come down to those without a late parameter. */
  lemma Survivors(config: Config, name: string, memo: Memo, i: nat, j: nat)
    returns (places: seq<nat>, remaining: seq<Setter>)
    requires Decided(config, name, memo) && MustsKnown(config, name, memo)
    requires Must(config, name, memo, i) && Must(config, name, memo, j) && i != j
    ensures Step(config, name, memo) == Single(config, name, remaining, memo)
    ensures Picks(SettersOf(config, name), places, remaining)
    ensures forall k: nat :: k in places <==> Survivor(config, name, memo, k)
  {
    hide Decided, Candidate, Apply, Single, Feasible, HasLateParameter, KnownParameters;
    var at, feasible := Candidates(config, name, memo);
    var musts := MustsPicked(SettersOf(config, name), at, feasible);
    PickedTwice(at, i, j);
    PickedTwice(musts, i, j);
    places := SurvivorsPicked(SettersOf(config, name), musts, Musts(feasible), memo);
    remaining := WithoutLate(Musts(feasible), memo).setters;
  }

  /** Two musts are an error, in whatever order and among however many they stand, unless a late
      parameter withdraws one of them: so is a user's value for a name that must be calculated. */
  lemma MustsClash(config: Config, name: string, memo: Memo, i: nat, j: nat)
    requires Decided(config, name, memo) && MustsKnown(config, name, memo)
    requires Survivor(config, name, memo, i) && Survivor(config, name, memo, j) && i != j
    ensures Step(config, name, memo) == Is(Failed(Reported))
  {
    hide Must, Step, HasLateParameter;
    var places, remaining := Survivors(config, name, memo, i, j);
    PickedTwice(places, i, j);
  }

  /** If late parameters withdraw all musts but one, that one decides. */
  lemma LastMustDecides(config: Config, name: string, memo: Memo, i: nat, j: nat)
    requires Decided(config, name, memo) && MustsKnown(config, name, memo)
    requires Must(config, name, memo, j) && i != j
    requires Survivor(config, name, memo, i) && forall k: nat | Survivor(config, name, memo, k) :: k == i
    ensures Step(config, name, memo) == Apply(config, name, SettersOf(config, name)[i], memo)
  {
    hide Must, Step, HasLateParameter, Apply;
    var places, remaining := Survivors(config, name, memo, i, j);
    PickedOnce(places, i);
  }

  /** If they withdraw all, the resolver is left with nothing to choose and aborts. */
  lemma LateMustsWithdraw(config: Config, name: string, memo: Memo, i: nat, j: nat)
    requires Decided(config, name, memo) && MustsKnown(config, name, memo)
    requires Must(config, name, memo, i) && Must(config, name, memo, j) && i != j
    requires forall k: nat :: !Survivor(config, name, memo, k)
    ensures Step(config, name, memo) == Aborts
  {
    hide Must, Step, HasLateParameter;
    var places, remaining := Survivors(config, name, memo, i, j);
    NothingPicked(places);
  }

  // ---------------------------------------------------------------- the value of the one setter

  /** The setter itself yields the value from these arguments. */
  ghost predicate Yields(setter: Setter, kwargs: map<string, string>, result: CalcResult) {
    match setter.value
    case Fixed(text) => result == Calculated(text)
    case LateExpression(_) => result == LateBound
    case Callable(_, compute) => result == compute(kwargs)
  }

  ghost predicate ParametersResolved(setter: Setter, memo: Memo) {
    forall p | p in setter.Parameters() :: p in memo && memo[p].Resolved?
  }

  ghost function ResolvedArguments(setter: Setter, memo: Memo): map<string, string>
    requires ParametersResolved(setter, memo)
  {
    map p | p in setter.Parameters() :: memo[p].value
  }

  /** What a chosen setter comes to: late if a parameter is late, skipped if one is in error, and
      else what it computes from the resolved values, if validation accepts it. */
  lemma AppliedIff(config: Config, name: string, setter: Setter, memo: Memo)
    requires KnownParameters(setter, memo)
    ensures Apply(config, name, setter, memo) == Is(Late) <==>
              || (exists p :: p in setter.Parameters() && memo[p] == Late)
              || (ParametersResolved(setter, memo) && Yields(setter, ResolvedArguments(setter, memo), LateBound))
    ensures Apply(config, name, setter, memo) == Is(Failed(Skipped)) <==>
              && (exists p :: p in setter.Parameters() && memo[p].Failed?)
              && forall p | p in setter.Parameters() :: memo[p] != Late
    ensures forall value :: Apply(config, name, setter, memo) == Is(Resolved(value)) <==>
              && ParametersResolved(setter, memo)
              && Yields(setter, ResolvedArguments(setter, memo), Calculated(value))
              && ValidateSingle(config, name, value) == Accepts
    ensures Apply(config, name, setter, memo) == Is(Failed(Reported)) <==>
              && ParametersResolved(setter, memo)
              && (|| Yields(setter, ResolvedArguments(setter, memo), Rejected)
                  || exists value :: Yields(setter, ResolvedArguments(setter, memo), Calculated(value))
                                     && ValidateSingle(config, name, value) == Rejects)
    ensures Apply(config, name, setter, memo) == Aborts <==>
              && ParametersResolved(setter, memo)
              && (|| Yields(setter, ResolvedArguments(setter, memo), Crashed)
                  || exists value :: Yields(setter, ResolvedArguments(setter, memo), Calculated(value))
                                     && ValidateSingle(config, name, value) == Crashes)
  {
    hide ValidateSingle;
    if ParametersResolved(setter, memo) {
      assert ResolvedArguments(setter, memo) == map p | p in setter.Parameters() :: ValueOf(p, memo[p]);
      assert Apply(config, name, setter, memo) == Evaluate(config, name, setter, ResolvedArguments(setter, memo));
      YieldsCall(setter, ResolvedArguments(setter, memo));
    }
  }

  lemma YieldsCall(setter: Setter, kwargs: map<string, string>)
    ensures forall result :: Yields(setter, kwargs, result) <==> result == setter.Call(kwargs)
  {
  }

  /** Some check gives this verdict, and all before it accept. */
  ghost predicate Decides<T>(checks: seq<T -> Verdict>, value: T, verdict: Verdict) {
    && verdict != Accepts
    && exists k | 0 <= k < |checks| ::
         checks[k](value) == verdict && forall i | 0 <= i < k :: checks[i](value) == Accepts
  }

  lemma {:induction false} FirstVerdictIff<T>(checks: seq<T -> Verdict>, value: T)
    ensures FirstVerdict(checks, value) == Accepts <==> forall i | 0 <= i < |checks| :: checks[i](value) == Accepts
    ensures forall verdict :: Decides(checks, value, verdict) <==>
              verdict != Accepts && FirstVerdict(checks, value) == verdict
  {
    if checks != [] {
      var rest := checks[1..];
      FirstVerdictIff(rest, value);
      assert forall i | 0 <= i < |rest| :: rest[i] == checks[i + 1];
      assert forall i | 0 < i < |checks| :: checks[i] == rest[i - 1];
      forall verdict
        ensures Decides(checks, value, verdict) <==>
                  if checks[0](value) == Accepts then Decides(rest, value, verdict)
                  else verdict == checks[0](value)
      {
        DecidesFirst(checks, value, verdict);
      }
    }
  }

  lemma DecidesFirst<T>(checks: seq<T -> Verdict>, value: T, verdict: Verdict)
    requires checks != []
    ensures Decides(checks, value, verdict) <==>
              if checks[0](value) == Accepts then Decides(checks[1..], value, verdict)
              else verdict == checks[0](value)
  {
    var rest := checks[1..];
    if checks[0](value) == Accepts {
      if k :| 0 <= k < |rest| && rest[k](value) == verdict && verdict != Accepts
              && forall i | 0 <= i < k :: rest[i](value) == Accepts {
        assert checks[k + 1] == rest[k];
        assert forall i | 0 < i < k + 1 :: checks[i] == rest[i - 1];
      }
      if k :| 0 <= k < |checks| && checks[k](value) == verdict && verdict != Accepts
              && forall i | 0 <= i < k :: checks[i](value) == Accepts {
        assert rest[k - 1] == checks[k];
        assert forall i | 0 <= i < k - 1 :: rest[i] == checks[i + 1];
      }
    }
  }

  /** A value passes exactly when its validators accept it, and every switch over the name, at any
      depth of any target, handles it. */
  lemma ValidatedIff(config: Config, name: string, value: string)
    ensures ValidateSingle(config, name, value) == Accepts <==>
              && (name in config.validators ==>
                    forall i | 0 <= i < |config.validators[name]| :: config.validators[name][i](value) == Accepts)
              && forall target, route | target in config.targets :: Handled(target, route, name, value)
    ensures ValidateSingle(config, name, value) == Crashes <==>
              name in config.validators && Decides(config.validators[name], value, Crashes)
  {
    if name in config.validators {
      FirstVerdictIff(config.validators[name], value);
    }
    forall target | target in config.targets
      ensures Allowed(target, name, value) <==> forall route :: Handled(target, route, name, value)
    {
      AllowedIff(target, name, value);
    }
  }

  /** A switch over the name at the end of the route, if there is one, handles the value. */
  ghost predicate Handled(target: Target, route: Route, name: string, value: string) {
    Reached(target, route).Some? && name in Reached(target, route).value.scopes ==>
      value in Reached(target, route).value.scopes[name].cases
  }

  lemma AllowedIff(target: Target, name: string, value: string)
    ensures Allowed(target, name, value) <==> forall route :: Handled(target, route, name, value)
  {
    if !Allowed(target, name, value) {
      var route := FindUnhandled(target, name, value);
    }
    forall route | Allowed(target, name, value)
      ensures Handled(target, route, name, value)
    {
      AllowedIsHandled(target, route, name, value);
    }
  }

  lemma {:induction false} FindUnhandled(target: Target, name: string, value: string) returns (route: Route)
    requires !Allowed(target, name, value)
    ensures !Handled(target, route, name, value)
    decreases target
  {
    var first :| first in target.scopes && !AllowedByScope(first, target.scopes[first], name, value);
    var cases := target.scopes[first].cases;
    if first == name && value !in cases {
      route := [];
    } else {
      var choice :| choice in cases && !Allowed(cases[choice], name, value);
      var rest := FindUnhandled(cases[choice], name, value);
      route := [(first, choice)] + rest;
      assert route[1..] == rest;
    }
  }

  lemma {:induction false} AllowedIsHandled(target: Target, route: Route, name: string, value: string)
    requires Allowed(target, name, value)
    ensures Handled(target, route, name, value)
    decreases |route|
  {
    if route == [] {
      if name in target.scopes {
        assert AllowedByScope(name, target.scopes[name], name, value);
      }
    } else {
      var (first, choice) := route[0];
      if first in target.scopes && choice in target.scopes[first].cases {
        assert AllowedByScope(first, target.scopes[first], name, value);
        AllowedIsHandled(target.scopes[first].cases[choice], route[1..], name, value);
      }
    }
  }

  /** A resolved name, by the final outcomes: the conditions of one of its setters hold, the parameters
      of that setter are resolved, and the value is what it yields from theirs and passes validation. */
  lemma ResolvedMeans(config: Config, log: Log, name: string) returns (i: nat)
    requires Sound(config, log) && name in MemoOf(log) && MemoOf(log)[name].Resolved?
    ensures Candidate(config, name, MemoOf(log), i)
    ensures var setter := SettersOf(config, name)[i];
            && ParametersResolved(setter, MemoOf(log))
            && Yields(setter, ResolvedArguments(setter, MemoOf(log)), Calculated(MemoOf(log)[name].value))
    ensures ValidateSingle(config, name, MemoOf(log)[name].value) == Accepts
  {
    hide ValidateSingle, Apply, Step, Sound, Justified;
    var k := EntryJustified(config, log, name);
    var memo := MemoOf(log[..k]);
    PrefixSound(config, log, k);
    ResolvedByStep(config, memo, Entry(name, MemoOf(log)[name]));
    var setter := Chosen(config, name, memo).value;
    i :| 0 <= i < |SettersOf(config, name)| && SettersOf(config, name)[i] == setter;
    ConditionsMean(setter.conditions, memo);
    AppliedIff(config, name, setter, memo);
    assert ResolvedArguments(setter, memo) == ResolvedArguments(setter, MemoOf(log));
  }

  lemma ResolvedByStep(config: Config, memo: Memo, entry: Entry)
    requires Justified(config, memo, entry) && entry.outcome.Resolved?
    ensures Chosen(config, entry.name, memo).Some?
    ensures var setter := Chosen(config, entry.name, memo).value;
            && setter in SettersOf(config, entry.name)
            && ConditionsMet(setter.conditions, memo) == Holds
            && KnownParameters(setter, memo)
            && Apply(config, entry.name, setter, memo) == Is(entry.outcome)
  {
    ChosenApplies(config, entry.name, memo);
    ChosenGivesValue(config, entry.name, memo);
  }
}
