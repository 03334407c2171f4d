/** The order in which names were finalised, and what it proves about a run of the resolver. */
module Journal {
  import opened Wrappers
  import opened Targets
  import opened Settings

  datatype Entry = Entry(name: string, outcome: Outcome)

  type Log = seq<Entry>

  ghost function MemoOf(log: Log): Memo {
    if log == [] then imap[]
    else
      var last := log[|log| - 1];
      MemoOf(log[..|log| - 1])[last.name := last.outcome]
  }

  // ---------------------------------------------------------------- dependency cycles

  /** Each name needs the next one, and the last one needs the first. */
  ghost predicate Cycle(config: Config, path: seq<string>) {
    && path != []
    && Linked(config, path)
    && path[0] in Deps(config, path[|path| - 1])
  }

  ghost predicate Linked(config: Config, path: seq<string>) {
    |path| > 1 ==>
      && path[|path| - 1] in Deps(config, path[|path| - 2])
      && Linked(config, path[..|path| - 1])
  }

  lemma {:induction false} LinkedAt(config: Config, path: seq<string>, i: nat)
    requires Linked(config, path) && i + 1 < |path|
    ensures path[i + 1] in Deps(config, path[i])
  {
    if i + 2 < |path| {
      LinkedAt(config, path[..|path| - 1], i);
    }
  }

  lemma {:induction false} LinkedDrop(config: Config, path: seq<string>, k: nat)
    requires Linked(config, path) && k <= |path|
    ensures Linked(config, path[k..])
  {
    if k + 1 < |path| {
      var shorter := path[..|path| - 1];
      LinkedDrop(config, shorter, k);
      assert path[k..][..|path[k..]| - 1] == shorter[k..];
    }
  }

  ghost predicate OnCycle(config: Config, name: string) {
    exists path :: Cycle(config, path) && name in path
  }

  /** A ranking is a proof that no name needs itself. */
  ghost predicate Ranked(config: Config, rank: string -> nat) {
    forall name, dep | dep in Deps(config, name) :: rank(dep) < rank(name)
  }

  lemma {:induction false} LinkedDescends(config: Config, rank: string -> nat, path: seq<string>, i: nat)
    requires Ranked(config, rank) && Linked(config, path) && i < |path|
    ensures rank(path[i]) + i <= rank(path[0])
  {
    if i > 0 {
      LinkedDescends(config, rank, path, i - 1);
      LinkedAt(config, path, i - 1);
    }
  }

  lemma RankedHasNoCycle(config: Config, rank: string -> nat)
    requires Ranked(config, rank)
    ensures forall name :: !OnCycle(config, name)
  {
    forall path | Cycle(config, path)
      ensures false
    {
      LinkedDescends(config, rank, path, |path| - 1);
    }
  }

  ghost predicate Closed(config: Config, universe: set<string>) {
    forall name, dep | name in universe && dep in Deps(config, name) :: dep in universe
  }

  /** A finite set of names that holds every dependency of its members. */
  ghost function Universe(config: Config): set<string>
    ensures Closed(config, Universe(config))
  {
    config.setters.Keys + set name, dep | name in config.setters.Keys && dep in Deps(config, name) :: dep
  }

  // ---------------------------------------------------------------- without a cycle there is a ranking

  ghost predicate Acyclic(config: Config) {
    forall name :: !OnCycle(config, name)
  }

  /** `name` needs `other`, over one or more dependencies. */
  ghost predicate Needs(config: Config, name: string, other: string) {
    exists path :: Leads(config, path, name, other)
  }

  ghost predicate Leads(config: Config, path: seq<string>, name: string, other: string) {
    |path| > 1 && Linked(config, path) && path[0] == name && path[|path| - 1] == other
  }

  /** The number of names that a name needs. */
  ghost function Height(config: Config, name: string): nat {
    |set other | other in Universe(config) && Needs(config, name, other)|
  }

  lemma {:induction false} LinkedCons(config: Config, name: string, path: seq<string>)
    requires path != [] && Linked(config, path) && path[0] in Deps(config, name)
    ensures Linked(config, [name] + path)
  {
    var longer := [name] + path;
    if |path| > 1 {
      LinkedCons(config, name, path[..|path| - 1]);
      assert longer[..|longer| - 1] == [name] + path[..|path| - 1];
    } else {
      assert longer[..|longer| - 1] == [name];
    }
  }

  lemma NeedsDep(config: Config, name: string, dep: string)
    requires dep in Deps(config, name)
    ensures Needs(config, name, dep)
    ensures forall other | Needs(config, dep, other) :: Needs(config, name, other)
  {
    assert Leads(config, [name, dep], name, dep) by { LinkedCons(config, name, [dep]); }
    forall other | Needs(config, dep, other)
      ensures Needs(config, name, other)
    {
      var path :| Leads(config, path, dep, other);
      LinkedCons(config, name, path);
      assert Leads(config, [name] + path, name, other);
    }
  }

  lemma NeedsNotItself(config: Config, name: string)
    requires Acyclic(config)
    ensures !Needs(config, name, name)
  {
    if path :| Leads(config, path, name, name) {
      var cycle := path[..|path| - 1];
      assert Cycle(config, cycle);
      assert cycle[0] == name;
      assert OnCycle(config, name);
    }
  }

  /** So a table without a cycle has a ranking: a dependency needs fewer names. */
  lemma AcyclicIsRanked(config: Config)
    requires Acyclic(config)
    ensures Ranked(config, name => Height(config, name))
  {
    hide Needs;
    forall name, dep | dep in Deps(config, name)
      ensures Height(config, dep) < Height(config, name)
    {
      NeedsDep(config, name, dep);
      NeedsNotItself(config, dep);
      var universe := Universe(config);
      var few := set other | other in universe && Needs(config, dep, other);
      var many := set other | other in universe && Needs(config, name, other);
      DepIsInUniverse(config, name, dep);
      assert few <= many && dep in many && dep !in few;
      SmallerSet(few, many, dep);
    }
  }

  lemma DepIsInUniverse(config: Config, name: string, dep: string)
    requires dep in Deps(config, name)
    ensures dep in Universe(config)
  {
    assert name in config.setters;
  }

  lemma SmallerSet(few: set<string>, many: set<string>, extra: string)
    requires few <= many && extra in many && extra !in few
    ensures |few| < |many|
  {
    SubsetSize(few, many - {extra});
  }

  lemma {:induction false} SubsetSize(few: set<string>, many: set<string>)
    requires few <= many
    ensures |few| <= |many|
  {
    if few != {} {
      var name :| name in few;
      SubsetSize(few - {name}, many - {name});
    }
  }

  /** A table of setters has a ranking exactly when it has no cycle. */
  lemma RankedIffAcyclic(config: Config)
    ensures (exists rank: string -> nat :: Ranked(config, rank)) <==> Acyclic(config)
  {
    if rank: string -> nat :| Ranked(config, rank) {
      RankedHasNoCycle(config, rank);
    }
    if Acyclic(config) {
      AcyclicIsRanked(config);
    }
  }

  // ---------------------------------------------------------------- sound logs

  /** An entry follows from the entries before it, or its name really needs itself. */
  ghost predicate Justified(config: Config, memo: Memo, entry: Entry) {
    || Step(config, entry.name, memo) == Is(entry.outcome)
    || (entry.outcome == Failed(Cyclic) && OnCycle(config, entry.name))
  }

  ghost predicate Sound(config: Config, log: Log) {
    log != [] ==>
      var before, last := log[..|log| - 1], log[|log| - 1];
      && Sound(config, before)
      && last.name !in MemoOf(before)
      && Justified(config, MemoOf(before), last)
  }

  lemma Append(config: Config, log: Log, entry: Entry)
    ensures MemoOf(log + [entry]) == MemoOf(log)[entry.name := entry.outcome]
    ensures Sound(config, log + [entry])
       <==> Sound(config, log) && entry.name !in MemoOf(log) && Justified(config, MemoOf(log), entry)
  {
    assert (log + [entry])[..|log + [entry]| - 1] == log;
  }

  lemma {:induction false} PrefixSound(config: Config, log: Log, k: nat)
    requires Sound(config, log) && k <= |log|
    ensures Sound(config, log[..k])
    ensures forall name | name in MemoOf(log[..k]) ::
              name in MemoOf(log) && MemoOf(log)[name] == MemoOf(log[..k])[name]
  {
    if k < |log| {
      PrefixSound(config, log[..|log| - 1], k);
      assert log[..|log| - 1][..k] == log[..k];
    } else {
      assert log[..k] == log;
    }
  }

  /** Where a name was finalised. */
  ghost function Position(log: Log, name: string): (k: nat)
    requires name in MemoOf(log)
    ensures k < |log| && log[k].name == name && log[k].outcome == MemoOf(log)[name]
  {
    if log[|log| - 1].name == name then |log| - 1
    else
      assert name in MemoOf(log[..|log| - 1]);
      Position(log[..|log| - 1], name)
  }

  lemma {:induction false} EntryJustified(config: Config, log: Log, name: string) returns (k: nat)
    requires Sound(config, log) && name in MemoOf(log)
    ensures k == Position(log, name)
    ensures name !in MemoOf(log[..k])
    ensures Justified(config, MemoOf(log[..k]), Entry(name, MemoOf(log)[name]))
  {
    k := Position(log, name);
    PrefixSound(config, log, k + 1);
    assert log[..k + 1][..k] == log[..k];
    assert log[..k + 1][|log[..k + 1]| - 1] == log[k];
  }

  lemma {:induction false} PositionOfPrefix(config: Config, log: Log, k: nat, name: string)
    requires Sound(config, log) && k <= |log| && name in MemoOf(log[..k])
    ensures name in MemoOf(log) && Position(log, name) < k
  {
    PrefixSound(config, log, k);
    if k == |log| {
      assert log[..k] == log;
    } else {
      var init := log[..|log| - 1];
      assert init[..k] == log[..k];
      PrefixSound(config, init, k);
      PositionOfPrefix(config, init, k, name);
    }
  }

  // ---------------------------------------------------------------- refinement of a naive evaluator

  /** The naive evaluator: no memo, no stack, every dependency worked out again each time. */
  ghost function Denote(config: Config, rank: string -> nat, name: string): Ruling
    requires Ranked(config, rank)
    decreases rank(name)
  {
    Step(config, name, Denoted(config, rank, name))
  }

  ghost function Denoted(config: Config, rank: string -> nat, name: string): Memo
    requires Ranked(config, rank)
    decreases rank(name), 0
  {
    imap dep | rank(dep) < rank(name) && Denote(config, rank, dep).Is? :: Denote(config, rank, dep).outcome
  }

  /** Without cyclic settings, every finalised name has the outcome the naive evaluator gives it,
      in whatever order the run came upon the names. */
  lemma {:induction false} LogDenotes(config: Config, rank: string -> nat, log: Log)
    requires Ranked(config, rank) && Sound(config, log)
    ensures forall name | name in MemoOf(log) :: Denote(config, rank, name) == Is(MemoOf(log)[name])
  {
    if log != [] {
      var before, last := log[..|log| - 1], log[|log| - 1];
      LogDenotes(config, rank, before);
      RankedHasNoCycle(config, rank);
      RulingDenotes(config, rank, before, last.name);
    }
  }

  lemma RulingDenotes(config: Config, rank: string -> nat, log: Log, name: string)
    requires Ranked(config, rank)
    requires forall known | known in MemoOf(log) :: Denote(config, rank, known) == Is(MemoOf(log)[known])
    requires Step(config, name, MemoOf(log)) != Pending
    ensures Denote(config, rank, name) == Step(config, name, MemoOf(log))
  {
    assert Agrees(Deps(config, name), MemoOf(log), Denoted(config, rank, name));
    StepMonotone(config, name, MemoOf(log), Denoted(config, rank, name));
  }

  /** The naive evaluator of a table without cycles. */
  ghost function Meaning(config: Config, name: string): Ruling
    requires Acyclic(config)
  {
    AcyclicIsRanked(config);
    Denote(config, other => Height(config, other), name)
  }

  /** On a table without a cycle, a run gives every name it finalises the naive evaluator's outcome. */
  lemma AcyclicLogDenotes(config: Config, log: Log)
    requires Acyclic(config) && Sound(config, log)
    ensures forall name | name in MemoOf(log) :: Meaning(config, name) == Is(MemoOf(log)[name])
  {
    AcyclicIsRanked(config);
    LogDenotes(config, other => Height(config, other), log);
  }

  /** Two abort-free runs, in any two orders, agree on every name both finalised. */
  lemma RunsAgree(config: Config, a: Log, b: Log)
    requires Acyclic(config) && Sound(config, a) && Sound(config, b)
    ensures forall name | name in MemoOf(a) && name in MemoOf(b) :: MemoOf(a)[name] == MemoOf(b)[name]
  {
    AcyclicLogDenotes(config, a);
    AcyclicLogDenotes(config, b);
  }

  // ---------------------------------------------------------------- resolved names and cycles

  /** The setter that gave a name its value, if one was singled out. */
  ghost function Chosen(config: Config, name: string, memo: Memo): Option<Setter> {
    match Feasible(SettersOf(config, name), memo)
    case Undecided => None
    case Raised => None
    case Setters(feasible) =>
      var remaining := Remaining(feasible, memo);
      if |remaining| == 1 then Some(remaining[0]) else None
  }

  /** The feasible setters, narrowed down to the musts and then to those that are not late. */
  ghost function Remaining(feasible: seq<Setter>, memo: Memo): seq<Setter> {
    if |feasible| <= 1 then feasible
    else if |Musts(feasible)| <= 1 then Musts(feasible)
    else
      match WithoutLate(Musts(feasible), memo)
      case Setters(kept) => kept
      case Raised => []
      case Undecided => []
  }

  /** A ruling that looked at values came from the one setter that was singled out. */
  lemma ChosenApplies(config: Config, name: string, memo: Memo)
    requires Feasible(SettersOf(config, name), memo).Setters?
    requires Step(config, name, memo).Is?
    requires Step(config, name, memo).outcome.Resolved? || Step(config, name, memo) == Is(Failed(Skipped))
    ensures Chosen(config, name, memo).Some?
    ensures var setter := Chosen(config, name, memo).value;
            && setter in SettersOf(config, name)
            && ConditionsMet(setter.conditions, memo) == Holds
            && Apply(config, name, setter, memo) == Step(config, name, memo)
  {
    var feasible := Feasible(SettersOf(config, name), memo).setters;
    FeasibleAreSetters(SettersOf(config, name), memo);
    MustsAreSetters(feasible);
    WithoutLateAreSetters(Musts(feasible), memo);
    var setter := Chosen(config, name, memo).value;
    assert setter in feasible;
  }

  lemma AppliedGivesValue(config: Config, name: string, setter: Setter, memo: Memo)
    requires Apply(config, name, setter, memo).Is? && Apply(config, name, setter, memo).outcome.Resolved?
    ensures forall p | p in setter.Parameters() :: p in memo && memo[p].Resolved?
    ensures var kwargs := map p | p in setter.Parameters() :: ValueOf(p, memo[p]);
            Evaluate(config, name, setter, kwargs) == Apply(config, name, setter, memo)
  {
    forall p | p in setter.Parameters()
      ensures p in memo && memo[p].Resolved?
    {
    }
  }

  lemma ChosenGivesValue(config: Config, name: string, memo: Memo)
    requires Step(config, name, memo).Is? && Step(config, name, memo).outcome.Resolved?
    ensures Chosen(config, name, memo).Some?
    ensures var setter := Chosen(config, name, memo).value;
            && setter in SettersOf(config, name)
            && ConditionsMet(setter.conditions, memo) == Holds
            && (forall p | p in setter.Parameters() :: p in memo && memo[p].Resolved?)
            && var kwargs := map p | p in setter.Parameters() :: ValueOf(p, memo[p]);
               Evaluate(config, name, setter, kwargs) == Step(config, name, memo)
  {
    ChosenApplies(config, name, memo);
    AppliedGivesValue(config, name, Chosen(config, name, memo).value, memo);
  }

  /** How several feasible musts are settled. */
  lemma MustsSettle(config: Config, name: string, memo: Memo, feasible: seq<Setter>, remaining: seq<Setter>)
    requires Feasible(SettersOf(config, name), memo) == Setters(feasible)
    requires |feasible| > 1 && |Musts(feasible)| > 1 && WithoutLate(Musts(feasible), memo) == Setters(remaining)
    ensures Step(config, name, memo) == Single(config, name, remaining, memo)
    ensures Chosen(config, name, memo) == if |remaining| == 1 then Some(remaining[0]) else None
  {
  }

  /** Once a setter is singled out it stays so, and the ruling is the one it gives. */
  lemma ChosenDecides(config: Config, name: string, small: Memo, large: Memo)
    requires Chosen(config, name, small).Some? && Agrees(Deps(config, name), small, large)
    ensures Chosen(config, name, large) == Chosen(config, name, small)
    ensures Chosen(config, name, small).value in SettersOf(config, name)
    ensures Step(config, name, large) == Apply(config, name, Chosen(config, name, small).value, large)
  {
    var setters := SettersOf(config, name);
    forall setter | setter in setters
      ensures Agrees(DepsOfSetter(setter), small, large)
    {
      assert DepsOfSetter(setter) <= Deps(config, name);
    }
    FeasibleMonotone(setters, small, large);
    var feasible := Feasible(setters, small).setters;
    FeasibleAreSetters(setters, small);
    RemainingStays(feasible, small, large);
    ChooseApplies(config, name, feasible, large);
    hide Feasible, Choose, Remaining, Apply, Deps, SettersOf;
  }

  lemma RemainingStays(feasible: seq<Setter>, small: Memo, large: Memo)
    requires forall setter | setter in feasible :: Agrees(DepsOfSetter(setter), small, large)
    requires |Remaining(feasible, small)| == 1
    ensures Remaining(feasible, large) == Remaining(feasible, small)
    ensures Remaining(feasible, small)[0] in feasible
  {
    MustsAreSetters(feasible);
    if |feasible| > 1 && |Musts(feasible)| > 1 {
      WithoutLateAreSetters(Musts(feasible), small);
      WithoutLateMonotone(Musts(feasible), small, large);
    }
  }

  lemma ChooseApplies(config: Config, name: string, feasible: seq<Setter>, memo: Memo)
    requires |Remaining(feasible, memo)| == 1
    ensures Choose(config, name, feasible, memo) == Apply(config, name, Remaining(feasible, memo)[0], memo)
  {
    hide Apply, WithoutLate, Musts;
  }

  lemma LastHeld(conditions: seq<(string, string)>, memo: Memo)
    requires conditions != [] && ConditionsMet(conditions, memo) == Holds
    ensures ConditionsMet(conditions[..|conditions| - 1], memo) == Holds
    ensures var last := conditions[|conditions| - 1];
            last.0 in memo && !memo[last.0].Failed? && ValueOf(last.0, memo[last.0]) == last.1
  {
    hide ValueOf;
  }

  lemma {:induction false} HeldConditionsAreKnown(conditions: seq<(string, string)>, memo: Memo)
    requires ConditionsMet(conditions, memo) == Holds
    ensures forall c | c in conditions ::
              c.0 in memo && !memo[c.0].Failed? && ValueOf(c.0, memo[c.0]) == c.1
  {
    hide ConditionsMet, ValueOf;
    if conditions != [] {
      var init, last := conditions[..|conditions| - 1], conditions[|conditions| - 1];
      LastHeld(conditions, memo);
      HeldConditionsAreKnown(init, memo);
      forall c | c in conditions
        ensures c.0 in memo && !memo[c.0].Failed? && ValueOf(c.0, memo[c.0]) == c.1
      {
        var i :| 0 <= i < |conditions| && conditions[i] == c;
        if i < |conditions| - 1 {
          assert init[i] == c;
        }
      }
    }
  }

  /** What a resolved name was really computed from. */
  ghost function Used(config: Config, log: Log, name: string): set<string>
    requires name in MemoOf(log)
  {
    match Chosen(config, name, MemoOf(log[..Position(log, name)]))
    case None => {}
    case Some(setter) => DepsOfSetter(setter)
  }

  /** The parameters and the satisfied conditions of a resolved name were finalised before it. */
  lemma {:induction false} UsedBefore(config: Config, log: Log, name: string)
    requires Sound(config, log) && name in MemoOf(log) && MemoOf(log)[name].Resolved?
    ensures forall dep | dep in Used(config, log, name) ::
              dep in MemoOf(log) && Position(log, dep) < Position(log, name) && !MemoOf(log)[dep].Failed?
  {
    var k := EntryJustified(config, log, name);
    var memo := MemoOf(log[..k]);
    ChosenGivesValue(config, name, memo);
    var setter := Chosen(config, name, memo).value;
    HeldConditionsAreKnown(setter.conditions, memo);
    PrefixSound(config, log, k);
    forall dep | dep in Used(config, log, name)
      ensures dep in MemoOf(log) && Position(log, dep) < Position(log, name) && !MemoOf(log)[dep].Failed?
    {
      assert dep in memo;
      PositionOfPrefix(config, log, k, dep);
    }
  }

  /** So no resolved name lies on a cycle of the dependencies that were used. */
  lemma {:induction false} NoResolvedCycle(config: Config, log: Log, path: seq<string>)
    requires Sound(config, log) && path != []
    requires forall name | name in path :: name in MemoOf(log) && MemoOf(log)[name].Resolved?
    requires forall i | 0 <= i < |path| - 1 :: path[i + 1] in Used(config, log, path[i])
    ensures path[0] !in Used(config, log, path[|path| - 1])
  {
    PositionsDescend(config, log, path, |path| - 1);
    assert path[|path| - 1] in path;
    UsedBefore(config, log, path[|path| - 1]);
  }

  lemma {:induction false} PositionsDescend(config: Config, log: Log, path: seq<string>, i: nat)
    requires Sound(config, log) && i < |path|
    requires forall name | name in path :: name in MemoOf(log) && MemoOf(log)[name].Resolved?
    requires forall j | 0 <= j < |path| - 1 :: path[j + 1] in Used(config, log, path[j])
    ensures path[i] in MemoOf(log) && path[0] in MemoOf(log)
    ensures Position(log, path[i]) <= Position(log, path[0])
  {
    hide Justified, Chosen;
    assert path[i] in path && path[0] in path;
    if i > 0 {
      var j := i - 1;
      PositionsDescend(config, log, path, j);
      assert path[j] in path;
      UsedBefore(config, log, path[j]);
      assert path[j + 1] in Used(config, log, path[j]);
    }
  }

  // ---------------------------------------------------------------- silent errors have a cause

  lemma {:induction false} RaisedHasFailure(setters: seq<Setter>, memo: Memo) returns (dep: string, setter: Setter)
    requires Feasible(setters, memo).Raised?
    ensures setter in setters && dep in DepsOfSetter(setter) && dep in memo && memo[dep].Failed?
  {
    var init, last := setters[..|setters| - 1], setters[|setters| - 1];
    if Feasible(init, memo).Raised? {
      dep, setter := RaisedHasFailure(init, memo);
    } else {
      dep := RaisingCondition(last.conditions, memo);
      setter := last;
    }
  }

  lemma {:induction false} RaisingCondition(conditions: seq<(string, string)>, memo: Memo) returns (dep: string)
    requires ConditionsMet(conditions, memo) == Raises
    ensures dep in memo && memo[dep].Failed? && exists c :: c in conditions && c.0 == dep
  {
    var init, last := conditions[..|conditions| - 1], conditions[|conditions| - 1];
    if ConditionsMet(init, memo) == Raises {
      dep := RaisingCondition(init, memo);
    } else {
      dep := last.0;
      assert last in conditions;
    }
  }

  lemma SkippedByParameter(config: Config, name: string, setter: Setter, memo: Memo)
    requires Apply(config, name, setter, memo) == Is(Failed(Skipped))
    ensures exists dep :: dep in setter.Parameters() && dep in memo && memo[dep].Failed?
  {
  }

  lemma SkippedHasFailure(config: Config, name: string, memo: Memo) returns (dep: string)
    requires Step(config, name, memo) == Is(Failed(Skipped))
    ensures dep in Deps(config, name) && dep in memo && memo[dep].Failed?
  {
    var setters := SettersOf(config, name);
    var setter: Setter;
    if Feasible(setters, memo).Raised? {
      dep, setter := RaisedHasFailure(setters, memo);
    } else {
      ChosenApplies(config, name, memo);
      setter := Chosen(config, name, memo).value;
      SkippedByParameter(config, name, setter, memo);
      dep :| dep in setter.Parameters() && dep in memo && memo[dep].Failed?;
    }
    assert dep in DepsOfSetter(setter);
  }

  /** A path of failed names from `path[0]` down to one whose error was recorded. */
  ghost predicate RootCause(config: Config, log: Log, path: seq<string>) {
    && path != []
    && Linked(config, path)
    && (forall name | name in path :: name in MemoOf(log) && MemoOf(log)[name].Failed?)
    && MemoOf(log)[path[|path| - 1]] != Failed(Skipped)
  }

  /** Every error that was passed over in silence goes back to one that was recorded. */
  lemma {:induction false} ErrorHasRootCause(config: Config, log: Log, name: string) returns (path: seq<string>)
    requires Sound(config, log) && name in MemoOf(log) && MemoOf(log)[name].Failed?
    ensures RootCause(config, log, path) && path[0] == name
    decreases Position(log, name)
  {
    hide Deps, Step, Sound, MemoOf, Justified;
    if MemoOf(log)[name] != Failed(Skipped) {
      path := [name];
    } else {
      var k := EntryJustified(config, log, name);
      var dep := SkippedHasFailure(config, name, MemoOf(log[..k]));
      PrefixSound(config, log, k);
      PositionOfPrefix(config, log, k, dep);
      var rest := ErrorHasRootCause(config, log, dep);
      path := [name] + rest;
      CauseOfCause(config, log, name, rest);
    }
  }

  lemma CauseOfCause(config: Config, log: Log, name: string, rest: seq<string>)
    requires RootCause(config, log, rest) && rest[0] in Deps(config, name)
    requires name in MemoOf(log) && MemoOf(log)[name].Failed?
    ensures RootCause(config, log, [name] + rest)
  {
    hide Deps, MemoOf, Linked;
    LinkedCons(config, name, rest);
  }

  lemma ErrorWasRecorded(config: Config, log: Log, name: string)
    requires Sound(config, log) && name in MemoOf(log) && MemoOf(log)[name].Failed?
    ensures exists root :: root in MemoOf(log) && MemoOf(log)[root].Failed? && MemoOf(log)[root] != Failed(Skipped)
  {
    var path := ErrorHasRootCause(config, log, name);
    assert path[|path| - 1] in path;
  }

  /** Nothing recorded means nothing failed. */
  lemma NothingRecordedNothingFailed(config: Config, log: Log)
    requires Sound(config, log)
    requires forall name | name in MemoOf(log) && MemoOf(log)[name].Failed? :: MemoOf(log)[name] == Failed(Skipped)
    ensures forall name | name in MemoOf(log) :: !MemoOf(log)[name].Failed?
  {
    forall name | name in MemoOf(log)
      ensures !MemoOf(log)[name].Failed?
    {
      if MemoOf(log)[name].Failed? {
        ErrorWasRecorded(config, log, name);
      }
    }
  }

  // ---------------------------------------------------------------- values are validated

  lemma {:induction false} ResolvedIsValidated(config: Config, log: Log, name: string)
    requires Sound(config, log) && name in MemoOf(log) && MemoOf(log)[name].Resolved?
    ensures ValidateSingle(config, name, MemoOf(log)[name].value) == Accepts
  {
    var k := EntryJustified(config, log, name);
    ChosenGivesValue(config, name, MemoOf(log[..k]));
  }
}
