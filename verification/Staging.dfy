/** What staged publishing guarantees, wherever it is interrupted. */
module Staging {
  import opened Wrappers
  import opened Publish
  import opened Storage

  // ---------------------------------------------------------------- one store

  function RunAll(store: Store, commands: seq<Command>): Option<Store>
    decreases |commands|
  {
    if commands == [] then Some(store)
    else
      match Done(store, commands[0])
      case None => None
      case Some(next) => RunAll(next, commands[1..])
  }

  /** In order, every copy reads a path that is placed by then, and `right` is what every
      destination should hold. */
  predicate Sourced(commands: seq<Command>, placed: set<Path>, right: Store) {
    commands == [] ||
    (&& GivesRight(commands[0], placed, right)
     && Sourced(commands[1..], placed + {commands[0].destination}, right))
  }

  predicate GivesRight(command: Command, placed: set<Path>, right: Store) {
    && command.destination in right
    && match command
       case Upload(content, destination, _, _, _) => right[destination] == content
       case Copy(source, destination, _) =>
         source in placed && source in right && right[source] == right[destination]
  }

  predicate Holds(store: Store, paths: set<Path>, right: Store) {
    forall path <- paths :: path in store && path in right && store[path] == right[path]
  }

  /** What is there already and would be skipped holds the right content. */
  predicate SkipsAreRight(store: Store, commands: seq<Command>, right: Store) {
    forall i | 0 <= i < |commands| ::
      var path := commands[i].destination;
      commands[i].ifNotExists && path in store ==> path in right && store[path] == right[path]
  }

  /** The store with the right content at these paths. */
  function Overlay(store: Store, right: Store, paths: set<Path>): Store
    requires paths <= right.Keys
  {
    map path | path in store.Keys + paths :: if path in paths then right[path] else store[path]
  }

  lemma {:induction false} SourcedDests(commands: seq<Command>, placed: set<Path>, right: Store)
    requires Sourced(commands, placed, right)
    ensures Dests(commands) <= right.Keys
    decreases |commands|
  {
    if commands != [] {
      SourcedDests(commands[1..], placed + {commands[0].destination}, right);
    }
  }

  /** Every command finds its source, and the run puts the right content at every destination. */
  lemma {:induction false} RunIsRight(store: Store, commands: seq<Command>, placed: set<Path>, right: Store)
    requires Sourced(commands, placed, right) && Holds(store, placed, right) && SkipsAreRight(store, commands, right)
    ensures Dests(commands) <= right.Keys
    ensures RunAll(store, commands) == Some(Overlay(store, right, Dests(commands)))
    decreases |commands|
  {
    SourcedDests(commands, placed, right);
    if commands == [] {
      assert Overlay(store, right, {}) == store;
    } else {
      var path := commands[0].destination;
      var next, rest := Overlay(store, right, {path}), commands[1..];
      DoneIsRight(store, commands[0], placed, right);
      NextIsReady(store, commands, placed, right);
      RunIsRight(next, rest, placed + {path}, right);
      assert Overlay(next, right, Dests(rest)) == Overlay(store, right, Dests(commands));
    }
  }

  lemma NextIsReady(store: Store, commands: seq<Command>, placed: set<Path>, right: Store)
    requires commands != [] && commands[0].destination in right
    requires Holds(store, placed, right) && SkipsAreRight(store, commands, right)
    ensures var path := commands[0].destination;
            var next := Overlay(store, right, {path});
            Holds(next, placed + {path}, right) && SkipsAreRight(next, commands[1..], right)
  {
    var rest := commands[1..];
    assert forall i | 0 <= i < |rest| :: rest[i] == commands[i + 1];
  }

  lemma DoneIsRight(store: Store, command: Command, placed: set<Path>, right: Store)
    requires GivesRight(command, placed, right) && Holds(store, placed, right)
    requires command.ifNotExists && command.destination in store ==>
               store[command.destination] == right[command.destination]
    ensures Done(store, command) == Some(Overlay(store, right, {command.destination}))
  {
    var path := command.destination;
    if command.ifNotExists && path in store {
      assert Overlay(store, right, {path}) == store;
    } else {
      assert Overlay(store, right, {path}) == store[path := right[path]];
    }
  }

  lemma {:induction false} SourcedPrefix(a: seq<Command>, b: seq<Command>, placed: set<Path>, right: Store)
    ensures Sourced(a + b, placed, right) <==> Sourced(a, placed, right) && Sourced(b, placed + Dests(a), right)
    decreases |a|
  {
    if a == [] {
      assert a + b == b && placed + {} == placed;
    } else {
      assert (a + b)[1..] == a[1..] + b;
      SourcedPrefix(a[1..], b, placed + {a[0].destination}, right);
      assert placed + {a[0].destination} + Dests(a[1..]) == placed + Dests(a);
    }
  }

  // ---------------------------------------------------------------- every store at once

  /** What one provider is asked to do. */
  function For(turns: seq<Turn>, p: nat): seq<Command> {
    if turns == [] then []
    else (if turns[0].provider == p then [turns[0].command] else []) + For(turns[1..], p)
  }

  lemma {:induction false} ForTwoParts(a: seq<Turn>, b: seq<Turn>, p: nat)
    ensures For(a + b, p) == For(a, p) + For(b, p)
  {
    if a == [] {
      assert a + b == b;
    } else {
      assert (a + b)[1..] == a[1..] + b;
      ForTwoParts(a[1..], b, p);
      var first := if a[0].provider == p then [a[0].command] else [];
      assert first + (For(a[1..], p) + For(b, p)) == first + For(a[1..], p) + For(b, p);
    }
  }

  lemma {:induction false} ForTurns(q: nat, commands: seq<Command>, p: nat)
    ensures For(TurnsOf(q, commands), p) == if q == p then commands else []
  {
    if commands != [] {
      var rest := TurnsOf(q, commands[1..]);
      assert TurnsOf(q, commands)[1..] == rest;
      ForTurns(q, commands[1..], p);
      assert commands == [commands[0]] + commands[1..];
    }
  }

  lemma {:induction false} ForStage(q: nat, providers: nat, commands: seq<Command>, p: nat)
    requires q <= providers
    ensures For(StageTurns(q, providers, commands), p) == if q <= p < providers then commands else []
    decreases providers - q
  {
    if q < providers {
      ForTurns(q, commands, p);
      ForStage(q + 1, providers, commands, p);
      ForTwoParts(TurnsOf(q, commands), StageTurns(q + 1, providers, commands), p);
      assert commands + [] == commands && [] + commands == commands;
    }
  }

  /** Every provider can do all it is asked to do. */
  predicate AllRun(stores: seq<Store>, turns: seq<Turn>) {
    forall q: nat | q < |stores| :: RunAll(stores[q], For(turns, q)).Some?
  }

  predicate ComesTo(before: Store, commands: seq<Command>, after: Store) {
    RunAll(before, commands) == Some(after)
  }

  /** The turns a run has time for. */
  function TurnsDone(turns: seq<Turn>, life: nat): seq<Turn> {
    if life < |turns| then turns[..life] else turns
  }

  /** The stores after one turn. */
  function Next(stores: seq<Store>, turn: Turn): (next: seq<Store>)
    requires turn.provider < |stores| && Done(stores[turn.provider], turn.command).Some?
    ensures |next| == |stores|
  {
    stores[turn.provider := Done(stores[turn.provider], turn.command).value]
  }

  /** The store of one provider has seen its own commands, as far as the run came. */
  predicate Projected(stores: seq<Store>, turns: seq<Turn>, life: nat, p: nat)
    requires InRange(turns, |stores|) && p < |stores|
  {
    var r := Taken(stores, turns, life);
    && r.outcome == (if life < |turns| then Interrupted else Finished)
    && ComesTo(stores[p], For(TurnsDone(turns, life), p), r.stores[p])
  }

  /** Providers do not interfere, and none lacks a source. */
  lemma {:induction false} TakenProjects(stores: seq<Store>, turns: seq<Turn>, life: nat, p: nat)
    requires InRange(turns, |stores|) && p < |stores| && AllRun(stores, turns)
    ensures Projected(stores, turns, life, p)
    decreases |turns|
  {
    hide Projected, Taken, Done, AllRun, Next, InRange;
    if turns == [] || life == 0 {
      NothingTaken(stores, turns, life, p);
    } else {
      RunsFirst(stores, turns);
      TakenFirst(stores, turns, life);
      TakenProjects(Next(stores, turns[0]), turns[1..], life - 1, p);
      ProjectedFirst(stores, turns, life, p);
    }
  }

  lemma ProjectedFirst(stores: seq<Store>, turns: seq<Turn>, life: nat, p: nat)
    requires InRange(turns, |stores|) && p < |stores| && turns != [] && life > 0
    requires Done(stores[turns[0].provider], turns[0].command).Some?
    requires InRange(turns[1..], |stores|) && Projected(Next(stores, turns[0]), turns[1..], life - 1, p)
    ensures Projected(stores, turns, life, p)
  {
    hide Done, Next, InRange, ComesTo, TurnsDone, For;
    TakenFirst(stores, turns, life);
    PartFirst(stores, turns, life, p, Taken(stores, turns, life).stores[p]);
  }

  /** The first turn of those that are done, on one store. */
  lemma PartFirst(stores: seq<Store>, turns: seq<Turn>, life: nat, p: nat, after: Store)
    requires InRange(turns, |stores|) && p < |stores| && turns != [] && life > 0
    requires Done(stores[turns[0].provider], turns[0].command).Some?
    ensures ComesTo(Next(stores, turns[0])[p], For(TurnsDone(turns[1..], life - 1), p), after)
        ==> ComesTo(stores[p], For(TurnsDone(turns, life), p), after)
  {
    hide For, RunAll, Done;
    var part := TurnsDone(turns, life);
    assert part[0] == turns[0] && part[1..] == TurnsDone(turns[1..], life - 1);
    ForFirst(part, p);
    if turns[0].provider == p {
      RunFirst(stores[p], For(part, p));
    }
  }

  lemma NothingTaken(stores: seq<Store>, turns: seq<Turn>, life: nat, p: nat)
    requires InRange(turns, |stores|) && p < |stores| && (turns == [] || life == 0)
    ensures Projected(stores, turns, life, p)
  {
  }

  lemma TakenFirst(stores: seq<Store>, turns: seq<Turn>, life: nat)
    requires InRange(turns, |stores|) && turns != [] && life > 0
    requires Done(stores[turns[0].provider], turns[0].command).Some?
    ensures InRange(turns[1..], |stores|)
    ensures Taken(stores, turns, life) == Taken(Next(stores, turns[0]), turns[1..], life - 1)
  {
  }

  lemma RunFirst(store: Store, commands: seq<Command>)
    requires commands != [] && Done(store, commands[0]).Some?
    ensures RunAll(store, commands) == RunAll(Done(store, commands[0]).value, commands[1..])
  {
  }

  lemma ForFirst(turns: seq<Turn>, p: nat)
    requires turns != []
    ensures var rest := For(turns[1..], p);
            if turns[0].provider == p
            then For(turns, p) != [] && For(turns, p)[0] == turns[0].command && For(turns, p)[1..] == rest
            else For(turns, p) == rest
  {
    assert [] + For(turns[1..], p) == For(turns[1..], p);
  }

  lemma RunsFirst(stores: seq<Store>, turns: seq<Turn>)
    requires InRange(turns, |stores|) && turns != [] && AllRun(stores, turns)
    ensures turns[0].provider < |stores|
    ensures Done(stores[turns[0].provider], turns[0].command).Some?
    ensures AllRun(Next(stores, turns[0]), turns[1..])
  {
    var Turn(at, command) := turns[0];
    ForFirst(turns, at);
    assert RunAll(stores[at], For(turns, at)).Some?;
    var next := Next(stores, turns[0]);
    forall q: nat | q < |stores|
      ensures RunAll(next[q], For(turns[1..], q)).Some?
    {
      ForFirst(turns, q);
    }
  }

  /** The hypotheses on the providers before the run: what is copied from outside is there, and what
      is skipped is right. */
  predicate Ready(stores: seq<Store>, commands: Commands, outside: set<Path>, rights: seq<Store>) {
    && |rights| == |stores|
    && forall p | 0 <= p < |stores| :: StoreReady(stores[p], commands, outside, rights[p])
  }

  predicate StoreReady(store: Store, commands: Commands, outside: set<Path>, right: Store) {
    && Sourced(commands.stage1 + commands.stage2, outside, right)
    && Holds(store, outside, right)
    && SkipsAreRight(store, commands.stage1 + commands.stage2, right)
  }

  lemma ReadyRuns(stores: seq<Store>, commands: Commands, outside: set<Path>, rights: seq<Store>)
    requires Ready(stores, commands, outside, rights)
    ensures InRange(AllTurns(|stores|, commands), |stores|)
    ensures forall q: nat | q < |stores| ::
              && For(AllTurns(|stores|, commands), q) == commands.stage1 + commands.stage2
              && RunAll(stores[q], For(AllTurns(|stores|, commands), q)).Some?
  {
    var n := |stores|;
    AllInRange(n, commands);
    forall q: nat | q < n
      ensures For(AllTurns(n, commands), q) == commands.stage1 + commands.stage2
      ensures RunAll(stores[q], For(AllTurns(n, commands), q)).Some?
    {
      ForTwoParts(StageTurns(0, n, commands.stage1), StageTurns(0, n, commands.stage2), q);
      ForStage(0, n, commands.stage1, q);
      ForStage(0, n, commands.stage2, q);
      assert StoreReady(stores[q], commands, outside, rights[q]);
      RunIsRight(stores[q], commands.stage1 + commands.stage2, outside, rights[q]);
    }
  }

  /** Where the run stands on one provider: it has done the first commands of the two stages. */
  lemma StoreReached(
      stores: seq<Store>, commands: Commands, outside: set<Path>, rights: seq<Store>, life: nat, p: nat)
      returns (part: seq<Command>)
    requires Ready(stores, commands, outside, rights) && p < |stores|
    ensures InRange(AllTurns(|stores|, commands), |stores|)
    ensures var all := commands.stage1 + commands.stage2;
            var turns := AllTurns(|stores|, commands);
            var r := Taken(stores, turns, life);
            && r.outcome == (if life < |turns| then Interrupted else Finished)
            && part <= all && Dests(part) <= rights[p].Keys
            && RunAll(stores[p], part) == Some(r.stores[p])
            && r.stores[p] == Overlay(stores[p], rights[p], Dests(part))
            && part == For(TurnsDone(turns, life), p)
            && (r.outcome == Finished ==> part == all)
  {
    hide RunAll, Overlay, Dests, For, Taken, Sourced, AllTurns;
    var n, all := |stores|, commands.stage1 + commands.stage2;
    var turns := AllTurns(n, commands);
    ReadyRuns(stores, commands, outside, rights);
    TakenProjects(stores, turns, life, p);
    var done := TurnsDone(turns, life);
    var left := turns[|done|..];
    part := For(done, p);
    assert turns == done + left;
    ForTwoParts(done, left, p);
    var rest := For(left, p);
    assert all == part + rest;
    assert StoreReady(stores[p], commands, outside, rights[p]);
    SourcedPrefix(part, rest, outside, rights[p]);
    assert forall i | 0 <= i < |part| :: part[i] == all[i];
    RunIsRight(stores[p], part, outside, rights[p]);
  }

  /** Publishing never lacks a source, and when it is not interrupted, every provider has the right
      content at every destination and is otherwise unchanged. */
  lemma PublishingIsRight(
      stores: seq<Store>, commands: Commands, outside: set<Path>, rights: seq<Store>, life: nat, p: nat)
    requires Ready(stores, commands, outside, rights) && p < |stores|
    requires life >= |AllTurns(|stores|, commands)|
    ensures InRange(AllTurns(|stores|, commands), |stores|)
    ensures var r := Taken(stores, AllTurns(|stores|, commands), life);
            var dests := Dests(commands.stage1 + commands.stage2);
            && r.outcome == Finished
            && dests <= rights[p].Keys
            && r.stores[p] == Overlay(stores[p], rights[p], dests)
  {
    var part := StoreReached(stores, commands, outside, rights, life, p);
  }

  predicate SameAt(a: Store, b: Store, path: Path) {
    (path in a <==> path in b) && (path in a ==> a[path] == b[path])
  }

  /** Wherever the run stands, if any stage 2 path has changed on any provider, all stage 1 paths
      are in place on all of them. */
  lemma StagesAreOrdered(
      stores: seq<Store>, commands: Commands, outside: set<Path>, rights: seq<Store>, life: nat,
      p: nat, path: Path, q: nat)
    requires Ready(stores, commands, outside, rights) && p < |stores| && q < |stores|
    requires Dests(commands.stage1) !! Dests(commands.stage2) && path in Dests(commands.stage2)
    ensures InRange(AllTurns(|stores|, commands), |stores|)
    ensures var r := Taken(stores, AllTurns(|stores|, commands), life);
            || SameAt(stores[p], r.stores[p], path)
            || Holds(r.stores[q], Dests(commands.stage1), rights[q])
  {
    hide Taken, Overlay, Dests, For, StageTurns, RunAll, SameAt, Holds;
    var n := |stores|;
    var first, second := StageTurns(0, n, commands.stage1), StageTurns(0, n, commands.stage2);
    var done := TurnsDone(first + second, life);
    var partP := StoreReached(stores, commands, outside, rights, life, p);
    var partQ := StoreReached(stores, commands, outside, rights, life, q);
    if |done| <= |first| {
      FirstStageOnly(first, second, done, n, commands, p);
      OverlayElsewhere(stores[p], rights[p], Dests(partP), path);
    } else {
      FirstStageDone(first, second, done, n, commands, q);
      OverlayHolds(stores[q], rights[q], Dests(partQ), Dests(commands.stage1));
    }
  }

  lemma FirstStageOnly(
      first: seq<Turn>, second: seq<Turn>, done: seq<Turn>, providers: nat, commands: Commands, p: nat)
    requires first == StageTurns(0, providers, commands.stage1) && p < providers
    requires done <= first + second && |done| <= |first|
    ensures Dests(For(done, p)) <= Dests(commands.stage1)
  {
    hide StageTurns;
    var left := first[|done|..];
    assert first == done + left;
    ForTwoParts(done, left, p);
    ForStage(0, providers, commands.stage1, p);
    DestsOfTwoParts(For(done, p), For(left, p));
  }

  lemma FirstStageDone(
      first: seq<Turn>, second: seq<Turn>, done: seq<Turn>, providers: nat, commands: Commands, p: nat)
    requires first == StageTurns(0, providers, commands.stage1) && p < providers
    requires done <= first + second && |first| < |done|
    ensures Dests(commands.stage1) <= Dests(For(done, p))
  {
    hide StageTurns;
    var more := done[|first|..];
    assert done == first + more;
    ForTwoParts(first, more, p);
    ForStage(0, providers, commands.stage1, p);
    DestsOfTwoParts(commands.stage1, For(more, p));
  }

  lemma OverlayElsewhere(store: Store, right: Store, paths: set<Path>, path: Path)
    requires paths <= right.Keys && path !in paths
    ensures SameAt(store, Overlay(store, right, paths), path)
  {
  }

  lemma OverlayHolds(store: Store, right: Store, paths: set<Path>, some: set<Path>)
    requires some <= paths <= right.Keys
    ensures Holds(Overlay(store, right, paths), some, right)
  {
  }

  /** Rerunning after an interruption anywhere ends with the stores an uninterrupted run gives. */
  lemma RerunConverges(
      stores: seq<Store>, commands: Commands, outside: set<Path>, rights: seq<Store>, life: nat, again: nat)
    requires Ready(stores, commands, outside, rights)
    requires again >= |AllTurns(|stores|, commands)|
    ensures InRange(AllTurns(|stores|, commands), |stores|)
    ensures var turns := AllTurns(|stores|, commands);
            Taken(Taken(stores, turns, life).stores, turns, again).stores == Taken(stores, turns, again).stores
  {
    AllInRange(|stores|, commands);
    var turns, all := AllTurns(|stores|, commands), commands.stage1 + commands.stage2;
    var reached := Taken(stores, turns, life).stores;
    forall p: nat | p < |stores|
      ensures StoreReady(reached[p], commands, outside, rights[p])
      ensures Dests(all) <= rights[p].Keys
      ensures Overlay(reached[p], rights[p], Dests(all)) == Overlay(stores[p], rights[p], Dests(all))
    {
      var part := StoreReached(stores, commands, outside, rights, life, p);
      assert StoreReady(stores[p], commands, outside, rights[p]);
      SourcedDests(all, outside, rights[p]);
      assert all == part + all[|part|..];
      DestsOfTwoParts(part, all[|part|..]);
    }
    assert Ready(reached, commands, outside, rights);
    forall p: nat | p < |stores|
      ensures Taken(reached, turns, again).stores[p] == Taken(stores, turns, again).stores[p]
    {
      PublishingIsRight(reached, commands, outside, rights, again, p);
      PublishingIsRight(stores, commands, outside, rights, again, p);
    }
  }

  // ---------------------------------------------------------------- from metadata to these hypotheses

  function OutsideOf(a: Artifact): set<Path> {
    match a.localCopyFrom case None => {} case Some(path) => {path}
  }

  function Outside(artifacts: seq<Artifact>): set<Path> {
    if artifacts == [] then {} else OutsideOf(artifacts[0]) + Outside(artifacts[1..])
  }

  /** What an artifact should contain. */
  function ContentOf(a: Artifact, right: Store): Option<Content> {
    match a.localCopyFrom
    case Some(source) => if source in right then Some(right[source]) else None
    case None => if a.localPath.Some? then a.localPath else a.localContent
  }

  predicate Assigned(repo: Repository, a: Artifact, right: Store) {
    var content := ContentOf(a, right);
    content.Some? && forall path <- Destinations(repo, a) :: path in right && right[path] == content.value
  }

  predicate AllAssigned(repo: Repository, artifacts: seq<Artifact>, right: Store) {
    artifacts == [] || (Assigned(repo, artifacts[0], right) && AllAssigned(repo, artifacts[1..], right))
  }

  lemma {:induction false} SourcedWithMore(commands: seq<Command>, few: set<Path>, many: set<Path>, right: Store)
    requires Sourced(commands, few, right) && few <= many
    ensures Sourced(commands, many, right)
    decreases |commands|
  {
    if commands != [] {
      var path := commands[0].destination;
      SourcedWithMore(commands[1..], few + {path}, many + {path}, right);
    }
  }

  lemma ArtifactIsSourced(repo: Repository, a: Artifact, placed: set<Path>, right: Store)
    requires Assigned(repo, a, right) && OutsideOf(a) <= placed && CommandsFor(repo, a).Success?
    ensures var Commands(stage1, stage2) := CommandsFor(repo, a).value;
            Sourced(stage1, placed, right) && Sourced(stage2, Dests(stage1), right)
  {
    hide Repository.PathPrefix, Repository.ReproducibleArtifactPath, Repository.ChannelPrefix;
    var Commands(stage1, stage2) := CommandsFor(repo, a).value;
    var base := stage1[0].destination;
    assert base in Destinations(repo, a);
    assert stage1 == [stage1[0]] + stage1[1..] && Dests(stage1) >= {base};
    OneIsSourced(stage1[0], placed, right);
    if |stage1| == 2 {
      OneIsSourced(stage1[1], placed + {base}, right);
      assert stage1[1..] == [stage1[1]];
    }
    if stage2 != [] {
      OneIsSourced(stage2[0], Dests(stage1), right);
      assert stage2 == [stage2[0]];
    }
  }

  lemma OneIsSourced(command: Command, placed: set<Path>, right: Store)
    requires GivesRight(command, placed, right)
    ensures Sourced([command], placed, right)
  {
    assert [command][1..] == [];
  }

  lemma {:induction false} ArtifactsAreSourced(
      repo: Repository, artifacts: seq<Artifact>, placed: set<Path>, right: Store)
    requires AllAssigned(repo, artifacts, right) && Outside(artifacts) <= placed
    requires CommandsForAll(repo, artifacts).Success?
    ensures var Commands(stage1, stage2) := CommandsForAll(repo, artifacts).value;
            Sourced(stage1, placed, right) && Sourced(stage2, Dests(stage1), right)
  {
    if artifacts != [] {
      var Commands(first1, first2) := CommandsFor(repo, artifacts[0]).value;
      var Commands(rest1, rest2) := CommandsForAll(repo, artifacts[1..]).value;
      ArtifactIsSourced(repo, artifacts[0], placed, right);
      ArtifactsAreSourced(repo, artifacts[1..], placed, right);
      DestsOfTwoParts(first1, rest1);
      SourcedWithMore(rest1, placed, placed + Dests(first1), right);
      SourcedPrefix(first1, rest1, placed, right);
      SourcedWithMore(first2, Dests(first1), Dests(first1 + rest1), right);
      SourcedWithMore(rest2, Dests(rest1), Dests(first1 + rest1) + Dests(first2), right);
      SourcedPrefix(first2, rest2, Dests(first1 + rest1), right);
    }
  }

  /** Every copy that `make_commands` asks for reads a path that is there by then. */
  lemma MadeCommandsAreReady(
      repo: Repository, artifacts: seq<Artifact>, stores: seq<Store>, rights: seq<Store>)
    requires CommandsForAll(repo, artifacts).Success? && |rights| == |stores|
    requires forall p | 0 <= p < |stores| ::
               && AllAssigned(repo, artifacts, rights[p])
               && Holds(stores[p], Outside(artifacts), rights[p])
               && var Commands(stage1, stage2) := CommandsForAll(repo, artifacts).value;
                  SkipsAreRight(stores[p], stage1 + stage2, rights[p])
    ensures Ready(stores, CommandsForAll(repo, artifacts).value, Outside(artifacts), rights)
  {
    var commands := CommandsForAll(repo, artifacts).value;
    var outside := Outside(artifacts);
    forall p | 0 <= p < |stores|
      ensures StoreReady(stores[p], commands, outside, rights[p])
    {
      ArtifactsAreSourced(repo, artifacts, outside, rights[p]);
      SourcedWithMore(commands.stage2, Dests(commands.stage1), outside + Dests(commands.stage1), rights[p]);
      SourcedPrefix(commands.stage1, commands.stage2, outside, rights[p]);
    }
  }

  /** No path is a destination twice, neither of two artifacts nor of one. */
  predicate DistinctDestinations(repo: Repository, artifacts: seq<Artifact>) {
    artifacts == [] ||
    (&& DistinctOwn(repo, artifacts[0])
     && Destinations(repo, artifacts[0]) !! AllDestinations(repo, artifacts[1..])
     && DistinctDestinations(repo, artifacts[1..]))
  }

  predicate DistinctOwn(repo: Repository, a: Artifact) {
    a.reproduciblePath.Some? && a.channelPath.Some? ==>
      repo.PathPrefix() + a.reproduciblePath.value
        !in {repo.ReproducibleArtifactPath() + a.channelPath.value, repo.ChannelPrefix() + a.channelPath.value}
  }

  lemma UniqueIdSeparates(repo: Repository, path: Path)
    ensures repo.ReproducibleArtifactPath() + path != repo.ChannelPrefix() + path
  {
    assert |repo.ReproducibleArtifactPath() + path| > |repo.ChannelPrefix() + path|;
  }

  /** The two stages of one artifact. */
  lemma ArtifactStages(repo: Repository, a: Artifact)
    requires CommandsFor(repo, a).Success? && DistinctOwn(repo, a)
    ensures var Commands(stage1, stage2) := CommandsFor(repo, a).value; Dests(stage1) !! Dests(stage2)
  {
    hide Repository.PathPrefix, Repository.ReproducibleArtifactPath, Repository.ChannelPrefix;
    var Commands(stage1, stage2) := CommandsFor(repo, a).value;
    if a.channelPath.Some? {
      UniqueIdSeparates(repo, a.channelPath.value);
      OneDest(stage2[0]);
      assert stage2 == [stage2[0]];
      OneDest(stage1[|stage1| - 1]);
      if |stage1| == 2 {
        assert stage1[1..] == [stage1[1]];
      } else {
        assert stage1 == [stage1[0]];
      }
    }
  }

  /** With distinct destinations no path is written in both stages. */
  lemma {:induction false} StagesAreDisjoint(repo: Repository, artifacts: seq<Artifact>)
    requires CommandsForAll(repo, artifacts).Success? && DistinctDestinations(repo, artifacts)
    ensures var Commands(stage1, stage2) := CommandsForAll(repo, artifacts).value;
            Dests(stage1) !! Dests(stage2) && Dests(stage1) + Dests(stage2) == AllDestinations(repo, artifacts)
  {
    hide CommandsFor, Destinations, DistinctOwn;
    DestinationsOfAll(repo, artifacts);
    if artifacts != [] {
      var Commands(first1, first2) := CommandsFor(repo, artifacts[0]).value;
      var Commands(rest1, rest2) := CommandsForAll(repo, artifacts[1..]).value;
      ArtifactStages(repo, artifacts[0]);
      ArtifactDestinations(repo, artifacts[0]);
      DestinationsOfAll(repo, artifacts[1..]);
      StagesAreDisjoint(repo, artifacts[1..]);
      DestsOfTwoParts(first1, rest1);
      DestsOfTwoParts(first2, rest2);
    }
  }

  /** A channel path that spells a reproducible one is written in both stages. */
  lemma OnePathInBothStages()
    ensures var repo := Repository("r", Some("c"), "u");
            var a := Artifact(Some("c/p"), Some("p"), None, Some(0), None, None);
            && CommandsFor(repo, a).Success?
            && var Commands(stage1, stage2) := CommandsFor(repo, a).value;
               "r/c/p" in Dests(stage1) && "r/c/p" in Dests(stage2)
  {
    var repo := Repository("r", Some("c"), "u");
    assert repo.PathPrefix() + "c/p" == "r/c/p" == repo.ChannelPrefix() + "p";
    OneDest(Copy("r/c/p", "r/c/p", false));
  }

  // ---------------------------------------------------------------- the right contents

  predicate AllKnown(artifacts: seq<Artifact>, store: Store) {
    artifacts == [] || (ContentOf(artifacts[0], store).Some? && AllKnown(artifacts[1..], store))
  }

  /** The store with every destination holding its artifact's content. */
  function RightFor(repo: Repository, artifacts: seq<Artifact>, store: Store): Store
    requires AllKnown(artifacts, store)
  {
    if artifacts == [] then store
    else
      var others, paths := RightFor(repo, artifacts[1..], store), Destinations(repo, artifacts[0]);
      map path | path in others.Keys + paths ::
        if path in paths then ContentOf(artifacts[0], store).value else others[path]
  }

  /** Every destination holds what its artifact contains, going by the store at first. */
  predicate AllHold(repo: Repository, artifacts: seq<Artifact>, store: Store, right: Store) {
    artifacts == [] ||
    (&& (forall path <- Destinations(repo, artifacts[0]) ::
           path in right && ContentOf(artifacts[0], store) == Some(right[path]))
     && AllHold(repo, artifacts[1..], store, right))
  }

  lemma {:induction false} AllHoldElsewhere(
      repo: Repository, artifacts: seq<Artifact>, store: Store, a: Store, b: Store)
    requires AllHold(repo, artifacts, store, a)
    requires forall path <- AllDestinations(repo, artifacts) :: SameAt(a, b, path)
    ensures AllHold(repo, artifacts, store, b)
  {
    hide Destinations, ContentOf;
    if artifacts != [] {
      forall path <- Destinations(repo, artifacts[0])
        ensures SameAt(a, b, path)
      {
      }
      AllHoldElsewhere(repo, artifacts[1..], store, a, b);
    }
  }

  lemma {:induction false} RightForHolds(repo: Repository, artifacts: seq<Artifact>, store: Store)
    requires AllKnown(artifacts, store) && DistinctDestinations(repo, artifacts)
    ensures AllHold(repo, artifacts, store, RightFor(repo, artifacts, store))
    ensures forall path | path !in AllDestinations(repo, artifacts) ::
              SameAt(store, RightFor(repo, artifacts, store), path)
  {
    hide Destinations, ContentOf, DistinctOwn;
    if artifacts != [] {
      RightForHolds(repo, artifacts[1..], store);
      var others, right := RightFor(repo, artifacts[1..], store), RightFor(repo, artifacts, store);
      AllHoldElsewhere(repo, artifacts[1..], store, others, right);
    }
  }

  /** The paths whose content a run relies on if they exist: what is copied from, and what is
      skipped. */
  function ReliedOnBy(repo: Repository, a: Artifact): set<Path> {
    OutsideOf(a) + match a.reproduciblePath case None => {} case Some(path) => {repo.PathPrefix() + path}
  }

  function ReliedOn(repo: Repository, artifacts: seq<Artifact>): set<Path> {
    if artifacts == [] then {} else ReliedOnBy(repo, artifacts[0]) + ReliedOn(repo, artifacts[1..])
  }

  /** Where these paths are destinations, they already hold the right content. */
  predicate AlreadyRight(repo: Repository, artifacts: seq<Artifact>, paths: set<Path>, store: Store) {
    artifacts == [] ||
    (&& (forall path <- Destinations(repo, artifacts[0]) * paths ::
           path in store ==> ContentOf(artifacts[0], store) == Some(store[path]))
     && AlreadyRight(repo, artifacts[1..], paths, store))
  }

  lemma {:induction false} ReliedOnIsRight(
      repo: Repository, artifacts: seq<Artifact>, paths: set<Path>, store: Store, right: Store, path: Path)
    requires AllHold(repo, artifacts, store, right) && AlreadyRight(repo, artifacts, paths, store)
    requires path in paths && path in store && path in AllDestinations(repo, artifacts)
    ensures path in right && right[path] == store[path]
  {
    hide Destinations, ContentOf;
    if path !in Destinations(repo, artifacts[0]) {
      ReliedOnIsRight(repo, artifacts[1..], paths, store, right, path);
    }
  }

  lemma {:induction false} HeldIsAssigned(
      repo: Repository, artifacts: seq<Artifact>, store: Store, right: Store)
    requires AllKnown(artifacts, store) && AllHold(repo, artifacts, store, right)
    requires Holds(store, Outside(artifacts), right)
    ensures AllAssigned(repo, artifacts, right)
  {
    hide Destinations;
    if artifacts != [] {
      var a := artifacts[0];
      assert OutsideOf(a) <= Outside(artifacts) && Outside(artifacts[1..]) <= Outside(artifacts);
      assert ContentOf(a, right) == ContentOf(a, store);
      HeldIsAssigned(repo, artifacts[1..], store, right);
    }
  }

  lemma {:induction false} OutsideIsKnown(repo: Repository, artifacts: seq<Artifact>, store: Store)
    requires AllKnown(artifacts, store)
    ensures Outside(artifacts) <= store.Keys && Outside(artifacts) <= ReliedOn(repo, artifacts)
  {
    if artifacts != [] {
      OutsideIsKnown(repo, artifacts[1..], store);
    }
  }

  /** What a provider must be like before: it has every path that is copied from outside, and the
      paths a run relies on hold the right content if they are destinations. */
  predicate Fits(repo: Repository, artifacts: seq<Artifact>, store: Store) {
    AllKnown(artifacts, store) && AlreadyRight(repo, artifacts, ReliedOn(repo, artifacts), store)
  }

  /** With distinct destinations such a store determines what every destination should hold, even
      if something is copied from a path that is a destination itself. */
  lemma RightContentsExist(repo: Repository, artifacts: seq<Artifact>, store: Store)
    requires CommandsForAll(repo, artifacts).Success? && DistinctDestinations(repo, artifacts)
    requires Fits(repo, artifacts, store)
    ensures var right := RightFor(repo, artifacts, store);
            && AllHold(repo, artifacts, store, right)
            && AllAssigned(repo, artifacts, right)
            && (forall path | path !in AllDestinations(repo, artifacts) :: SameAt(store, right, path))
            && (forall path <- ReliedOn(repo, artifacts) ::
                  path in store ==> path in right && right[path] == store[path])
            && Holds(store, Outside(artifacts), right)
  {
    hide Destinations, ContentOf, DistinctOwn, CommandsFor;
    var right, relied := RightFor(repo, artifacts, store), ReliedOn(repo, artifacts);
    RightForHolds(repo, artifacts, store);
    OutsideIsKnown(repo, artifacts, store);
    forall path <- relied | path in store
      ensures path in right && right[path] == store[path]
    {
      if path in AllDestinations(repo, artifacts) {
        ReliedOnIsRight(repo, artifacts, relied, store, right, path);
      } else {
        assert SameAt(store, right, path);
      }
    }
    HeldIsAssigned(repo, artifacts, store, right);
  }

  /** Only reproducible paths are skipped. */
  predicate SkipsAmong(commands: seq<Command>, paths: set<Path>) {
    forall i | 0 <= i < |commands| :: commands[i].ifNotExists ==> commands[i].destination in paths
  }

  lemma {:induction false} OnlyReproduciblesAreSkipped(repo: Repository, artifacts: seq<Artifact>)
    requires CommandsForAll(repo, artifacts).Success?
    ensures var Commands(stage1, stage2) := CommandsForAll(repo, artifacts).value;
            SkipsAmong(stage1, ReliedOn(repo, artifacts)) && SkipsAmong(stage2, ReliedOn(repo, artifacts))
  {
    if artifacts != [] {
      ArtifactSkips(repo, artifacts[0]);
      OnlyReproduciblesAreSkipped(repo, artifacts[1..]);
    }
  }

  lemma ArtifactSkips(repo: Repository, a: Artifact)
    requires CommandsFor(repo, a).Success?
    ensures var Commands(stage1, stage2) := CommandsFor(repo, a).value;
            SkipsAmong(stage1, ReliedOnBy(repo, a)) && SkipsAmong(stage2, ReliedOnBy(repo, a))
  {
    hide Repository.PathPrefix, Repository.ReproducibleArtifactPath, Repository.ChannelPrefix;
  }

  // ---------------------------------------------------------------- the promise of publishing

  predicate AllFit(repo: Repository, artifacts: seq<Artifact>, stores: seq<Store>) {
    forall p | 0 <= p < |stores| :: Fits(repo, artifacts, stores[p])
  }

  function AllRight(repo: Repository, artifacts: seq<Artifact>, stores: seq<Store>): seq<Store>
    requires AllFit(repo, artifacts, stores)
  {
    seq(|stores|, p requires 0 <= p < |stores| => RightFor(repo, artifacts, stores[p]))
  }

  /** The destinations of stage 1 hold what they should. */
  predicate FirstInPlace(repo: Repository, artifacts: seq<Artifact>, before: Store, after: Store)
    requires CommandsForAll(repo, artifacts).Success? && Fits(repo, artifacts, before)
  {
    Holds(after, Dests(CommandsForAll(repo, artifacts).value.stage1), RightFor(repo, artifacts, before))
  }

  lemma MetadataIsReady(repo: Repository, artifacts: seq<Artifact>, stores: seq<Store>)
    requires CommandsForAll(repo, artifacts).Success? && DistinctDestinations(repo, artifacts)
    requires AllFit(repo, artifacts, stores)
    ensures Ready(stores, CommandsForAll(repo, artifacts).value, Outside(artifacts), AllRight(repo, artifacts, stores))
  {
    var Commands(stage1, stage2) := CommandsForAll(repo, artifacts).value;
    var rights := AllRight(repo, artifacts, stores);
    OnlyReproduciblesAreSkipped(repo, artifacts);
    forall p | 0 <= p < |stores|
      ensures AllAssigned(repo, artifacts, rights[p]) && Holds(stores[p], Outside(artifacts), rights[p])
      ensures SkipsAreRight(stores[p], stage1 + stage2, rights[p])
    {
      RightContentsExist(repo, artifacts, stores[p]);
      SkippedIsRight(stage1, ReliedOn(repo, artifacts), stores[p], rights[p]);
      SkippedIsRight(stage2, ReliedOn(repo, artifacts), stores[p], rights[p]);
    }
    MadeCommandsAreReady(repo, artifacts, stores, rights);
  }

  lemma SkippedIsRight(commands: seq<Command>, paths: set<Path>, store: Store, right: Store)
    requires SkipsAmong(commands, paths)
    requires forall path <- paths :: path in store ==> path in right && right[path] == store[path]
    ensures SkipsAreRight(store, commands, right)
  {
  }

  /** An uninterrupted run. */
  lemma PublishingFinishes(repo: Repository, artifacts: seq<Artifact>, stores: seq<Store>, life: nat, p: nat)
    requires CommandsForAll(repo, artifacts).Success? && DistinctDestinations(repo, artifacts)
    requires AllFit(repo, artifacts, stores) && p < |stores|
    requires life >= |AllTurns(|stores|, CommandsForAll(repo, artifacts).value)|
    ensures InRange(AllTurns(|stores|, CommandsForAll(repo, artifacts).value), |stores|)
    ensures var r := Taken(stores, AllTurns(|stores|, CommandsForAll(repo, artifacts).value), life);
            && r.outcome == Finished
            && AllHold(repo, artifacts, stores[p], r.stores[p])
            && forall path | path !in AllDestinations(repo, artifacts) :: SameAt(stores[p], r.stores[p], path)
  {
    var commands := CommandsForAll(repo, artifacts).value;
    var rights := AllRight(repo, artifacts, stores);
    MetadataIsReady(repo, artifacts, stores);
    PublishingIsRight(stores, commands, Outside(artifacts), rights, life, p);
    StagesAreDisjoint(repo, artifacts);
    DestsOfTwoParts(commands.stage1, commands.stage2);
    RightContentsExist(repo, artifacts, stores[p]);
    var after := Overlay(stores[p], rights[p], AllDestinations(repo, artifacts));
    AllHoldElsewhere(repo, artifacts, stores[p], rights[p], after);
  }

  /** Staged publishing of any metadata with distinct destinations, from any stores that fit it, with
      any interruption: no copy lacks its source; if a stage 2 path has changed on any provider,
      stage 1 is in place on all; and running everything again ends as an uninterrupted run does. */
  lemma PublishingKeepsItsPromise(
      repo: Repository, artifacts: seq<Artifact>, stores: seq<Store>, life: nat, again: nat)
    requires CommandsForAll(repo, artifacts).Success? && DistinctDestinations(repo, artifacts)
    requires AllFit(repo, artifacts, stores)
    requires again >= |AllTurns(|stores|, CommandsForAll(repo, artifacts).value)|
    ensures InRange(AllTurns(|stores|, CommandsForAll(repo, artifacts).value), |stores|)
    ensures var commands := CommandsForAll(repo, artifacts).value;
            var turns := AllTurns(|stores|, commands);
            var r := Taken(stores, turns, life);
            && r.outcome != MissingSource
            && (forall p, q, path | 0 <= p < |stores| && 0 <= q < |stores| && path in Dests(commands.stage2) ::
                  SameAt(stores[p], r.stores[p], path) || FirstInPlace(repo, artifacts, stores[q], r.stores[q]))
            && Taken(r.stores, turns, again).stores == Taken(stores, turns, again).stores
  {
    var commands, outside := CommandsForAll(repo, artifacts).value, Outside(artifacts);
    var rights := AllRight(repo, artifacts, stores);
    MetadataIsReady(repo, artifacts, stores);
    StagesAreDisjoint(repo, artifacts);
    RerunConverges(stores, commands, outside, rights, life, again);
    NeverMissing(stores, commands, outside, rights, life);
    var r := Taken(stores, AllTurns(|stores|, commands), life);
    forall p, q, path | 0 <= p < |stores| && 0 <= q < |stores| && path in Dests(commands.stage2)
      ensures SameAt(stores[p], r.stores[p], path) || FirstInPlace(repo, artifacts, stores[q], r.stores[q])
    {
      StagesAreOrdered(stores, commands, outside, rights, life, p, path, q);
    }
  }

  lemma NeverMissing(stores: seq<Store>, commands: Commands, outside: set<Path>, rights: seq<Store>, life: nat)
    requires Ready(stores, commands, outside, rights)
    ensures InRange(AllTurns(|stores|, commands), |stores|)
    ensures Taken(stores, AllTurns(|stores|, commands), life).outcome != MissingSource
  {
    AllInRange(|stores|, commands);
    if |stores| == 0 {
      NoTurns(commands);
    } else {
      var part := StoreReached(stores, commands, outside, rights, life, 0);
    }
  }

  lemma NoTurns(commands: Commands)
    ensures AllTurns(0, commands) == []
  {
  }
}
