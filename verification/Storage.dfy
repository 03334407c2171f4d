/** Running staged commands against storage providers (`apply_storage_commands`). */
module Storage {
  import opened Wrappers
  import opened Publish

  type Store = map<Path, Content>

  /** One turn of the inner loop: a command, on the provider with this number. */
  datatype Turn = Turn(provider: nat, command: Command)

  datatype Outcome = Finished | Interrupted | MissingSource

  /** A command on one store; copying from nothing raises. */
  function Done(store: Store, command: Command): Option<Store> {
    if command.ifNotExists && command.destination in store then Some(store)
    else
      match command
      case Upload(content, destination, _, _, _) => Some(store[destination := content])
      case Copy(source, destination, _) =>
        if source in store then Some(store[destination := store[source]]) else None
  }

  /** Every command of a stage, on every provider from the `p`-th on. */
  function TurnsOf(p: nat, commands: seq<Command>): seq<Turn> {
    if commands == [] then [] else [Turn(p, commands[0])] + TurnsOf(p, commands[1..])
  }

  function StageTurns(p: nat, providers: nat, commands: seq<Command>): seq<Turn>
    requires p <= providers
    decreases providers - p
  {
    if p == providers then [] else TurnsOf(p, commands) + StageTurns(p + 1, providers, commands)
  }

  function AllTurns(providers: nat, commands: Commands): seq<Turn> {
    StageTurns(0, providers, commands.stage1) + StageTurns(0, providers, commands.stage2)
  }

  datatype Progress = Progress(stores: seq<Store>, life: nat, outcome: Outcome)

  predicate InRange(turns: seq<Turn>, providers: nat) {
    forall i | 0 <= i < |turns| :: turns[i].provider < providers
  }

  /** Taking turns until they run out, the run is interrupted, or a copy has nothing to read. */
  function Taken(stores: seq<Store>, turns: seq<Turn>, life: nat): (r: Progress)
    requires InRange(turns, |stores|)
    ensures |r.stores| == |stores|
    ensures r.outcome == Finished ==> r.life == life - |turns|
    decreases |turns|
  {
    if turns == [] then Progress(stores, life, Finished)
    else if life == 0 then Progress(stores, 0, Interrupted)
    else
      match Done(stores[turns[0].provider], turns[0].command)
      case None => Progress(stores, life - 1, MissingSource)
      case Some(store) => Taken(stores[turns[0].provider := store], turns[1..], life - 1)
  }

  lemma {:induction false} TakenThen(stores: seq<Store>, a: seq<Turn>, b: seq<Turn>, life: nat)
    requires InRange(a, |stores|) && InRange(b, |stores|)
    ensures InRange(a + b, |stores|)
    ensures Taken(stores, a + b, life)
         == var first := Taken(stores, a, life);
            if first.outcome == Finished then Taken(first.stores, b, first.life) else first
    decreases |a|
  {
    if a == [] {
      assert a + b == b;
    } else if life > 0 {
      assert (a + b)[1..] == a[1..] + b;
      match Done(stores[a[0].provider], a[0].command) {
        case None =>
        case Some(store) => TakenThen(stores[a[0].provider := store], a[1..], b, life - 1);
      }
    }
  }

  lemma {:induction false} TurnsInRange(p: nat, providers: nat, commands: seq<Command>)
    requires p < providers
    ensures InRange(TurnsOf(p, commands), providers)
  {
    if commands != [] {
      TurnsInRange(p, providers, commands[1..]);
    }
  }

  lemma {:induction false} StageInRange(p: nat, providers: nat, commands: seq<Command>)
    requires p <= providers
    ensures InRange(StageTurns(p, providers, commands), providers)
    decreases providers - p
  {
    if p < providers {
      TurnsInRange(p, providers, commands);
      StageInRange(p + 1, providers, commands);
    }
  }

  lemma AllInRange(providers: nat, commands: Commands)
    ensures InRange(AllTurns(providers, commands), providers)
  {
    StageInRange(0, providers, commands.stage1);
    StageInRange(0, providers, commands.stage2);
  }

  class Providers {
    var stores: seq<Store>
    /** Commands left before the run is interrupted. */
    var life: nat

    constructor (stores: seq<Store>, life: nat)
      ensures this.stores == stores && this.life == life
    {
      this.stores := stores;
      this.life := life;
    }

    /** One command on one provider, or its skipping. */
    method Take(p: nat, command: Command) returns (outcome: Outcome)
      requires p < |stores|
      modifies this
      ensures Progress(stores, life, outcome) == Taken(old(stores), [Turn(p, command)], old(life))
    {
      assert [Turn(p, command)][1..] == [];
      if life == 0 {
        return Interrupted;
      }
      life := life - 1;
      var path := command.destination;
      if command.ifNotExists && path in stores[p] {
        assert stores[p := stores[p]] == stores;
        return Finished;
      }
      match command {
        case Upload(content, destination, _, _, _) =>
          stores := stores[p := stores[p][destination := content]];
        case Copy(source, destination, _) =>
          if source !in stores[p] {
            return MissingSource;
          }
          stores := stores[p := stores[p][destination := stores[p][source]]];
      }
      outcome := Finished;
    }

    method ApplyToProvider(p: nat, commands: seq<Command>) returns (outcome: Outcome)
      requires p < |stores|
      modifies this
      ensures InRange(TurnsOf(p, commands), old(|stores|))
      ensures Progress(stores, life, outcome) == Taken(old(stores), TurnsOf(p, commands), old(life))
    {
      ghost var start, all, lives := stores, TurnsOf(p, commands), life;
      TurnsInRange(p, |stores|, commands);
      assert commands[0..] == commands;
      for i := 0 to |commands|
        invariant |stores| == |start|
        invariant InRange(TurnsOf(p, commands[i..]), |stores|)
        invariant Taken(start, all, lives) == Taken(stores, TurnsOf(p, commands[i..]), life)
      {
        ghost var turns := TurnsOf(p, commands[i + 1..]);
        assert commands[i..] == [commands[i]] + commands[i + 1..];
        TurnsInRange(p, |stores|, commands[i + 1..]);
        TakenThen(stores, [Turn(p, commands[i])], turns, life);
        outcome := Take(p, commands[i]);
        if outcome != Finished {
          return;
        }
      }
      outcome := Finished;
    }

    method ApplyStage(commands: seq<Command>) returns (outcome: Outcome)
      modifies this
      ensures InRange(StageTurns(0, old(|stores|), commands), old(|stores|))
      ensures Progress(stores, life, outcome)
           == Taken(old(stores), StageTurns(0, old(|stores|), commands), old(life))
    {
      ghost var start, lives := stores, life;
      ghost var all := StageTurns(0, |stores|, commands);
      StageInRange(0, |stores|, commands);
      for p := 0 to |stores|
        invariant |stores| == |start|
        invariant InRange(StageTurns(p, |stores|, commands), |stores|)
        invariant Taken(start, all, lives) == Taken(stores, StageTurns(p, |stores|, commands), life)
      {
        TurnsInRange(p, |stores|, commands);
        StageInRange(p + 1, |stores|, commands);
        TakenThen(stores, TurnsOf(p, commands), StageTurns(p + 1, |stores|, commands), life);
        outcome := ApplyToProvider(p, commands);
        if outcome != Finished {
          return;
        }
      }
      outcome := Finished;
    }

    /** `apply_storage_commands`. */
    method ApplyStorageCommands(commands: Commands) returns (outcome: Outcome)
      modifies this
      ensures InRange(AllTurns(old(|stores|), commands), old(|stores|))
      ensures Progress(stores, life, outcome)
           == Taken(old(stores), AllTurns(old(|stores|), commands), old(life))
    {
      AllInRange(|stores|, commands);
      StageInRange(0, |stores|, commands.stage1);
      StageInRange(0, |stores|, commands.stage2);
      TakenThen(stores, StageTurns(0, |stores|, commands.stage1), StageTurns(0, |stores|, commands.stage2), life);
      outcome := ApplyStage(commands.stage1);
      if outcome != Finished {
        return;
      }
      outcome := ApplyStage(commands.stage2);
    }
  }
}
