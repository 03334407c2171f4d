/** Swapping in a new set of packages (`Install.swap_active` and `recover_swap_active` of pkgpanda),
    on a machine that may stop before any rename or progress-file write. */
module Swap {
  import opened Wrappers

  /** A well-known path below the install root. */
  type Name = int

  /** A file or directory, by identity. */
  type Entry = int

  /** What is at a path, at the path with `.old` and at the path with `.new`. */
  datatype Slot = Slot(active: Option<Entry>, archived: Option<Entry>, staged: Option<Entry>)

  datatype Stage = Archive | MoveNew

  /** The slots, and the progress file. */
  datatype Disk = Disk(slots: map<Name, Slot>, progress: Option<Stage>)

  /** One atomic effect: a rename, or a replacement or removal of the progress file. */
  datatype Action = Record(stage: Stage) | Aside(name: Name) | MoveIn(name: Name) | Forget

  /** How a call ends; a stop leaves the disk as it is. */
  datatype Outcome = Finished | Stopped | Refused | NothingToDo

  function Apply(d: Disk, action: Action): Disk {
    match action
    case Record(stage) => d.(progress := Some(stage))
    case Forget => d.(progress := None)
    case Aside(name) =>
      if name !in d.slots then d
      else d.(slots := d.slots[name := d.slots[name].(archived := d.slots[name].active, active := None)])
    case MoveIn(name) =>
      if name !in d.slots then d
      else d.(slots := d.slots[name := d.slots[name].(active := d.slots[name].staged, staged := None)])
  }

  /** A move has something to move, and nothing is in its way. */
  predicate Free(d: Disk, action: Action) {
    match action
    case Aside(name) => name in d.slots && d.slots[name].active.Some? && d.slots[name].archived.None?
    case MoveIn(name) => name in d.slots && d.slots[name].staged.Some? && d.slots[name].active.None?
    case _ => true
  }

  // ---------------------------------------------------------------- what the two calls do

  predicate Tracked(names: seq<Name>, slots: map<Name, Slot>) {
    && (forall i, j | 0 <= i < j < |names| :: names[i] != names[j])
    && (forall i | 0 <= i < |names| :: names[i] in slots)
  }

  predicate AllStaged(names: seq<Name>, d: Disk)
    requires Tracked(names, d.slots)
  {
    forall i | 0 <= i < |names| :: d.slots[names[i]].staged.Some?
  }

  /** Only what exists is archived. */
  function Asides(names: seq<Name>, slots: map<Name, Slot>): seq<Action> {
    if names == [] then []
    else
      (if names[0] in slots && slots[names[0]].active.Some? then [Aside(names[0])] else [])
      + Asides(names[1..], slots)
  }

  function MovesIn(names: seq<Name>): seq<Action> {
    if names == [] then [] else [MoveIn(names[0])] + MovesIn(names[1..])
  }

  function Arrival(names: seq<Name>): seq<Action> {
    MovesIn(names) + [Forget]
  }

  function Departure(names: seq<Name>, slots: map<Name, Slot>, all: seq<Name>): seq<Action> {
    Asides(names, slots) + ([Record(MoveNew)] + Arrival(all))
  }

  function Plan(names: seq<Name>, d: Disk, archive: bool): seq<Action> {
    if archive then [Record(Archive)] + Departure(names, d.slots, names)
    else [Record(MoveNew)] + Arrival(names)
  }

  /** Carrying out a plan on a machine with so many effects left to live. */
  function Carried(d: Disk, plan: seq<Action>, life: nat): (r: (Disk, nat))
    ensures r.1 == if life < |plan| then 0 else life - |plan|
    decreases |plan|
  {
    if plan == [] || life == 0 then (d, life) else Carried(Apply(d, plan[0]), plan[1..], life - 1)
  }

  lemma {:induction false} CarriedKeys(d: Disk, plan: seq<Action>, life: nat)
    ensures Carried(d, plan, life).0.slots.Keys == d.slots.Keys
    decreases |plan|
  {
    if plan != [] && life > 0 {
      CarriedKeys(Apply(d, plan[0]), plan[1..], life - 1);
    }
  }

  function Swapped(names: seq<Name>, d: Disk, archive: bool, life: nat): (r: (Outcome, Disk))
    requires Tracked(names, d.slots)
    ensures r.1.slots.Keys == d.slots.Keys
  {
    if !AllStaged(names, d) then (Refused, d)
    else
      var plan := Plan(names, d, archive);
      CarriedKeys(d, plan, life);
      (if life < |plan| then Stopped else Finished, Carried(d, plan, life).0)
  }

  function Recovered(names: seq<Name>, d: Disk, life: nat): (r: (Outcome, Disk))
    requires Tracked(names, d.slots)
    ensures r.1.slots.Keys == d.slots.Keys
  {
    match d.progress
    case None => (NothingToDo, d)
    case Some(stage) => Swapped(names, d, stage == Archive, life)
  }

  // ---------------------------------------------------------------- the calls themselves

  lemma {:induction false} Untouched(names: seq<Name>, slots: map<Name, Slot>, name: Name, slot: Slot)
    requires name !in names
    ensures Asides(names, slots[name := slot]) == Asides(names, slots)
  {
    if names != [] {
      Untouched(names[1..], slots, name, slot);
    }
  }

  /** A plan in two parts. */
  lemma {:induction false} CarriedThen(d: Disk, first: seq<Action>, next: seq<Action>, life: nat)
    ensures var (after, left) := Carried(d, first, life);
            Carried(d, first + next, life) == Carried(after, next, left)
    decreases |first|
  {
    if first == [] {
      assert first + next == next;
    } else if life > 0 {
      assert (first + next)[1..] == first[1..] + next;
      CarriedThen(Apply(d, first[0]), first[1..], next, life - 1);
    }
  }

  lemma CarriedOne(d: Disk, action: Action, life: nat)
    ensures Carried(d, [action], life) == if life == 0 then (d, 0) else (Apply(d, action), life - 1)
  {
    assert [action][1..] == [];
  }

  class Install {
    const names: seq<Name>
    var slots: map<Name, Slot>
    var progress: Option<Stage>
    /** Effects left before the machine stops. */
    var life: nat

    constructor (names: seq<Name>, d: Disk, life: nat)
      ensures this.names == names && Now() == d && this.life == life
    {
      this.names := names;
      slots := d.slots;
      progress := d.progress;
      this.life := life;
    }

    function Now(): Disk
      reads this
    {
      Disk(slots, progress)
    }

    predicate Valid()
      reads this
    {
      Tracked(names, slots)
    }

    method RecordState(stage: Stage) returns (done: bool)
      modifies this`progress, this`life
      ensures done == (old(life) > 0)
      ensures done ==> life == old(life) - 1 && Now() == Apply(old(Now()), Record(stage))
      ensures !done ==> life == 0 && Now() == old(Now())
    {
      if life == 0 {
        return false;
      }
      progress := Some(stage);
      life := life - 1;
      done := true;
    }

    method RemoveState() returns (done: bool)
      modifies this`progress, this`life
      ensures done == (old(life) > 0)
      ensures done ==> life == old(life) - 1 && Now() == Apply(old(Now()), Forget)
      ensures !done ==> life == 0 && Now() == old(Now())
    {
      if life == 0 {
        return false;
      }
      progress := None;
      life := life - 1;
      done := true;
    }

    method MoveAside(name: Name) returns (done: bool)
      requires Valid() && name in names
      modifies this`slots, this`life
      ensures Valid() && done == (old(life) > 0)
      ensures done ==> life == old(life) - 1 && Now() == Apply(old(Now()), Aside(name))
      ensures !done ==> life == 0 && Now() == old(Now())
    {
      if life == 0 {
        return false;
      }
      slots := slots[name := Slot(None, slots[name].active, slots[name].staged)];
      life := life - 1;
      done := true;
    }

    method MoveNewIn(name: Name) returns (done: bool)
      requires Valid() && name in names
      modifies this`slots, this`life
      ensures Valid() && done == (old(life) > 0)
      ensures done ==> life == old(life) - 1 && Now() == Apply(old(Now()), MoveIn(name))
      ensures !done ==> life == 0 && Now() == old(Now())
    {
      if life == 0 {
        return false;
      }
      slots := slots[name := Slot(slots[name].staged, slots[name].archived, None)];
      life := life - 1;
      done := true;
    }

    /** Does every name have its `.new`? */
    method CheckStaged() returns (ok: bool)
      requires Valid()
      ensures ok == AllStaged(names, Now())
    {
      for i := 0 to |names|
        invariant forall j | 0 <= j < i :: slots[names[j]].staged.Some?
      {
        if slots[names[i]].staged.None? {
          return false;
        }
      }
      ok := true;
    }

    method ArchiveCurrent() returns (done: bool)
      requires Valid()
      modifies this`slots, this`life
      ensures Valid() && done == (|Asides(names, old(slots))| <= old(life))
      ensures (Now(), life) == Carried(old(Now()), Asides(names, old(slots)), old(life))
    {
      ghost var start, all, lives := Now(), Asides(names, slots), life;
      assert names[0..] == names;
      for i := 0 to |names|
        invariant Valid()
        invariant Carried(start, all, lives) == Carried(Now(), Asides(names[i..], slots), life)
        invariant lives - life == |all| - |Asides(names[i..], slots)|
      {
        ghost var was, left, others := Now(), life, names[i + 1..];
        assert names[i..] == [names[i]] + others;
        if slots[names[i]].active.Some? {
          done := MoveAside(names[i]);
          if !done {
            return;
          }
          Untouched(others, was.slots, names[i], slots[names[i]]);
          CarriedOne(was, Aside(names[i]), left);
          CarriedThen(was, [Aside(names[i])], Asides(others, slots), left);
        } else {
          assert [] + Asides(others, slots) == Asides(others, slots);
        }
      }
      done := true;
    }

    method MoveAllIn() returns (done: bool)
      requires Valid()
      modifies this`slots, this`life
      ensures Valid() && done == (|MovesIn(names)| <= old(life))
      ensures (Now(), life) == Carried(old(Now()), MovesIn(names), old(life))
    {
      ghost var start, all, lives := Now(), MovesIn(names), life;
      assert names[0..] == names;
      for i := 0 to |names|
        invariant Valid()
        invariant Carried(start, all, lives) == Carried(Now(), MovesIn(names[i..]), life)
        invariant lives - life == |all| - |MovesIn(names[i..])|
      {
        ghost var was, left, others := Now(), life, names[i + 1..];
        assert names[i..] == [names[i]] + others;
        done := MoveNewIn(names[i]);
        if !done {
          return;
        }
        CarriedOne(was, MoveIn(names[i]), left);
        CarriedThen(was, [MoveIn(names[i])], MovesIn(others), left);
      }
      done := true;
    }

    /** `swap_active`. */
    method SwapActive(archive: bool) returns (outcome: Outcome)
      requires Valid()
      modifies this
      ensures Valid()
      ensures (outcome, Now()) == Swapped(names, old(Now()), archive, old(life))
    {
      var staged := CheckStaged();
      if !staged {
        return Refused;
      }
      ghost var start, lives := Now(), life;
      if archive {
        var recorded := RecordState(Archive);
        var archived := false;
        if recorded {
          archived := ArchiveCurrent();
        }
        CarriedOne(start, Record(Archive), lives);
        CarriedThen(start, [Record(Archive)], Departure(names, start.slots, names), lives);
        if !recorded {
          return Stopped;
        }
        ghost var marked := start.(progress := Some(Archive));
        CarriedThen(marked, Asides(names, start.slots), [Record(MoveNew)] + Arrival(names), lives - 1);
        if !archived {
          return Stopped;
        }
      }
      outcome := FinishSwap();
    }

    /** The second half of `swap_active`. */
    method FinishSwap() returns (outcome: Outcome)
      requires Valid()
      modifies this
      ensures Valid()
      ensures var plan := [Record(MoveNew)] + Arrival(names);
              && Now() == Carried(old(Now()), plan, old(life)).0
              && outcome == if old(life) < |plan| then Stopped else Finished
    {
      ghost var start, lives := Now(), life;
      CarriedOne(start, Record(MoveNew), lives);
      CarriedThen(start, [Record(MoveNew)], Arrival(names), lives);
      var recorded := RecordState(MoveNew);
      if !recorded {
        return Stopped;
      }
      CarriedThen(Now(), MovesIn(names), [Forget], life);
      var moved := MoveAllIn();
      if !moved {
        return Stopped;
      }
      CarriedOne(Now(), Forget, life);
      var removed := RemoveState();
      outcome := if removed then Finished else Stopped;
    }

    /** `recover_swap_active`. */
    method RecoverSwapActive() returns (outcome: Outcome)
      requires Valid()
      modifies this
      ensures Valid()
      ensures (outcome, Now()) == Recovered(names, old(Now()), old(life))
    {
      if progress.None? {
        return NothingToDo;
      }
      outcome := SwapActive(progress.value == Archive);
    }
  }
}
