/** What crashes and recoveries can do to a swap of packages. */
module Recovery {
  import opened Wrappers
  import opened Swap

  /** The disk that `activate` hands to the swap: nothing archived, everything staged, no swap
      under way. */
  predicate Prepared(names: seq<Name>, d: Disk) {
    && Tracked(names, d.slots)
    && d.progress == None
    && forall i | 0 <= i < |names| :: SlotPrepared(d.slots[names[i]])
  }

  predicate SlotPrepared(slot: Slot) {
    slot.archived.None? && slot.staged.Some? && slot.active != slot.staged
  }

  /** How far a swap has come: so many names archived, or so many moved in. */
  datatype Point = Before | Archiving(done: nat) | Moving(done: nat) | After

  function Moved(slot: Slot): Slot {
    Slot(slot.staged, slot.active, None)
  }

  function SetAside(slot: Slot): Slot {
    Slot(None, slot.active, slot.staged)
  }

  function Expected(slot: Slot, i: nat, point: Point): Slot {
    match point
    case Before => slot
    case Archiving(done) => if i < done then SetAside(slot) else slot
    case Moving(done) => if i < done then Moved(slot) else SetAside(slot)
    case After => Moved(slot)
  }

  function Progress(point: Point): Option<Stage> {
    match point
    case Before => None
    case Archiving(_) => Some(Archive)
    case Moving(_) => Some(MoveNew)
    case After => None
  }

  /** The disk is exactly what the swap of `start` looks like at this point. */
  predicate At(names: seq<Name>, start: Disk, d: Disk, point: Point) {
    && Tracked(names, start.slots) && Tracked(names, d.slots)
    && d.progress == Progress(point)
    && (point.Archiving? || point.Moving? ==> point.done <= |names|)
    && forall i | 0 <= i < |names| :: d.slots[names[i]] == Expected(start.slots[names[i]], i, point)
  }

  /** Every action carried out finds its destination free. */
  predicate AllFree(d: Disk, plan: seq<Action>, life: nat)
    decreases |plan|
  {
    plan == [] || life == 0 || (Free(d, plan[0]) && AllFree(Apply(d, plan[0]), plan[1..], life - 1))
  }

  // ---------------------------------------------------------------- from any disk

  /** Every entry that is to be archived can be, or nothing stands where the new ones go. */
  predicate NothingInTheWay(names: seq<Name>, d: Disk, archive: bool)
    requires Tracked(names, d.slots)
  {
    forall i | 0 <= i < |names| ::
      d.slots[names[i]].active.Some? ==> archive && d.slots[names[i]].archived.None?
  }

  /** A swap is refused, and changes nothing, exactly if something is not staged; if it is not
      refused, every move has something to move and a free place to go. */
  lemma SwapIsFree(names: seq<Name>, d: Disk, archive: bool, life: nat)
    requires Tracked(names, d.slots)
    ensures Swapped(names, d, archive, life).0 == Refused
       <==> exists i :: 0 <= i < |names| && d.slots[names[i]].staged.None?
    ensures Swapped(names, d, archive, life).0 == Refused ==> Swapped(names, d, archive, life).1 == d
    ensures Swapped(names, d, archive, life).0 != Refused && NothingInTheWay(names, d, archive) ==>
              AllFree(d, Plan(names, d, archive), life)
  {
    var plan := Plan(names, d, archive);
    if AllStaged(names, d) && NothingInTheWay(names, d, archive) && life > 0 {
      var next := Apply(d, plan[0]);
      if archive {
        assert plan[1..] == Departure(names, d.slots, names);
        DepartureIsFree(names, next, names, life - 1);
      } else {
        assert plan[1..] == Arrival(names);
        ArrivalIsFree(names, next, life - 1);
      }
    }
  }

  lemma {:induction false} ArrivalIsFree(names: seq<Name>, d: Disk, life: nat)
    requires Tracked(names, d.slots)
    requires forall i | 0 <= i < |names| :: d.slots[names[i]].staged.Some? && d.slots[names[i]].active.None?
    ensures AllFree(d, Arrival(names), life)
    decreases |names|
  {
    var plan := Arrival(names);
    if life > 0 {
      if names == [] {
        assert plan == [Forget] && plan[1..] == [];
      } else {
        var rest := names[1..];
        assert plan == [MoveIn(names[0])] + Arrival(rest) && plan[1..] == Arrival(rest);
        assert forall i | 0 <= i < |rest| :: rest[i] == names[i + 1];
        ArrivalIsFree(rest, Apply(d, plan[0]), life - 1);
      }
    }
  }

  /** The names still to be archived come last among all of them. */
  lemma {:induction false} DepartureIsFree(names: seq<Name>, d: Disk, all: seq<Name>, life: nat)
    requires |names| <= |all| && names == all[|all| - |names|..] && Tracked(all, d.slots) && AllStaged(all, d)
    requires forall i | 0 <= i < |all| && d.slots[all[i]].active.Some? ::
               |all| - |names| <= i && d.slots[all[i]].archived.None?
    ensures AllFree(d, Departure(names, d.slots, all), life)
    decreases |names|
  {
    var plan := Departure(names, d.slots, all);
    if names == [] {
      assert plan == [Record(MoveNew)] + Arrival(all) && plan[1..] == Arrival(all);
      if life > 0 {
        ArrivalIsFree(all, Apply(d, plan[0]), life - 1);
      }
    } else {
      var first, rest := names[0], names[1..];
      assert all[|all| - |names|] == first && rest == all[|all| - |rest|..];
      if d.slots[first].active.None? {
        assert [] + Asides(rest, d.slots) == Asides(rest, d.slots);
        DepartureIsFree(rest, d, all, life);
      } else if life > 0 {
        var next := Apply(d, Aside(first));
        assert forall i | 0 <= i < |rest| :: rest[i] == all[|all| - |rest| + i];
        Untouched(rest, d.slots, first, next.slots[first]);
        assert plan == [Aside(first)] + Departure(rest, next.slots, all);
        assert plan[1..] == Departure(rest, next.slots, all);
        DepartureIsFree(rest, next, all, life - 1);
      }
    }
  }

  predicate Later(point: Point, from: nat) {
    point.After? || (point.Moving? && from <= point.done)
  }

  lemma {:induction false} CarriedFromMoving(
      names: seq<Name>, start: Disk, d: Disk, k: nat, life: nat) returns (point: Point)
    requires Prepared(names, start) && At(names, start, d, Moving(k))
    ensures var plan := Arrival(names[k..]);
            && AllFree(d, plan, life)
            && At(names, start, Carried(d, plan, life).0, point) && Later(point, k)
            && (point.After? <==> |plan| <= life)
    decreases |names| - k
  {
    point := Moving(k);
    var plan := Arrival(names[k..]);
    if life > 0 {
      var next := Apply(d, plan[0]);
      if k == |names| {
        assert plan == [Forget];
        point := After;
      } else {
        assert names[k..] == [names[k]] + names[k + 1..];
        assert plan == [MoveIn(names[k])] + Arrival(names[k + 1..]);
        assert plan[1..] == Arrival(names[k + 1..]);
        assert At(names, start, next, Moving(k + 1));
        point := CarriedFromMoving(names, start, next, k + 1, life - 1);
      }
    }
  }

  lemma AsideOrSkip(names: seq<Name>, start: Disk, d: Disk, k: nat)
    requires Prepared(names, start) && At(names, start, d, Archiving(k)) && k < |names|
    ensures var plan := Departure(names[k..], d.slots, names);
            if d.slots[names[k]].active.None? then
              plan == Departure(names[k + 1..], d.slots, names) && At(names, start, d, Archiving(k + 1))
            else
              var next := Apply(d, Aside(names[k]));
              && plan != [] && plan[0] == Aside(names[k]) && Free(d, plan[0])
              && plan[1..] == Departure(names[k + 1..], next.slots, names)
              && At(names, start, next, Archiving(k + 1))
  {
    var name, others := names[k], names[k + 1..];
    assert names[k..] == [name] + others;
    if d.slots[name].active.None? {
      assert [] + Asides(others, d.slots) == Asides(others, d.slots);
    } else {
      var next := Apply(d, Aside(name));
      Untouched(others, d.slots, name, next.slots[name]);
      assert Departure(names[k..], d.slots, names) == [Aside(name)] + Departure(others, next.slots, names);
    }
  }

  lemma {:induction false} CarriedFromArchiving(
      names: seq<Name>, start: Disk, d: Disk, k: nat, life: nat) returns (point: Point)
    requires Prepared(names, start) && At(names, start, d, Archiving(k))
    ensures var plan := Departure(names[k..], d.slots, names);
            && AllFree(d, plan, life)
            && At(names, start, Carried(d, plan, life).0, point) && !point.Before?
            && (point.After? <==> |plan| <= life)
    decreases |names| - k
  {
    point := Archiving(k);
    var plan := Departure(names[k..], d.slots, names);
    if life > 0 {
      if k == |names| {
        assert plan == [Record(MoveNew)] + Arrival(names);
        assert plan[1..] == Arrival(names) && names[0..] == names;
        var next := Apply(d, Record(MoveNew));
        assert At(names, start, next, Moving(0));
        point := CarriedFromMoving(names, start, next, 0, life - 1);
      } else {
        AsideOrSkip(names, start, d, k);
        if d.slots[names[k]].active.None? {
          point := CarriedFromArchiving(names, start, d, k + 1, life);
        } else {
          hide At, Departure, Apply, Prepared;
          point := CarriedFromArchiving(names, start, Apply(d, Aside(names[k])), k + 1, life - 1);
        }
      }
    }
  }

  /** Doing over what is already done: the archiving starts again from the first name. */
  lemma {:induction false} AsidesDone(names: seq<Name>, start: Disk, d: Disk, done: nat, k: nat)
    requires Prepared(names, start) && At(names, start, d, Archiving(done)) && k <= done
    ensures Asides(names, d.slots) == Asides(names[k..], d.slots)
    decreases k
  {
    if k == 0 {
      assert names[0..] == names;
    } else {
      AsidesDone(names, start, d, done, k - 1);
      assert names[k - 1..] == [names[k - 1]] + names[k..];
      assert [] + Asides(names[k..], d.slots) == Asides(names[k..], d.slots);
    }
  }

  /** A swap before any crash. */
  lemma SwapFromStart(names: seq<Name>, start: Disk, life: nat) returns (point: Point)
    requires Prepared(names, start)
    ensures var (outcome, d) := Swapped(names, start, true, life);
            && AllFree(start, Plan(names, start, true), life)
            && At(names, start, d, point)
            && outcome == if point.After? then Finished else Stopped
  {
    point := Before;
    var plan := Plan(names, start, true);
    assert plan[1..] == Departure(names, start.slots, names) && names[0..] == names;
    if life > 0 {
      var next := Apply(start, Record(Archive));
      assert At(names, start, next, Archiving(0));
      point := CarriedFromArchiving(names, start, next, 0, life - 1);
    }
  }

  lemma StagedAt(names: seq<Name>, start: Disk, d: Disk, point: Point)
    requires Prepared(names, start) && At(names, start, d, point) && d.progress.Some?
    ensures AllStaged(names, d) <==> point.Archiving? || point == Moving(0) || |names| == 0
  {
    if point.Moving? && point.done > 0 {
      assert d.slots[names[0]] == Moved(start.slots[names[0]]);
    }
  }

  lemma RecoverFrom(names: seq<Name>, start: Disk, d: Disk, from: Point, life: nat) returns (point: Point)
    requires Prepared(names, start) && At(names, start, d, from)
    ensures var (outcome, after) := Recovered(names, d, life);
            && At(names, start, after, point)
            && (d.progress.Some? && AllStaged(names, d) ==>
                  && AllFree(d, Plan(names, d, from.Archiving?), life)
                  && (outcome == Finished <==> point.After?)
                  && (point.After? <==> |Plan(names, d, from.Archiving?)| <= life))
            && (d.progress.Some? && !AllStaged(names, d) ==> outcome == Refused && after == d)
            && (d.progress.None? ==> outcome == NothingToDo && after == d)
  {
    point := from;
    if d.progress.Some? && AllStaged(names, d) {
      StagedAt(names, start, d, from);
      var plan := Plan(names, d, from.Archiving?);
      if from.Archiving? {
        point := RecoverArchiving(names, start, d, from.done, life);
      } else {
        assert from == Moving(0);
        assert plan[1..] == Arrival(names) && names[0..] == names;
        if life > 0 {
          assert Apply(d, Record(MoveNew)) == d;
          point := CarriedFromMoving(names, start, d, 0, life - 1);
        }
      }
    }
  }

  lemma RecoverArchiving(names: seq<Name>, start: Disk, d: Disk, done: nat, life: nat) returns (point: Point)
    requires Prepared(names, start) && At(names, start, d, Archiving(done))
    ensures var plan := Plan(names, d, true);
            && AllFree(d, plan, life)
            && At(names, start, Carried(d, plan, life).0, point)
            && (point.After? <==> |plan| <= life)
  {
    point := Archiving(done);
    var plan := Plan(names, d, true);
    AsidesDone(names, start, d, done, done);
    assert plan[1..] == Departure(names[done..], d.slots, names);
    if life > 0 {
      assert Apply(d, Record(Archive)) == d;
      point := CarriedFromArchiving(names, start, d, done, life - 1);
    }
  }

  // ---------------------------------------------------------------- any number of crashes

  /** A swap on a machine that stops, restarts, recovers, stops again, and so on: `lives` says how
      many effects each period lasted. */
  function AfterCrashes(names: seq<Name>, start: Disk, lives: seq<nat>): (d: Disk)
    requires Tracked(names, start.slots)
    ensures d.slots.Keys == start.slots.Keys
  {
    if lives == [] then start
    else if |lives| == 1 then Swapped(names, start, true, lives[0]).1
    else
      var before := AfterCrashes(names, start, lives[..|lives| - 1]);
      Recovered(names, before, lives[|lives| - 1]).1
  }

  /** No move of the next recovery lands on something that exists. */
  predicate RecoveryIsFree(names: seq<Name>, d: Disk, life: nat)
    requires Tracked(names, d.slots)
  {
    d.progress.Some? && AllStaged(names, d) ==> AllFree(d, Plan(names, d, d.progress == Some(Archive)), life)
  }

  lemma {:induction false} ReachedAt(names: seq<Name>, start: Disk, lives: seq<nat>) returns (point: Point)
    requires Prepared(names, start)
    ensures At(names, start, AfterCrashes(names, start, lives), point)
    decreases |lives|
  {
    hide At, Swapped, Recovered, SlotPrepared;
    if lives == [] {
      point := Before;
      StartIsBefore(names, start);
    } else if |lives| == 1 {
      point := SwapFromStart(names, start, lives[0]);
    } else {
      var earlier := lives[..|lives| - 1];
      var from := ReachedAt(names, start, earlier);
      point := RecoverFrom(names, start, AfterCrashes(names, start, earlier), from, lives[|lives| - 1]);
    }
  }

  lemma StartIsBefore(names: seq<Name>, start: Disk)
    requires Prepared(names, start)
    ensures At(names, start, start, Before)
  {
  }

  /** At every name, the old entry is in exactly one of active and `.old`, and the new entry in
      exactly one of `.new` and active. */
  predicate EntriesKept(names: seq<Name>, start: Disk, d: Disk)
    requires Tracked(names, start.slots) && Tracked(names, d.slots)
  {
    forall i | 0 <= i < |names| :: SlotKept(start.slots[names[i]], d.slots[names[i]])
  }

  predicate SlotKept(before: Slot, now: Slot) {
    && (if before.active.Some? then (now.active == before.active) != (now.archived == before.active)
        else now.archived == None)
    && ((now.staged == before.staged) != (now.active == before.staged))
  }

  /** No old entry is active beside a new one. */
  predicate NotMixed(names: seq<Name>, start: Disk, d: Disk)
    requires Tracked(names, start.slots) && Tracked(names, d.slots)
  {
    forall i, j | 0 <= i < |names| && 0 <= j < |names| ::
      !(start.slots[names[i]].active.Some? && d.slots[names[i]].active == start.slots[names[i]].active
        && d.slots[names[j]].active == start.slots[names[j]].staged)
  }

  lemma PointIsSafe(names: seq<Name>, start: Disk, d: Disk, point: Point)
    requires Prepared(names, start) && At(names, start, d, point)
    ensures EntriesKept(names, start, d) && NotMixed(names, start, d)
  {
  }

  /** After any number of crashes and recoveries, nothing is lost, duplicated, overwritten or mixed. */
  lemma CrashesAreSafe(names: seq<Name>, start: Disk, lives: seq<nat>, life: nat)
    requires Prepared(names, start)
    ensures AllFree(start, Plan(names, start, true), life)
    ensures var d := AfterCrashes(names, start, lives);
            EntriesKept(names, start, d) && NotMixed(names, start, d) && RecoveryIsFree(names, d, life)
  {
    hide At, EntriesKept, NotMixed, SlotPrepared;
    var first := SwapFromStart(names, start, life);
    var point := ReachedAt(names, start, lives);
    var d := AfterCrashes(names, start, lives);
    PointIsSafe(names, start, d, point);
    ProgressTells(names, start, d, point);
    var next := RecoverFrom(names, start, d, point, life);
  }

  lemma ProgressTells(names: seq<Name>, start: Disk, d: Disk, point: Point)
    requires At(names, start, d, point)
    ensures d.progress == Progress(point)
  {
  }

  /** Everything new is active, everything old is archived, and the progress file is gone. */
  predicate Complete(names: seq<Name>, start: Disk, d: Disk) {
    At(names, start, d, After)
  }

  lemma {:induction false} PlanIsShort(names: seq<Name>, slots: map<Name, Slot>)
    ensures |Asides(names, slots)| <= |names| && |MovesIn(names)| == |names|
  {
    if names != [] {
      PlanIsShort(names[1..], slots);
    }
  }

  /** Recovery completes the swap, given time, exactly when no new entry had been moved in before
      the crash; otherwise it refuses, however often it is tried, and changes nothing. */
  lemma RecoveryConvergesIff(names: seq<Name>, start: Disk, lives: seq<nat>, life: nat)
    requires Prepared(names, start)
    requires var d := AfterCrashes(names, start, lives); d.progress.Some?
    ensures var d := AfterCrashes(names, start, lives);
            var (outcome, after) := Recovered(names, d, life);
            && (AllStaged(names, d) && life >= 2 * |names| + 3 ==> outcome == Finished && Complete(names, start, after))
            && (!AllStaged(names, d) ==> outcome == Refused && after == d)
  {
    hide At, SlotPrepared, AllStaged, Asides, MovesIn;
    var point := ReachedAt(names, start, lives);
    var d := AfterCrashes(names, start, lives);
    PlanIsShort(names, d.slots);
    var next := RecoverFrom(names, start, d, point, life);
  }
}
