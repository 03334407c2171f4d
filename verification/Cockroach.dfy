/** Registering CockroachDB nodes in ZooKeeper (register.py), as a state machine over any number of
    processes. The first look at the node list is taken without the lock, so what it saw may be
    stale; the proofs say why that does no harm. A failing step is a crash. */
module Cockroach {
  import opened Wrappers
  import opened Addresses

  /** Why a process takes the lock: it saw a list without itself, or no list. */
  datatype Purpose = ToAppend | ToBootstrap

  /** Where `main` is. `booted` remembers that this process has started the cluster. */
  datatype Pc =
    | Looking
    | Waiting(purpose: Purpose)
    | Rechecking
    | Initializing
    | Booting
    | Registering(purpose: Purpose, booted: bool)
    | Setting(nodes: seq<Ip>, purpose: Purpose, booted: bool)
    | Unlocking(nodes: seq<Ip>)
    | Dumping(nodes: seq<Ip>, locked: bool)
    | Releasing
    | Done
    | Crashed

  datatype Process = Process(ip: Ip, pc: Pc)

  datatype State = State(
    holder: Option<int>,
    list: seq<Ip>,
    procs: map<int, Process>,
    files: map<Ip, seq<Ip>>,
    /** History: the processes that started a cluster of their own, and how many of them
        crashed before registering. */
    boots: seq<int>,
    lostBoots: nat)

  datatype Step = Start(pid: int, ip: Ip) | Go(pid: int) | Crash(pid: int)

  predicate Init(s: State) {
    s.holder == None && s.list == [] && s.procs == map[] && s.files == map[] && s.boots == [] && s.lostBoots == 0
  }

  predicate Holds(pc: Pc) {
    || pc.Rechecking? || pc.Initializing? || pc.Booting? || pc.Registering? || pc.Setting?
    || pc.Unlocking? || pc.Releasing? || (pc.Dumping? && pc.locked)
  }

  /** The cluster is started, and not registered yet. */
  predicate HasBooted(pc: Pc) {
    pc.Booting? || ((pc.Registering? || pc.Setting?) && pc.booted)
  }

  predicate Enabled(s: State, step: Step) {
    match step
    case Start(pid, _) => pid !in s.procs
    case Go(pid) =>
      && pid in s.procs && !s.procs[pid].pc.Done? && !s.procs[pid].pc.Crashed?
      && (s.procs[pid].pc.Waiting? ==> s.holder == None)
    case Crash(pid) => pid in s.procs && !s.procs[pid].pc.Done? && !s.procs[pid].pc.Crashed?
  }

  function After(s: State, step: Step): State
    requires Enabled(s, step)
  {
    match step
    case Start(pid, ip) => s.(procs := s.procs[pid := Process(ip, Looking)])
    case Go(pid) => Gone(s, pid, s.procs[pid].ip, s.procs[pid].pc)
    case Crash(pid) =>
      At(s, pid, Crashed).(
        holder := if s.holder == Some(pid) then None else s.holder,
        lostBoots := if HasBooted(s.procs[pid].pc) then s.lostBoots + 1 else s.lostBoots)
  }

  function At(s: State, pid: int, pc: Pc): State
    requires pid in s.procs
  {
    s.(procs := s.procs[pid := s.procs[pid].(pc := pc)])
  }

  /** The next step of `main`. */
  function Gone(s: State, pid: int, ip: Ip, pc: Pc): State
    requires pid in s.procs && !pc.Done? && !pc.Crashed?
  {
    match pc
    case Looking =>
      At(s, pid, if s.list == [] then Waiting(ToBootstrap)
                 else if ip in s.list then Dumping(s.list, false)
                 else Waiting(ToAppend))
    case Waiting(purpose) =>
      At(s, pid, if purpose == ToAppend then Registering(ToAppend, false) else Rechecking).(holder := Some(pid))
    case Rechecking => At(s, pid, if s.list == [] then Initializing else Registering(ToBootstrap, false))
    case Initializing => At(s, pid, Booting).(boots := s.boots + [pid])
    case Booting => At(s, pid, Registering(ToBootstrap, true))
    case Registering(purpose, booted) =>
      At(s, pid, if ip in s.list then Registered(s.list, purpose) else Setting(s.list + [ip], purpose, booted))
    case Setting(nodes, purpose, _) => At(s, pid, Registered(nodes, purpose)).(list := nodes)
    case Unlocking(nodes) => At(s, pid, Dumping(nodes, false)).(holder := None)
    case Dumping(nodes, locked) =>
      At(s, pid, if locked then Releasing else Done).(files := s.files[ip := nodes])
    case Releasing => At(s, pid, Done).(holder := None)
  }

  /** One path writes its file after giving the lock back, the other before. */
  function Registered(nodes: seq<Ip>, purpose: Purpose): Pc {
    if purpose == ToAppend then Unlocking(nodes) else Dumping(nodes, true)
  }

  // ---------------------------------------------------------------- what every step keeps

  predicate Exclusive(s: State) {
    && (forall pid <- s.procs :: Holds(s.procs[pid].pc) <==> s.holder == Some(pid))
    && (s.holder.Some? ==> s.holder.value in s.procs)
  }

  /** What a process knows of the list: with the lock, what it read is current; without, old. */
  predicate Knows(list: seq<Ip>, ip: Ip, pc: Pc) {
    match pc
    case Waiting(purpose) => purpose == ToAppend ==> list != []
    case Initializing => list == []
    case Booting => list == []
    case Registering(_, booted) => booted <==> list == []
    case Setting(nodes, _, booted) => nodes == list + [ip] && ip !in list && (booted <==> list == [])
    case Unlocking(nodes) => nodes <= list && ip in nodes
    case Dumping(nodes, _) => nodes <= list && ip in nodes
    case _ => true
  }

  predicate AllKnow(s: State) {
    forall pid <- s.procs :: Knows(s.list, s.procs[pid].ip, s.procs[pid].pc)
  }

  predicate FilesArePrefixes(s: State) {
    forall ip <- s.files :: s.files[ip] <= s.list && ip in s.files[ip]
  }

  /** The processes holding a started, unregistered cluster: none or one. */
  function Pending(s: State): nat {
    if s.holder.Some? && s.holder.value in s.procs && HasBooted(s.procs[s.holder.value].pc) then 1 else 0
  }

  predicate BootsCounted(s: State) {
    |s.boots| == s.lostBoots + Pending(s) + if s.list == [] then 0 else 1
  }

  /** A process that is done, or has only the lock to give back, has written its node's file. */
  predicate DoneAreFiled(s: State) {
    forall pid <- s.procs :: s.procs[pid].pc.Done? || s.procs[pid].pc.Releasing? ==> s.procs[pid].ip in s.files
  }

  /** Not on the way of a process that starts the cluster. */
  predicate OffBooting(pc: Pc) {
    || pc.Looking? || pc.Unlocking? || (pc.Dumping? && !pc.locked)
    || ((pc.Waiting? || pc.Registering? || pc.Setting?) && pc.purpose == ToAppend)
  }

  predicate BootersStay(s: State) {
    forall pid <- s.boots :: pid in s.procs && !OffBooting(s.procs[pid].pc)
  }

  predicate Inv(s: State) {
    && Exclusive(s) && AllKnow(s) && Distinct(s.list) && FilesArePrefixes(s) && BootsCounted(s)
    && DoneAreFiled(s) && BootersStay(s)
  }

  lemma InitInv(s: State)
    requires Init(s)
    ensures Inv(s)
  {
  }

  /** The list only ever grows at its end, by one new address at a time. */
  predicate Appends(before: seq<Ip>, after: seq<Ip>) {
    after == before || (|after| == |before| + 1 && before <= after && after[|before|] !in before)
  }

  lemma StepAppends(s: State, step: Step)
    requires Inv(s) && Enabled(s, step)
    ensures Appends(s.list, After(s, step).list)
  {
  }

  lemma KnowsLater(before: seq<Ip>, after: seq<Ip>, ip: Ip, pc: Pc)
    requires Knows(before, ip, pc) && !Holds(pc) && Appends(before, after)
    ensures Knows(after, ip, pc)
  {
  }

  lemma GoerKnows(s: State, pid: int)
    requires Inv(s) && Enabled(s, Go(pid))
    ensures var next := After(s, Go(pid)); Knows(next.list, next.procs[pid].ip, next.procs[pid].pc)
  {
    hide Distinct, FilesArePrefixes, BootsCounted, DoneAreFiled, BootersStay;
  }

  lemma OthersKnow(s: State, pid: int, other: int)
    requires Inv(s) && Enabled(s, Go(pid)) && other in s.procs && other != pid
    ensures Knows(After(s, Go(pid)).list, s.procs[other].ip, s.procs[other].pc)
  {
    hide Distinct, FilesArePrefixes, BootsCounted, DoneAreFiled, BootersStay, Knows;
    var next := After(s, Go(pid));
    assert Knows(s.list, s.procs[other].ip, s.procs[other].pc);
    if next.list != s.list {
      StepAppends(s, Go(pid));
      KnowsLater(s.list, next.list, s.procs[other].ip, s.procs[other].pc);
    }
  }

  lemma OnlyGoerMoves(s: State, pid: int)
    requires Enabled(s, Go(pid))
    ensures var next := After(s, Go(pid));
            && next.procs.Keys == s.procs.Keys
            && forall other <- s.procs :: other != pid ==> next.procs[other] == s.procs[other]
  {
  }

  lemma GoKeepsKnowledge(s: State, pid: int)
    requires Inv(s) && Enabled(s, Go(pid))
    ensures AllKnow(After(s, Go(pid)))
  {
    hide Inv, After, Knows;
    var next := After(s, Go(pid));
    OnlyGoerMoves(s, pid);
    forall other <- next.procs
      ensures Knows(next.list, next.procs[other].ip, next.procs[other].pc)
    {
      if other == pid {
        GoerKnows(s, pid);
      } else {
        OthersKnow(s, pid, other);
      }
    }
  }

  lemma GoKeepsExclusive(s: State, pid: int)
    requires Inv(s) && Enabled(s, Go(pid))
    ensures Exclusive(After(s, Go(pid)))
  {
    hide AllKnow, Distinct, FilesArePrefixes, BootsCounted, DoneAreFiled, BootersStay;
  }

  lemma GoKeepsFiles(s: State, pid: int)
    requires Inv(s) && Enabled(s, Go(pid))
    ensures Distinct(After(s, Go(pid)).list) && FilesArePrefixes(After(s, Go(pid)))
  {
    hide BootsCounted, DoneAreFiled, BootersStay;
    StepAppends(s, Go(pid));
  }

  lemma GoKeepsCount(s: State, pid: int)
    requires Inv(s) && Enabled(s, Go(pid))
    ensures BootsCounted(After(s, Go(pid)))
  {
    hide FilesArePrefixes, Distinct, DoneAreFiled, BootersStay;
  }

  lemma GoKeepsDone(s: State, pid: int)
    requires Inv(s) && Enabled(s, Go(pid))
    ensures DoneAreFiled(After(s, Go(pid)))
  {
    hide Exclusive, AllKnow, FilesArePrefixes, BootsCounted, BootersStay, Distinct;
  }

  lemma GoKeepsBooters(s: State, pid: int)
    requires Inv(s) && Enabled(s, Go(pid))
    ensures BootersStay(After(s, Go(pid)))
  {
    hide Exclusive, AllKnow, FilesArePrefixes, BootsCounted, DoneAreFiled, Distinct;
  }

  lemma StepKeepsInv(s: State, step: Step)
    requires Inv(s) && Enabled(s, step)
    ensures Inv(After(s, step))
  {
    if step.Go? {
      GoKeepsExclusive(s, step.pid);
      GoKeepsKnowledge(s, step.pid);
      GoKeepsFiles(s, step.pid);
      GoKeepsCount(s, step.pid);
      GoKeepsDone(s, step.pid);
      GoKeepsBooters(s, step.pid);
      hide After, Exclusive, AllKnow, FilesArePrefixes, BootsCounted, DoneAreFiled, BootersStay, Distinct;
    }
  }

  // ---------------------------------------------------------------- whole runs

  /** Any interleaving of any number of processes, crashing anywhere. */
  predicate Run(states: seq<State>, steps: seq<Step>) {
    && |states| == |steps| + 1
    && Init(states[0])
    && forall i | 0 <= i < |steps| :: Goes(states[i], steps[i], states[i + 1])
  }

  predicate Goes(s: State, step: Step, next: State) {
    Enabled(s, step) && next == After(s, step)
  }

  lemma {:induction false} RunKeepsInv(states: seq<State>, steps: seq<Step>, i: nat)
    requires Run(states, steps) && i < |states|
    ensures Inv(states[i])
  {
    hide Inv, Enabled, After;
    if i == 0 {
      InitInv(states[0]);
    } else {
      RunKeepsInv(states, steps, i - 1);
      assert Goes(states[i - 1], steps[i - 1], states[i]);
      StepKeepsInv(states[i - 1], steps[i - 1]);
    }
  }

  /** No registration is ever lost or moved, and no address is registered twice. */
  lemma {:induction false} ListOnlyGrows(states: seq<State>, steps: seq<Step>, i: nat, j: nat)
    requires Run(states, steps) && i <= j < |states|
    ensures states[i].list <= states[j].list && Distinct(states[j].list)
    decreases j - i
  {
    hide Enabled, After, Exclusive, AllKnow, FilesArePrefixes, BootsCounted;
    RunKeepsInv(states, steps, j);
    if i < j {
      ListOnlyGrows(states, steps, i, j - 1);
      assert Goes(states[j - 1], steps[j - 1], states[j]);
      RunKeepsInv(states, steps, j - 1);
      StepAppends(states[j - 1], steps[j - 1]);
    }
  }

  predicate StartsCluster(s: State, step: Step) {
    step.Go? && step.pid in s.procs && s.procs[step.pid].pc.Initializing?
  }

  lemma BootSeesNoList(s: State, step: Step)
    requires Inv(s) && StartsCluster(s, step)
    ensures s.list == []
  {
  }

  /** Once a registration has landed, no cluster is started any more, however stale the list a
      process first saw. */
  lemma NoBootAfterRegistration(states: seq<State>, steps: seq<Step>, i: nat, j: nat)
    requires Run(states, steps) && i <= j < |steps| && StartsCluster(states[j], steps[j])
    ensures states[i].list == []
  {
    hide Inv, Enabled, After, StartsCluster, Init;
    RunKeepsInv(states, steps, j);
    BootSeesNoList(states[j], steps[j]);
    ListOnlyGrows(states, steps, i, j);
  }

  /** Clusters started: at most one that was not lost with its bootstrapper. */
  lemma BootsAreBounded(states: seq<State>, steps: seq<Step>, i: nat)
    requires Run(states, steps) && i < |states|
    ensures states[i].lostBoots <= |states[i].boots| <= states[i].lostBoots + 1
    ensures states[i].list != [] ==> |states[i].boots| == states[i].lostBoots + 1
  {
    hide Enabled, After, Init;
    RunKeepsInv(states, steps, i);
    if Pending(states[i]) == 1 {
      PendingHasNoList(states[i]);
    }
  }

  lemma PendingHasNoList(s: State)
    requires Inv(s) && Pending(s) == 1
    ensures s.list == []
  {
    var pid: int := s.holder.value;
    assert pid in s.procs;
    assert Knows(s.list, s.procs[pid].ip, s.procs[pid].pc);
  }

  /** Every node file, whenever it was written, lists its node and is a prefix of every later list. */
  lemma FileStaysPrefix(states: seq<State>, steps: seq<Step>, i: nat, j: nat, ip: Ip)
    requires Run(states, steps) && i <= j < |states| && ip in states[i].files
    ensures ip in states[i].files[ip] && states[i].files[ip] <= states[j].list
  {
    hide Enabled, After, Init, Exclusive, AllKnow, BootsCounted, Distinct;
    RunKeepsInv(states, steps, i);
    ListOnlyGrows(states, steps, i, j);
  }

  /** A process that has come to its end is registered, and its node has a file that says so. */
  lemma DoneIsRegistered(states: seq<State>, steps: seq<Step>, i: nat, pid: int)
    requires Run(states, steps) && i < |states| && pid in states[i].procs && states[i].procs[pid].pc.Done?
    ensures var ip := states[i].procs[pid].ip;
            ip in states[i].list && ip in states[i].files && ip in states[i].files[ip]
  {
    hide Enabled, After, Init, Exclusive, AllKnow, BootsCounted, Distinct;
    RunKeepsInv(states, steps, i);
    assert states[i].procs[pid].ip in states[i].files;
  }

  /** Whoever started the cluster gives the lock back only after its node's file is written, unless
      it crashes. */
  lemma BooterFilesFirst(s: State, pid: int)
    requires Inv(s) && Enabled(s, Go(pid)) && pid in s.boots
    requires s.holder == Some(pid) && After(s, Go(pid)).holder == None
    ensures s.procs[pid].ip in s.files && s.procs[pid].ip in s.files[s.procs[pid].ip]
  {
    hide BootsCounted, Distinct, AllKnow;
  }

  /** On the way of a process that saw no list when it looked, or of one that saw one. */
  predicate SawNone(pc: Pc) {
    || ((pc.Waiting? || pc.Registering? || pc.Setting?) && pc.purpose == ToBootstrap)
    || pc.Rechecking? || pc.Initializing? || pc.Booting? || (pc.Dumping? && pc.locked) || pc.Releasing?
  }

  predicate SawSome(pc: Pc) {
    pc.Unlocking? || (pc.Dumping? && !pc.locked)
    || ((pc.Waiting? || pc.Registering? || pc.Setting?) && pc.purpose == ToAppend)
  }

  /** A process takes its first look at the list, without the lock. */
  predicate Looks(s: State, step: Step, pid: int) {
    step == Go(pid) && pid in s.procs && s.procs[pid].pc.Looking?
  }

  lemma WayStep(s: State, step: Step, pid: int)
    requires Enabled(s, step) && pid in After(s, step).procs
    ensures SawNone(After(s, step).procs[pid].pc) ==>
              (pid in s.procs && SawNone(s.procs[pid].pc)) || (Looks(s, step, pid) && s.list == [])
    ensures SawSome(After(s, step).procs[pid].pc) ==>
              (pid in s.procs && SawSome(s.procs[pid].pc)) || (Looks(s, step, pid) && s.list != [])
  {
  }

  lemma {:induction false} WaySeen(states: seq<State>, steps: seq<Step>, i: nat, pid: int)
    requires Run(states, steps) && i < |states| && pid in states[i].procs
    ensures SawNone(states[i].procs[pid].pc) ==>
              exists k | 0 <= k < i :: Looks(states[k], steps[k], pid) && states[k].list == []
    ensures SawSome(states[i].procs[pid].pc) ==>
              exists k | 0 <= k < i :: Looks(states[k], steps[k], pid) && states[k].list != []
    decreases i
  {
    hide Enabled, After, SawNone, SawSome, Looks;
    if i > 0 {
      assert Goes(states[i - 1], steps[i - 1], states[i]);
      WayStep(states[i - 1], steps[i - 1], pid);
      if pid in states[i - 1].procs {
        WaySeen(states, steps, i - 1, pid);
      }
    }
  }

  /** A node file is written under the lock by a process that saw no list when it looked, and after the
      lock is given back by one that saw a list. */
  lemma FileUnderLock(states: seq<State>, steps: seq<Step>, i: nat, pid: int)
    requires Run(states, steps) && i < |steps| && steps[i] == Go(pid) && states[i + 1].files != states[i].files
    ensures pid in states[i].procs
    ensures exists k | 0 <= k < i ::
              Looks(states[k], steps[k], pid) && (states[k].list == [] <==> states[i].holder == Some(pid))
  {
    hide Init, SawNone, SawSome, Looks, Exclusive, AllKnow, FilesArePrefixes, BootsCounted, BootersStay, DoneAreFiled;
    assert Goes(states[i], steps[i], states[i + 1]);
    RunKeepsInv(states, steps, i);
    WaySeen(states, steps, i, pid);
    DumperHolds(states[i], pid);
  }

  lemma DumperHolds(s: State, pid: int)
    requires Inv(s) && Enabled(s, Go(pid)) && After(s, Go(pid)).files != s.files
    ensures SawNone(s.procs[pid].pc) || SawSome(s.procs[pid].pc)
    ensures SawNone(s.procs[pid].pc) <==> s.holder == Some(pid)
  {
    hide AllKnow, FilesArePrefixes, BootsCounted, BootersStay, DoneAreFiled, Distinct;
  }

  lemma CrashIsCounted(s: State, step: Step)
    requires Inv(s) && Enabled(s, step)
    ensures After(s, step).lostBoots == s.lostBoots +
              if step.Crash? && HasBooted(s.procs[step.pid].pc) then 1 else 0
    ensures After(s, step).boots == s.boots + if StartsCluster(s, step) then [step.pid] else []
  {
  }

  /** The bound is reached: when a bootstrapper crashes before it registers, the next process to get
      the lock starts a second cluster. */
  lemma SecondBootIsPossible(s: State, first: int, second: int)
    requires first in s.procs && s.holder == Some(first) && s.procs[first].pc.Booting? && s.list == []
    requires second in s.procs && second != first && s.procs[second].pc == Waiting(ToBootstrap)
    ensures Enabled(s, Crash(first))
    ensures var crashed := After(s, Crash(first));
            && Enabled(crashed, Go(second))
            && var locked := After(crashed, Go(second));
               && Enabled(locked, Go(second))
               && var rechecked := After(locked, Go(second));
                  && StartsCluster(rechecked, Go(second)) && Enabled(rechecked, Go(second))
                  && After(rechecked, Go(second)).boots == s.boots + [second]
                  && After(rechecked, Go(second)).lostBoots == s.lostBoots + 1
                  && After(rechecked, Go(second)).list == []
  {
  }

  lemma OneStepMore(states: seq<State>, steps: seq<Step>, step: Step) returns (more: seq<State>, longer: seq<Step>)
    requires Run(states, steps) && Enabled(states[|steps|], step)
    ensures Run(more, longer) && |more| == |longer| + 1 && more[|longer|] == After(states[|steps|], step)
  {
    hide Enabled, After, Init;
    more, longer := states + [After(states[|steps|], step)], steps + [step];
    forall i | 0 <= i < |longer|
      ensures Goes(more[i], longer[i], more[i + 1])
    {
      if i < |steps| {
        assert Goes(states[i], steps[i], states[i + 1]);
      } else {
        assert Goes(more[i], longer[i], more[i + 1]);
      }
    }
  }

  /** A run of two processes that starts two clusters: both look before anything is registered, and the
      first crashes after starting its cluster. */
  lemma SecondBootHappens() returns (states: seq<State>, steps: seq<Step>)
    ensures Run(states, steps)
    ensures var last := states[|steps|]; last.boots == [1, 2] && last.lostBoots == 1 && last.list == []
  {
    hide Run, Enabled, After;
    var booting: State;
    states, steps, booting := FirstBootHappens();
    SecondBootIsPossible(booting, 1, 2);
    states, steps := OneStepMore(states, steps, Crash(1));
    states, steps := OneStepMore(states, steps, Go(2));
    states, steps := OneStepMore(states, steps, Go(2));
    states, steps := OneStepMore(states, steps, Go(2));
  }

  lemma FirstBootHappens() returns (states: seq<State>, steps: seq<Step>, booting: State)
    ensures Run(states, steps) && booting == states[|steps|]
    ensures booting.holder == Some(1) && booting.list == [] && booting.boots == [1] && booting.lostBoots == 0
    ensures booting.procs == map[1 := Process(1, Booting), 2 := Process(2, Waiting(ToBootstrap))]
  {
    hide Run;
    states, steps := [State(None, [], map[], map[], [], 0)], [];
    NothingYet(states[0]);
    states, steps := OneStepMore(states, steps, Start(1, 1));
    states, steps := OneStepMore(states, steps, Start(2, 2));
    states, steps := OneStepMore(states, steps, Go(1));
    states, steps := OneStepMore(states, steps, Go(2));
    assert states[|steps|].procs == map[1 := Process(1, Waiting(ToBootstrap)), 2 := Process(2, Waiting(ToBootstrap))];
    states, steps := OneStepMore(states, steps, Go(1));
    states, steps := OneStepMore(states, steps, Go(1));
    states, steps := OneStepMore(states, steps, Go(1));
    booting := states[|steps|];
  }

  lemma NothingYet(s: State)
    requires Init(s)
    ensures Run([s], [])
  {
  }
}
