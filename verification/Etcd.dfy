/** Bootstrapping an etcd cluster under a ZooKeeper lock (etcd_discovery.py), as a state machine:
    any number of nodes join, any number of leavers remove nodes, and every step may be the last
    one a process takes. One step is one effect on shared state; a failing command or a lost
    session is a crash, which releases the lock. */
module Etcd {
  import opened Wrappers
  import opened Addresses

  datatype ClusterState = New | Existing

  /** What a node has on disk: etcd's data directory and the two files `join-cluster` writes. */
  datatype Disk = Disk(data: bool, nodesFile: Option<seq<Ip>>, stateFile: Option<ClusterState>)

  /** Where `join_cluster` is; `Idle` is also where a crash leaves it. */
  datatype JoinPc =
    | Idle
    | Waiting
    | Locked
    | Deciding(nodes: seq<Ip>)
    | Finding
    | Deleting
    | Ensuring
    | Adding
    | Registering(state: ClusterState)
    | Setting(nodes: seq<Ip>, state: ClusterState)
    | DumpingNodes(nodes: seq<Ip>, state: ClusterState)
    | DumpingState(state: ClusterState)
    | Releasing(state: ClusterState)
    | Done

  datatype Node = Node(disk: Disk, pc: JoinPc)

  /** Where `leave_cluster` is. */
  datatype LeavePc =
    | Queued
    | Entered
    | Removing(nodes: seq<Ip>)
    | Rereading
    | Seeking
    | Dropping
    | Unlocking
    | Left

  datatype Leaver = Leaver(ip: Ip, pc: LeavePc)

  datatype Holder = Nobody | Joining(ip: Ip) | Leaving(id: int)

  /** A join wrote the initial state "new". */
  datatype Write = Write(epoch: nat, ip: Ip, join: nat)

  datatype State = State(
    holder: Holder,
    list: seq<Ip>,
    members: set<Ip>,
    /** The members whose etcd has started: only they have a name. */
    named: set<Ip>,
    nodes: map<Ip, Node>,
    leavers: map<int, Leaver>,
    /** History: how often a leaver emptied the list, who appended itself to the empty list in
        each epoch, who wrote "new", which addresses are between removal and re-adding, and how
        many joins were started at each address. */
    epoch: nat,
    founders: map<nat, Ip>,
    writes: seq<Write>,
    limbo: set<Ip>,
    joins: map<Ip, nat>)

  datatype Step =
    | StartJoin(ip: Ip)
    | Join(ip: Ip)
    | StartLeave(id: int, ip: Ip)
    | Leave(id: int)
    | CrashNode(ip: Ip)
    | CrashLeaver(id: int)
    | StartEtcd(ip: Ip)
    | LoseDisk(ip: Ip, left: Disk)

  const BLANK := Disk(false, None, None)

  predicate Init(s: State) {
    && s.holder == Nobody && s.list == [] && s.members == {} && s.named == {}
    && (forall ip <- s.nodes :: s.nodes[ip] == Node(BLANK, Idle))
    && s.leavers == map[] && s.epoch == 0 && s.founders == map[] && s.writes == [] && s.limbo == {} && s.joins == map[]
  }

  // ---------------------------------------------------------------- the steps

  predicate JoinHolds(pc: JoinPc) {
    !pc.Idle? && !pc.Waiting? && !pc.Done?
  }

  predicate LeaveHolds(pc: LeavePc) {
    !pc.Queued? && !pc.Left?
  }

  /** Some files of a disk may be gone. */
  predicate Lost(before: Disk, after: Disk) {
    && (after.data ==> before.data)
    && (after.nodesFile == before.nodesFile || after.nodesFile.None?)
    && (after.stateFile == before.stateFile || after.stateFile.None?)
  }

  predicate Enabled(s: State, step: Step) {
    match step
    case StartJoin(ip) => ip in s.nodes && s.nodes[ip].pc.Idle?
    case Join(ip) =>
      && ip in s.nodes && !s.nodes[ip].pc.Idle? && !s.nodes[ip].pc.Done?
      && (s.nodes[ip].pc.Waiting? ==> s.holder == Nobody)
    case StartLeave(id, ip) => id !in s.leavers
    case Leave(id) =>
      && id in s.leavers && !s.leavers[id].pc.Left?
      && (s.leavers[id].pc.Queued? ==> s.holder == Nobody)
    case CrashNode(ip) => ip in s.nodes
    case CrashLeaver(id) => id in s.leavers
    case StartEtcd(ip) => ip in s.nodes && s.nodes[ip].pc.Done?
    case LoseDisk(ip, left) => ip in s.nodes ==> Lost(s.nodes[ip].disk, left)
  }

  function After(s: State, step: Step): State
    requires Enabled(s, step)
  {
    match step
    case StartJoin(ip) =>
      var disk := s.nodes[ip].disk;
      At(s, ip, if disk.data && disk.nodesFile.Some? && disk.stateFile.Some? then Done else Waiting).(
        joins := s.joins[ip := JoinOf(s, ip) + 1])
    case Join(ip) => Joined(s, ip, s.nodes[ip].pc)
    case StartLeave(id, ip) => s.(leavers := s.leavers[id := Leaver(ip, Queued)])
    case Leave(id) => LeftBy(s, id, s.leavers[id].ip, s.leavers[id].pc)
    case CrashNode(ip) => At(s, ip, Idle).(holder := if s.holder == Joining(ip) then Nobody else s.holder)
    case CrashLeaver(id) => LeaverAt(s, id, Left).(holder := if s.holder == Leaving(id) then Nobody else s.holder)
    case StartEtcd(ip) =>
      s.(nodes := s.nodes[ip := s.nodes[ip].(disk := s.nodes[ip].disk.(data := true))],
         named := if ip in s.members then s.named + {ip} else s.named)
    case LoseDisk(ip, left) =>
      s.(nodes := s.nodes[ip := if ip in s.nodes then s.nodes[ip].(disk := left) else Node(BLANK, Idle)])
  }

  /** The number of the join that runs at an address, or ran there last. */
  function JoinOf(s: State, ip: Ip): nat {
    if ip in s.joins then s.joins[ip] else 0
  }

  function At(s: State, ip: Ip, pc: JoinPc): State
    requires ip in s.nodes
  {
    s.(nodes := s.nodes[ip := s.nodes[ip].(pc := pc)])
  }

  function LeaverAt(s: State, id: int, pc: LeavePc): State
    requires id in s.leavers
  {
    s.(leavers := s.leavers[id := s.leavers[id].(pc := pc)])
  }

  /** The next step of `join_cluster` on `ip`. */
  function Joined(s: State, ip: Ip, pc: JoinPc): (next: State)
    requires ip in s.nodes && !pc.Idle? && !pc.Done?
    ensures next.nodes.Keys == s.nodes.Keys
    ensures forall other <- s.nodes :: other != ip ==> next.nodes[other] == s.nodes[other]
    ensures !pc.DumpingState? ==>
              next.writes == s.writes && next.nodes[ip].disk.stateFile == s.nodes[ip].disk.stateFile
  {
    match pc
    case Waiting => At(s, ip, Locked).(holder := Joining(ip))
    case Locked => At(s, ip, Deciding(s.list))
    case Deciding(nodes) =>
      At(s, ip, if nodes == [] then Registering(New)
                else if ip !in nodes then Ensuring
                else if !s.nodes[ip].disk.data then Finding
                else Registering(Existing))
    case Finding => At(s, ip, if ip in s.named then Deleting else Ensuring)
    case Deleting =>
      At(s, ip, Ensuring).(members := s.members - {ip}, named := s.named - {ip}, limbo := s.limbo + {ip})
    case Ensuring => At(s, ip, if ip in s.named then Registering(Existing) else Adding)
    case Adding => At(s, ip, Registering(Existing)).(members := s.members + {ip}, limbo := s.limbo - {ip})
    case Registering(state) =>
      At(s, ip, if ip in s.list then DumpingNodes(s.list, state) else Setting(s.list + [ip], state))
    case Setting(nodes, state) =>
      var registered := At(s, ip, DumpingNodes(nodes, state)).(list := nodes);
      if s.list == [] then
        // the designated node: its etcd will form an ensemble of its own
        registered.(members := {ip}, named := {}, limbo := s.limbo - {ip}, founders := s.founders[s.epoch := ip])
      else registered
    case DumpingNodes(nodes, state) =>
      var node := Node(s.nodes[ip].disk.(nodesFile := Some(nodes)), DumpingState(state));
      s.(nodes := s.nodes[ip := node])
    case DumpingState(state) =>
      var node := Node(s.nodes[ip].disk.(stateFile := Some(state)), Releasing(state));
      s.(nodes := s.nodes[ip := node],
         writes := if state == New then s.writes + [Write(s.epoch, ip, JoinOf(s, ip))] else s.writes)
    case Releasing(_) => At(s, ip, Done).(holder := Nobody)
  }

  /** `nodes.remove(ip)`: the first occurrence. */
  function Without(nodes: seq<Ip>, ip: Ip): seq<Ip> {
    if nodes == [] then []
    else if nodes[0] == ip then nodes[1..]
    else [nodes[0]] + Without(nodes[1..], ip)
  }

  /** The next step of `leave_cluster` for `ip`. */
  function LeftBy(s: State, id: int, ip: Ip, pc: LeavePc): (next: State)
    requires id in s.leavers && !pc.Left?
    ensures next.nodes == s.nodes && next.writes == s.writes && next.joins == s.joins
    ensures next.founders == s.founders && next.limbo == s.limbo
  {
    match pc
    case Queued => LeaverAt(s, id, Entered).(holder := Leaving(id))
    case Entered => LeaverAt(s, id, if ip in s.list then Removing(Without(s.list, ip)) else Rereading)
    case Removing(nodes) =>
      LeaverAt(s, id, Rereading).(list := nodes, epoch := if nodes == [] then s.epoch + 1 else s.epoch)
    case Rereading =>
      // with no node left to talk to, choosing one raises
      LeaverAt(s, id, if s.list == [] then Unlocking else Seeking)
    case Seeking => LeaverAt(s, id, if ip in s.named then Dropping else Unlocking)
    case Dropping => LeaverAt(s, id, Unlocking).(members := s.members - {ip}, named := s.named - {ip})
    case Unlocking => LeaverAt(s, id, Left).(holder := Nobody)
  }

  // ---------------------------------------------------------------- what every step keeps

  /** The lock excludes. */
  predicate Exclusive(s: State) {
    && (forall ip <- s.nodes :: JoinHolds(s.nodes[ip].pc) <==> s.holder == Joining(ip))
    && (forall id <- s.leavers :: LeaveHolds(s.leavers[id].pc) <==> s.holder == Leaving(id))
    && (s.holder.Joining? ==> s.holder.ip in s.nodes)
    && (s.holder.Leaving? ==> s.holder.id in s.leavers)
  }

  predicate JoinKnows(s: State, ip: Ip, pc: JoinPc) {
    match pc
    case Deciding(nodes) => nodes == s.list
    case Finding => ip in s.list && LacksData(s, ip)
    case Deleting => ip in s.list && ip in s.named && LacksData(s, ip)
    case Ensuring => s.list != [] && (ip in s.list ==> ip !in s.named && LacksData(s, ip))
    case Adding => s.list != [] && ip !in s.named && (ip in s.list ==> LacksData(s, ip))
    case Registering(New) => s.list == []
    case Registering(Existing) => s.list != [] && ip in s.members
    case Setting(nodes, state) =>
      && nodes == s.list + [ip] && ip !in s.list
      && (if state == New then s.list == [] else s.list != [] && ip in s.members)
    case DumpingNodes(nodes, state) => nodes == s.list && ip in s.list && ip in s.members && Founded(s, ip, state)
    case DumpingState(state) =>
      && ip in s.list && ip in s.members && Founded(s, ip, state)
      && (ip in s.nodes ==> HoldsIfThere(s.nodes[ip].disk.nodesFile, s.list))
    case Releasing(state) =>
      && ip in s.list && ip in s.members
      && (state == New ==> s.list == [ip] && Write(s.epoch, ip, JoinOf(s, ip)) in s.writes)
      && (ip in s.nodes ==>
            HoldsIfThere(s.nodes[ip].disk.nodesFile, s.list) && HoldsIfThere(s.nodes[ip].disk.stateFile, state))
    case _ => true
  }

  predicate LacksData(s: State, ip: Ip) {
    ip in s.nodes && !s.nodes[ip].disk.data
  }

  predicate HoldsIfThere<T(==)>(file: Option<T>, content: T) {
    file.None? || file == Some(content)
  }

  /** A process about to write "new" put itself on the empty list in this epoch. */
  predicate Founded(s: State, ip: Ip, state: ClusterState) {
    state == New ==>
      && s.list == [ip] && s.epoch in s.founders && s.founders[s.epoch] == ip
      && forall w <- s.writes :: w.epoch != s.epoch
  }

  predicate LeaveKnows(s: State, ip: Ip, pc: LeavePc) {
    match pc
    case Removing(nodes) => ip in s.list && nodes == Without(s.list, ip)
    case Rereading => ip !in s.list
    case Seeking => ip !in s.list
    case Dropping => ip !in s.list
    case Unlocking => ip !in s.list
    case _ => true
  }

  /** What the holder of the lock has read is still so. */
  predicate HolderKnows(s: State) {
    match s.holder
    case Nobody => true
    case Joining(ip) => ip in s.nodes ==> JoinKnows(s, ip, s.nodes[ip].pc)
    case Leaving(id) => id in s.leavers ==> LeaveKnows(s, s.leavers[id].ip, s.leavers[id].pc)
  }

  /** Every listed address is a member, or between its removal and its re-adding. */
  predicate ListedAreMembers(s: State) {
    && Distinct(s.list)
    && s.named <= s.members
    && (forall ip <- s.list :: ip in s.members || ip in s.limbo)
    && s.limbo !! s.members
  }

  /** A node in between has no data directory, so its next join cannot stop early. */
  predicate LimboHasNoData(s: State) {
    forall ip <- s.limbo :: ip in s.nodes && !s.nodes[ip].disk.data && !s.nodes[ip].pc.Done?
  }

  predicate OneWritePerEpoch(s: State) {
    && (forall i, j | 0 <= i < j < |s.writes| :: s.writes[i].epoch != s.writes[j].epoch)
    && (forall w <- s.writes :: w.epoch in s.founders && s.founders[w.epoch] == w.ip)
    && (forall e <- s.founders :: e <= s.epoch)
    && (s.list == [] ==> s.epoch !in s.founders)
  }

  /** A join that wrote "new" has no more files to write. */
  predicate WritesByJoins(s: State) {
    forall w <- s.writes ::
      && w.ip in s.nodes
      && w.join <= JoinOf(s, w.ip)
      && (w.join == JoinOf(s, w.ip) ==> HasWrittenNew(s.nodes[w.ip].pc))
  }

  predicate HasWrittenNew(pc: JoinPc) {
    pc == Releasing(New) || pc.Done? || pc.Idle?
  }

  predicate Inv(s: State) {
    && Exclusive(s) && HolderKnows(s)
    && ListedAreMembers(s) && LimboHasNoData(s) && OneWritePerEpoch(s) && WritesByJoins(s)
  }

  lemma InitInv(s: State)
    requires Init(s)
    ensures Inv(s)
  {
  }

  /** The lock goes with the program counter. */
  lemma JoinerHolds(s: State, ip: Ip)
    requires Enabled(s, Join(ip)) && (s.nodes[ip].pc.Waiting? || s.holder == Joining(ip))
    ensures var next := After(s, Join(ip));
            && next.leavers == s.leavers && ip in next.nodes
            && next.holder == if JoinHolds(next.nodes[ip].pc) then Joining(ip) else Nobody
  {
    hide After;
    if Enrolling(s.nodes[ip].pc) {
      EnrollerHolds(s, ip);
    } else {
      RegistererHolds(s, ip);
    }
  }

  lemma EnrollerHolds(s: State, ip: Ip)
    requires Enabled(s, Join(ip)) && (s.nodes[ip].pc.Waiting? || s.holder == Joining(ip)) && Enrolling(s.nodes[ip].pc)
    ensures var next := After(s, Join(ip));
            && next.leavers == s.leavers && ip in next.nodes
            && next.holder == Joining(ip) && JoinHolds(next.nodes[ip].pc)
  {
    hide LeftBy;
  }

  lemma RegistererHolds(s: State, ip: Ip)
    requires Enabled(s, Join(ip)) && s.holder == Joining(ip) && !Enrolling(s.nodes[ip].pc)
    ensures var next := After(s, Join(ip));
            && next.leavers == s.leavers && ip in next.nodes
            && next.holder == if JoinHolds(next.nodes[ip].pc) then Joining(ip) else Nobody
  {
    hide LeftBy;
  }

  lemma JoinKeepsExclusive(s: State, ip: Ip)
    requires Inv(s) && Enabled(s, Join(ip))
    ensures Exclusive(After(s, Join(ip)))
  {
    hide LeftBy, Joined, HolderKnows, ListedAreMembers, LimboHasNoData, OneWritePerEpoch, WritesByJoins;
    JoinerHolds(s, ip);
  }

  /** Up to the registration, `join_cluster` works on the ensemble. */
  predicate Enrolling(pc: JoinPc) {
    pc.Waiting? || pc.Locked? || pc.Deciding? || pc.Finding? || pc.Deleting? || pc.Ensuring? || pc.Adding?
  }

  lemma EnrollingKeepsKnowledge(s: State, ip: Ip)
    requires Inv(s) && Enabled(s, Join(ip)) && Enrolling(s.nodes[ip].pc)
    ensures HolderKnows(After(s, Join(ip)))
  {
    hide OneWritePerEpoch, Distinct;
  }

  lemma RegisteringKeepsKnowledge(s: State, ip: Ip)
    requires Inv(s) && Enabled(s, Join(ip)) && (s.nodes[ip].pc.Registering? || s.nodes[ip].pc.Setting?)
    ensures HolderKnows(After(s, Join(ip)))
  {
    hide LimboHasNoData, WritesByJoins, LeftBy, Distinct;
  }

  lemma DumpingKeepsKnowledge(s: State, ip: Ip)
    requires Inv(s) && Enabled(s, Join(ip)) && !Enrolling(s.nodes[ip].pc)
    requires !s.nodes[ip].pc.Registering? && !s.nodes[ip].pc.Setting?
    ensures HolderKnows(After(s, Join(ip)))
  {
    hide LimboHasNoData, WritesByJoins, OneWritePerEpoch, LeftBy, Distinct;
  }

  lemma JoinKeepsMembers(s: State, ip: Ip)
    requires Inv(s) && Enabled(s, Join(ip))
    ensures ListedAreMembers(After(s, Join(ip)))
  {
    hide LeftBy, Without, OneWritePerEpoch, LimboHasNoData, WritesByJoins;
    if !s.nodes[ip].pc.Setting? {
      hide Distinct;
      assert ListedAreMembers(After(s, Join(ip)));
    }
  }

  lemma JoinKeepsLimbo(s: State, ip: Ip)
    requires Inv(s) && Enabled(s, Join(ip))
    ensures LimboHasNoData(After(s, Join(ip)))
  {
    hide OneWritePerEpoch, Distinct;
  }

  lemma JoinKeepsWrites(s: State, ip: Ip)
    requires Inv(s) && Enabled(s, Join(ip))
    ensures OneWritePerEpoch(After(s, Join(ip)))
  {
    hide ListedAreMembers, LimboHasNoData, WritesByJoins, LeftBy, Distinct;
  }

  lemma JoinKeepsWriters(s: State, ip: Ip)
    requires Inv(s) && Enabled(s, Join(ip))
    ensures WritesByJoins(After(s, Join(ip)))
  {
    hide Exclusive, HolderKnows, ListedAreMembers, LimboHasNoData, OneWritePerEpoch, Without;
  }

  lemma {:induction false} WithoutRemoves(nodes: seq<Ip>, ip: Ip)
    requires Distinct(nodes)
    ensures Distinct(Without(nodes, ip)) && ip !in Without(nodes, ip)
    ensures forall other :: other in Without(nodes, ip) ==> other in nodes
    ensures forall other :: other in nodes && other != ip ==> other in Without(nodes, ip)
  {
    if nodes != [] {
      var first, others := nodes[0], nodes[1..];
      assert nodes == [first] + others;
      assert first !in others by { assert forall j | 1 <= j < |nodes| :: nodes[0] != nodes[j]; }
      if first != ip {
        WithoutRemoves(others, ip);
        var kept := Without(others, ip);
        assert first !in kept;
        assert forall i | 0 <= i < |kept| :: kept[i] in kept;
      }
    }
  }

  lemma RemovingKeepsInv(s: State, id: int)
    requires Inv(s) && Enabled(s, Leave(id)) && s.leavers[id].pc.Removing?
    ensures Inv(After(s, Leave(id)))
  {
    hide Without, Distinct;
    WithoutRemoves(s.list, s.leavers[id].ip);
  }

  lemma LeaveKeepsInv(s: State, id: int)
    requires Inv(s) && Enabled(s, Leave(id)) && !s.leavers[id].pc.Removing?
    ensures Inv(After(s, Leave(id)))
  {
    hide Without, Distinct, WritesByJoins, OneWritePerEpoch;
    WritersStay(s, After(s, Leave(id)));
  }

  lemma WritersStay(s: State, next: State)
    requires next.nodes == s.nodes && next.writes == s.writes && next.joins == s.joins
    ensures WritesByJoins(s) ==> WritesByJoins(next)
    ensures OneWritePerEpoch(s) && next.list == s.list && next.epoch == s.epoch && next.founders == s.founders ==>
              OneWritePerEpoch(next)
  {
  }

  lemma StepKeepsInv(s: State, step: Step)
    requires Inv(s) && Enabled(s, step)
    ensures Inv(After(s, step))
  {
    hide After, Exclusive, HolderKnows, ListedAreMembers, LimboHasNoData, OneWritePerEpoch, WritesByJoins;
    match step {
      case Join(ip) =>
        JoinKeepsExclusive(s, ip);
        if Enrolling(s.nodes[ip].pc) {
          EnrollingKeepsKnowledge(s, ip);
        } else if s.nodes[ip].pc.Registering? || s.nodes[ip].pc.Setting? {
          RegisteringKeepsKnowledge(s, ip);
        } else {
          DumpingKeepsKnowledge(s, ip);
        }
        JoinKeepsMembers(s, ip);
        JoinKeepsLimbo(s, ip);
        JoinKeepsWrites(s, ip);
        JoinKeepsWriters(s, ip);
      case Leave(id) =>
        if s.leavers[id].pc.Removing? {
          RemovingKeepsInv(s, id);
        } else {
          LeaveKeepsInv(s, id);
        }
      case _ => OthersKeepInv(s, step);
    }
  }

  lemma OthersKeepInv(s: State, step: Step)
    requires Inv(s) && Enabled(s, step) && !step.Join? && !step.Leave?
    ensures Inv(After(s, step))
  {
    hide Inv, After, Enabled;
    if step.LoseDisk? || step.StartEtcd? {
      DisksKeepInv(s, step);
    } else if step.StartJoin? || step.StartLeave? {
      StartsKeepInv(s, step);
    } else {
      CrashesKeepInv(s, step);
    }
  }

  lemma StartsKeepInv(s: State, step: Step)
    requires Inv(s) && Enabled(s, step) && (step.StartJoin? || step.StartLeave?)
    ensures Inv(After(s, step))
  {
    hide Joined, LeftBy, Distinct;
  }

  lemma CrashesKeepInv(s: State, step: Step)
    requires Inv(s) && Enabled(s, step) && (step.CrashNode? || step.CrashLeaver?)
    ensures Inv(After(s, step))
  {
    hide Joined, LeftBy, Distinct;
  }

  lemma DisksKeepInv(s: State, step: Step)
    requires Inv(s) && Enabled(s, step) && (step.LoseDisk? || step.StartEtcd?)
    ensures Inv(After(s, step))
  {
    hide Inv, Enabled, After;
    match step {
      case LoseDisk(ip, left) => LossKeepsInv(s, ip, left);
      case StartEtcd(ip) => StartedKeepsInv(s, ip);
    }
  }

  lemma LossKeepsInv(s: State, ip: Ip, left: Disk)
    requires Inv(s) && Enabled(s, LoseDisk(ip, left))
    ensures Inv(After(s, LoseDisk(ip, left)))
  {
    hide Joined, LeftBy, Distinct, OneWritePerEpoch;
    assert OneWritePerEpoch(After(s, LoseDisk(ip, left))) by { WritesKept(s, LoseDisk(ip, left)); }
  }

  lemma StartedKeepsInv(s: State, ip: Ip)
    requires Inv(s) && Enabled(s, StartEtcd(ip))
    ensures Inv(After(s, StartEtcd(ip)))
  {
    hide Joined, LeftBy, Distinct, OneWritePerEpoch;
    assert OneWritePerEpoch(After(s, StartEtcd(ip))) by { WritesKept(s, StartEtcd(ip)); }
  }

  lemma WritesKept(s: State, step: Step)
    requires OneWritePerEpoch(s) && Enabled(s, step) && (step.LoseDisk? || step.StartEtcd?)
    ensures OneWritePerEpoch(After(s, step))
  {
  }

  // ---------------------------------------------------------------- whole runs

  /** Any interleaving of any number of processes, crashing anywhere. */
  predicate Run(states: seq<State>, steps: seq<Step>) {
    && |states| == |steps| + 1
    && Init(states[0])
    && forall i | 0 <= i < |steps| :: Goes(states[i], steps[i], states[i + 1])
  }

  predicate Goes(s: State, step: Step, next: State) {
    Enabled(s, step) && next == After(s, step)
  }

  lemma {:induction false} RunKeepsInv(states: seq<State>, steps: seq<Step>, i: nat)
    requires Run(states, steps) && i < |states|
    ensures Inv(states[i])
  {
    hide Inv, Enabled, After;
    if i == 0 {
      InitInv(states[0]);
    } else {
      RunKeepsInv(states, steps, i - 1);
      assert Goes(states[i - 1], steps[i - 1], states[i]);
      StepKeepsInv(states[i - 1], steps[i - 1]);
    }
  }

  // ---------------------------------------------------------------- only one process writes "new"

  /** A join dumps its state file, and the file then says "new". */
  predicate WritesNew(s: State, step: Step, next: State) {
    && step.Join? && step.ip in s.nodes && s.nodes[step.ip].pc.DumpingState?
    && step.ip in next.nodes && next.nodes[step.ip].disk.stateFile == Some(New)
  }

  /** A leaver takes the last address off the list. */
  predicate Empties(s: State, step: Step, next: State) {
    step.Leave? && s.list != [] && next.list == []
  }

  /** `ip`, holding the lock, puts itself on the empty list. */
  predicate Founds(s: State, step: Step, ip: Ip) {
    step == Join(ip) && ip in s.nodes && s.nodes[ip].pc.Setting? && s.list == [] && s.holder == Joining(ip)
  }

  lemma EpochEnds(s: State, step: Step)
    requires Inv(s) && Enabled(s, step)
    ensures After(s, step).epoch == if Empties(s, step, After(s, step)) then s.epoch + 1 else s.epoch
  {
    hide Inv, After;
    match step {
      case Join(ip) => JoinKeepsEpoch(s, ip);
      case Leave(id) => EpochEndsByLeaver(s, id);
      case _ => OthersChangeNothing(s, step);
    }
  }

  lemma JoinKeepsEpoch(s: State, ip: Ip)
    requires Enabled(s, Join(ip))
    ensures After(s, Join(ip)).epoch == s.epoch
  {
    hide LeftBy;
  }

  lemma EpochEndsByLeaver(s: State, id: int)
    requires Inv(s) && Enabled(s, Leave(id))
    ensures After(s, Leave(id)).epoch == if Empties(s, Leave(id), After(s, Leave(id))) then s.epoch + 1 else s.epoch
  {
    hide Joined, Without, ListedAreMembers, LimboHasNoData, OneWritePerEpoch, WritesByJoins;
  }

  /** Starting, crashing, and what happens to a disk. */
  lemma OthersChangeNothing(s: State, step: Step)
    requires Enabled(s, step) && !step.Join? && !step.Leave?
    ensures var next := After(s, step);
            && next.list == s.list && next.members == s.members && next.epoch == s.epoch
            && next.founders == s.founders && next.limbo == s.limbo && next.writes == s.writes
  {
    hide Joined, LeftBy;
  }

  /** An epoch lasts until a leaver empties the list. */
  lemma {:induction false} EpochsDiffer(states: seq<State>, steps: seq<Step>, i: nat, j: nat)
    requires Run(states, steps) && i <= j <= |steps|
    requires states[i].epoch != states[j].epoch
    ensures exists k | i <= k < j :: Empties(states[k], steps[k], states[k + 1])
    decreases j - i
  {
    hide Inv, Enabled, After, Empties;
    RunKeepsInv(states, steps, j - 1);
    assert Goes(states[j - 1], steps[j - 1], states[j]);
    EpochEnds(states[j - 1], steps[j - 1]);
    if !Empties(states[j - 1], steps[j - 1], states[j]) {
      EpochsDiffer(states, steps, i, j - 1);
    }
  }

  lemma WriteIsRecorded(s: State, step: Step)
    requires Enabled(s, step)
    ensures s.writes <= After(s, step).writes
    ensures After(s, step).writes
         == s.writes + if WritesNew(s, step, After(s, step)) then [Write(s.epoch, step.ip, JoinOf(s, step.ip))] else []
  {
  }

  /** No other step makes a state file say "new". */
  lemma NewAppears(s: State, step: Step, ip: Ip)
    requires Enabled(s, step) && ip in After(s, step).nodes && After(s, step).nodes[ip].disk.stateFile == Some(New)
    requires ip in s.nodes ==> s.nodes[ip].disk.stateFile != Some(New)
    ensures WritesNew(s, step, After(s, step)) && step.ip == ip
  {
    hide After;
    if step == Join(ip) {
      if !s.nodes[ip].pc.DumpingState? {
        DumpedByJoin(s, ip);
      }
    } else {
      FileStays(s, step, ip);
    }
  }

  lemma DumpedByJoin(s: State, ip: Ip)
    requires Enabled(s, Join(ip)) && !s.nodes[ip].pc.DumpingState?
    ensures ip in After(s, Join(ip)).nodes
    ensures After(s, Join(ip)).nodes[ip].disk.stateFile == s.nodes[ip].disk.stateFile
  {
    hide LeftBy, Joined;
  }

  /** Only a node's own join writes its files. */
  lemma FileStays(s: State, step: Step, ip: Ip)
    requires Enabled(s, step) && step != Join(ip) && ip in After(s, step).nodes
    ensures After(s, step).nodes[ip].disk.stateFile.Some? ==>
              ip in s.nodes && After(s, step).nodes[ip].disk.stateFile == s.nodes[ip].disk.stateFile
  {
    hide LeftBy, Joined;
  }

  lemma {:induction false} WritesStay(states: seq<State>, steps: seq<Step>, i: nat, j: nat)
    requires Run(states, steps) && i <= j < |states|
    ensures states[i].writes <= states[j].writes
    decreases j - i
  {
    hide Inv, Enabled, After, Init;
    if i < j {
      WritesStay(states, steps, i, j - 1);
      assert Goes(states[j - 1], steps[j - 1], states[j]);
      WriteIsRecorded(states[j - 1], steps[j - 1]);
    }
  }

  /** Between any two writes of "new", by whichever processes, a leaver emptied the list. */
  lemma NewIsWrittenOnce(states: seq<State>, steps: seq<Step>, i: nat, j: nat)
    requires Run(states, steps) && i < j < |steps|
    requires WritesNew(states[i], steps[i], states[i + 1]) && WritesNew(states[j], steps[j], states[j + 1])
    ensures exists k | i <= k < j :: Empties(states[k], steps[k], states[k + 1])
  {
    hide Exclusive, HolderKnows, ListedAreMembers, LimboHasNoData, Enabled, After, WritesNew, Init, Empties;
    assert Goes(states[i], steps[i], states[i + 1]) && Goes(states[j], steps[j], states[j + 1]);
    WriteIsRecorded(states[i], steps[i]);
    WriteIsRecorded(states[j], steps[j]);
    WritesStay(states, steps, i + 1, j);
    RunKeepsInv(states, steps, j + 1);
    var earlier, all := |states[i].writes|, states[j + 1].writes;
    assert all[earlier] == states[i + 1].writes[earlier];
    assert all[|all| - 1].epoch == states[j].epoch;
    EpochsDiffer(states, steps, i, j);
  }

  lemma FounderStep(s: State, step: Step, e: nat)
    requires Inv(s) && Enabled(s, step)
    requires e in After(s, step).founders
    ensures || (e in s.founders && s.founders[e] == After(s, step).founders[e])
            || (e == s.epoch && Founds(s, step, After(s, step).founders[e]))
  {
    hide Inv, After, Founds;
    match step {
      case Join(ip) => FoundsByJoin(s, ip, e);
      case Leave(id) => LeaverFoundsNone(s, id);
      case _ => OthersChangeNothing(s, step);
    }
  }

  lemma FoundsByJoin(s: State, ip: Ip, e: nat)
    requires Inv(s) && Enabled(s, Join(ip)) && e in After(s, Join(ip)).founders
    ensures || (e in s.founders && s.founders[e] == After(s, Join(ip)).founders[e])
            || (e == s.epoch && Founds(s, Join(ip), After(s, Join(ip)).founders[e]))
  {
    hide LeftBy, ListedAreMembers, LimboHasNoData, OneWritePerEpoch, WritesByJoins, HolderKnows;
  }

  lemma LeaverFoundsNone(s: State, id: int)
    requires Enabled(s, Leave(id))
    ensures After(s, Leave(id)).founders == s.founders && After(s, Leave(id)).limbo == s.limbo
  {
    hide Joined, LeftBy;
  }

  /** Whoever writes "new" registered itself, under the lock, when the list was empty, and the list
      has not been emptied since. */
  lemma {:induction false} FounderRegistered(states: seq<State>, steps: seq<Step>, i: nat, e: nat)
    requires Run(states, steps) && i < |states| && e in states[i].founders
    ensures exists k | 0 <= k < i :: states[k].epoch == e && Founds(states[k], steps[k], states[i].founders[e])
    decreases i
  {
    hide Inv, Enabled, After, Founds;
    assert i > 0;
    RunKeepsInv(states, steps, i - 1);
    assert Goes(states[i - 1], steps[i - 1], states[i]);
    FounderStep(states[i - 1], steps[i - 1], e);
    if !(e == states[i - 1].epoch && Founds(states[i - 1], steps[i - 1], states[i].founders[e])) {
      FounderRegistered(states, steps, i - 1, e);
    }
  }

  lemma NewIsWrittenByFounder(states: seq<State>, steps: seq<Step>, i: nat)
    requires Run(states, steps) && i < |steps| && WritesNew(states[i], steps[i], states[i + 1])
    ensures exists k | 0 <= k < i ::
              Founds(states[k], steps[k], steps[i].ip) && states[k].epoch == states[i].epoch
  {
    hide Enabled, After, Init, Founds;
    RunKeepsInv(states, steps, i);
    assert Goes(states[i], steps[i], states[i + 1]);
    WriterHolds(states[i], steps[i]);
    FounderRegistered(states, steps, i, states[i].epoch);
  }

  lemma WriterHolds(s: State, step: Step)
    requires Inv(s) && Enabled(s, step) && WritesNew(s, step, After(s, step))
    ensures s.epoch in s.founders && s.founders[s.epoch] == step.ip
  {
  }

  // ---------------------------------------------------------------- what a join leaves on disk

  /** The node is registered, and its join has files to write or has just written them. */
  predicate Dumps(s: State, ip: Ip) {
    ip in s.nodes && (s.nodes[ip].pc.DumpingNodes? || s.nodes[ip].pc.DumpingState? || s.nodes[ip].pc.Releasing?)
  }

  /** The files written so far are there. */
  predicate FilesDone(s: State, ip: Ip) {
    ip in s.nodes &&
    (s.nodes[ip].pc.DumpingState? || s.nodes[ip].pc.Releasing? ==> s.nodes[ip].disk.nodesFile.Some?) &&
    (s.nodes[ip].pc.Releasing? ==> s.nodes[ip].disk.stateFile.Some?)
  }

  predicate Loses(step: Step, ip: Ip) {
    step.LoseDisk? && step.ip == ip
  }

  lemma DumpStep(s: State, step: Step, ip: Ip)
    requires Inv(s) && Enabled(s, step) && Dumps(After(s, step), ip)
    ensures Dumps(s, ip) ==> After(s, step).list == s.list
    ensures !Dumps(s, ip) ==> step == Join(ip)
  {
    hide ListedAreMembers, LimboHasNoData, OneWritePerEpoch, WritesByJoins, HolderKnows, LeftBy;
  }

  lemma FilesStep(s: State, step: Step, ip: Ip)
    requires Enabled(s, step) && Dumps(After(s, step), ip) && !Loses(step, ip)
    requires Dumps(s, ip) ==> FilesDone(s, ip)
    ensures FilesDone(After(s, step), ip)
  {
    hide After, FilesDone, Dumps;
    if step == Join(ip) {
      JoinFiles(s, ip);
    } else {
      OtherFiles(s, step, ip);
    }
  }

  lemma JoinFiles(s: State, ip: Ip)
    requires Enabled(s, Join(ip)) && Dumps(After(s, Join(ip)), ip) && (Dumps(s, ip) ==> FilesDone(s, ip))
    ensures FilesDone(After(s, Join(ip)), ip)
  {
    hide LeftBy;
  }

  lemma OtherFiles(s: State, step: Step, ip: Ip)
    requires Enabled(s, step) && Dumps(After(s, step), ip) && !Loses(step, ip) && step != Join(ip)
    requires Dumps(s, ip) ==> FilesDone(s, ip)
    ensures FilesDone(After(s, step), ip)
  {
    hide LeftBy, Joined;
  }

  /** The join was registered by step `k`, the list has stayed as it was then, and the files written
      since are there unless the disk was lost. */
  predicate RegisteredSince(states: seq<State>, steps: seq<Step>, k: nat, i: nat, ip: Ip)
    requires |states| == |steps| + 1 && k < i < |states|
  {
    && steps[k] == Join(ip) && !Dumps(states[k], ip) && (forall m | k < m <= i :: Dumps(states[m], ip))
    && states[k + 1].list == states[i].list
    && (FilesDone(states[i], ip) || exists m | k < m < i :: Loses(steps[m], ip))
  }

  lemma {:induction false} FilesAreWritten(states: seq<State>, steps: seq<Step>, i: nat, ip: Ip)
    requires Run(states, steps) && i < |states| && Dumps(states[i], ip)
    ensures exists k | 0 <= k < i :: RegisteredSince(states, steps, k, i, ip)
    decreases i
  {
    hide Inv, Enabled, After, Dumps, FilesDone, Loses;
    assert i > 0 by { NoDumpsAtFirst(states[0], ip); }
    var before, step := states[i - 1], steps[i - 1];
    RunKeepsInv(states, steps, i - 1);
    assert Goes(before, step, states[i]);
    DumpStep(before, step, ip);
    if Dumps(before, ip) {
      FilesAreWritten(states, steps, i - 1, ip);
      var k :| 0 <= k < i - 1 && RegisteredSince(states, steps, k, i - 1, ip);
      if FilesDone(before, ip) && !Loses(step, ip) {
        FilesStep(before, step, ip);
      }
      assert RegisteredSince(states, steps, k, i, ip);
    } else {
      JoinLosesNothing(step, ip);
      FilesStep(before, step, ip);
      assert RegisteredSince(states, steps, i - 1, i, ip);
    }
  }

  lemma NoDumpsAtFirst(s: State, ip: Ip)
    requires Init(s)
    ensures !Dumps(s, ip)
  {
  }

  lemma JoinLosesNothing(step: Step, ip: Ip)
    requires step.Join?
    ensures !Loses(step, ip)
  {
  }

  /** `join_cluster` returns normally, after taking the lock. */
  predicate Returns(s: State, step: Step, ip: Ip) {
    step == Join(ip) && ip in s.nodes && s.nodes[ip].pc.Releasing?
  }

  /** The state file says "new" exactly if this very join is the one on record for writing it, and
      the nodes file is the list as the join left it, with its own address. */
  predicate FilesAreRight(s: State, ip: Ip)
    requires ip in s.nodes
  {
    var disk := s.nodes[ip].disk;
    && (disk.stateFile.Some? ==> (disk.stateFile == Some(New) <==> Write(s.epoch, ip, JoinOf(s, ip)) in s.writes))
    && (disk.nodesFile.Some? ==> disk.nodesFile == Some(s.list))
    && ip in s.list
  }

  lemma ReturnsRight(s: State, step: Step, ip: Ip)
    requires Inv(s) && Enabled(s, step) && Returns(s, step, ip)
    ensures ip in After(s, step).nodes && FilesAreRight(After(s, step), ip)
  {
    hide ListedAreMembers, LimboHasNoData, OneWritePerEpoch, LeftBy;
  }

  /** When a join returns normally its files are right, and there unless the disk was lost since it
      was registered. */
  lemma JoinReturns(states: seq<State>, steps: seq<Step>, j: nat, ip: Ip)
    requires Run(states, steps) && j < |steps| && Returns(states[j], steps[j], ip)
    ensures ip in states[j + 1].nodes && FilesAreRight(states[j + 1], ip)
    ensures exists k | 0 <= k < j :: RegisteredSince(states, steps, k, j, ip)
  {
    hide Inv, Enabled, After, FilesAreRight, RegisteredSince, Init;
    RunKeepsInv(states, steps, j);
    assert Goes(states[j], steps[j], states[j + 1]);
    ReturnsRight(states[j], steps[j], ip);
    FilesAreWritten(states, steps, j, ip);
  }

  predicate FilesThere(s: State, ip: Ip) {
    ip in s.nodes && s.nodes[ip].disk.nodesFile.Some? && s.nodes[ip].disk.stateFile.Some?
  }

  predicate IsDone(s: State, ip: Ip) {
    ip in s.nodes && s.nodes[ip].pc.Done?
  }

  lemma DoneStep(s: State, step: Step, ip: Ip)
    requires Enabled(s, step) && IsDone(After(s, step), ip)
    ensures || (IsDone(s, ip) && (FilesThere(s, ip) && !Loses(step, ip) ==> FilesThere(After(s, step), ip)))
            || (Returns(s, step, ip) && (FilesThere(s, ip) ==> FilesThere(After(s, step), ip)))
            || FilesThere(After(s, step), ip)
  {
    hide LeftBy;
  }

  /** A disk was lost while the join had its files to write, or since it is done. */
  predicate LostBefore(states: seq<State>, steps: seq<Step>, i: nat, ip: Ip)
    requires |states| == |steps| + 1 && i < |states|
  {
    exists m | 0 <= m < i ::
      Loses(steps[m], ip) && forall l | m < l <= i :: Dumps(states[l], ip) || IsDone(states[l], ip)
  }

  /** Wherever `join_cluster` has succeeded, by the protocol or by its short way, both files are
      there unless the disk was lost since. */
  lemma {:induction false} DoneHasFiles(states: seq<State>, steps: seq<Step>, i: nat, ip: Ip)
    requires Run(states, steps) && i < |states| && IsDone(states[i], ip)
    ensures FilesThere(states[i], ip) || LostBefore(states, steps, i, ip)
    decreases i
  {
    hide Enabled, After, FilesThere, Loses;
    assert i > 0;
    var before, step := states[i - 1], steps[i - 1];
    assert Goes(before, step, states[i]);
    DoneStep(before, step, ip);
    if IsDone(before, ip) {
      DoneHasFiles(states, steps, i - 1, ip);
    } else if Returns(before, step, ip) {
      ReturnHasFiles(states, steps, i - 1, ip);
    }
    if LostBefore(states, steps, i - 1, ip) && (IsDone(before, ip) || Returns(before, step, ip)) {
      var m :| 0 <= m < i - 1 && Loses(steps[m], ip)
        && forall l | m < l <= i - 1 :: Dumps(states[l], ip) || IsDone(states[l], ip);
      assert LostBefore(states, steps, i, ip);
    }
  }

  lemma ReturnHasFiles(states: seq<State>, steps: seq<Step>, i: nat, ip: Ip)
    requires Run(states, steps) && i < |steps| && Returns(states[i], steps[i], ip)
    ensures FilesThere(states[i], ip) || LostBefore(states, steps, i, ip)
  {
    hide Init, Goes, Loses;
    FilesAreWritten(states, steps, i, ip);
    var k :| 0 <= k < i && RegisteredSince(states, steps, k, i, ip);
    if !FilesDone(states[i], ip) {
      var m :| k < m < i && Loses(steps[m], ip);
      assert LostBefore(states, steps, i, ip);
    }
  }

  // ---------------------------------------------------------------- the list and the ensemble

  lemma WithoutFirst(nodes: seq<Ip>, ip: Ip)
    requires nodes != []
    ensures Without(nodes, ip) == if nodes[0] == ip then nodes[1..] else [nodes[0]] + Without(nodes[1..], ip)
  {
  }

  lemma ConsWithout(first: Ip, rest: seq<Ip>, k: nat)
    requires k < |rest|
    ensures var nodes := [first] + rest;
            [first] + (rest[..k] + rest[k + 1..]) == nodes[..k + 1] + nodes[k + 2..]
  {
  }

  lemma {:induction false} WithoutIs(nodes: seq<Ip>, ip: Ip) returns (i: nat)
    requires ip in nodes
    ensures i < |nodes| && nodes[i] == ip && Without(nodes, ip) == nodes[..i] + nodes[i + 1..]
  {
    hide Without;
    var first, rest := nodes[0], nodes[1..];
    assert nodes == [first] + rest;
    WithoutFirst(nodes, ip);
    if first == ip {
      i := 0;
      assert nodes[..0] + rest == rest;
    } else {
      var k := WithoutIs(rest, ip);
      i := k + 1;
      ConsWithout(first, rest, k);
    }
  }

  /** The list only changes by a join that appends its address, or a leaver that takes its own out. */
  lemma ListChanges(s: State, step: Step)
    requires Inv(s) && Enabled(s, step)
    ensures || After(s, step).list == s.list
            || (step.Join? && step.ip !in s.list && After(s, step).list == s.list + [step.ip])
            || (step.Leave? && TakesOut(s.list, s.leavers[step.id].ip, After(s, step).list))
  {
    hide ListedAreMembers, LimboHasNoData, OneWritePerEpoch, WritesByJoins, Without, TakesOut;
    if step.Leave? && s.leavers[step.id].pc.Removing? {
      WithoutTakesOut(s.list, s.leavers[step.id].ip);
    }
  }

  predicate TakesOut(before: seq<Ip>, ip: Ip, after: seq<Ip>) {
    exists i | 0 <= i < |before| :: before[i] == ip && after == before[..i] + before[i + 1..]
  }

  lemma WithoutTakesOut(nodes: seq<Ip>, ip: Ip)
    requires ip in nodes
    ensures TakesOut(nodes, ip, Without(nodes, ip))
  {
    var i := WithoutIs(nodes, ip);
  }

  /** The ensemble only changes by a rejoin's two commands, by a leaver that drops its node, and by
      a founder, which starts it anew. A node with its data is left alone if it is listed; only a
      started member is removed, and none is added beside one. */
  lemma MembersChange(s: State, step: Step)
    requires Inv(s) && Enabled(s, step)
    ensures || After(s, step).members == s.members
            || (step.Join? && Adds(s, step, step.ip) && step.ip !in s.named
                && (step.ip in s.list ==> LacksData(s, step.ip))
                && After(s, step).members == s.members + {step.ip})
            || (step.Join? && Removes(s, step, step.ip) && step.ip in s.named && step.ip in s.list
                && LacksData(s, step.ip)
                && After(s, step).members == s.members - {step.ip})
            || (step.Join? && Founds(s, step, step.ip) && After(s, step).members == {step.ip})
            || (step.Leave? && After(s, step).members == s.members - {s.leavers[step.id].ip})
  {
    hide Inv, After, Adds, Removes, Founds, LacksData;
    match step {
      case Join(ip) => MembersChangeByJoin(s, ip);
      case Leave(id) => MembersChangeByLeaver(s, id);
      case _ => OthersChangeNothing(s, step);
    }
  }

  lemma MembersChangeByJoin(s: State, ip: Ip)
    requires Inv(s) && Enabled(s, Join(ip))
    ensures var step, members := Join(ip), After(s, Join(ip)).members;
            || members == s.members
            || (Adds(s, step, ip) && ip !in s.named && (ip in s.list ==> LacksData(s, ip))
                && members == s.members + {ip})
            || (Removes(s, step, ip) && ip in s.named && ip in s.list && LacksData(s, ip)
                && members == s.members - {ip})
            || (Founds(s, step, ip) && members == {ip})
  {
    hide ListedAreMembers, LimboHasNoData, OneWritePerEpoch, WritesByJoins, LeftBy;
  }

  lemma MembersChangeByLeaver(s: State, id: int)
    requires Enabled(s, Leave(id))
    ensures var members := After(s, Leave(id)).members;
            members == s.members || members == s.members - {s.leavers[id].ip}
  {
    hide Joined, Without;
  }

  /** A leaver that is about to give the lock back. */
  predicate Unlocks(s: State, id: int) {
    id in s.leavers && s.leavers[id].pc.Unlocking?
  }

  /** No started member has the leaver's address, or no node is left to ask. */
  predicate Dropped(s: State, ip: Ip) {
    s.list == [] || ip !in s.named
  }

  lemma UnlockStep(s: State, step: Step, id: int)
    requires Inv(s) && Enabled(s, step) && Unlocks(After(s, step), id)
    ensures var next := After(s, step);
            var ip := next.leavers[id].ip;
            || Dropped(next, ip)
            || (Unlocks(s, id) && s.leavers[id].ip == ip && (!Dropped(s, ip) || step == StartEtcd(ip)))
  {
    hide Inv, After;
    if step.Join? {
      JoinUnlocksNone(s, step.ip, id);
    } else {
      OtherUnlocks(s, step, id);
    }
  }

  lemma JoinUnlocksNone(s: State, ip: Ip, id: int)
    requires Inv(s) && Enabled(s, Join(ip))
    ensures !Unlocks(After(s, Join(ip)), id)
  {
    hide ListedAreMembers, LimboHasNoData, OneWritePerEpoch, WritesByJoins, HolderKnows, LeftBy;
  }

  lemma OtherUnlocks(s: State, step: Step, id: int)
    requires Inv(s) && Enabled(s, step) && !step.Join? && Unlocks(After(s, step), id)
    ensures var next := After(s, step);
            var ip := next.leavers[id].ip;
            || Dropped(next, ip)
            || (Unlocks(s, id) && s.leavers[id].ip == ip && (!Dropped(s, ip) || step == StartEtcd(ip)))
  {
    hide ListedAreMembers, LimboHasNoData, OneWritePerEpoch, WritesByJoins, Without, HolderKnows, Joined;
  }

  /** When a leaver returns normally its address is off the list, and the ensemble has no started
      member there, unless its etcd was started again after the leaver had looked. */
  lemma {:induction false} LeaveReturns(states: seq<State>, steps: seq<Step>, i: nat, id: int)
    requires Run(states, steps) && i < |states| && Unlocks(states[i], id)
    ensures var ip := states[i].leavers[id].ip;
            && ip !in states[i].list
            && (|| Dropped(states[i], ip)
                || exists k | 0 <= k < i :: Unlocks(states[k], id) && steps[k] == StartEtcd(ip))
    decreases i
  {
    hide Inv, Enabled, After, Dropped, Unlocks;
    RunKeepsInv(states, steps, i);
    UnlocksUnlisted(states[i], id);
    assert i > 0 by { NoLeaverAtFirst(states[0], id); }
    RunKeepsInv(states, steps, i - 1);
    assert Goes(states[i - 1], steps[i - 1], states[i]);
    UnlockStep(states[i - 1], steps[i - 1], id);
    var ip := states[i].leavers[id].ip;
    if !Dropped(states[i], ip) && steps[i - 1] != StartEtcd(ip) {
      LeaveReturns(states, steps, i - 1, id);
    }
  }

  lemma UnlocksUnlisted(s: State, id: int)
    requires Inv(s) && Unlocks(s, id)
    ensures id in s.leavers && s.leavers[id].ip !in s.list
  {
  }

  lemma NoLeaverAtFirst(s: State, id: int)
    requires Init(s)
    ensures !Unlocks(s, id)
  {
  }

  /** The two commands of a rejoin. */
  predicate Removes(s: State, step: Step, ip: Ip) {
    step == Join(ip) && ip in s.nodes && s.nodes[ip].pc.Deleting?
  }

  predicate Adds(s: State, step: Step, ip: Ip) {
    step == Join(ip) && ip in s.nodes && s.nodes[ip].pc.Adding?
  }

  lemma LimboStep(s: State, step: Step, ip: Ip)
    requires Inv(s) && Enabled(s, step) && ip in After(s, step).limbo
    ensures Removes(s, step, ip) || (ip in s.limbo && !Adds(s, step, ip))
  {
    hide Inv, After;
    match step {
      case Join(_) => LimboByJoin(s, step.ip, ip);
      case Leave(id) => LeaverFoundsNone(s, id);
      case _ => OthersChangeNothing(s, step);
    }
  }

  lemma LimboByJoin(s: State, joining: Ip, ip: Ip)
    requires Inv(s) && Enabled(s, Join(joining)) && ip in After(s, Join(joining)).limbo
    ensures Removes(s, Join(joining), ip) || (ip in s.limbo && !Adds(s, Join(joining), ip))
  {
    hide LeftBy, OneWritePerEpoch, WritesByJoins, LimboHasNoData, HolderKnows;
  }

  /** In limbo means: removed by its own rejoin, and not added since. */
  lemma {:induction false} LimboSince(states: seq<State>, steps: seq<Step>, i: nat, ip: Ip)
    requires Run(states, steps) && i < |states| && ip in states[i].limbo
    ensures exists k | 0 <= k < i :: Removes(states[k], steps[k], ip) && NotAdded(states, steps, k, i, ip)
    decreases i
  {
    hide Inv, Enabled, After, Removes, Adds;
    RunKeepsInv(states, steps, i - 1);
    assert Goes(states[i - 1], steps[i - 1], states[i]);
    LimboStep(states[i - 1], steps[i - 1], ip);
    if Removes(states[i - 1], steps[i - 1], ip) {
      assert NotAdded(states, steps, i - 1, i, ip);
    } else {
      LimboSince(states, steps, i - 1, ip);
      var k :| 0 <= k < i - 1 && Removes(states[k], steps[k], ip) && NotAdded(states, steps, k, i - 1, ip);
      assert NotAdded(states, steps, k, i, ip);
    }
  }

  predicate NotAdded(states: seq<State>, steps: seq<Step>, from: nat, to: nat, ip: Ip)
    requires |states| == |steps| + 1 && from <= to <= |steps|
  {
    forall m | from < m < to :: !Adds(states[m], steps[m], ip)
  }

  /** Every listed address is a member of the ensemble, except between the removal and the adding of
      its own rejoin, or after a crash there. */
  lemma ListedIsMember(states: seq<State>, steps: seq<Step>, i: nat, ip: Ip)
    requires Run(states, steps) && i < |states| && ip in states[i].list
    ensures || ip in states[i].members
            || exists k | 0 <= k < i :: Removes(states[k], steps[k], ip) && NotAdded(states, steps, k, i, ip)
  {
    hide Exclusive, HolderKnows, LimboHasNoData, OneWritePerEpoch, WritesByJoins, Removes, NotAdded, Run;
    RunKeepsInv(states, steps, i);
    if ip !in states[i].members {
      LimboSince(states, steps, i, ip);
    }
  }

  /** `join_cluster` returns normally, having taken the lock: the node is listed and a member. */
  predicate Succeeds(s: State, step: Step, ip: Ip) {
    && step == Join(ip) && ip in s.nodes && s.nodes[ip].pc.Releasing?
    && ip in s.list && ip in s.members && ip !in s.limbo
  }

  predicate NoDataYet(s: State, ip: Ip) {
    ip in s.nodes && !s.nodes[ip].disk.data && !s.nodes[ip].pc.Done?
  }

  lemma StaysUndone(s: State, step: Step, ip: Ip)
    requires Inv(s) && Enabled(s, step) && NoDataYet(s, ip)
    ensures NoDataYet(After(s, step), ip) || Succeeds(s, step, ip)
  {
    hide LeftBy;
    if step == Join(ip) {
      hide OneWritePerEpoch, WritesByJoins, LimboHasNoData, Distinct;
    } else {
      hide Joined, Inv, JoinHolds, LeaveHolds;
    }
  }

  /** A node in limbo cannot skip the protocol: before its join next returns normally, it has been
      made a member again. */
  lemma {:induction false} JoinRestores(states: seq<State>, steps: seq<Step>, i: nat, j: nat, ip: Ip)
    requires Run(states, steps) && i <= j < |states|
    requires ip in states[i].limbo || NoDataYet(states[i], ip)
    requires ip in states[j].nodes && states[j].nodes[ip].pc.Done?
    ensures exists k | i <= k < j :: Succeeds(states[k], steps[k], ip)
    decreases j - i
  {
    hide Enabled, After, Succeeds, Exclusive, HolderKnows, OneWritePerEpoch, ListedAreMembers, Init;
    RunKeepsInv(states, steps, i);
    assert NoDataYet(states[i], ip);
    assert Goes(states[i], steps[i], states[i + 1]);
    StaysUndone(states[i], steps[i], ip);
    if !Succeeds(states[i], steps[i], ip) {
      JoinRestores(states, steps, i + 1, j, ip);
    }
  }

  // ---------------------------------------------------------------- the exception is real

  /** The steps can be taken one after the other, and lead from one state to the other. */
  predicate Leads(s: State, steps: seq<Step>, to: State)
    decreases |steps|
  {
    if steps == [] then s == to else Enabled(s, steps[0]) && Leads(After(s, steps[0]), steps[1..], to)
  }

  lemma {:induction false} Then(s: State, steps: seq<Step>, m: State, step: Step) returns (more: seq<Step>, to: State)
    requires Leads(s, steps, m) && Enabled(m, step)
    ensures more == steps + [step] && to == After(m, step) && Leads(s, more, to)
    decreases |steps|
  {
    hide After, Enabled;
    more, to := steps + [step], After(m, step);
    if steps == [] {
      assert more == [step] && [step][1..] == [];
    } else {
      assert more[1..] == steps[1..] + [step];
      var _, _ := Then(After(s, steps[0]), steps[1..], m, step);
    }
  }

  lemma {:induction false} LeadsOn(s: State, a: seq<Step>, m: State, b: seq<Step>, to: State)
    requires Leads(s, a, m) && Leads(m, b, to)
    ensures Leads(s, a + b, to)
    decreases |a|
  {
    hide After, Enabled;
    if a == [] {
      assert a + b == b;
    } else {
      assert (a + b)[1..] == a[1..] + b;
      LeadsOn(After(s, a[0]), a[1..], m, b, to);
    }
  }

  /** What leads from an initial state is a run. */
  lemma {:induction false} LeadsIsRun(s: State, steps: seq<Step>, to: State) returns (states: seq<State>)
    requires Leads(s, steps, to)
    ensures |states| == |steps| + 1 && states[0] == s && states[|steps|] == to
    ensures forall i | 0 <= i < |steps| :: Goes(states[i], steps[i], states[i + 1])
    decreases |steps|
  {
    hide After, Enabled;
    if steps == [] {
      states := [s];
    } else {
      var rest := LeadsIsRun(After(s, steps[0]), steps[1..], to);
      states := [s] + rest;
      assert forall i | 0 < i < |steps| :: states[i] == rest[i - 1] && steps[i] == steps[1..][i - 1];
      assert Goes(states[0], steps[0], states[1]);
    }
  }

  lemma LeadsNowhere(s: State)
    ensures Leads(s, [], s)
  {
  }

  /** A join takes the lock and reads the list. */
  lemma Enter(s: State, ip: Ip) returns (steps: seq<Step>, to: State)
    requires s.holder == Nobody && ip in s.nodes && s.nodes[ip] == Node(BLANK, Idle)
    ensures Leads(s, steps, to)
    ensures to == s.(
      nodes := s.nodes[ip := Node(BLANK, Deciding(s.list))], holder := Joining(ip), joins := to.joins)
  {
    hide Leads, LeftBy;
    LeadsNowhere(s);
    steps, to := Then(s, [], s, StartJoin(ip));
    steps, to := Then(s, steps, to, Join(ip));
    assert to == s.(nodes := s.nodes[ip := Node(BLANK, Locked)], holder := Joining(ip), joins := to.joins);
    steps, to := Then(s, steps, to, Join(ip));
  }

  /** It writes its two files and returns. */
  lemma WriteFiles(s: State, ip: Ip, nodes: seq<Ip>, state: ClusterState) returns (steps: seq<Step>, to: State)
    requires s.holder == Joining(ip) && ip in s.nodes && s.nodes[ip] == Node(BLANK, DumpingNodes(nodes, state))
    ensures Leads(s, steps, to)
    ensures to.holder == Nobody && to.list == s.list && to.members == s.members && to.named == s.named
    ensures exists disk :: to.nodes == s.nodes[ip := Node(disk, Done)]
  {
    hide Leads, LeftBy;
    LeadsNowhere(s);
    var one, both := Disk(false, Some(nodes), None), Disk(false, Some(nodes), Some(state));
    steps, to := Then(s, [], s, Join(ip));
    assert to == s.(nodes := s.nodes[ip := Node(one, DumpingState(state))]);
    steps, to := Then(s, steps, to, Join(ip));
    assert to.nodes == s.nodes[ip := Node(both, Releasing(state))];
    steps, to := Then(s, steps, to, Join(ip));
    assert to.nodes == s.nodes[ip := Node(both, Done)];
  }

  /** It registers, writes its two files and returns. */
  lemma Register(s: State, ip: Ip, state: ClusterState) returns (steps: seq<Step>, to: State)
    requires s.holder == Joining(ip) && ip in s.nodes && s.nodes[ip] == Node(BLANK, Registering(state))
    requires ip !in s.list
    ensures Leads(s, steps, to)
    ensures to.holder == Nobody && to.list == s.list + [ip]
    ensures to.members == if s.list == [] then {ip} else s.members
    ensures to.named == if s.list == [] then {} else s.named
    ensures exists disk :: to.nodes == s.nodes[ip := Node(disk, Done)]
  {
    hide Leads, LeftBy;
    LeadsNowhere(s);
    var nodes := s.list + [ip];
    steps, to := Then(s, [], s, Join(ip));
    assert to == s.(nodes := s.nodes[ip := Node(BLANK, Setting(nodes, state))]);
    steps, to := Then(s, steps, to, Join(ip));
    assert to.nodes == s.nodes[ip := Node(BLANK, DumpingNodes(nodes, state))];
    hide After, Enabled;
    var writing, done := WriteFiles(to, ip, nodes, state);
    LeadsOn(s, steps, to, writing, done);
    var disk :| done.nodes == to.nodes[ip := Node(disk, Done)];
    assert done.nodes == s.nodes[ip := Node(disk, Done)];
    steps, to := steps + writing, done;
  }

  /** A join can run to its end as the first one. */
  lemma FirstJoin(s: State, ip: Ip) returns (steps: seq<Step>, to: State)
    requires s.holder == Nobody && s.list == [] && ip in s.nodes && s.nodes[ip] == Node(BLANK, Idle)
    ensures Leads(s, steps, to)
    ensures to.holder == Nobody && to.list == [ip] && to.members == {ip} && to.named == {}
    ensures exists disk :: to.nodes == s.nodes[ip := Node(disk, Done)]
  {
    hide Leads, LeftBy;
    var entering, deciding := Enter(s, ip);
    steps, to := Then(s, entering, deciding, Join(ip));
    assert to == s.(nodes := s.nodes[ip := Node(BLANK, Registering(New))], holder := Joining(ip), joins := to.joins);
    var registering, done := Register(to, ip, New);
    LeadsOn(s, steps, to, registering, done);
    steps, to := steps + registering, done;
  }

  /** And as a later one. */
  lemma LaterJoin(s: State, ip: Ip) returns (steps: seq<Step>, to: State)
    requires s.holder == Nobody && s.list != [] && ip in s.nodes && s.nodes[ip] == Node(BLANK, Idle)
    requires ip !in s.list && ip !in s.named
    ensures Leads(s, steps, to)
    ensures to.holder == Nobody && to.list == s.list + [ip] && to.members == s.members + {ip} && to.named == s.named
    ensures exists disk :: to.nodes == s.nodes[ip := Node(disk, Done)]
  {
    hide Leads, LeftBy;
    var entering, deciding := Enter(s, ip);
    steps, to := Then(s, entering, deciding, Join(ip));
    assert to == s.(nodes := s.nodes[ip := Node(BLANK, Ensuring)], holder := Joining(ip), joins := to.joins);
    steps, to := Then(s, steps, to, Join(ip));
    assert to == s.(nodes := s.nodes[ip := Node(BLANK, Adding)], holder := Joining(ip), joins := to.joins);
    steps, to := Then(s, steps, to, Join(ip));
    assert to.nodes == s.nodes[ip := Node(BLANK, Registering(Existing))];
    var registering, done := Register(to, ip, Existing);
    LeadsOn(s, steps, to, registering, done);
    steps, to := steps + registering, done;
  }

  /** A member whose etcd has started, whose machine is then replaced. */
  lemma Replacement(s: State, ip: Ip) returns (steps: seq<Step>, to: State)
    requires s.holder == Nobody && ip in s.nodes && s.nodes[ip].pc.Done? && ip in s.members
    ensures Leads(s, steps, to)
    ensures to.holder == Nobody && ip in to.named && to.list == s.list
    ensures to.nodes == s.nodes[ip := Node(BLANK, Idle)]
  {
    hide Leads, LeftBy;
    LeadsNowhere(s);
    steps, to := Then(s, [], s, StartEtcd(ip));
    steps, to := Then(s, steps, to, CrashNode(ip));
    steps, to := Then(s, steps, to, LoseDisk(ip, BLANK));
  }

  /** A node that lost its data and dies between the two commands of its rejoin stays listed without
      being a member, and nobody holds the lock. */
  lemma RejoinCanBeCutShort(s: State, ip: Ip) returns (steps: seq<Step>, to: State)
    requires s.holder == Nobody && ip in s.nodes && s.nodes[ip] == Node(BLANK, Idle)
    requires ip in s.list && ip in s.named
    ensures Leads(s, steps, to)
    ensures ip in to.list && ip !in to.members && to.holder == Nobody
  {
    hide Leads, LeftBy;
    var entering, deciding := Enter(s, ip);
    steps, to := Then(s, entering, deciding, Join(ip));
    assert to == s.(nodes := s.nodes[ip := Node(BLANK, Finding)], holder := Joining(ip), joins := to.joins);
    steps, to := Then(s, steps, to, Join(ip));
    assert to == s.(nodes := s.nodes[ip := Node(BLANK, Deleting)], holder := Joining(ip), joins := to.joins);
    steps, to := Then(s, steps, to, Join(ip));
    steps, to := Then(s, steps, to, CrashNode(ip));
  }

  /** So some run of two nodes ends with a listed address that is no member and no process that
      is about to add it. */
  lemma ExceptionIsReal() returns (states: seq<State>, steps: seq<Step>)
    ensures Run(states, steps)
    ensures var last := states[|steps|];
            last.holder == Nobody && exists ip :: ip in last.list && ip !in last.members
  {
    hide Leads, Enabled, After;
    var nodes := map[1 := Node(BLANK, Idle), 2 := Node(BLANK, Idle)];
    var first := State(Nobody, [], {}, {}, nodes, map[], 0, map[], [], {}, map[]);
    var founding, founded := FirstJoin(first, 1);
    var joining, joined := LaterJoin(founded, 2);
    var replacing, replaced := Replacement(joined, 2);
    var rejoining, last := RejoinCanBeCutShort(replaced, 2);
    LeadsOn(first, founding, founded, joining, joined);
    LeadsOn(first, founding + joining, joined, replacing, replaced);
    LeadsOn(first, founding + joining + replacing, replaced, rejoining, last);
    steps := founding + joining + replacing + rejoining;
    states := LeadsIsRun(first, steps, last);
    assert Init(states[0]);
  }
}
