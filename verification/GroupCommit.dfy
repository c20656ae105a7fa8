/** Group commit: threads stage whole worlds in order, and whichever is free leads a
    group to disk while the rest follow. Every interleaving of the steps taken under
    the durability lock is a run of this machine. */
module GroupCommit {
  import opened Values

  /** A branch: the edition it stands at, and what it holds. */
  datatype Branch = Branch(edition: nat, contents: int)

  /** The root record: every branch. */
  type World = map<nat, Branch>

  /** One staged write: the root as of its stage, and whose commit it was. */
  datatype Pending = Pending(number: nat, branch: nat, edition: nat, world: World)

  /** Where a thread stands in the durability loop. `target` is the stage it waits
      for, or none for a flush of the whole queue. */
  datatype Pc =
    | Idle
    | Driving(target: Option<nat>)
    | Leading(target: Option<nat>, group: seq<Pending>)
    | Written(target: Option<nat>, group: seq<Pending>, ok: bool)
    | Returned(target: Option<nat>, ok: bool)
    | Lost(target: Option<nat>)

  /** The queue and its watermarks, the root in memory and on disk, and the threads.
      `stages` and `onDisk` only record: every stage so far, and how many of them the
      disk holds. */
  datatype State = State(
    world: World,
    pending: seq<Pending>,
    staged: nat,
    landed: nat,
    durable: map<nat, nat>,
    writing: bool,
    failure: Option<nat>,
    disk: World,
    pcs: map<nat, Pc>,
    stages: seq<Pending>,
    onDisk: nat)

  datatype Action =
    | Stage(t: nat, branch: nat, to: Branch)
    | Flush(t: nat)
    | Check(t: nat)
    | Write(t: nat)
    | Fail(t: nat, reached: bool)
    | Relock(t: nat)

  function PcOf(s: State, t: nat): Pc {
    if t in s.pcs then s.pcs[t] else Idle
  }

  function EditionOf(w: World, b: nat): nat {
    if b in w then w[b].edition else 0
  }

  // ----- the steps -----

  /** A failure dooms whoever waits for a stage it carried, and every flush. */
  predicate Doomed(s: State, target: Option<nat>) {
    s.failure.Some? && (target.None? || target.value <= s.failure.value)
  }

  predicate Satisfied(s: State, target: Option<nat>) {
    match target case Some(n) => s.landed >= n case None => s.pending == [] && !s.writing
  }

  /** One turn of the loop: fail, return, wait, or lead with the whole queue. */
  function Turn(s: State, t: nat, target: Option<nat>): State {
    if Doomed(s, target) then s.(pcs := s.pcs[t := Returned(target, false)])
    else if Satisfied(s, target) then s.(pcs := s.pcs[t := Returned(target, true)])
    else if s.writing then s
    else if s.pending == [] then s.(pcs := s.pcs[t := Lost(target)])
    else s.(pending := [], writing := true, pcs := s.pcs[t := Leading(target, s.pending)])
  }

  /** Puts a branch in the root and queues the root as it now is. */
  function StageIn(s: State, t: nat, b: nat, to: Branch): State {
    var world := s.world[b := to];
    var n := s.staged + 1;
    var p := Pending(n, b, to.edition, world);
    s.(world := world, staged := n, pending := s.pending + [p], stages := s.stages + [p],
      pcs := s.pcs[t := Driving(Some(n))])
  }

  function Last(group: seq<Pending>): Pending
    requires group != []
  {
    group[|group| - 1]
  }

  /** The group reaches disk as one batch; its last root is the world it leaves. */
  function OnDisk(s: State, group: seq<Pending>): State
    requires group != []
  {
    s.(disk := Last(group).world, onDisk := Last(group).number)
  }

  function Raise(durable: map<nat, nat>, group: seq<Pending>): map<nat, nat> {
    if group == [] then durable else
    var d := Raise(durable, group[..|group| - 1]);
    var p := group[|group| - 1];
    d[p.branch := if p.branch in d && d[p.branch] > p.edition then d[p.branch] else p.edition]
  }

  function Max(a: nat, b: nat): nat {
    if a < b then b else a
  }

  /** The leader takes the lock again and says how its group fared. */
  function Settle(s: State, t: nat, target: Option<nat>, group: seq<Pending>, ok: bool): State
    requires group != []
  {
    if ok then
      s.(writing := false, landed := Max(s.landed, Last(group).number), durable := Raise(s.durable, group),
         pcs := s.pcs[t := Driving(target)])
    else
      s.(writing := false, failure := Some(Last(group).number), pcs := s.pcs[t := Returned(target, false)])
  }

  /** A step, or none when the thread is not where the step begins. A stage keeps its
      branch's editions in order: it runs under the branch's edition lock. */
  function Apply(s: State, a: Action): Option<State> {
    match a
    case Stage(t, b, to) =>
      if (PcOf(s, t).Idle? || PcOf(s, t).Returned?) && EditionOf(s.world, b) <= to.edition
        then Some(StageIn(s, t, b, to)) else None
    case Flush(t) =>
      if PcOf(s, t).Idle? || PcOf(s, t).Returned? then Some(s.(pcs := s.pcs[t := Driving(None)])) else None
    case Check(t) =>
      if PcOf(s, t).Driving? then Some(Turn(s, t, PcOf(s, t).target)) else None
    case Write(t) => (
      match PcOf(s, t)
      case Leading(target, g) =>
        if g == [] then None else Some(OnDisk(s, g).(pcs := s.pcs[t := Written(target, g, true)]))
      case _ => None)
    case Fail(t, reached) => (
      match PcOf(s, t)
      case Leading(target, g) =>
        if g == [] then None
        else Some((if reached then OnDisk(s, g) else s).(pcs := s.pcs[t := Written(target, g, false)]))
      case _ => None)
    case Relock(t) =>
      match PcOf(s, t)
      case Written(target, g, ok) => if g == [] then None else Some(Settle(s, t, target, g, ok))
      case _ => None
  }

  const FRESH := State(map[], [], 0, 0, map[], false, None, map[], map[], [], 0)

  /** The state a run of steps ends in, if every step was one its thread could take. */
  function Exec(acts: seq<Action>): Option<State> {
    if acts == [] then Some(FRESH) else
    match Exec(acts[..|acts| - 1])
    case None => None
    case Some(s) => Apply(s, acts[|acts| - 1])
  }

  // ----- what every run keeps -----

  /** The root as of the first `n` stages. */
  function WorldAt(stages: seq<Pending>, n: nat): World
    requires n <= |stages|
  {
    if n == 0 then map[] else stages[n - 1].world
  }

  /** Stages are numbered in order, each world holds its own stage's edition, and no
      branch ever goes back. */
  ghost predicate InOrder(stages: seq<Pending>) {
    && (forall i | 0 <= i < |stages| :: stages[i].number == i + 1)
    && (forall i | 0 <= i < |stages| :: EditionOf(stages[i].world, stages[i].branch) == stages[i].edition)
    && (forall i, j, b | 0 <= i <= j <= |stages| ::
          EditionOf(WorldAt(stages, i), b) <= EditionOf(WorldAt(stages, j), b))
  }

  /** How many stages have left the queue. */
  function Taken(s: State): int {
    s.staged - |s.pending|
  }

  /** Every stage up to here has landed or been given up. */
  function Settled(s: State): nat {
    Max(s.landed, if s.failure.Some? then s.failure.value else 0)
  }

  /** The queue is the newest stages, contiguous and in order; everything older has
      landed or failed, but for the group in flight. */
  ghost predicate QueueInOrder(s: State) {
    && |s.stages| == s.staged && s.world == WorldAt(s.stages, s.staged) && InOrder(s.stages)
    && |s.pending| <= s.staged && s.pending == s.stages[Taken(s)..]
    && Settled(s) <= Taken(s) && (!s.writing ==> Settled(s) == Taken(s))
  }

  predicate IsActive(pc: Pc) {
    pc.Leading? || pc.Written?
  }

  /** A thread in the middle of writing holds the group, and only it. */
  ghost predicate OneLeader(pcs: map<nat, Pc>, writing: bool, group: seq<Pending>) {
    && (forall t | t in pcs && IsActive(pcs[t]) :: writing && group != [] && pcs[t].group == group)
    && (forall t, u | t in pcs && u in pcs && IsActive(pcs[t]) && IsActive(pcs[u]) :: t == u)
    && (writing ==> exists t :: t in pcs && IsActive(pcs[t]))
  }

  /** The stages between what is settled and the queue. */
  function InFlight(s: State): seq<Pending>
    requires QueueInOrder(s)
  {
    s.stages[Settled(s)..Taken(s)]
  }

  /** The disk is the world as of some prefix of the stages, at least as long as what
      has landed. */
  ghost predicate DiskIsPrefix(s: State)
    requires QueueInOrder(s)
  {
    && s.landed <= s.onDisk <= Taken(s) && s.disk == WorldAt(s.stages, s.onDisk)
    && (s.onDisk <= Settled(s) || s.onDisk == Taken(s))
  }

  /** A group reported written is on disk. */
  ghost predicate WrittenIsThere(pcs: map<nat, Pc>, there: bool) {
    forall t | t in pcs && pcs[t].Written? && pcs[t].ok :: there
  }

  /** No branch is called durable past what the disk holds of it. */
  ghost predicate DurableHolds(durable: map<nat, nat>, disk: World) {
    forall b | b in durable :: durable[b] <= EditionOf(disk, b)
  }

  function TargetIn(pc: Pc, bound: nat): bool {
    pc.Idle? || pc.target.None? || pc.target.value <= bound
  }

  /** Who waits, waits for a stage that was made; who was told yes has it landed; and
      nobody was told its stage is neither pending nor durable. */
  ghost predicate AnswersHold(pcs: map<nat, Pc>, staged: nat, landed: nat) {
    && (forall t | t in pcs :: TargetIn(pcs[t], staged) && !pcs[t].Lost?)
    && (forall t | t in pcs && pcs[t].Returned? && pcs[t].ok :: TargetIn(pcs[t], landed))
  }

  ghost predicate Inv(s: State) {
    && QueueInOrder(s) && OneLeader(s.pcs, s.writing, InFlight(s)) && DiskIsPrefix(s)
    && WrittenIsThere(s.pcs, s.onDisk == Taken(s)) && DurableHolds(s.durable, s.disk)
    && AnswersHold(s.pcs, s.staged, s.landed)
  }

  lemma InitInv()
    ensures Inv(FRESH)
  {
  }

  lemma InOrderGrows(stages: seq<Pending>, p: Pending)
    requires InOrder(stages) && p.number == |stages| + 1 && EditionOf(p.world, p.branch) == p.edition
    requires p.world.Keys == WorldAt(stages, |stages|).Keys + {p.branch}
    requires forall b | b in p.world && b != p.branch :: p.world[b] == WorldAt(stages, |stages|)[b]
    requires EditionOf(WorldAt(stages, |stages|), p.branch) <= p.edition
    ensures InOrder(stages + [p])
  {
    var r := stages + [p];
    forall i | 0 <= i <= |stages| ensures WorldAt(r, i) == WorldAt(stages, i) {
    }
    forall i, j, b | 0 <= i <= j <= |r| ensures EditionOf(WorldAt(r, i), b) <= EditionOf(WorldAt(r, j), b) {
      if i < j == |r| {
        assert EditionOf(WorldAt(stages, i), b) <= EditionOf(WorldAt(stages, |stages|), b);
      }
    }
  }

  lemma StageKeeps(s: State, t: nat, b: nat, to: Branch)
    requires Inv(s) && !IsActive(PcOf(s, t)) && EditionOf(s.world, b) <= to.edition
    ensures Inv(StageIn(s, t, b, to))
  {
    hide InOrder, OneLeader, WrittenIsThere, AnswersHold, DurableHolds, WorldAt;
    var s' := StageIn(s, t, b, to);
    QueueGrows(s, t, b, to);
    PassivePcs(s.pcs, t, Driving(Some(s.staged + 1)), s.writing, InFlight(s), s.onDisk == Taken(s));
    AnswersStaged(s.pcs, t, s.staged, s.landed);
  }

  lemma QueueGrows(s: State, t: nat, b: nat, to: Branch)
    requires QueueInOrder(s) && DiskIsPrefix(s) && EditionOf(s.world, b) <= to.edition
    ensures var s' := StageIn(s, t, b, to);
      && QueueInOrder(s') && DiskIsPrefix(s') && Taken(s') == Taken(s) && InFlight(s') == InFlight(s)
  {
    hide InOrder;
    var s' := StageIn(s, t, b, to);
    var n := Taken(s);
    InOrderGrows(s.stages, Last(s'.stages));
    hide EditionOf;
    assert Taken(s') == n && Settled(s') == Settled(s);
    assert s'.stages[n..] == s.stages[n..] + [Last(s'.stages)];
    assert s'.world == WorldAt(s'.stages, s'.staged);
    assert QueueInOrder(s');
    assert InFlight(s') == InFlight(s);
    assert WorldAt(s'.stages, s.onDisk) == WorldAt(s.stages, s.onDisk);
  }

  lemma AnswersStaged(pcs: map<nat, Pc>, t: nat, staged: nat, landed: nat)
    requires AnswersHold(pcs, staged, landed)
    ensures AnswersHold(pcs[t := Driving(Some(staged + 1))], staged + 1, landed)
  {
  }

  /** A thread that was not writing and still is not changes nothing for the leader. */
  lemma PassivePcs(pcs: map<nat, Pc>, t: nat, pc: Pc, writing: bool, group: seq<Pending>, there: bool)
    requires OneLeader(pcs, writing, group) && WrittenIsThere(pcs, there)
    requires !IsActive(pc) && (t in pcs ==> !IsActive(pcs[t]))
    ensures OneLeader(pcs[t := pc], writing, group) && WrittenIsThere(pcs[t := pc], there)
  {
    if writing {
      var l :| l in pcs && IsActive(pcs[l]);
      assert l in pcs[t := pc] && IsActive(pcs[t := pc][l]);
    }
  }

  lemma TurnKeeps(s: State, t: nat)
    requires Inv(s) && PcOf(s, t).Driving?
    ensures Inv(Turn(s, t, PcOf(s, t).target))
  {
    var target := PcOf(s, t).target;
    if Doomed(s, target) {
      AnswerKeeps(s, t, false);
    } else if Satisfied(s, target) {
      AnswerKeeps(s, t, true);
    } else if !s.writing {
      NeverLost(s, t);
      LeadKeeps(s, t);
    }
    hide Inv;
  }

  lemma AnswerKeeps(s: State, t: nat, ok: bool)
    requires Inv(s) && PcOf(s, t).Driving? && (ok ==> Satisfied(s, PcOf(s, t).target))
    ensures Inv(s.(pcs := s.pcs[t := Returned(PcOf(s, t).target, ok)]))
  {
    hide InOrder, OneLeader, WrittenIsThere, DurableHolds, AnswersHold, WorldAt;
    var pc := Returned(PcOf(s, t).target, ok);
    var s' := s.(pcs := s.pcs[t := pc]);
    AnswersKept(s.pcs, t, pc, s.staged, s.landed, s.landed);
    PassivePcs(s.pcs, t, pc, s.writing, InFlight(s), s.onDisk == Taken(s));
    assert InFlight(s') == InFlight(s);
  }

  lemma LeadKeeps(s: State, t: nat)
    requires Inv(s) && PcOf(s, t).Driving? && !s.writing && s.pending != []
    ensures Inv(s.(pending := [], writing := true, pcs := s.pcs[t := Leading(PcOf(s, t).target, s.pending)]))
  {
    hide InOrder, OneLeader, WrittenIsThere, DurableHolds, AnswersHold, WorldAt;
    var pc := Leading(PcOf(s, t).target, s.pending);
    var s' := s.(pending := [], writing := true, pcs := s.pcs[t := pc]);
    AnswersKept(s.pcs, t, pc, s.staged, s.landed, s.landed);
    assert InFlight(s') == s.pending;
    Promoted(s.pcs, t, pc.target, s.pending, InFlight(s), s.onDisk == Taken(s), s'.onDisk == Taken(s'));
  }

  lemma AnswersKept(pcs: map<nat, Pc>, t: nat, pc: Pc, staged: nat, landed: nat, landed': nat)
    requires AnswersHold(pcs, staged, landed) && landed <= landed'
    ensures TargetIn(pc, staged) && !pc.Lost? && (pc.Returned? && pc.ok ==> TargetIn(pc, landed')) ==>
      AnswersHold(pcs[t := pc], staged, landed')
    ensures t in pcs ==> TargetIn(pcs[t], staged)
  {
  }

  /** A stage neither landed nor failed is still in the queue: a thread that must lead
      always finds something to lead. */
  lemma NeverLost(s: State, t: nat)
    requires QueueInOrder(s) && AnswersHold(s.pcs, s.staged, s.landed)
    requires PcOf(s, t).Driving? && !Doomed(s, PcOf(s, t).target) && !Satisfied(s, PcOf(s, t).target) && !s.writing
    ensures s.pending != []
  {
    hide InOrder;
  }

  lemma Promoted(pcs: map<nat, Pc>, t: nat, target: Option<nat>, group: seq<Pending>, none: seq<Pending>, there: bool,
                 there': bool)
    requires OneLeader(pcs, false, none) && WrittenIsThere(pcs, there) && group != []
    ensures OneLeader(pcs[t := Leading(target, group)], true, group) &&
      WrittenIsThere(pcs[t := Leading(target, group)], there')
  {
    var pcs' := pcs[t := Leading(target, group)];
    assert t in pcs' && IsActive(pcs'[t]);
  }

  lemma LeaderIs(pcs: map<nat, Pc>, t: nat, writing: bool, group: seq<Pending>, there: bool)
    requires OneLeader(pcs, writing, group) && WrittenIsThere(pcs, there) && t in pcs && IsActive(pcs[t])
    ensures writing && group != [] && pcs[t].group == group
    ensures pcs[t].Written? && pcs[t].ok ==> there
  {
  }

  lemma WriteKeeps(s: State, t: nat, ok: bool, reached: bool)
    requires Inv(s) && PcOf(s, t).Leading? && PcOf(s, t).group != [] && (ok ==> reached)
    ensures var pc := Written(PcOf(s, t).target, PcOf(s, t).group, ok);
      Inv((if reached then OnDisk(s, PcOf(s, t).group) else s).(pcs := s.pcs[t := pc]))
  {
    hide InOrder, OneLeader, WrittenIsThere, DurableHolds, AnswersHold, WorldAt;
    var g := PcOf(s, t).group;
    var pc := Written(PcOf(s, t).target, g, ok);
    LeaderIs(s.pcs, t, s.writing, InFlight(s), s.onDisk == Taken(s));
    LastInFlight(s, g);
    AnswersKept(s.pcs, t, pc, s.staged, s.landed, s.landed);
    if reached {
      LeaderMoves(s.pcs, t, pc, InFlight(s), true);
      DurableOnDisk(s, Taken(s));
      assert InFlight(OnDisk(s, g).(pcs := s.pcs[t := pc])) == InFlight(s);
    } else {
      LeaderMoves(s.pcs, t, pc, InFlight(s), s.onDisk == Taken(s));
      assert InFlight(s.(pcs := s.pcs[t := pc])) == InFlight(s);
    }
  }

  lemma LastInFlight(s: State, g: seq<Pending>)
    requires QueueInOrder(s) && g == InFlight(s) && g != []
    ensures Last(g).number == Taken(s) && Last(g).world == WorldAt(s.stages, Taken(s))
  {
  }

  lemma DurableOnDisk(s: State, n: nat)
    requires QueueInOrder(s) && DiskIsPrefix(s) && DurableHolds(s.durable, s.disk) && s.onDisk <= n <= |s.stages|
    ensures DurableHolds(s.durable, WorldAt(s.stages, n))
  {
    forall b | b in s.durable ensures s.durable[b] <= EditionOf(WorldAt(s.stages, n), b) {
      assert EditionOf(WorldAt(s.stages, s.onDisk), b) <= EditionOf(WorldAt(s.stages, n), b);
    }
  }

  lemma LeaderMoves(pcs: map<nat, Pc>, t: nat, pc: Pc, group: seq<Pending>, there: bool)
    requires OneLeader(pcs, true, group) && t in pcs && pcs[t].Leading?
    requires pc.Written? && pc.group == group && (pc.ok ==> there)
    ensures OneLeader(pcs[t := pc], true, group) && WrittenIsThere(pcs[t := pc], there)
  {
    assert IsActive(pcs[t]) && IsActive(pcs[t := pc][t]);
  }

  lemma {:induction false} RaiseBound(durable: map<nat, nat>, group: seq<Pending>, w: World)
    requires DurableHolds(durable, w)
    requires forall p <- group :: p.edition <= EditionOf(w, p.branch)
    ensures DurableHolds(Raise(durable, group), w)
  {
    if group != [] {
      RaiseBound(durable, group[..|group| - 1], w);
      assert group[|group| - 1] in group;
    }
  }

  lemma SettleKeeps(s: State, t: nat)
    requires Inv(s) && PcOf(s, t).Written? && PcOf(s, t).group != []
    ensures Inv(Settle(s, t, PcOf(s, t).target, PcOf(s, t).group, PcOf(s, t).ok))
  {
    hide InOrder, OneLeader, WrittenIsThere, DurableHolds, Raise, AnswersHold, WorldAt;
    var pc := PcOf(s, t);
    var s' := Settle(s, t, pc.target, pc.group, pc.ok);
    AnswersKept(s.pcs, t, s'.pcs[t], s.staged, s.landed, s'.landed);
    LeaderIs(s.pcs, t, s.writing, InFlight(s), s.onDisk == Taken(s));
    LastInFlight(s, pc.group);
    if pc.ok {
      EditionsOnDisk(s);
      RaiseBound(s.durable, pc.group, s.disk);
    }
    assert QueueInOrder(s');
    LeaderRests(s.pcs, t, s'.pcs[t], InFlight(s), s.onDisk == Taken(s), s'.onDisk == Taken(s'), InFlight(s'));
  }

  lemma EditionsOnDisk(s: State)
    requires QueueInOrder(s) && DiskIsPrefix(s) && s.onDisk == Taken(s)
    ensures forall p <- InFlight(s) :: p.edition <= EditionOf(s.disk, p.branch)
  {
    forall p | p in InFlight(s) ensures p.edition <= EditionOf(s.disk, p.branch) {
      var i :| Settled(s) <= i < Taken(s) && s.stages[i] == p;
      assert EditionOf(WorldAt(s.stages, i + 1), p.branch) <= EditionOf(WorldAt(s.stages, Taken(s)), p.branch);
    }
  }

  lemma LeaderRests(pcs: map<nat, Pc>, t: nat, pc: Pc, group: seq<Pending>, there: bool, there': bool,
                    group': seq<Pending>)
    requires OneLeader(pcs, true, group) && WrittenIsThere(pcs, there) && t in pcs && pcs[t].Written? && !IsActive(pc)
    ensures OneLeader(pcs[t := pc], false, group') && WrittenIsThere(pcs[t := pc], there')
  {
    assert IsActive(pcs[t]);
  }

  lemma FlushKeeps(s: State, t: nat)
    requires Inv(s) && !IsActive(PcOf(s, t))
    ensures Inv(s.(pcs := s.pcs[t := Driving(None)]))
  {
    hide InOrder, OneLeader, WrittenIsThere, AnswersHold, DurableHolds, WorldAt;
    var s' := s.(pcs := s.pcs[t := Driving(None)]);
    AnswersKept(s.pcs, t, Driving(None), s.staged, s.landed, s.landed);
    assert InFlight(s') == InFlight(s);
    PassivePcs(s.pcs, t, Driving(None), s.writing, InFlight(s), s.onDisk == Taken(s));
  }

  /** Every step keeps the invariant. */
  lemma StepKeeps(s: State, a: Action)
    requires Inv(s) && Apply(s, a).Some?
    ensures Inv(Apply(s, a).value)
  {
    hide Inv;
    match a
    case Stage(t, b, to) => StageKeeps(s, t, b, to);
    case Flush(t) => FlushKeeps(s, t);
    case Check(t) => TurnKeeps(s, t);
    case Write(t) => WriteKeeps(s, t, true, true);
    case Fail(t, reached) => WriteKeeps(s, t, false, reached);
    case Relock(t) => SettleKeeps(s, t);
  }

  /** Every state of every run. */
  lemma {:induction false} EveryRunKeeps(acts: seq<Action>)
    requires Exec(acts).Some?
    ensures Inv(Exec(acts).value)
  {
    hide Inv, Apply;
    if acts == [] {
      InitInv();
    } else {
      EveryRunKeeps(acts[..|acts| - 1]);
      StepKeeps(Exec(acts[..|acts| - 1]).value, acts[|acts| - 1]);
    }
  }

  // ----- what a caller may rely on -----

  /** In every run: queue numbers are contiguous and in order, the root on disk is the
      world as of a prefix of the stages, no branch is called durable past its
      edition on disk or its current one, and the "neither pending nor durable"
      error is never returned. */
  lemma GroupsReachDiskInOrder(acts: seq<Action>)
    requires Exec(acts).Some?
    ensures var s := Exec(acts).value;
      && (forall i | 0 <= i < |s.pending| :: s.pending[i].number == s.staged - |s.pending| + 1 + i)
      && s.onDisk <= |s.stages| && s.disk == WorldAt(s.stages, s.onDisk)
      && (forall b | b in s.durable :: s.durable[b] <= EditionOf(s.disk, b))
      && (forall b :: EditionOf(s.disk, b) <= EditionOf(s.world, b))
      && (forall t :: !PcOf(s, t).Lost?)
  {
    EveryRunKeeps(acts);
    var s := Exec(acts).value;
    forall b ensures EditionOf(s.disk, b) <= EditionOf(s.world, b) {
      assert EditionOf(WorldAt(s.stages, s.onDisk), b) <= EditionOf(WorldAt(s.stages, s.staged), b);
    }
  }

  /** What only grows. */
  lemma StepGrows(s: State, a: Action)
    requires Inv(s) && Apply(s, a).Some?
    ensures var s' := Apply(s, a).value; s.landed <= s'.landed && s.onDisk <= s'.onDisk && s.stages <= s'.stages
  {
    hide InOrder, WorldAt, DurableHolds, AnswersHold;
    match a
    case Write(t) =>
      LeaderIs(s.pcs, t, s.writing, InFlight(s), s.onDisk == Taken(s));
      LastInFlight(s, PcOf(s, t).group);
    case Fail(t, _) =>
      LeaderIs(s.pcs, t, s.writing, InFlight(s), s.onDisk == Taken(s));
      LastInFlight(s, PcOf(s, t).group);
    case _ =>
  }

  lemma {:induction false} RunGrows(acts: seq<Action>, more: seq<Action>)
    requires Exec(acts + more).Some?
    ensures Exec(acts).Some?
    ensures var s, s' := Exec(acts).value, Exec(acts + more).value;
      s.landed <= s'.landed && s.onDisk <= s'.onDisk && s.stages <= s'.stages
    decreases |more|
  {
    hide Inv, Apply;
    if more == [] {
      assert acts + more == acts;
    } else {
      var n := |more| - 1;
      assert (acts + more)[..|acts + more| - 1] == acts + more[..n];
      RunGrows(acts, more[..n]);
      EveryRunKeeps(acts + more[..n]);
      StepGrows(Exec(acts + more[..n]).value, more[n]);
    }
  }

  /** A commit told yes is on disk, with every stage before it, at that moment and
      after any further steps: a crash then finds its branch at its edition or later. */
  lemma YesMeansDurable(acts: seq<Action>, t: nat, n: nat, more: seq<Action>)
    requires Exec(acts).Some? && PcOf(Exec(acts).value, t) == Returned(Some(n), true)
    requires Exec(acts + more).Some?
    ensures var s, s' := Exec(acts).value, Exec(acts + more).value;
      && n <= s.onDisk <= s'.onDisk <= |s'.stages| && s'.disk == WorldAt(s'.stages, s'.onDisk)
      && (forall i | 0 <= i < n :: i < |s.stages| && s.stages[i].edition <= EditionOf(s'.disk, s.stages[i].branch))
  {
    hide Apply, Exec;
    EveryRunKeeps(acts);
    EveryRunKeeps(acts + more);
    RunGrows(acts, more);
    var s, s' := Exec(acts).value, Exec(acts + more).value;
    assert t in s.pcs;
    forall i | 0 <= i < n ensures i < |s.stages| && s.stages[i].edition <= EditionOf(s'.disk, s.stages[i].branch) {
      assert s'.stages[i] == s.stages[i];
      assert EditionOf(WorldAt(s'.stages, i + 1), s.stages[i].branch) <=
        EditionOf(WorldAt(s'.stages, s'.onDisk), s.stages[i].branch);
    }
  }

  /** Nobody waits on nobody: a thread whose turn does nothing waits for a leader that
      has a step to take. */
  lemma WaitersHaveALeader(acts: seq<Action>, t: nat)
    requires Exec(acts).Some? && PcOf(Exec(acts).value, t).Driving?
    requires Turn(Exec(acts).value, t, PcOf(Exec(acts).value, t).target) == Exec(acts).value
    ensures var s := Exec(acts).value;
      exists l :: (PcOf(s, l).Leading? && Apply(s, Write(l)).Some?) ||
        (PcOf(s, l).Written? && Apply(s, Relock(l)).Some?)
  {
    hide Exec, InOrder, WorldAt;
    EveryRunKeeps(acts);
    var s := Exec(acts).value;
    var target := PcOf(s, t).target;
    assert t in s.pcs && s.pcs[t] == Driving(target);
    if !s.writing {
      TurnMoves(s, t, target);
    }
    var l :| l in s.pcs && IsActive(s.pcs[l]);
    LeaderIs(s.pcs, l, s.writing, InFlight(s), s.onDisk == Taken(s));
    assert PcOf(s, l).group != [];
  }

  lemma TurnMoves(s: State, t: nat, target: Option<nat>)
    requires !s.writing
    ensures t in Turn(s, t, target).pcs && !Turn(s, t, target).pcs[t].Driving?
  {
    hide Doomed, Satisfied;
  }

  // ----- what a no means -----

  /** The group a thread is writing when it takes a step of the run. */
  function GroupAt(acts: seq<Action>, i: nat, t: nat): seq<Pending>
    requires i < |acts|
  {
    match Exec(acts[..i])
    case None => []
    case Some(s) => match PcOf(s, t) case Leading(_, g) => g case _ => []
  }

  predicate GroupCarries(group: seq<Pending>, n: nat) {
    group != [] && Last(group).number >= n
  }

  /** Step `i` puts a group on disk that carries stage `n` or a later one. */
  predicate LandsAt(acts: seq<Action>, i: nat, n: nat)
    requires i < |acts|
  {
    match acts[i]
    case Write(t) => GroupCarries(GroupAt(acts, i, t), n)
    case Fail(t, reached) => reached && GroupCarries(GroupAt(acts, i, t), n)
    case _ => false
  }

  /** Step `i` fails a group that carries stage `n` or a later one. */
  predicate FailsAt(acts: seq<Action>, i: nat, n: nat)
    requires i < |acts|
  {
    match acts[i] case Fail(t, _) => GroupCarries(GroupAt(acts, i, t), n) case _ => false
  }

  ghost predicate Reached(acts: seq<Action>, n: nat) {
    exists i | 0 <= i < |acts| :: LandsAt(acts, i, n)
  }

  ghost predicate FailedThrough(acts: seq<Action>, n: nat) {
    exists i | 0 <= i < |acts| :: FailsAt(acts, i, n)
  }

  /** One more step adds what it does itself, and nothing else. */
  lemma ReachedSnoc(acts: seq<Action>, n: nat)
    requires acts != []
    ensures Reached(acts, n) <==> Reached(acts[..|acts| - 1], n) || LandsAt(acts, |acts| - 1, n)
    ensures FailedThrough(acts, n) <==> FailedThrough(acts[..|acts| - 1], n) || FailsAt(acts, |acts| - 1, n)
  {
    hide Exec, GroupCarries;
    var was := acts[..|acts| - 1];
    forall i | 0 <= i < |was|
      ensures LandsAt(was, i, n) == LandsAt(acts, i, n) && FailsAt(was, i, n) == FailsAt(acts, i, n) {
      assert was[..i] == acts[..i];
    }
  }

  /** **What is on disk.** In every run, stage `n` is on disk if and only if some step
      wrote, well or with an error that came too late, a group that carries it. */
  lemma {:induction false} OnDiskIff(acts: seq<Action>, n: nat)
    requires Exec(acts).Some? && n > 0
    ensures Exec(acts).value.onDisk >= n <==> Reached(acts, n)
  {
    hide Inv, Apply, Reached, LandsAt;
    if acts == [] {
      NothingReached(n);
    } else {
      var k := |acts| - 1;
      OnDiskIff(acts[..k], n);
      EveryRunKeeps(acts[..k]);
      ReachedSnoc(acts, n);
      LandingStep(acts, n);
    }
  }

  lemma NothingReached(n: nat)
    ensures !Reached([], n) && !FailedThrough([], n)
  {
  }

  lemma LandingStep(acts: seq<Action>, n: nat)
    requires acts != [] && Exec(acts).Some? && Exec(acts[..|acts| - 1]).Some? && Inv(Exec(acts[..|acts| - 1]).value)
    ensures Exec(acts).value.onDisk >= n
       <==> Exec(acts[..|acts| - 1]).value.onDisk >= n || LandsAt(acts, |acts| - 1, n)
  {
    var s, a := Exec(acts[..|acts| - 1]).value, acts[|acts| - 1];
    assert Exec(acts) == Apply(s, a);
    StepGrows(s, a);
    DiskStep(s, a);
    hide Inv, Exec, Apply;
  }

  /** A step moves the disk to the last stage of the group it puts there, or not at all. */
  lemma DiskStep(s: State, a: Action)
    requires Apply(s, a).Some?
    ensures Apply(s, a).value.onDisk ==
            if (a.Write? || (a.Fail? && a.reached)) && PcOf(s, a.t).Leading?
              then Last(PcOf(s, a.t).group).number else s.onDisk
    ensures a.Write? || a.Fail? ==> PcOf(s, a.t).Leading? && PcOf(s, a.t).group != []
  {
  }

  // ----- why a no is given -----

  /** Whoever writes a group waits for nothing past it. */
  ghost predicate LeadersWithin(pcs: map<nat, Pc>) {
    forall t | t in pcs && IsActive(pcs[t]) :: pcs[t].group != [] && TargetIn(pcs[t], Last(pcs[t].group).number)
  }

  /** Every failure seen, reported or marked is a step that failed its group. */
  ghost predicate FailuresHappened(acts: seq<Action>, s: State) {
    && (s.failure.Some? ==> FailedThrough(acts, s.failure.value))
    && (forall t | t in s.pcs && s.pcs[t].Written? && !s.pcs[t].ok && s.pcs[t].group != [] ::
          FailedThrough(acts, Last(s.pcs[t].group).number))
    && (forall t | t in s.pcs && s.pcs[t].Returned? && !s.pcs[t].ok && s.pcs[t].target.Some? ::
          FailedThrough(acts, s.pcs[t].target.value))
  }

  lemma FailedLess(acts: seq<Action>, n: nat, m: nat)
    requires FailedThrough(acts, n) && m <= n
    ensures FailedThrough(acts, m)
  {
    hide GroupAt;
    var i :| 0 <= i < |acts| && FailsAt(acts, i, n);
    assert FailsAt(acts, i, m);
  }

  lemma LeadersStep(s: State, a: Action)
    requires Inv(s) && LeadersWithin(s.pcs) && Apply(s, a).Some?
    ensures LeadersWithin(Apply(s, a).value.pcs)
  {
    if a.Check? {
      LeadersTurn(s, a.t);
    } else {
      hide Inv, Raise, OnDisk;
    }
  }

  lemma LeadersTurn(s: State, t: nat)
    requires Inv(s) && LeadersWithin(s.pcs) && PcOf(s, t).Driving?
    ensures LeadersWithin(Turn(s, t, PcOf(s, t).target).pcs)
  {
    hide Inv, Doomed, Satisfied, LeadersWithin;
    DrivingWithin(s, t);
    var s' := Turn(s, t, PcOf(s, t).target);
    if t in s'.pcs {
      LeadersPass(s.pcs, t, s'.pcs[t]);
    }
  }

  lemma LeadersPass(pcs: map<nat, Pc>, t: nat, pc: Pc)
    requires LeadersWithin(pcs) && (IsActive(pc) ==> pc.group != [] && TargetIn(pc, Last(pc.group).number))
    ensures LeadersWithin(pcs[t := pc])
  {
  }

  lemma DrivingWithin(s: State, t: nat)
    requires Inv(s) && PcOf(s, t).Driving?
    ensures s.pending != [] ==> TargetIn(PcOf(s, t), Last(s.pending).number)
  {
    hide OneLeader, DiskIsPrefix, WorldAt, WrittenIsThere, DurableHolds;
    if s.pending != [] {
      LastStage(s);
    }
    assert t in s.pcs && TargetIn(s.pcs[t], s.staged);
  }

  lemma LastStage(s: State)
    requires QueueInOrder(s) && s.pending != []
    ensures Last(s.pending).number == s.staged
  {
    hide WorldAt;
    assert s.pending[|s.pending| - 1] == s.stages[|s.stages| - 1];
  }

  lemma FailuresStep(acts: seq<Action>, s: State, a: Action)
    requires acts != [] && a == acts[|acts| - 1] && Exec(acts[..|acts| - 1]) == Some(s) && Apply(s, a).Some?
    requires LeadersWithin(s.pcs) && FailuresHappened(acts[..|acts| - 1], s)
    ensures FailuresHappened(acts, Apply(s, a).value)
  {
    hide Exec, LandsAt, FailsAt, FailedThrough, Turn, Settle, LeadersWithin;
    forall n: nat | FailedThrough(acts[..|acts| - 1], n) ensures FailedThrough(acts, n) {
      ReachedSnoc(acts, n);
    }
    MoreFailures(acts[..|acts| - 1], acts, s);
    match a
    case Check(t) => FailuresTurn(acts, s, t);
    case Fail(t, _) => FailIsFailure(acts, s, t);
    case Relock(t) => FailuresRelock(acts, s, t);
    case _ =>
  }

  lemma FailIsFailure(acts: seq<Action>, s: State, t: nat)
    requires acts != [] && acts[|acts| - 1].Fail? && acts[|acts| - 1].t == t && Exec(acts[..|acts| - 1]) == Some(s)
    requires PcOf(s, t).Leading? && PcOf(s, t).group != []
    ensures FailedThrough(acts, Last(PcOf(s, t).group).number)
  {
    ReachedSnoc(acts, Last(PcOf(s, t).group).number);
    assert FailsAt(acts, |acts| - 1, Last(PcOf(s, t).group).number);
    hide Exec, FailedThrough;
  }

  lemma MoreFailures(was: seq<Action>, acts: seq<Action>, s: State)
    requires FailuresHappened(was, s) && forall n: nat | FailedThrough(was, n) :: FailedThrough(acts, n)
    ensures FailuresHappened(acts, s)
  {
    hide FailedThrough;
  }

  lemma FailuresTurn(acts: seq<Action>, s: State, t: nat)
    requires FailuresHappened(acts, s) && PcOf(s, t).Driving?
    ensures FailuresHappened(acts, Turn(s, t, PcOf(s, t).target))
  {
    hide FailedThrough, Satisfied;
    var target := PcOf(s, t).target;
    if Doomed(s, target) && target.Some? {
      FailedLess(acts, s.failure.value, target.value);
    }
  }

  lemma FailuresRelock(acts: seq<Action>, s: State, t: nat)
    requires FailuresHappened(acts, s) && LeadersWithin(s.pcs) && PcOf(s, t).Written? && PcOf(s, t).group != []
    ensures FailuresHappened(acts, Settle(s, t, PcOf(s, t).target, PcOf(s, t).group, PcOf(s, t).ok))
  {
    hide FailedThrough, Raise;
    var pc := PcOf(s, t);
    assert t in s.pcs && IsActive(s.pcs[t]);
    if !pc.ok && pc.target.Some? {
      FailedLess(acts, Last(pc.group).number, pc.target.value);
    }
  }

  lemma {:induction false} FailuresOfRun(acts: seq<Action>)
    requires Exec(acts).Some?
    ensures LeadersWithin(Exec(acts).value.pcs) && FailuresHappened(acts, Exec(acts).value)
  {
    hide Inv, Apply, LeadersWithin, FailuresHappened;
    if acts == [] {
      NoFailures();
    } else {
      var was := acts[..|acts| - 1];
      FailuresOfRun(was);
      EveryRunKeeps(was);
      LeadersStep(Exec(was).value, acts[|acts| - 1]);
      FailuresStep(acts, Exec(was).value, acts[|acts| - 1]);
    }
  }

  lemma NoFailures()
    ensures LeadersWithin(FRESH.pcs) && FailuresHappened([], FRESH)
  {
  }

  /** **What a no means.** A commit told no was failed by a group that carried it or a
      later stage; and it is on disk all the same exactly when some group that carried
      it, or a later stage, reached disk. On disk, its branch stands at its edition or
      past it. */
  lemma NoMeans(acts: seq<Action>, t: nat, n: nat)
    requires Exec(acts).Some? && n > 0 && PcOf(Exec(acts).value, t) == Returned(Some(n), false)
    ensures FailedThrough(acts, n)
    ensures var s := Exec(acts).value;
      && (s.onDisk >= n <==> Reached(acts, n))
      && n <= |s.stages|
      && (s.onDisk >= n ==> s.stages[n - 1].edition <= EditionOf(s.disk, s.stages[n - 1].branch))
  {
    hide Exec, Apply, Reached, FailedThrough;
    FailuresOfRun(acts);
    OnDiskIff(acts, n);
    EveryRunKeeps(acts);
    var s := Exec(acts).value;
    assert t in s.pcs && TargetIn(s.pcs[t], s.staged);
    if s.onDisk >= n {
      assert EditionOf(WorldAt(s.stages, n), s.stages[n - 1].branch) <=
        EditionOf(WorldAt(s.stages, s.onDisk), s.stages[n - 1].branch);
    }
  }

  /** What a caller can see of it: when its branch is called durable at its edition, the
      commit is on disk, whatever it was told. */
  lemma DurableTells(acts: seq<Action>, b: nat, edition: nat)
    requires Exec(acts).Some?
    requires b in Exec(acts).value.durable && Exec(acts).value.durable[b] >= edition
    ensures EditionOf(Exec(acts).value.disk, b) >= edition
  {
    hide Exec, Apply, QueueInOrder, OneLeader;
    EveryRunKeeps(acts);
  }

  /** A group that fails may still have reached disk, here with the whole commit in it. */
  lemma NoMayStillBeDurable()
    ensures exists acts, t ::
      Exec(acts).Some? && PcOf(Exec(acts).value, t) == Returned(Some(1), false) && Exec(acts).value.onDisk >= 1
  {
    hide Exec;
    var w: World := FRESH.world[0 := Branch(1, 5)];
    var p := Pending(1, 0, 1, w);
    var s1 := FRESH.(world := w, staged := 1, pending := FRESH.pending + [p], stages := FRESH.stages + [p],
                     pcs := FRESH.pcs[7 := Driving(Some(1))]);
    var g := s1.pending;
    var s2 := s1.(pending := [], writing := true, pcs := s1.pcs[7 := Leading(Some(1), g)]);
    var s3 := s2.(disk := w, onDisk := 1, pcs := s2.pcs[7 := Written(Some(1), g, false)]);
    var s4 := s3.(writing := false, failure := Some(1), pcs := s3.pcs[7 := Returned(Some(1), false)]);
    assert Apply(FRESH, Stage(7, 0, Branch(1, 5))) == Some(s1);
    assert Apply(s1, Check(7)) == Some(s2);
    assert Apply(s2, Fail(7, true)) == Some(s3);
    assert Apply(s3, Relock(7)) == Some(s4);
    FourSteps(Stage(7, 0, Branch(1, 5)), Check(7), Fail(7, true), Relock(7), s1, s2, s3, s4);
    assert PcOf(s4, 7) == Returned(Some(1), false);
  }

  lemma FourSteps(a: Action, b: Action, c: Action, d: Action, s1: State, s2: State, s3: State, s4: State)
    requires Apply(FRESH, a) == Some(s1) && Apply(s1, b) == Some(s2) && Apply(s2, c) == Some(s3) &&
      Apply(s3, d) == Some(s4)
    ensures Exec([a, b, c, d]) == Some(s4)
  {
    hide Apply;
    assert [] + [a] == [a] && [a] + [b] == [a, b] && [a, b] + [c] == [a, b, c] && [a, b, c] + [d] == [a, b, c, d];
    NextStep([], FRESH, a);
    NextStep([a], s1, b);
    NextStep([a, b], s2, c);
    NextStep([a, b, c], s3, d);
  }

  lemma NextStep(acts: seq<Action>, s: State, a: Action)
    requires Exec(acts) == Some(s)
    ensures Exec(acts + [a]) == Apply(s, a)
  {
    hide Apply;
    assert (acts + [a])[..|acts + [a]| - 1] == acts;
  }

  const FIRST := Branch(1, 5)
  const SECOND := Branch(1, 6)

  /** A stage waited for by one thread and flushed by another, and then a later stage
      that fails before the first thread wakes. */
  function LateFailure(): seq<Action> {
    [Stage(9, 0, FIRST), Flush(7), Check(7), Stage(8, 1, SECOND), Write(7), Relock(7), Check(8), Fail(8, false),
      Relock(8), Check(9)]
  }

  const P1 := Pending(1, 0, 1, map[0 := FIRST])
  const P2 := Pending(2, 1, 1, map[0 := FIRST, 1 := SECOND])

  /** The states of that run. */
  function LateState(i: nat): State
    requires i <= 10
  {
    match i
    case 0 => FRESH
    case 1 => State(P1.world, [P1], 1, 0, map[], false, None, map[], map[9 := Driving(Some(1))], [P1], 0)
    case 2 => LateState(1).(pcs := LateState(1).pcs[7 := Driving(None)])
    case 3 => LateState(2).(pending := [], writing := true, pcs := LateState(2).pcs[7 := Leading(None, [P1])])
    case 4 => LateState(3).(world := P2.world, staged := 2, pending := [P2], stages := [P1, P2],
                            pcs := LateState(3).pcs[8 := Driving(Some(2))])
    case 5 => LateState(4).(disk := P1.world, onDisk := 1, pcs := LateState(4).pcs[7 := Written(None, [P1], true)])
    case 6 => LateState(5).(writing := false, landed := 1, durable := map[0 := 1],
      pcs := LateState(5).pcs[7 := Driving(None)])
    case 7 => LateState(6).(pending := [], writing := true, pcs := LateState(6).pcs[8 := Leading(Some(2), [P2])])
    case 8 => LateState(7).(pcs := LateState(7).pcs[8 := Written(Some(2), [P2], false)])
    case 9 => LateState(8).(writing := false, failure := Some(2),
      pcs := LateState(8).pcs[8 := Returned(Some(2), false)])
    case 10 => LateState(9).(pcs := LateState(9).pcs[9 := Returned(Some(1), false)])
  }

  /** The first stage is made and taken up by the flusher. */
  lemma FirstTaken(i: nat)
    requires i < 3
    ensures Apply(LateState(i), LateFailure()[i]) == Some(LateState(i + 1))
  {
    assert FRESH.world[0 := FIRST] == P1.world && FRESH.pending + [P1] == [P1] && FRESH.stages + [P1] == [P1];
    hide Settle, OnDisk;
  }

  /** The second is made, and the first lands. */
  /** The second is made, and the first lands. */
  /** The second is made. */
  lemma SecondStaged()
    ensures Apply(LateState(3), LateFailure()[3]) == Some(LateState(4))
  {
    var none: seq<Pending> := [];
    assert P1.world[1 := SECOND] == P2.world && none + [P2] == [P2] && [P1] + [P2] == [P1, P2];
    hide Turn, Raise, Settle, OnDisk;
  }

  lemma TakesWrite(s: State, t: nat, target: Option<nat>, g: seq<Pending>)
    requires PcOf(s, t) == Leading(target, g) && g != []
    ensures Apply(s, Write(t)) == Some(OnDisk(s, g).(pcs := s.pcs[t := Written(target, g, true)]))
    ensures Apply(s, Fail(t, false)) == Some(s.(pcs := s.pcs[t := Written(target, g, false)]))
  {
    hide OnDisk;
  }

  lemma TakesRelock(s: State, t: nat, target: Option<nat>, g: seq<Pending>, ok: bool)
    requires PcOf(s, t) == Written(target, g, ok) && g != []
    ensures Apply(s, Relock(t)) == Some(Settle(s, t, target, g, ok))
  {
    hide Settle;
  }

  /** The first is written, and lands. */
  lemma FirstLands(i: nat)
    requires 4 <= i < 6
    ensures Apply(LateState(i), LateFailure()[i]) == Some(LateState(i + 1))
  {
    hide Apply, Raise;
    if i == 4 {
      TakesWrite(LateState(4), 7, None, [P1]);
    } else {
      TakesRelock(LateState(5), 7, None, [P1], true);
      RaisedOnce(P1);
    }
  }

  /** The second is taken up. */
  lemma SecondTaken()
    ensures Apply(LateState(6), LateFailure()[6]) == Some(LateState(7))
  {
    hide Settle, StageIn, OnDisk;
  }

  /** The second fails. */
  lemma SecondFails(i: nat)
    requires 7 <= i < 9
    ensures Apply(LateState(i), LateFailure()[i]) == Some(LateState(i + 1))
  {
    hide Apply, Raise, OnDisk;
    if i == 7 {
      TakesWrite(LateState(7), 8, Some(2), [P2]);
    } else {
      TakesRelock(LateState(8), 8, Some(2), [P2], false);
    }
  }

  /** The first thread wakes. */
  lemma FirstWakes()
    ensures Apply(LateState(9), LateFailure()[9]) == Some(LateState(10))
  {
    FirstWaits();
    WokenState();
    assert LateFailure()[9] == Check(9);
    hide Apply, LateState, LateFailure;
    TakesNo(LateState(9), 9, Some(1));
  }

  lemma FirstWaits()
    ensures PcOf(LateState(9), 9) == Driving(Some(1))
  {
    assert PcOf(LateState(3), 9) == Driving(Some(1));
    assert PcOf(LateState(6), 9) == Driving(Some(1));
  }

  lemma WokenState()
    ensures Doomed(LateState(9), Some(1))
    ensures LateState(10) == LateState(9).(pcs := LateState(9).pcs[9 := Returned(Some(1), false)])
  {
  }

  lemma TakesNo(s: State, t: nat, target: Option<nat>)
    requires PcOf(s, t) == Driving(target) && Doomed(s, target)
    ensures Apply(s, Check(t)) == Some(s.(pcs := s.pcs[t := Returned(target, false)]))
  {
  }

  lemma LateStep(i: nat)
    requires i < 10
    ensures Apply(LateState(i), LateFailure()[i]) == Some(LateState(i + 1))
  {
    hide Apply, LateState, LateFailure;
    if i < 3 {
      FirstTaken(i);
    } else if i == 3 {
      SecondStaged();
    } else if i < 6 {
      FirstLands(i);
    } else if i == 6 {
      SecondTaken();
    } else if i < 9 {
      SecondFails(i);
    } else {
      FirstWakes();
    }
  }

  lemma {:induction false} LateRun(i: nat)
    requires i <= 10
    ensures Exec(LateFailure()[..i]) == Some(LateState(i))
  {
    hide Apply;
    if i > 0 {
      LateRun(i - 1);
      LateStep(i - 1);
      NextStep(LateFailure()[..i - 1], LateState(i - 1), LateFailure()[i - 1]);
      assert LateFailure()[..i] == LateFailure()[..i - 1] + [LateFailure()[i - 1]];
    }
  }

  /** The failure mark is read before the landed mark, and stays: a commit whose own
      group landed is told no when a later group fails before it wakes. */
  lemma LandedMayBeToldNo()
    ensures var s := Exec(LateFailure());
      s.Some? && s.value.landed >= 1 && s.value.onDisk >= 1 && PcOf(s.value, 9) == Returned(Some(1), false)
  {
    hide Exec;
    assert LateFailure()[..10] == LateFailure();
    hide LateFailure;
    LateRun(10);
  }

  lemma RaisedOnce(p: Pending)
    ensures Raise(map[], [p]) == map[p.branch := p.edition]
  {
    assert [p][..0] == [];
  }
}
