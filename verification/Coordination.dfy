/** The local election state of one replica (internal/storage/kafka/coordinator.go): the critical
    sections of Acquire, Release and the group callbacks, interleaved in every possible way. */
module Coordination {
  import opened Domain
  import opened Kafka

  /** What the coordinator and its store remember; an absent lease is Go's zero lease. */
  datatype Fields = Fields(isAssigned: bool, isReleased: bool, lease: Option<Lease>, storeLease: Option<Lease>)

  // ---- the critical sections ----

  function Assign(f: Fields, value: bool): (r: (Fields, Option<Lease>))
  {
    if value then (f.(isAssigned := true), None)
    else (f.(isAssigned := false, lease := None), f.lease)
  }

  function Settle(f: Fields, granted: Lease): (r: (Fields, bool))
  {
    if !f.isAssigned || f.isReleased then (f, false) else (f.(lease := Some(granted)), true)
  }

  datatype ReleaseAnswer = Already | NotHolder | Leaving

  function Leave(f: Fields, lease: Option<Lease>): (r: (Fields, ReleaseAnswer))
  {
    if f.isReleased then (f, Already)
    else if f.lease.Some? && f.lease != lease then (f, NotHolder)
    else (f.(isReleased := true), Leaving)
  }

  function Deactivate(f: Fields, lease: Lease): (r: Fields)
  {
    if f.storeLease == Some(lease) then f.(storeLease := None) else f
  }

  /** The field checks of Renew. */
  predicate Renewable(f: Fields, lease: Lease) {
    !f.isReleased && f.isAssigned && f.lease == Some(lease) && f.storeLease == Some(lease)
  }

  class Coordinator {
    var isAssigned: bool
    var isReleased: bool
    var lease: Option<Lease>
    var storeLease: Option<Lease>

    ghost function Now(): Fields
      reads this
    {
      Fields(isAssigned, isReleased, lease, storeLease)
    }

    constructor ()
      ensures Now() == Fields(false, false, None, None)
    {
      isAssigned, isReleased, lease, storeLease := false, false, None, None;
    }

    /** Returns the lease whose deactivation the callback still has to request. */
    method SetAssigned(value: bool) returns (stale: Option<Lease>)
      modifies this`isAssigned, this`lease
      ensures (Now(), stale) == Assign(old(Now()), value)
    {
      isAssigned := value;
      stale := None;
      if !value { stale, lease := lease, None; }
    }

    method SettleGrant(granted: Lease) returns (kept: bool)
      modifies this`lease
      ensures (Now(), kept) == Settle(old(Now()), granted)
    {
      if !isAssigned || isReleased { return false; }
      lease := Some(granted);
      kept := true;
    }

    method Release(held: Option<Lease>) returns (answer: ReleaseAnswer)
      modifies this`isReleased
      ensures (Now(), answer) == Leave(old(Now()), held)
    {
      if isReleased { return Already; }
      if lease.Some? && lease != held { return NotHolder; }
      isReleased := true;
      answer := Leaving;
    }

    method DeactivatePrimary(held: Lease)
      modifies this`storeLease
      ensures Now() == Deactivate(old(Now()), held)
    {
      if storeLease == Some(held) { storeLease := None; }
    }
  }

  // ---- interleavings ----

  /** Where the one Acquire call is; `Locked` and `Announced` hold the commit lock. */
  datatype Phase =
    | Outside
    | Chosen(holder: string)
    | Locked(holder: string)
    | Announced(holder: string, epoch: Uint64)
    | Granted(lease: Lease)
    | Rejecting(lease: Lease)

  /** `seen` is the newest primary epoch the store has consumed; `pending` holds the deactivations
      requested by callbacks and releases that have not run yet. */
  datatype Local = Local(f: Fields, seen: Uint64, phase: Phase, pending: multiset<Lease>)

  const START := Local(Fields(false, false, None, None), 0, Outside, multiset{})

  datatype Step =
    | Look(holder: string)          // one turn of Acquire's loop
    | TakeLock | Announce | Grant | Abort | SettleStep | Reject
    | Observe(epoch: Uint64)
    | Callback(isAssigned: bool)
    | ReleaseCall(held: Option<Lease>)
    | RunDeactivation(lease: Lease)

  predicate HoldsLock(p: Phase) { p.Locked? || p.Announced? }

  predicate Enabled(n: Local, step: Step) {
    match step
    case Look(holder) => n.phase.Outside? && holder != ""
    case TakeLock => n.phase.Chosen?
    case Announce => n.phase.Locked? && n.seen < MAX_UINT64
    case Grant => n.phase.Announced? && n.seen == n.phase.epoch
    case Abort => HoldsLock(n.phase)
    case SettleStep => n.phase.Granted?
    case Reject => n.phase.Rejecting?
    case Observe(epoch) => epoch >= n.seen
    case Callback(_) => true
    case ReleaseCall(_) => true
    case RunDeactivation(lease) => lease in n.pending && !HoldsLock(n.phase)
  }

  function Request(pending: multiset<Lease>, lease: Option<Lease>): (r: multiset<Lease>)
    ensures forall l :: l in r <==> l in pending || lease == Some(l)
  {
    if lease.Some? then pending + multiset{lease.value} else pending
  }

  function Done(pending: multiset<Lease>, lease: Lease): (r: multiset<Lease>)
    ensures forall l :: l in r ==> l in pending
    ensures forall l :: l in pending && l != lease ==> l in r
  {
    pending - multiset{lease}
  }

  function After(n: Local, step: Step): (r: Local)
    requires Enabled(n, step)
  {
    match step
    case Look(holder) =>
      var held := n.f.lease.Some? && n.f.lease.value.holder == holder && n.f.lease.value.epoch > 0;
      if n.f.isReleased || !n.f.isAssigned || held then n else n.(phase := Chosen(holder))
    case TakeLock => n.(phase := Locked(n.phase.holder))
    case Announce => n.(phase := Announced(n.phase.holder, n.seen + 1))
    case Grant =>
      var lease := Lease(n.phase.holder, n.phase.epoch);
      n.(f := n.f.(storeLease := Some(lease)), phase := Granted(lease))
    case Abort => n.(phase := Outside)
    case SettleStep =>
      var (f, kept) := Settle(n.f, n.phase.lease);
      n.(f := f, phase := if kept then Outside else Rejecting(n.phase.lease))
    case Reject => n.(f := Deactivate(n.f, n.phase.lease), phase := Outside)
    case Observe(epoch) => n.(seen := epoch)
    case Callback(isAssigned) =>
      var (f, stale) := Assign(n.f, isAssigned);
      n.(f := f, pending := Request(n.pending, stale))
    case ReleaseCall(lease) =>
      var (f, answer) := Leave(n.f, lease);
      n.(f := f, pending := if answer.Leaving? then Request(n.pending, lease) else n.pending)
    case RunDeactivation(lease) => n.(f := Deactivate(n.f, lease), pending := Done(n.pending, lease))
  }

  /** The coordinator stands behind this lease. */
  predicate Backed(f: Fields, lease: Lease) {
    f.isAssigned && !f.isReleased && f.lease == Some(lease)
  }

  ghost predicate LocalInv(n: Local) {
    && (!n.f.isAssigned ==> n.f.lease.None?)
    // the store's lease is backed, or its end is already on the way
    && (n.f.storeLease.Some? ==>
          var l := n.f.storeLease.value;
          Backed(n.f, l) || l in n.pending || n.phase == Granted(l) || n.phase == Rejecting(l))
    // until Release, the newest grant is in force and nobody has asked to end it
    && (!n.f.isReleased && n.phase.Granted? ==>
          n.f.storeLease == Some(n.phase.lease) && n.phase.lease !in n.pending)
    && (!n.f.isReleased && !n.phase.Granted? && n.f.lease.Some? ==> n.f.storeLease == n.f.lease)
    && (!n.f.isReleased && n.phase.Rejecting? ==> n.f.lease.None?)
    && (!n.f.isReleased && n.f.lease.Some? ==> n.f.lease.value !in n.pending)
    // every lease in play is older than the next one
    && (!n.f.isReleased ==> forall l :: l in n.pending ==> l.epoch <= n.seen)
    && (n.f.lease.Some? ==> n.f.lease.value.epoch <= n.seen)
    && (n.phase.Granted? ==> n.phase.lease.epoch <= n.seen)
    && (n.phase.Granted? ==> n.f.storeLease in {None, Some(n.phase.lease)})
    && (n.phase.Announced? && n.f.lease.Some? ==> n.f.lease.value.epoch < n.phase.epoch)
    && (n.phase.Announced? && !n.f.isReleased ==> forall l :: l in n.pending ==> l.epoch < n.phase.epoch)
    && (n.phase.Granted? && n.f.lease.Some? ==> n.f.lease.value.epoch < n.phase.lease.epoch)
  }

  lemma GrantKeepsLocalInv(n: Local, step: Step)
    requires LocalInv(n) && Enabled(n, step) && (step.Grant? || step.SettleStep? || step.Reject?)
    ensures LocalInv(After(n, step))
  {
  }

  lemma CallbackKeepsLocalInv(n: Local, value: bool)
    requires LocalInv(n)
    ensures LocalInv(After(n, Callback(value)))
  {
    hide Request;
  }

  lemma ReleaseKeepsLocalInv(n: Local, held: Option<Lease>)
    requires LocalInv(n)
    ensures LocalInv(After(n, ReleaseCall(held)))
  {
    hide Request;
  }

  lemma DeactivationKeepsLocalInv(n: Local, lease: Lease)
    requires LocalInv(n) && Enabled(n, RunDeactivation(lease))
    ensures LocalInv(After(n, RunDeactivation(lease)))
  {
    hide Done;
  }

  lemma StepKeepsLocalInv(n: Local, step: Step)
    requires LocalInv(n) && Enabled(n, step)
    ensures LocalInv(After(n, step))
  {
    match step {
      case Grant => GrantKeepsLocalInv(n, step);
      case SettleStep => GrantKeepsLocalInv(n, step);
      case Reject => GrantKeepsLocalInv(n, step);
      case Callback(value) => CallbackKeepsLocalInv(n, value);
      case ReleaseCall(held) => ReleaseKeepsLocalInv(n, held);
      case RunDeactivation(lease) => DeactivationKeepsLocalInv(n, lease);
      case _ =>
    }
  }

  ghost predicate IsRun(n: Local, steps: seq<Step>)
    decreases |steps|
  {
    steps != [] ==> Enabled(n, steps[0]) && IsRun(After(n, steps[0]), steps[1..])
  }

  ghost function Final(n: Local, steps: seq<Step>): Local
    requires IsRun(n, steps)
    decreases |steps|
  {
    if steps == [] then n else Final(After(n, steps[0]), steps[1..])
  }

  lemma {:induction false} RunKeepsLocalInv(n: Local, steps: seq<Step>)
    requires LocalInv(n) && IsRun(n, steps)
    ensures LocalInv(Final(n, steps))
    decreases |steps|
  {
    if steps != [] {
      StepKeepsLocalInv(n, steps[0]);
      RunKeepsLocalInv(After(n, steps[0]), steps[1..]);
    }
  }

  /** Whenever no call is in flight, the store may write exactly under the coordinator's lease while
      the partition is owned and nothing was released, and under none otherwise. */
  lemma QuiescentAgreement(steps: seq<Step>)
    requires IsRun(START, steps)
    requires Final(START, steps).phase.Outside? && Final(START, steps).pending == multiset{}
    ensures var f := Final(START, steps).f;
      f.storeLease == if f.isAssigned && !f.isReleased then f.lease else None
  {
    RunKeepsLocalInv(START, steps);
  }

  /** In every reachable state, running any requested deactivation leaves a lease that is settling or
      backed in force: it can only end an older lease. */
  lemma LateDeactivationIsHarmless(steps: seq<Step>, stale: Lease, current: Lease)
    requires IsRun(START, steps) && Enabled(Final(START, steps), RunDeactivation(stale))
    requires var n := Final(START, steps);
      !n.f.isReleased && n.f.storeLease == Some(current) && (Backed(n.f, current) || n.phase == Granted(current))
    ensures stale != current && After(Final(START, steps), RunDeactivation(stale)).f.storeLease == Some(current)
  {
    RunKeepsLocalInv(START, steps);
  }

  /** Outside a settling grant, a lease the coordinator still has passes the field checks of Renew. */
  lemma RenewedLeaseIsInForce(steps: seq<Step>, lease: Lease)
    requires IsRun(START, steps) && Final(START, steps).f.lease == Some(lease) && !Final(START, steps).f.isReleased
    requires !Final(START, steps).phase.Granted?
    ensures Renewable(Final(START, steps).f, lease)
  {
    RunKeepsLocalInv(START, steps);
  }

  /** An undisturbed election ends with a lease in force: the partition is owned, nothing was released,
      the announcement is read back, and the grant is kept. */
  lemma ElectionSucceeds(n: Local, holder: string)
    requires n.phase.Outside? && n.f.isAssigned && !n.f.isReleased && holder != "" && n.seen < MAX_UINT64
    requires n.f.lease.Some? ==> n.f.lease.value.holder != holder
    ensures var lease := Lease(holder, n.seen + 1);
            var steps := [Look(holder), TakeLock, Announce, Observe(n.seen + 1), Grant, SettleStep];
      && IsRun(n, steps)
      && Final(n, steps) == n.(f := n.f.(lease := Some(lease), storeLease := Some(lease)), seen := n.seen + 1)
      && Renewable(Final(n, steps).f, lease)
  {
    var a := After(n, Look(holder));
    var b := After(a, TakeLock);
    var c := After(b, Announce);
    var d := After(c, Observe(n.seen + 1));
    var e := After(d, Grant);
    var f := After(e, SettleStep);
    TakeStep(n, Look(holder), [TakeLock, Announce, Observe(n.seen + 1), Grant, SettleStep]);
    TakeStep(a, TakeLock, [Announce, Observe(n.seen + 1), Grant, SettleStep]);
    TakeStep(b, Announce, [Observe(n.seen + 1), Grant, SettleStep]);
    TakeStep(c, Observe(n.seen + 1), [Grant, SettleStep]);
    TakeStep(d, Grant, [SettleStep]);
    TakeStep(e, SettleStep, []);
    assert Final(f, []) == f;
  }

  lemma TakeStep(n: Local, step: Step, rest: seq<Step>)
    requires Enabled(n, step)
    ensures IsRun(n, [step] + rest) <==> IsRun(After(n, step), rest)
    ensures IsRun(After(n, step), rest) ==> Final(n, [step] + rest) == Final(After(n, step), rest)
  {
    assert ([step] + rest)[1..] == rest;
  }

  /** Once the partition is lost or the holder has released, no lease is renewed. */
  lemma LostLeaseIsNotRenewed(n: Local, held: Option<Lease>, lease: Lease)
    ensures !Renewable(After(n, Callback(false)).f, lease)
    ensures n.f.isReleased || n.f.lease.None? || n.f.lease == held ==>
      !Renewable(After(n, ReleaseCall(held)).f, lease)
  {
  }
}
