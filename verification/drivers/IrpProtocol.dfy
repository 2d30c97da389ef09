/** The kernel protocol automaton shared by the driver files under benchmarks/seahorn/bmc: the global state of one
    I/O request, the stubs that update it, and theorems about arbitrary sequences of stub calls. */
module IrpProtocol {
  const STATUS_SUCCESS := 0
  const STATUS_PENDING := 259
  const STATUS_UNSUCCESSFUL := -1073741823
  const STATUS_MORE_PROCESSING_REQUIRED := -1073741802
  const STATUS_NOT_SUPPORTED := -1073741637
  const STATUS_INSUFFICIENT_RESOURCES := -1073741670

  datatype Phase = UNLOADED | NP | DC | SKIP1 | SKIP2 | MPR1 | MPR3 | IPC

  /** The completion routine that a driver has registered: one that signals an event and asks for more processing,
      or one that inspects the request, possibly marks it pending, and returns the request's status. */
  datatype Routine = Signal | Inspect

  /** The globals of the driver files. `failed` records that `errorFn` has been called. */
  datatype Irp = Irp(s: Phase, pended: bool, compRegistered: bool, routine: Routine, lowerDriverReturn: int,
                     setEventCalled: bool, customIrp: bool, myStatus: int, failed: bool)

  /** The status returned by the lower driver, which the stubs choose among three. */
  datatype Reply = Succeed | Refuse | Pend

  function Code(reply: Reply): int {
    match reply
    case Succeed => STATUS_SUCCESS
    case Refuse => STATUS_UNSUCCESSFUL
    case Pend => STATUS_PENDING
  }

  function Fail(p: Irp): Irp {
    p.(failed := true)
  }

  /** `IoSkipCurrentIrpStackLocation`, as inlined in the drivers. */
  function Skipped(p: Irp): Irp {
    if p.s == NP then p.(s := SKIP1) else Fail(p)
  }

  /** `IoSetCompletionRoutine`, as inlined in the drivers. */
  function Registered(p: Irp, routine: Routine): Irp {
    if p.s != NP || p.compRegistered then Fail(p) else p.(compRegistered := true, routine := routine)
  }

  function Signalled(p: Irp): Irp {
    p.(setEventCalled := true)
  }

  function Pended(p: Irp): Irp {
    if p.pended then Fail(p) else p.(pended := true)
  }

  function MoreProcessing(p: Irp): Irp {
    if p.s == NP then p.(s := MPR1) else Fail(p)
  }

  /** The status returned by the registered completion routine. */
  function CompletionStatus(p: Irp): int {
    match p.routine
    case Signal => STATUS_MORE_PROCESSING_REQUIRED
    case Inspect => p.myStatus
  }

  /** The registered completion routine runs, and may hold the request back. */
  function CompletionRun(p: Irp, pendingReturned: bool): Irp {
    if !p.compRegistered then p
    else
      var q := match p.routine
               case Signal => Signalled(p)
               case Inspect => if pendingReturned then Pended(p) else p;
      if CompletionStatus(p) == STATUS_MORE_PROCESSING_REQUIRED then MoreProcessing(q) else q
  }

  /** The lower driver answers. */
  function Answered(p: Irp, reply: Reply): Irp {
    match p.s
    case NP => p.(s := IPC, lowerDriverReturn := Code(reply))
    case MPR1 => p.(s := if reply == Pend then MPR3 else NP, lowerDriverReturn := Code(reply))
    case SKIP1 => p.(s := SKIP2, lowerDriverReturn := Code(reply))
    case _ => Fail(p)
  }

  /** `IofCallDriver` and `PoCallDriver`. */
  function CalledDown(p: Irp, reply: Reply, pendingReturned: bool): Irp {
    Answered(CompletionRun(p, pendingReturned), reply)
  }

  /** `IofCompleteRequest`. */
  function Completed(p: Irp): Irp {
    if p.s == NP then p.(s := DC) else Fail(p)
  }

  /** `KeWaitForSingleObject`. */
  function Waited(p: Irp): Irp {
    if p.s == MPR3 && p.setEventCalled then p.(s := NP, setEventCalled := false)
    else if p.customIrp then p.(s := NP, customIrp := false)
    else if p.s == MPR3 then Fail(p)
    else p
  }

  /** The calls a driver can make. */
  datatype Op =
    | Skip
    | Register(routine: Routine)
    | CallDown(reply: Reply, pendingReturned: bool)
    | Complete
    | SetEvent
    | Wait
    | BuildCustomIrp
    | MarkPending
    | SetStatus(status: int)

  function Apply(p: Irp, op: Op): Irp {
    match op
    case Skip => Skipped(p)
    case Register(routine) => Registered(p, routine)
    case CallDown(reply, pendingReturned) => CalledDown(p, reply, pendingReturned)
    case Complete => Completed(p)
    case SetEvent => Signalled(p)
    case Wait => Waited(p)
    case BuildCustomIrp => p.(customIrp := true)
    case MarkPending => Pended(p)
    case SetStatus(status) => p.(myStatus := status)
  }

  /** The state after the first `i` calls. */
  function After(p: Irp, ops: seq<Op>, i: nat): Irp
    requires i <= |ops|
  {
    if i == 0 then p else Apply(After(p, ops, i - 1), ops[i - 1])
  }

  /** The state in which a dispatch routine receives its request. */
  predicate Fresh(p: Irp) {
    p.s == NP && !p.pended && !p.compRegistered && p.lowerDriverReturn == 0 && !p.setEventCalled && !p.customIrp &&
    (p.myStatus == 0 || p.myStatus == STATUS_NOT_SUPPORTED) && !p.failed
  }

  /** The request has been completed, or handed down for good. */
  predicate Final(p: Irp) {
    p.s == DC || p.s == SKIP2 || p.s == IPC
  }

  /** The completion routine holds the request back. */
  predicate HeldBack(p: Irp) {
    p.s == MPR1 || p.s == MPR3
  }

  /** How often the first `i` calls completed the request or handed it down. */
  function Finals(p: Irp, ops: seq<Op>, i: nat): nat
    requires i <= |ops|
  {
    if i == 0 then 0
    else
      Finals(p, ops, i - 1) +
      if (ops[i - 1].Complete? || ops[i - 1].CallDown?) && Final(After(p, ops, i)) then 1 else 0
  }

  /** How often a wait on a custom request brought a finished request back to life. */
  function Revivals(p: Irp, ops: seq<Op>, i: nat): nat
    requires i <= |ops|
  {
    if i == 0 then 0
    else
      Revivals(p, ops, i - 1) +
      if ops[i - 1].Wait? && Final(After(p, ops, i - 1)) && After(p, ops, i - 1).customIrp then 1 else 0
  }

  /** The run lemmas below reason about one call at a time, through the facts collected here. */
  lemma StepFacts(p: Irp, op: Op, q: Irp)
    requires q == Apply(p, op)
    ensures p.failed ==> q.failed
    ensures !q.failed && Final(p) ==>
              !op.Complete? && !op.CallDown? && (if op.Wait? && p.customIrp then q.s == NP else q.s == p.s)
    ensures !q.failed && !Final(p) && Final(q) ==> op.Complete? || op.CallDown?
    ensures !q.failed && p.s == MPR3 && !op.Wait? ==> q.s == MPR3
    ensures q.customIrp ==> p.customIrp || op.BuildCustomIrp?
  {
    if op.CallDown? {
      CallDownFacts(p, op.reply, op.pendingReturned, q);
    }
  }

  lemma CompletionFacts(p: Irp, pendingReturned: bool, c: Irp)
    requires c == CompletionRun(p, pendingReturned)
    ensures p.failed ==> c.failed
    ensures c.customIrp == p.customIrp
    ensures c.s == p.s || (p.s == NP && c.s == MPR1 && CompletionStatus(p) == STATUS_MORE_PROCESSING_REQUIRED)
    ensures p.setEventCalled || (c.s != p.s && p.routine == Signal) ==> c.setEventCalled
  {
  }

  lemma AnswerFacts(c: Irp, reply: Reply, q: Irp)
    requires q == Answered(c, reply)
    ensures c.failed ==> q.failed
    ensures q.customIrp == c.customIrp && q.setEventCalled == c.setEventCalled
    ensures !q.failed ==> c.s == NP || c.s == MPR1 || c.s == SKIP1
    ensures HeldBack(q) ==> HeldBack(c)
  {
  }

  lemma CallDownFacts(p: Irp, reply: Reply, pendingReturned: bool, q: Irp)
    requires q == CalledDown(p, reply, pendingReturned)
    ensures p.failed ==> q.failed
    ensures q.customIrp == p.customIrp
    ensures !q.failed ==> !Final(p) && p.s != MPR3
    ensures (HeldBack(p) ==> p.setEventCalled) && HeldBack(q) ==>
              q.setEventCalled || (p.routine == Inspect && p.myStatus == STATUS_MORE_PROCESSING_REQUIRED)
  {
    var c := CompletionRun(p, pendingReturned);
    CompletionFacts(p, pendingReturned, c);
    AnswerFacts(c, reply, q);
  }

  /** The completion routine that runs when the request goes down asks to hold it back. */
  predicate Holds(p: Irp) {
    p.compRegistered && (p.routine == Signal || p.myStatus == STATUS_MORE_PROCESSING_REQUIRED)
  }

  lemma CompletionTable(p: Irp, pendingReturned: bool)
    requires !p.failed
    ensures CompletionRun(p, pendingReturned).failed <==>
              (Holds(p) && p.s != NP) || (p.compRegistered && p.routine == Inspect && pendingReturned && p.pended)
    ensures !CompletionRun(p, pendingReturned).failed ==>
              CompletionRun(p, pendingReturned) ==
                p.(s := if Holds(p) then MPR1 else p.s,
                   setEventCalled := p.setEventCalled || (p.compRegistered && p.routine == Signal),
                   pended := p.pended || (p.compRegistered && p.routine == Inspect && pendingReturned))
  {
  }

  lemma AnswerTable(c: Irp, reply: Reply)
    ensures Answered(c, reply).failed <==> c.failed || (c.s != NP && c.s != SKIP1 && c.s != MPR1)
    ensures !Answered(c, reply).failed ==>
              Answered(c, reply) ==
                c.(s := if c.s == MPR1 then (if reply == Pend then MPR3 else NP) else if c.s == SKIP1 then SKIP2 else IPC,
                   lowerDriverReturn := Code(reply))
  {
  }

  lemma CallDownTable(p: Irp, reply: Reply, pendingReturned: bool)
    requires !p.failed
    ensures CalledDown(p, reply, pendingReturned).failed <==>
              (p.s != NP && p.s != SKIP1 && p.s != MPR1) || (Holds(p) && p.s != NP) ||
              (p.compRegistered && p.routine == Inspect && pendingReturned && p.pended)
    ensures !CalledDown(p, reply, pendingReturned).failed ==>
              CalledDown(p, reply, pendingReturned) ==
                p.(s := if Holds(p) || p.s == MPR1 then (if reply == Pend then MPR3 else NP)
                        else if p.s == SKIP1 then SKIP2 else IPC,
                   lowerDriverReturn := Code(reply),
                   setEventCalled := p.setEventCalled || (p.compRegistered && p.routine == Signal),
                   pended := p.pended || (p.compRegistered && p.routine == Inspect && pendingReturned))
  {
    CompletionTable(p, pendingReturned);
    AnswerTable(CompletionRun(p, pendingReturned), reply);
  }

  /** Exactly which calls err. */
  lemma ErrsIff(p: Irp, op: Op)
    requires !p.failed
    ensures Apply(p, op).failed <==>
              match op
              case Skip => p.s != NP
              case Register(_) => p.s != NP || p.compRegistered
              case CallDown(_, pendingReturned) =>
                (p.s != NP && p.s != SKIP1 && p.s != MPR1) || (Holds(p) && p.s != NP) ||
                (p.compRegistered && p.routine == Inspect && pendingReturned && p.pended)
              case Complete => p.s != NP
              case Wait => p.s == MPR3 && !p.setEventCalled && !p.customIrp
              case MarkPending => p.pended
              case _ => false
  {
    if op.CallDown? { CallDownTable(p, op.reply, op.pendingReturned); }
  }

  /** And what a call does that does not err. */
  lemma LegalCallDoes(p: Irp, op: Op)
    requires !p.failed && !Apply(p, op).failed
    ensures Apply(p, op) ==
              match op
              case Skip => p.(s := SKIP1)
              case Register(routine) => p.(compRegistered := true, routine := routine)
              case CallDown(reply, pendingReturned) =>
                p.(s := if Holds(p) || p.s == MPR1 then (if reply == Pend then MPR3 else NP)
                        else if p.s == SKIP1 then SKIP2 else IPC,
                   lowerDriverReturn := Code(reply),
                   setEventCalled := p.setEventCalled || (p.compRegistered && p.routine == Signal),
                   pended := p.pended || (p.compRegistered && p.routine == Inspect && pendingReturned))
              case Complete => p.(s := DC)
              case SetEvent => p.(setEventCalled := true)
              case Wait =>
                if p.s == MPR3 && p.setEventCalled then p.(s := NP, setEventCalled := false)
                else if p.customIrp then p.(s := NP, customIrp := false)
                else p
              case BuildCustomIrp => p.(customIrp := true)
              case MarkPending => p.(pended := true)
              case SetStatus(status) => p.(myStatus := status)
  {
    if op.CallDown? { CallDownTable(p, op.reply, op.pendingReturned); }
  }

  lemma StepKeepsSignal(p: Irp, op: Op, q: Irp)
    requires q == Apply(p, op)
    requires HeldBack(p) ==> p.setEventCalled
    requires op.CallDown? && p.routine == Inspect ==> p.myStatus != STATUS_MORE_PROCESSING_REQUIRED
    ensures HeldBack(q) ==> q.setEventCalled
    ensures op.Wait? ==> q.failed == p.failed
  {
    if op.CallDown? {
      CallDownFacts(p, op.reply, op.pendingReturned, q);
    }
  }

  lemma {:induction false} FailedStays(p: Irp, ops: seq<Op>, i: nat, j: nat)
    requires i <= j <= |ops| && After(p, ops, i).failed
    ensures After(p, ops, j).failed
    decreases j
  {
    if i < j {
      FailedStays(p, ops, i, j - 1);
      StepFacts(After(p, ops, j - 1), ops[j - 1], After(p, ops, j));
    }
  }

  /** Conservation: in every error-free run each completion or final hand-down but the last is undone by a wait on a
      custom request. */
  lemma {:induction false} FinalsAreConserved(p: Irp, ops: seq<Op>, i: nat)
    requires i <= |ops| && !Final(p)
    requires !After(p, ops, i).failed
    ensures Finals(p, ops, i) == Revivals(p, ops, i) + if Final(After(p, ops, i)) then 1 else 0
    decreases i
  {
    if i > 0 {
      StepFacts(After(p, ops, i - 1), ops[i - 1], After(p, ops, i));
      FinalsAreConserved(p, ops, i - 1);
    }
  }

  ghost predicate NoCustom(ops: seq<Op>, i: nat)
    requires i <= |ops|
  {
    forall k :: 0 <= k < i ==> !ops[k].BuildCustomIrp?
  }

  lemma {:induction false} NoCustomNoRevival(p: Irp, ops: seq<Op>, i: nat)
    requires i <= |ops| && !p.customIrp && NoCustom(ops, i)
    ensures !After(p, ops, i).customIrp && Revivals(p, ops, i) == 0
    decreases i
  {
    if i > 0 {
      NoCustomNoRevival(p, ops, i - 1);
      StepFacts(After(p, ops, i - 1), ops[i - 1], After(p, ops, i));
    }
  }

  /** At most once: without custom requests, an error-free run completes or hands down the request at most once. */
  lemma AtMostOnce(p: Irp, ops: seq<Op>, i: nat)
    requires i <= |ops| && !Final(p) && !p.customIrp && NoCustom(ops, i)
    requires !After(p, ops, i).failed
    ensures Finals(p, ops, i) == (if Final(After(p, ops, i)) then 1 else 0)
  {
    NoCustomNoRevival(p, ops, i);
    FinalsAreConserved(p, ops, i);
  }

  /** A finished request is left only by an error or by a wait on a custom request. */
  lemma FinalLeftIffRevived(p: Irp, op: Op)
    requires Final(p) && !Apply(p, op).failed
    ensures Apply(p, op).s != p.s <==> op == Wait && p.customIrp
  {
    StepFacts(p, op, Apply(p, op));
  }

  /** From any final phase on, an error-free run without custom requests never leaves it. */
  lemma {:induction false} FinalIsForever(p: Irp, ops: seq<Op>, i: nat)
    requires i <= |ops| && Final(p) && !p.customIrp && NoCustom(ops, i) && !After(p, ops, i).failed
    ensures After(p, ops, i).s == p.s
    decreases i
  {
    if i > 0 {
      StepFacts(After(p, ops, i - 1), ops[i - 1], After(p, ops, i));
      FinalIsForever(p, ops, i - 1);
      NoCustomNoRevival(p, ops, i - 1);
    }
  }

  /** The restriction to runs without custom requests is needed: with one, a request can be completed twice. */
  lemma CustomIrpCompletesTwice(p: Irp)
    requires Fresh(p)
    ensures var ops := [BuildCustomIrp, Complete, Wait, Complete];
            !After(p, ops, 4).failed && Finals(p, ops, 4) == 2
  {
    var ops := [BuildCustomIrp, Complete, Wait, Complete];
    assert After(p, ops, 0) == p;
    assert After(p, ops, 1) == p.(customIrp := true);
    assert After(p, ops, 2) == p.(customIrp := true, s := DC);
    assert After(p, ops, 3) == p;
    assert After(p, ops, 4) == p.(s := DC);
    assert Finals(p, ops, 0) == 0;
    assert Finals(p, ops, 1) == 0;
    assert Finals(p, ops, 2) == 1;
    assert Finals(p, ops, 3) == 1;
  }

  /** The inspecting routine never asks for more processing in the first `i` calls. */
  ghost predicate InspectsHonestly(p: Irp, ops: seq<Op>, i: nat)
    requires i <= |ops|
  {
    forall j :: 0 <= j < i && ops[j].CallDown? && After(p, ops, j).routine == Inspect ==>
      After(p, ops, j).myStatus != STATUS_MORE_PROCESSING_REQUIRED
  }

  /** Wait safety: whoever holds the request back has signalled its event, so no wait ever errs, custom requests or not. */
  lemma {:induction false} HeldBackIsSignalled(p: Irp, ops: seq<Op>, i: nat)
    requires i <= |ops| && !HeldBack(p) && InspectsHonestly(p, ops, i)
    ensures HeldBack(After(p, ops, i)) ==> After(p, ops, i).setEventCalled
    ensures i > 0 && ops[i - 1] == Wait && !After(p, ops, i - 1).failed ==> !After(p, ops, i).failed
    decreases i
  {
    if i > 0 {
      HeldBackIsSignalled(p, ops, i - 1);
      StepKeepsSignal(After(p, ops, i - 1), ops[i - 1], After(p, ops, i));
    }
  }

  /** The honesty is needed, and exactly that: a fresh request that goes down with the inspecting routine and is then
      waited for errs in the wait if and only if that routine asks for more processing and the answer is pending. */
  lemma InspectedWaitErrsIff(p: Irp, status: int, reply: Reply, pendingReturned: bool)
    requires Fresh(p)
    ensures var ops := [Register(Inspect), SetStatus(status), CallDown(reply, pendingReturned), Wait];
            !After(p, ops, 3).failed &&
            (After(p, ops, 4).failed <==> status == STATUS_MORE_PROCESSING_REQUIRED && reply == Pend) &&
            (After(p, ops, 4).failed ==> !InspectsHonestly(p, ops, 4))
  {
    var ops := [Register(Inspect), SetStatus(status), CallDown(reply, pendingReturned), Wait];
    assert After(p, ops, 0) == p;
    assert After(p, ops, 1) == p.(compRegistered := true, routine := Inspect);
    assert After(p, ops, 2) == p.(compRegistered := true, routine := Inspect, myStatus := status);
    assert After(p, ops, 3) == CalledDown(After(p, ops, 2), reply, pendingReturned);
    assert After(p, ops, 4) == Waited(After(p, ops, 3));
  }

  /** Synchronisation: from a pending answer to a held-back request on, an error-free run does nothing else
      to the request until it waits. */
  lemma {:induction false} PendingMustBeWaitedFor(p: Irp, ops: seq<Op>, i: nat)
    requires i <= |ops| && p.s == MPR3 && !After(p, ops, i).failed
    requires forall k :: 0 <= k < i ==> !ops[k].Wait?
    ensures After(p, ops, i).s == MPR3
    decreases i
  {
    if i > 0 {
      StepFacts(After(p, ops, i - 1), ops[i - 1], After(p, ops, i));
      PendingMustBeWaitedFor(p, ops, i - 1);
    }
  }

  /** Sending the request down with a signalling completion routine, and waiting if the answer is pending. */
  function ForwardedAndWaited(p: Irp, reply: Reply, pendingReturned: bool): Irp {
    var q := CalledDown(Registered(p, Signal), reply, pendingReturned);
    if reply == Pend then Waited(q) else q
  }

  /** The request always comes back from such a call, whatever the lower driver answers. */
  lemma ForwardComesBack(p: Irp, reply: Reply, pendingReturned: bool)
    requires p.s == NP && !p.compRegistered
    ensures ForwardedAndWaited(p, reply, pendingReturned) ==
              p.(compRegistered := true, routine := Signal, lowerDriverReturn := Code(reply), setEventCalled := reply != Pend)
  {
    var registered := p.(compRegistered := true, routine := Signal);
    var held := registered.(s := MPR1, setEventCalled := true);
    assert Registered(p, Signal) == registered;
    assert CompletionRun(registered, pendingReturned) == held;
    assert Answered(held, reply) == held.(s := if reply == Pend then MPR3 else NP, lowerDriverReturn := Code(reply));
  }

  /** What the final check in `main` insists on. The files differ in which of these four conditions are errors:
      a request in no final phase, a pended request whose status is not pending, a completed request whose status is
      pending, and a handed-down request whose status is not the lower driver's. */
  datatype Check = Check(otherPhase: bool, pendedStatus: bool, completedPending: bool, handedDownStatus: bool)

  /** How a driver leaves a request: its phase, whether it is pended, what is returned for it, and its own status. */
  datatype Ending = Ending(phase: Phase, pended: bool, status: int, irpStatus: int)

  /** How often the request was completed or handed down, and how often a wait on a custom request brought it back to life,
      as `Finals` and `Revivals` count for a sequence of calls. */
  datatype Tally = Tally(finals: nat, revivals: nat)

  function Finished(t: Tally): Tally {
    t.(finals := t.finals + 1)
  }

  /** What a driver does towards the lower driver: it builds a request of its own, or sends one down and gets an answer. */
  datatype Downward = Built(irp: int) | SentDown(reply: Reply)

  /** The globals as the C files keep them, and the stubs that update them. The ghost fields record what goes down
      and how often the request is finished and revived. */
  class Kernel {
    var s: Phase
    var pended: bool
    var compRegistered: bool
    var routine: Routine
    var lowerDriverReturn: int
    var setEventCalled: bool
    var customIrp: bool
    var myStatus: int
    var failed: bool
    ghost var downward: seq<Downward>
    ghost var tally: Tally

    ghost function View(): Irp
      reads this
    {
      Irp(s, pended, compRegistered, routine, lowerDriverReturn, setEventCalled, customIrp, myStatus, failed)
    }

    /** The loading phase of every `main`: `_BLAST_init`, the assignments after it, and `stub_driver_init`.
        With a negative load status the driver stays unloaded. */
    constructor Load(status: int, notSupported: bool)
      ensures status >= 0 ==> Fresh(View()) && myStatus == (if notSupported then STATUS_NOT_SUPPORTED else 0)
      ensures status < 0 ==> s == UNLOADED && !pended && !failed
      ensures downward == [] && tally == Tally(0, 0)
    {
      downward, tally := [], Tally(0, 0);
      s := UNLOADED;
      pended, compRegistered, lowerDriverReturn, setEventCalled, customIrp := false, false, 0, false, false;
      routine, myStatus, failed := Signal, 0, false;
      if status >= 0 {
        s := NP;
        if notSupported {
          myStatus := STATUS_NOT_SUPPORTED;
        }
      }
    }

    /** `errorFn` does not return in the C files. Here it sets a flag that is never cleared, and goes on. */
    method ErrorFn()
      modifies this`failed
      ensures View() == Fail(old(View()))
    {
      failed := true;
    }

    method SkipLocation()
      modifies this`s, this`failed
      ensures View() == Skipped(old(View()))
    {
      if s == NP { s := SKIP1; } else { ErrorFn(); }
    }

    method RegisterCompletion(r: Routine)
      modifies this`compRegistered, this`routine, this`failed
      ensures View() == Registered(old(View()), r)
    {
      if s != NP {
        ErrorFn();
      } else if compRegistered {
        ErrorFn();
      } else {
        compRegistered := true;
        routine := r;
      }
    }

    method StubMoreProcessingRequired()
      modifies this`s, this`failed
      ensures View() == MoreProcessing(old(View()))
    {
      if s == NP { s := MPR1; } else { ErrorFn(); }
    }

    method KeSetEvent()
      modifies this`setEventCalled
      ensures View() == Signalled(old(View()))
    {
      setEventCalled := true;
    }

    method MarkPended()
      modifies this`pended, this`failed
      ensures View() == Pended(old(View()))
    {
      if !pended { pended := true; } else { ErrorFn(); }
    }

    /** The completion routine that only signals its event. */
    method SignalCompletion() returns (status: int)
      modifies this`setEventCalled
      ensures View() == Signalled(old(View())) && status == STATUS_MORE_PROCESSING_REQUIRED
    {
      KeSetEvent();
      return STATUS_MORE_PROCESSING_REQUIRED;
    }

    /** `HPCdrCompletion`. */
    method InspectCompletion(pendingReturned: bool) returns (status: int)
      modifies this`pended, this`failed
      ensures View() == (if pendingReturned then Pended(old(View())) else old(View())) && status == myStatus
    {
      if pendingReturned { MarkPended(); }
      return myStatus;
    }

    /** The first half of `IofCallDriver`. */
    method RunCompletion(pendingReturned: bool)
      modifies this`s, this`pended, this`setEventCalled, this`failed
      ensures View() == CompletionRun(old(View()), pendingReturned)
    {
      if compRegistered {
        var compRetStatus;
        if routine == Inspect {
          compRetStatus := InspectCompletion(pendingReturned);
        } else {
          compRetStatus := SignalCompletion();
        }
        if compRetStatus == STATUS_MORE_PROCESSING_REQUIRED {
          StubMoreProcessingRequired();
        }
      }
    }

    /** The second half, which counts a final hand-down. */
    method Answer(reply: Reply) returns (status: int)
      modifies this`s, this`lowerDriverReturn, this`failed, this`tally
      ensures View() == Answered(old(View()), reply) && status == Code(reply)
      ensures tally == if Final(View()) then Finished(old(tally)) else old(tally)
    {
      status := Code(reply);
      if s == NP {
        s := IPC;
        lowerDriverReturn := status;
      } else if s == MPR1 {
        if status == STATUS_PENDING { s := MPR3; } else { s := NP; }
        lowerDriverReturn := status;
      } else if s == SKIP1 {
        s := SKIP2;
        lowerDriverReturn := status;
      } else {
        ErrorFn();
      }
      if Final(View()) { tally := Finished(tally); }
    }

    /** `IofCallDriver` and `PoCallDriver`. */
    method CallDriver(reply: Reply, pendingReturned: bool) returns (status: int)
      modifies this
      ensures View() == CalledDown(old(View()), reply, pendingReturned) && status == Code(reply)
      ensures downward == old(downward) + [SentDown(reply)]
      ensures tally == if Final(View()) then Finished(old(tally)) else old(tally)
    {
      downward := downward + [SentDown(reply)];
      RunCompletion(pendingReturned);
      status := Answer(reply);
    }

    method CompleteRequest()
      modifies this`s, this`failed, this`tally
      ensures View() == Completed(old(View()))
      ensures tally == if Final(View()) then Finished(old(tally)) else old(tally)
    {
      if s == NP { s := DC; } else { ErrorFn(); }
      if Final(View()) { tally := Finished(tally); }
    }

    method KeWait()
      modifies this`s, this`setEventCalled, this`customIrp, this`failed, this`tally
      ensures View() == Waited(old(View()))
      ensures tally == if Final(old(View())) && old(customIrp) then old(tally).(revivals := old(tally).revivals + 1)
                       else old(tally)
    {
      if Final(View()) && customIrp { tally := tally.(revivals := tally.revivals + 1); }
      if s == MPR3 && setEventCalled {
        s := NP;
        setEventCalled := false;
      } else if customIrp {
        s := NP;
        customIrp := false;
      } else if s == MPR3 {
        ErrorFn();
      }
    }

    /** The statements with which the drivers send a request down synchronously. It comes back, neither finished nor
        revived. */
    method ForwardAndWait(reply: Reply) returns (status: int)
      modifies this
      ensures old(s) == NP && !old(compRegistered) ==>
                View() == old(View()).(compRegistered := true, routine := Signal, lowerDriverReturn := Code(reply),
                                       setEventCalled := reply != Pend) &&
                tally == old(tally)
      ensures status == Code(reply) && downward == old(downward) + [SentDown(reply)]
    {
      RegisterCompletion(Signal);
      status := CallDriver(reply, false);
      if status == STATUS_PENDING { KeWait(); }
      if old(s) == NP && !old(compRegistered) {
        ForwardComesBack(old(View()), reply, false);
      }
    }

    /** `IoBuildDeviceIoControlRequest`: the request it returns may be null. */
    method BuildCustomIrp(ndIrp: int) returns (irp: int)
      modifies this`customIrp, this`downward
      ensures View() == old(View()).(customIrp := true) && irp == ndIrp
      ensures downward == old(downward) + [Built(irp)]
    {
      downward := downward + [Built(ndIrp)];
      customIrp := true;
      return ndIrp;
    }

    /** The end of every `main`. */
    method FinalCheck(check: Check, status: int)
      modifies this`failed
      ensures unchanged(this) || View() == Fail(old(View()))
      ensures failed <==>
                old(failed) ||
                (s != UNLOADED && status != -1 && !(pended && (s == NP || s == MPR3)) &&
                 if s != DC && s != SKIP2 && s != IPC then check.otherPhase
                 else if pended then check.pendedStatus && status != STATUS_PENDING
                 else if s == DC then check.completedPending && status == STATUS_PENDING
                 else check.handedDownStatus && status != lowerDriverReturn)
    {
      if pended && (s == NP || s == MPR3) {
      } else if s != UNLOADED && status != -1 {
        if s != SKIP2 && s != IPC && s != DC {
          if check.otherPhase { ErrorFn(); }
        } else if pended {
          if check.pendedStatus && status != STATUS_PENDING { ErrorFn(); }
        } else if s == DC {
          if check.completedPending && status == STATUS_PENDING { ErrorFn(); }
        } else if check.handedDownStatus && status != lowerDriverReturn {
          ErrorFn();
        }
      }
    }
  }
}
