/** The keyboard filter driver of benchmarks/seahorn/bmc/kbfiltr_simpl2_{true,false}-*.cil.c. */
module KbFilter {
  import opened IrpProtocol

  /** The values that the dispatch routines read nondeterministically, as far as they reach the protocol state. */
  datatype Request =
    | CreateClose(major: int, classService: int)
    | PnP(minor: int)
    | Power(minor: int)
    | InternIoCtl(code: int, connect: int, disconnect: int, hook: int,
                  classService: int, inputLength: int, connectSize: int, hookSize: int)
    | Other

  /** The request was skipped and handed down: nothing but the phase and the lower driver's answer changes. */
  ghost predicate HandedDown(before: Irp, after: Irp, reply: Reply) {
    after == before.(s := SKIP2, lowerDriverReturn := Code(reply))
  }

  method DispatchPassThrough(k: Kernel, reply: Reply) returns (status: int)
    modifies k
    ensures old(k.s) == NP && !old(k.compRegistered) ==>
              HandedDown(old(k.View()), k.View(), reply) && k.tally == Finished(old(k.tally))
    ensures status == Code(reply)
  {
    k.SkipLocation();
    status := k.CallDriver(reply, false);
  }

  /** `KbFilter_CreateClose`: the status of the request may change before it is handed down. */
  method DispatchCreateClose(k: Kernel, major: int, classService: int, reply: Reply) returns (status: int)
    modifies k
    ensures Fresh(old(k.View())) ==>
              var st := if major == 0 && classService == 0 then -1073741436 else old(k.myStatus);
              HandedDown(old(k.View()).(myStatus := st), k.View(), reply) && k.tally == Finished(old(k.tally))
    ensures status == Code(reply)
  {
    var st := k.myStatus;
    if major == 0 {
      if classService == 0 { st := -1073741436; }
    }
    k.myStatus := st;
    status := DispatchPassThrough(k, reply);
  }

  /** `KbFilter_PnP`: a start request is sent down synchronously and then completed with the lower driver's answer;
      every other request is handed down, a remove request with status 0 whatever the answer. */
  method DispatchPnP(k: Kernel, minor: int, reply: Reply) returns (status: int)
    modifies k
    ensures Fresh(old(k.View())) && minor == 0 ==>
              k.View() == old(k.View()).(s := DC, compRegistered := true, routine := Signal, myStatus := Code(reply),
                                         lowerDriverReturn := Code(reply), setEventCalled := reply != Pend)
    ensures Fresh(old(k.View())) && minor != 0 ==> HandedDown(old(k.View()), k.View(), reply)
    ensures Fresh(old(k.View())) ==> k.tally == Finished(old(k.tally))
    ensures status == if minor == 2 then 0 else Code(reply)
  {
    status := 0;
    if minor == 0 {
      status := k.ForwardAndWait(reply);
      k.myStatus := status;
      k.CompleteRequest();
    } else if minor == 2 {
      k.SkipLocation();
      var _ := k.CallDriver(reply, false);
      status := 0;
    } else {
      k.SkipLocation();
      status := k.CallDriver(reply, false);
    }
  }

  method DispatchPower(k: Kernel, minor: int, reply: Reply) returns (status: int)
    modifies k
    ensures Fresh(old(k.View())) ==> HandedDown(old(k.View()), k.View(), reply) && k.tally == Finished(old(k.tally))
    ensures status == Code(reply)
  {
    k.SkipLocation();
    status := k.CallDriver(reply, false);
  }

  /** The parameters of an internal I/O control that the driver rejects. */
  function Rejection(r: Request): int
    requires r.InternIoCtl?
  {
    if r.code == r.connect then
      if r.classService != 0 then -1073741757 else if r.inputLength < r.connectSize then -1073741811 else 0
    else if r.code == r.disconnect then -1073741822
    else if r.code == r.hook && r.inputLength < r.hookSize then -1073741811
    else 0
  }

  /** `KbFilter_InternIoCtl`: rejected requests are completed with the error, all others are handed down. */
  method DispatchInternIoCtl(k: Kernel, r: Request, reply: Reply) returns (status: int)
    requires r.InternIoCtl?
    modifies k
    ensures Fresh(old(k.View())) && Rejection(r) < 0 ==>
              status == Rejection(r) && k.View() == old(k.View()).(s := DC, myStatus := status)
    ensures Fresh(old(k.View())) && Rejection(r) >= 0 ==>
              status == Code(reply) && HandedDown(old(k.View()), k.View(), reply)
    ensures Fresh(old(k.View())) ==> k.tally == Finished(old(k.tally))
  {
    var st := 0;
    if r.code == r.connect {
      if r.classService != 0 {
        st := -1073741757;
      } else if r.inputLength < r.connectSize {
        st := -1073741811;
      }
    } else if r.code == r.disconnect {
      st := -1073741822;
    } else if r.code == r.hook {
      if r.inputLength < r.hookSize { st := -1073741811; } else { st := 0; }
    }
    if st < 0 {
      k.myStatus := st;
      k.CompleteRequest();
      return st;
    }
    status := DispatchPassThrough(k, reply);
  }

  /** How a request is left; `initial` is the status it comes with. */
  function Outcome(r: Request, reply: Reply, initial: int): Ending
    requires r != Other
  {
    match r
    case CreateClose(major, classService) =>
      Ending(SKIP2, false, Code(reply), if major == 0 && classService == 0 then -1073741436 else initial)
    case PnP(minor) =>
      if minor == 0 then Ending(DC, false, Code(reply), Code(reply))
      else Ending(SKIP2, false, if minor == 2 then STATUS_SUCCESS else Code(reply), initial)
    case Power(_) => Ending(SKIP2, false, Code(reply), initial)
    case InternIoCtl(_, _, _, _, _, _, _, _) =>
      if Rejection(r) < 0 then Ending(DC, false, Rejection(r), Rejection(r)) else Ending(SKIP2, false, Code(reply), initial)
  }

  /** The final checks of the two variants: only the strict one compares a handed-down status with the lower driver's. */
  const LENIENT := Check(false, true, false, false)
  const STRICT := Check(false, true, false, true)

  /** `main`: the lenient variant never calls `errorFn`. The strict one calls it exactly for a remove request
      (minor function 2) that the lower driver does not answer with success. Every request is completed or handed down
      exactly once. */
  method Harness(notSupported: bool, r: Request, reply: Reply, strict: bool)
    returns (ending: Ending, failed: bool, ghost tally: Tally)
    ensures tally == Tally(if r == Other then 0 else 1, 0)
    ensures var initial := if notSupported then STATUS_NOT_SUPPORTED else 0;
            ending == if r == Other then Ending(NP, false, -1, initial) else Outcome(r, reply, initial)
    ensures failed <==> strict && r.PnP? && r.minor == 2 && reply != Succeed
  {
    var k := new Kernel.Load(0, notSupported);
    var status;
    match r {
      case CreateClose(major, classService) => status := DispatchCreateClose(k, major, classService, reply);
      case PnP(minor) => status := DispatchPnP(k, minor, reply);
      case Power(minor) => status := DispatchPower(k, minor, reply);
      case InternIoCtl(_, _, _, _, _, _, _, _) => status := DispatchInternIoCtl(k, r, reply);
      case Other => return Ending(k.s, k.pended, -1, k.myStatus), k.failed, k.tally;
    }
    k.FinalCheck(if strict then STRICT else LENIENT, status);
    ending, failed, tally := Ending(k.s, k.pended, status, k.myStatus), k.failed, k.tally;
  }
}
