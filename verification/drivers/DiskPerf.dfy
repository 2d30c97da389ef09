/** The disk performance driver of benchmarks/seahorn/bmc/diskperf_simpl1_true-*.cil.c. */
module DiskPerf {
  import opened IrpProtocol

  /** One custom request of `DiskPerfRegisterDevice`: the request built (null is 0) and the lower driver's answer. */
  datatype Custom = Custom(irp: int, reply: Reply)

  /** What `DiskPerfRegisterDevice` reads: its four possible requests, the status reported after a wait, and the
      output buffer. */
  datatype Registration = Registration(number: Custom, name: Custom, nameAgain: Custom, volume: Custom,
                                       ioStatus: int, output: int)

  datatype Request =
    | Create
    | DeviceControl(code: int, outputLength: int, perfSize: int, counters: int, processors: int, reply: Reply)
    | PnP(minor: int, reply: Reply, reg: Registration)
    | Power(reply: Reply)
    | ShutdownFlush(reply: Reply)
    | Other

  /** The driver may send custom requests down: nothing finished, nothing held back, and the event is there to be signalled. */
  ghost predicate Registering(p: Irp) {
    p.s == NP && p.compRegistered && p.routine == Signal && !p.pended && !p.failed
  }

  function Reported(c: Custom, ioStatus: int): int {
    if c.irp == 0 then STATUS_INSUFFICIENT_RESOURCES else if c.reply == Pend then ioStatus else Code(c.reply)
  }

  /** What a custom request puts through: it is built, and if it is not null it is sent down. */
  function Downwards(cs: seq<Custom>): seq<Downward> {
    if cs == [] then []
    else
      var c := cs[|cs| - 1];
      Downwards(cs[..|cs| - 1]) + [Built(c.irp)] + if c.irp == 0 then [] else [SentDown(c.reply)]
  }

  /** One custom request: build it, send it down, and wait if the answer is pending.
      Whatever the choices, the request being handled is left as it was found. */
  method SendCustom(k: Kernel, c: Custom, ioStatus: int, ghost before: seq<Downward>, ghost made: seq<Custom>)
    returns (built: bool, status: int)
    requires k.downward == before + Downwards(made)
    modifies k
    ensures k.downward == before + Downwards(made + [c])
    ensures Registering(old(k.View())) ==>
              Registering(k.View()) && k.customIrp && k.myStatus == old(k.myStatus) && k.tally == old(k.tally)
    ensures Registering(old(k.View())) ==>
              if c.irp != 0 then k.lowerDriverReturn == Code(c.reply) && k.setEventCalled == (c.reply != Pend)
              else k.lowerDriverReturn == old(k.lowerDriverReturn) && k.setEventCalled == old(k.setEventCalled)
    ensures built <==> c.irp != 0
    ensures status == Reported(c, ioStatus)
  {
    assert (made + [c])[..|made|] == made;
    var irp := k.BuildCustomIrp(c.irp);
    if irp == 0 { return false, STATUS_INSUFFICIENT_RESOURCES; }
    status := k.CallDriver(c.reply, false);
    if status == STATUS_PENDING {
      k.KeWait();
      status := ioStatus;
    }
    built := true;
  }

  const NAME_IS_LONGER := -2147483643

  /** The custom requests that a registration makes, in order: the device number, and if that is refused the name, once
      more if it did not fit, and then the volume. */
  function Made(r: Registration): (cs: seq<Custom>)
    ensures 1 <= |cs| <= 4 && cs[0] == r.number
  {
    if Reported(r.number, r.ioStatus) >= 0 || r.number.irp == 0 || r.output == 0 then [r.number]
    else
      var again := r.name.irp != 0 && Reported(r.name, r.ioStatus) == NAME_IS_LONGER;
      var once := [r.number] + [r.name];
      var named := if again then once + [r.nameAgain] else once;
      if Reported(named[|named| - 1], r.ioStatus) < 0 then named else named + [r.volume]
  }

  /** `DiskPerfRegisterDevice`: up to four custom requests while the completion routine is still registered, and nothing
      else goes down. It returns what the last of them reports, unless there was no buffer for the name. */
  method RegisterDevice(k: Kernel, r: Registration) returns (status: int)
    modifies k
    ensures Registering(old(k.View())) ==>
              Registering(k.View()) && k.customIrp && k.myStatus == old(k.myStatus) && k.tally == old(k.tally)
    ensures status == if Made(r) == [r.number] && Reported(r.number, r.ioStatus) < 0 then STATUS_INSUFFICIENT_RESOURCES
                      else Reported(Made(r)[|Made(r)| - 1], r.ioStatus)
    ensures Registering(old(k.View())) ==>
              var last := Made(r)[|Made(r)| - 1];
              last.irp != 0 ==> k.lowerDriverReturn == Code(last.reply) && k.setEventCalled == (last.reply != Pend)
    ensures k.downward == old(k.downward) + Downwards(Made(r))
  {
    var built;
    ghost var before, made: seq<Custom> := k.downward, [];
    assert [] + [r.number] == [r.number] && before + Downwards(made) == before;
    built, status := SendCustom(k, r.number, r.ioStatus, before, made);
    made := [r.number];
    if !built { return STATUS_INSUFFICIENT_RESOURCES; }
    if status < 0 {
      if r.output == 0 { return STATUS_INSUFFICIENT_RESOURCES; }
      built, status := SendCustom(k, r.name, r.ioStatus, before, made);
      made := made + [r.name];
      if !built { return STATUS_INSUFFICIENT_RESOURCES; }
      if status == NAME_IS_LONGER {
        if r.output == 0 { return STATUS_INSUFFICIENT_RESOURCES; }
        built, status := SendCustom(k, r.nameAgain, r.ioStatus, before, made);
        made := made + [r.nameAgain];
        if !built { return STATUS_INSUFFICIENT_RESOURCES; }
      }
      if status < 0 { return; }
      built, status := SendCustom(k, r.volume, r.ioStatus, before, made);
      if !built { return STATUS_INSUFFICIENT_RESOURCES; }
    }
  }

  /** `DiskPerfForwardIrpSynchronous`: the request comes back before the routine returns, and its status is not pending. */
  method ForwardIrpSynchronous(k: Kernel, reply: Reply) returns (status: int)
    modifies k
    ensures Fresh(old(k.View())) ==>
              k.View() == old(k.View()).(compRegistered := true, routine := Signal, lowerDriverReturn := Code(reply),
                                         setEventCalled := reply != Pend) &&
              k.tally == old(k.tally) && status == if reply == Pend then old(k.myStatus) else Code(reply)
    ensures k.downward == old(k.downward) + [SentDown(reply)]
  {
    status := k.ForwardAndWait(reply);
    if status == STATUS_PENDING { status := k.myStatus; }
  }

  /** The request was completed by the driver, with the status it returns. */
  ghost predicate CompletedHere(p: Irp, status: int) {
    p.s == DC && !p.pended && !p.failed && p.myStatus == status && status != STATUS_PENDING
  }

  /** The request goes down first, and the custom requests after it. */
  method StartDevice(k: Kernel, reply: Reply, reg: Registration) returns (status: int)
    modifies k
    ensures k.downward == old(k.downward) + [SentDown(reply)] + Downwards(Made(reg))
    ensures Fresh(old(k.View())) ==>
              var last := Made(reg)[|Made(reg)| - 1];
              k.compRegistered && k.routine == Signal && k.customIrp &&
              (last.irp != 0 ==> k.lowerDriverReturn == Code(last.reply) && k.setEventCalled == (last.reply != Pend))
    ensures Fresh(old(k.View())) ==> k.tally == Finished(old(k.tally))
    ensures Fresh(old(k.View())) ==>
              CompletedHere(k.View(), status) && status == if reply == Pend then old(k.myStatus) else Code(reply)
  {
    status := ForwardIrpSynchronous(k, reply);
    var _ := RegisterDevice(k, reg);
    k.myStatus := status;
    k.CompleteRequest();
  }

  method RemoveDevice(k: Kernel, reply: Reply) returns (status: int)
    modifies k
    ensures Fresh(old(k.View())) ==>
              k.View() == old(k.View()).(s := DC, compRegistered := true, routine := Signal, lowerDriverReturn := Code(reply),
                                         setEventCalled := reply != Pend, myStatus := status)
    ensures Fresh(old(k.View())) ==> k.tally == Finished(old(k.tally))
    ensures k.downward == old(k.downward) + [SentDown(reply)]
    ensures Fresh(old(k.View())) ==>
              CompletedHere(k.View(), status) && status == if reply == Pend then old(k.myStatus) else Code(reply)
  {
    status := ForwardIrpSynchronous(k, reply);
    k.myStatus := status;
    k.CompleteRequest();
  }

  /** `DiskPerfSendToNextDriver` and `DiskPerfDispatchPower`. */
  method SendToNextDriver(k: Kernel, reply: Reply) returns (status: int)
    modifies k
    ensures Fresh(old(k.View())) ==>
              k.View() == old(k.View()).(s := SKIP2, lowerDriverReturn := Code(reply)) && k.tally == Finished(old(k.tally))
    ensures status == Code(reply) && k.downward == old(k.downward) + [SentDown(reply)]
  {
    k.SkipLocation();
    status := k.CallDriver(reply, false);
  }

  /** Every PnP request goes down once, and a start is followed by the custom requests of the registration. */
  method DispatchPnP(k: Kernel, minor: int, reply: Reply, reg: Registration) returns (status: int)
    modifies k
    ensures k.downward == old(k.downward) + [SentDown(reply)] + if minor == 0 then Downwards(Made(reg)) else []
    ensures Fresh(old(k.View())) ==> k.tally == Finished(old(k.tally))
    ensures Fresh(old(k.View())) && (minor == 0 || minor == 2) ==>
              CompletedHere(k.View(), status) && status == if reply == Pend then old(k.myStatus) else Code(reply)
    ensures Fresh(old(k.View())) && minor != 0 && minor != 2 ==>
              k.View() == old(k.View()).(s := SKIP2, lowerDriverReturn := Code(reply)) && status == Code(reply)
  {
    if minor == 0 {
      status := StartDevice(k, reply, reg);
    } else if minor == 2 {
      status := RemoveDevice(k, reply);
    } else {
      status := SendToNextDriver(k, reply);
    }
  }

  const PERFORMANCE_CODE := 458784

  /** `DiskPerfDeviceControl`: a performance query is completed, after a loop over the processors that ends for every
      processor count; every other request is called down without skipping, and so ends in IPC. */
  method DispatchDeviceControl(k: Kernel, r: Request) returns (status: int)
    requires r.DeviceControl?
    modifies k
    ensures Fresh(old(k.View())) ==> k.tally == Finished(old(k.tally))
    ensures Fresh(old(k.View())) && r.code == PERFORMANCE_CODE ==>
              k.View() == old(k.View()).(s := DC, myStatus := status) &&
              status == if r.outputLength < r.perfSize then -1073741789 else if r.counters == 0 then STATUS_UNSUCCESSFUL else 0
    ensures Fresh(old(k.View())) && r.code != PERFORMANCE_CODE ==>
              k.View() == old(k.View()).(s := IPC, lowerDriverReturn := status) && status == Code(r.reply)
  {
    if r.code == PERFORMANCE_CODE {
      if r.outputLength < r.perfSize {
        status := -1073741789;
      } else {
        if r.counters == 0 {
          k.myStatus := STATUS_UNSUCCESSFUL;
          k.CompleteRequest();
          return STATUS_UNSUCCESSFUL;
        }
        var i := 0;
        while true
          invariant i == 0 || i <= r.processors
          decreases r.processors - i
        {
          if i >= r.processors { break; }
          i := i + 1;
        }
        status := 0;
      }
      k.myStatus := status;
      k.CompleteRequest();
      return;
    }
    status := k.CallDriver(r.reply, false);
  }

  const CHECK := Check(true, true, true, true)

  /** How a request is left; `initial` is the status it comes with. */
  function Outcome(r: Request, initial: int): Ending
    requires r != Other
  {
    match r
    case Create => Ending(DC, false, STATUS_SUCCESS, STATUS_SUCCESS)
    case DeviceControl(code, outputLength, perfSize, counters, _, reply) =>
      if code != PERFORMANCE_CODE then Ending(IPC, false, Code(reply), initial)
      else
        var status := if outputLength < perfSize then -1073741789
                      else if counters == 0 then STATUS_UNSUCCESSFUL else STATUS_SUCCESS;
        Ending(DC, false, status, status)
    case PnP(minor, reply, _) =>
      if minor == 0 || minor == 2 then
        var status := if reply == Pend then initial else Code(reply);
        Ending(DC, false, status, status)
      else Ending(SKIP2, false, Code(reply), initial)
    case Power(reply) => Ending(SKIP2, false, Code(reply), initial)
    case ShutdownFlush(reply) => Ending(IPC, false, Code(reply), initial)
  }

  /** `main`, for every load status and every input: `errorFn` is never called, and in spite of the custom requests every
      request is completed or handed down exactly once. A completed request does not return the pending status, and a
      handed-down one returns the lower driver's. */
  method Harness(loadStatus: int, notSupported: bool, r: Request)
    returns (ending: Ending, failed: bool, ghost tally: Tally)
    ensures !failed
    ensures tally == Tally(if loadStatus >= 0 && r != Other then 1 else 0, 0)
    ensures loadStatus < 0 ==> ending.phase == UNLOADED && ending.status == loadStatus
    ensures loadStatus >= 0 ==>
              var initial := if notSupported then STATUS_NOT_SUPPORTED else 0;
              ending == if r == Other then Ending(NP, false, -1, initial) else Outcome(r, initial)
    ensures loadStatus >= 0 && r != Other ==> ending.phase == DC || ending.phase == SKIP2 || ending.phase == IPC
    ensures ending.phase == DC ==> ending.status != STATUS_PENDING
    ensures ending.phase == SKIP2 || ending.phase == IPC ==>
              (r.DeviceControl? || r.PnP? || r.Power? || r.ShutdownFlush?) && ending.status == Code(r.reply)
  {
    var status := loadStatus;
    var k := new Kernel.Load(status, notSupported);
    if status >= 0 {
      match r {
        case Create =>
          k.myStatus := 0;
          k.CompleteRequest();
          status := 0;
        case DeviceControl(_, _, _, _, _, _) => status := DispatchDeviceControl(k, r);
        case PnP(minor, reply, reg) => status := DispatchPnP(k, minor, reply, reg);
        case Power(reply) => status := SendToNextDriver(k, reply);
        case ShutdownFlush(reply) => status := k.CallDriver(reply, false);
        case Other => return Ending(k.s, k.pended, -1, k.myStatus), k.failed, k.tally;
      }
    }
    k.FinalCheck(CHECK, status);
    ending, failed, tally := Ending(k.s, k.pended, status, k.myStatus), k.failed, k.tally;
  }
}
