/** The floppy driver of benchmarks/seahorn/bmc/floppy_simpl4_{true,false}-*.cil.c. */
module Floppy {
  import opened IrpProtocol

  /** What `FlQueueIrpToThread` reads: the power state, the thread's reference count, and whether the thread can be
      created and referenced. */
  datatype Thread = Thread(poweringDown: int, refCount: int, created: bool, referenced: bool)

  /** What `FloppyStartDevice` reads: the controller's answer to a custom request, and its description. `queries` holds
      the answers for the interface types that are tried; the driver files set their number to 0. */
  datatype Start = Start(fdcIrp: int, fdcReply: Reply, acpiBios: bool, acpiFdi: bool, queries: seq<bool>)

  /** The branch of `FloppyDeviceControl` selected by the control code, with the values it compares. */
  datatype Control =
    | DeviceName(outputLength: int, nameSize: int, needed: int)
    | UniqueId(buffer: int, outputLength: int, idSize: int, needed: int)
    | Format(inputLength: int, size: int, valid: bool, extended: bool, extendedSize: int, fullSize: int, gap: int, sectors: int)
    | QueueIt
    | Geometry(outputLength: int, geometrySize: int, mediaTypes: int)
    | PassOn

  datatype Request =
    | CreateClose
    | DeviceControl(hold: bool, exempt: bool, refuse: bool, removed: bool, started: bool, c: Control, th: Thread)
    | PnP(removed: bool, started: bool, minor: int, th: Thread, start: Start)
    | Other

  const INVALID_PARAMETER := -1073741811
  const BUFFER_OVERFLOW := -2147483643
  const DELETE_PENDING := -1073741738

  /** The request can be handed to the driver's thread. */
  predicate Queues(th: Thread) {
    th.poweringDown != 1 && (th.refCount == -1 ==> th.created && th.referenced)
  }

  /** What a request that cannot be queued is refused with. */
  function Unqueued(th: Thread): int {
    if th.poweringDown == 1 then -1073741101 else STATUS_UNSUCCESSFUL
  }

  /** Queueing has started the driver's thread, which keeps the paged code locked. */
  predicate StartsThread(th: Thread) {
    th.poweringDown != 1 && th.refCount == -1 && th.created
  }

  /** The request was handed down and the answer is returned as it came. */
  ghost predicate HandedDown(before: Irp, after: Irp, reply: Reply, status: int) {
    after == before.(s := SKIP2, lowerDriverReturn := Code(reply)) && status == Code(reply)
  }

  /** The request was completed by the driver, with the status it returns. */
  ghost predicate CompletedHere(p: Irp, status: int) {
    p.s == DC && !p.pended && !p.failed && p.myStatus == status && status != STATUS_PENDING && status != -1
  }

  /** It was, without having gone down before. */
  ghost predicate CompletedAtOnce(before: Irp, after: Irp, status: int) {
    after == before.(s := DC, myStatus := status) && CompletedHere(after, status)
  }

  /** The request was sent down synchronously and then completed. */
  ghost predicate CompletedAfter(before: Irp, after: Irp, reply: Reply, status: int) {
    after == before.(s := DC, compRegistered := true, routine := Signal, lowerDriverReturn := Code(reply),
                     setEventCalled := reply != Pend, myStatus := status) &&
    CompletedHere(after, status)
  }

  /** The request waits in one of the driver's queues, and only its own status may have changed. */
  ghost predicate Queued(before: Irp, after: Irp, status: int) {
    after == before.(pended := true, myStatus := after.myStatus) && status == STATUS_PENDING
  }

  /** The driver: the protocol globals and the count of references that keep its paged code locked. */
  class Driver {
    const k: Kernel
    var pagingReferenceCount: int

    constructor (k: Kernel)
      ensures this.k == k && pagingReferenceCount == 0
    {
      this.k := k;
      pagingReferenceCount := 0;
    }

    /** `FlQueueIrpToThread`: the request is pended exactly if the pending status is returned, and the reference taken
        for a new thread is kept exactly if the thread could be created. */
    method QueueIrpToThread(th: Thread) returns (status: int)
      modifies k, this
      ensures old(k.s) == NP && !old(k.pended) ==>
                if Queues(th) then status == STATUS_PENDING && k.View() == old(k.View()).(pended := true)
                else status == Unqueued(th) && k.View() == old(k.View()).(myStatus := k.myStatus)
      ensures k.tally == old(k.tally) && k.downward == old(k.downward)
      ensures pagingReferenceCount == old(pagingReferenceCount) + if StartsThread(th) then 1 else 0
    {
      if th.poweringDown == 1 {
        k.myStatus := -1073741101;
        return -1073741101;
      }
      var refCount := th.refCount + 1;
      if refCount == 0 {
        pagingReferenceCount := pagingReferenceCount + 1;
        status := if th.created then STATUS_SUCCESS else STATUS_UNSUCCESSFUL;
        if status < 0 {
          pagingReferenceCount := pagingReferenceCount - 1;
          return status;
        }
        status := if th.referenced then STATUS_SUCCESS else STATUS_UNSUCCESSFUL;
        if status < 0 { return status; }
      }
      k.MarkPended();
      return STATUS_PENDING;
    }

    /** What goes down for the controller: a custom request, sent if it could be built. */
    static function ToController(start: Start): seq<Downward> {
      if start.fdcIrp == 0 then [Built(0)] else [Built(start.fdcIrp), SentDown(start.fdcReply)]
    }

    /** `FlFdcDeviceIo`: one custom request while the completion routine is registered. */
    method FdcDeviceIo(start: Start) returns (status: int)
      modifies k
      ensures old(k.View()).s == NP && old(k.View()).compRegistered && old(k.View()).routine == Signal &&
              !old(k.View()).pended && !old(k.View()).failed ==>
                k.View() == old(k.View()).(
                  customIrp := true,
                  lowerDriverReturn := if start.fdcIrp == 0 then old(k.lowerDriverReturn) else Code(start.fdcReply),
                  setEventCalled := if start.fdcIrp == 0 then old(k.setEventCalled) else start.fdcReply != Pend) &&
                k.tally == old(k.tally) &&
                status == if start.fdcIrp == 0 then STATUS_INSUFFICIENT_RESOURCES
                          else if start.fdcReply == Pend then old(k.myStatus) else Code(start.fdcReply)
      ensures k.downward == old(k.downward) + ToController(start)
    {
      var irp := k.BuildCustomIrp(start.fdcIrp);
      if irp == 0 { return STATUS_INSUFFICIENT_RESOURCES; }
      status := k.CallDriver(start.fdcReply, false);
      if status == STATUS_PENDING {
        k.KeWait();
        status := k.myStatus;
      }
    }

    /** The interface types are tried in order until one answers. */
    method QueryInterfaces(status: int, queries: seq<bool>) returns (r: int)
      ensures queries == [] ==> r == status
      ensures queries != [] ==> r == if true in queries then STATUS_SUCCESS else STATUS_UNSUCCESSFUL
    {
      r := status;
      var interfaceType := 0;
      while true
        invariant 0 <= interfaceType <= |queries| && true !in queries[..interfaceType]
        invariant r == if interfaceType == 0 then status else STATUS_UNSUCCESSFUL
        decreases |queries| - interfaceType
      {
        if interfaceType >= |queries| { break; }
        r := if queries[interfaceType] then STATUS_SUCCESS else STATUS_UNSUCCESSFUL;
        if r >= 0 { break; }
        interfaceType := interfaceType + 1;
      }
    }

    /** The device is described by ACPI, or by some interface type that is tried. */
    static predicate Described(start: Start) {
      (start.acpiBios && start.acpiFdi) || true in start.queries
    }

    /** What a start request is completed with: a controller request that is null or refused gives that failure, and
        otherwise it succeeds exactly if the device is described; if no interface is tried it is the controller's answer. */
    static function StartAnswer(start: Start, initial: int): (status: int)
      ensures start.fdcIrp == 0 ==> status == STATUS_INSUFFICIENT_RESOURCES
      ensures start.fdcIrp != 0 && start.fdcReply == Refuse ==> status == STATUS_UNSUCCESSFUL
      ensures start.fdcIrp != 0 && start.fdcReply != Refuse ==>
                var answer := if start.fdcReply == Pend then initial else STATUS_SUCCESS;
                status == if answer < 0 || (start.queries == [] && !Described(start)) then answer
                          else if Described(start) then STATUS_SUCCESS else STATUS_UNSUCCESSFUL
    {
      var fdc := if start.fdcIrp == 0 then STATUS_INSUFFICIENT_RESOURCES
                 else if start.fdcReply == Pend then initial else Code(start.fdcReply);
      if fdc < 0 || (start.queries == [] && !(start.acpiBios && start.acpiFdi)) then fdc
      else if (start.acpiBios && start.acpiFdi) || true in start.queries then STATUS_SUCCESS
      else STATUS_UNSUCCESSFUL
    }

    /** `FloppyStartDevice`: sent down synchronously, followed by a custom request, and then completed. */
    method StartDevice(reply: Reply, start: Start) returns (status: int)
      modifies k
      ensures Fresh(old(k.View())) ==> CompletedHere(k.View(), status) && status == StartAnswer(start, old(k.myStatus))
      ensures k.downward == old(k.downward) + [SentDown(reply)] + ToController(start)
      ensures Fresh(old(k.View())) ==>
                var last := if start.fdcIrp == 0 then reply else start.fdcReply;
                k.View() == old(k.View()).(s := DC, compRegistered := true, routine := Signal, customIrp := true,
                                           lowerDriverReturn := Code(last), setEventCalled := last != Pend, myStatus := status)
      ensures Fresh(old(k.View())) ==> k.tally == Finished(old(k.tally))
    {
      status := k.ForwardAndWait(reply);
      status := FdcDeviceIo(start);
      if status >= 0 {
        if start.acpiBios && start.acpiFdi {
          status := 0;
        } else {
          status := QueryInterfaces(status, start.queries);
        }
      }
      k.myStatus := status;
      k.CompleteRequest();
    }

    method SkipAndCall(reply: Reply) returns (status: int)
      modifies k
      ensures old(k.s) == NP && !old(k.compRegistered) ==>
                HandedDown(old(k.View()), k.View(), reply, status) && k.tally == Finished(old(k.tally))
      ensures k.downward == old(k.downward) + [SentDown(reply)]
    {
      k.SkipLocation();
      status := k.CallDriver(reply, false);
    }

    /** A start or cancel-remove style request of a started device: forwarded synchronously and completed. */
    method CompleteAfterForward(reply: Reply) returns (status: int)
      modifies k
      ensures Fresh(old(k.View())) ==> CompletedAfter(old(k.View()), k.View(), reply, status)
      ensures Fresh(old(k.View())) ==> status == if reply == Pend then 0 else Code(reply)
      ensures k.downward == old(k.downward) + [SentDown(reply)]
      ensures Fresh(old(k.View())) ==> k.tally == Finished(old(k.tally))
    {
      k.myStatus := 0;
      status := k.ForwardAndWait(reply);
      if status == STATUS_PENDING { status := k.myStatus; }
      k.myStatus := status;
      k.CompleteRequest();
    }

    /** A stop or query-stop request of a started device: it waits for the thread, and is handed down although pended. */
    method StopStarted(th: Thread, reply: Reply) returns (status: int)
      modifies k, this
      ensures Fresh(old(k.View())) && Queues(th) ==>
                k.View() == old(k.View()).(s := SKIP2, pended := true, myStatus := 0, lowerDriverReturn := Code(reply)) &&
                status == Code(reply)
      ensures Fresh(old(k.View())) && !Queues(th) ==>
                CompletedAtOnce(old(k.View()), k.View(), status) && status == STATUS_UNSUCCESSFUL
      ensures Fresh(old(k.View())) ==> k.downward == old(k.downward) + if Queues(th) then [SentDown(reply)] else []
      ensures Fresh(old(k.View())) ==> k.tally == Finished(old(k.tally))
      ensures pagingReferenceCount == old(pagingReferenceCount) + if StartsThread(th) then 1 else 0
    {
      status := QueueIrpToThread(th);
      if status == STATUS_PENDING {
        k.KeWait();
        k.myStatus := 0;
        status := SkipAndCall(reply);
      } else {
        status := STATUS_UNSUCCESSFUL;
        k.myStatus := status;
        k.CompleteRequest();
      }
    }

    /** The stop or query-stop path of a started device that reaches the thread. */
    static predicate Stops(r: Request) {
      r.PnP? && !r.removed && (r.minor == 5 || r.minor == 1) && r.started && Queues(r.th)
    }

    /** The reference on the paged code that `FloppyPnp` takes on entry is not dropped on its two early returns. */
    static predicate KeepsReference(r: Request)
      requires r.PnP?
    {
      r.removed || ((r.minor == 5 || r.minor == 1) && !r.started)
    }

    /** The requests that `FloppyPnp` completes itself; all others it hands down. */
    static predicate CompletesPnP(r: Request)
      requires r.PnP?
    {
      r.removed || r.minor == 0 ||
      (r.started && (r.minor == 6 || r.minor == 3 || ((r.minor == 5 || r.minor == 1) && !Queues(r.th))))
    }

    /** A started device that completes the request itself after sending it down synchronously: cancel requests. */
    static predicate Cancels(r: Request)
      requires r.PnP?
    {
      !r.removed && (r.minor == 6 || r.minor == 3) && r.started
    }

    /** The requests whose status is cleared before they are handed down. */
    static predicate Clears(r: Request)
      requires r.PnP?
    {
      r.minor == 2 || r.minor == 3 || r.minor == 4 || r.minor == 6
    }

    /** The switch of `FloppyPnp` over the minor function, except for the early return of an unstarted stop request. */
    method ServePnP(r: Request, reply: Reply) returns (status: int)
      requires r.PnP? && !r.removed && (r.minor == 5 || r.minor == 1 ==> r.started)
      modifies k, this
      ensures Fresh(old(k.View())) ==> (k.s == DC <==> CompletesPnP(r)) && k.tally == Finished(old(k.tally))
      ensures Fresh(old(k.View())) && r.minor == 0 ==>
                CompletedHere(k.View(), status) && status == StartAnswer(r.start, old(k.myStatus)) &&
                k.downward == old(k.downward) + [SentDown(reply)] + ToController(r.start)
      ensures Fresh(old(k.View())) && Cancels(r) ==>
                CompletedAfter(old(k.View()), k.View(), reply, status) &&
                status == (if reply == Pend then STATUS_SUCCESS else Code(reply)) &&
                k.downward == old(k.downward) + [SentDown(reply)]
      ensures Fresh(old(k.View())) && (r.minor == 5 || r.minor == 1) && !Queues(r.th) ==>
                CompletedAtOnce(old(k.View()), k.View(), status) && status == STATUS_UNSUCCESSFUL &&
                k.downward == old(k.downward)
      ensures Fresh(old(k.View())) && !CompletesPnP(r) ==>
                k.View() == old(k.View()).(s := SKIP2, lowerDriverReturn := Code(reply), pended := Stops(r),
                                           myStatus := if Stops(r) || Clears(r) then 0 else old(k.myStatus)) &&
                status == Code(reply) && k.downward == old(k.downward) + [SentDown(reply)]
      ensures pagingReferenceCount == old(pagingReferenceCount) +
                if (r.minor == 5 || r.minor == 1) && StartsThread(r.th) then 1 else 0
    {
      if r.minor == 0 {
        status := StartDevice(reply, r.start);
      } else if r.minor == 5 || r.minor == 1 {
        status := StopStarted(r.th, reply);
      } else if r.minor == 6 || r.minor == 3 {
        if !r.started {
          k.myStatus := 0;
          status := SkipAndCall(reply);
        } else {
          status := CompleteAfterForward(reply);
        }
      } else if r.minor == 4 {
        k.myStatus := 0;
        status := SkipAndCall(reply);
      } else if r.minor == 2 {
        k.SkipLocation();
        k.myStatus := 0;
        status := k.CallDriver(reply, false);
      } else {
        status := SkipAndCall(reply);
      }
    }

    /** `FloppyPnp`. */
    method DispatchPnP(r: Request, reply: Reply) returns (status: int)
      requires r.PnP?
      modifies k, this
      ensures Fresh(old(k.View())) ==> Ending(k.s, k.pended, status, k.myStatus) == Outcome(r, reply, old(k.myStatus))
      ensures Fresh(old(k.View())) ==> (k.s == DC <==> CompletesPnP(r)) && k.tally == Finished(old(k.tally))
      ensures Fresh(old(k.View())) && r.removed ==>
                CompletedAtOnce(old(k.View()), k.View(), status) && status == DELETE_PENDING && k.downward == old(k.downward)
      ensures Fresh(old(k.View())) && !r.removed && r.minor == 0 ==>
                CompletedHere(k.View(), status) && status == StartAnswer(r.start, old(k.myStatus)) &&
                k.downward == old(k.downward) + [SentDown(reply)] + ToController(r.start)
      ensures Fresh(old(k.View())) && Cancels(r) ==>
                CompletedAfter(old(k.View()), k.View(), reply, status) &&
                status == (if reply == Pend then STATUS_SUCCESS else Code(reply)) &&
                k.downward == old(k.downward) + [SentDown(reply)]
      ensures Fresh(old(k.View())) && !r.removed && (r.minor == 5 || r.minor == 1) && r.started && !Queues(r.th) ==>
                CompletedAtOnce(old(k.View()), k.View(), status) && status == STATUS_UNSUCCESSFUL &&
                k.downward == old(k.downward)
      ensures Fresh(old(k.View())) && !CompletesPnP(r) ==>
                k.View() == old(k.View()).(s := SKIP2, lowerDriverReturn := Code(reply), pended := Stops(r),
                                           myStatus := if Stops(r) || Clears(r) then 0 else old(k.myStatus)) &&
                status == Code(reply) && k.downward == old(k.downward) + [SentDown(reply)]
      ensures pagingReferenceCount == old(pagingReferenceCount) +
                (if KeepsReference(r) then 1 else 0) +
                (if !r.removed && (r.minor == 5 || r.minor == 1) && r.started && StartsThread(r.th) then 1 else 0)
    {
      pagingReferenceCount := pagingReferenceCount + 1;
      if r.removed {
        k.myStatus := DELETE_PENDING;
        k.CompleteRequest();
        return DELETE_PENDING;
      }
      if (r.minor == 5 || r.minor == 1) && !r.started {
        status := SkipAndCall(reply);
        return;
      }
      status := ServePnP(r, reply);
      pagingReferenceCount := pagingReferenceCount - 1;
    }

    /** `FloppyQueueRequest`: the reference taken for a queued request is kept until it is processed. */
    method QueueRequest(refuse: bool) returns (status: int)
      modifies k, this
      ensures Fresh(old(k.View())) ==>
                if refuse then CompletedAtOnce(old(k.View()), k.View(), status) && status == -1073741536
                else Queued(old(k.View()), k.View(), status) && k.myStatus == STATUS_PENDING
      ensures Fresh(old(k.View())) ==> k.tally == if refuse then Finished(old(k.tally)) else old(k.tally)
      ensures pagingReferenceCount == old(pagingReferenceCount) + if refuse then 0 else 1
    {
      pagingReferenceCount := pagingReferenceCount + 1;
      if refuse {
        k.myStatus := -1073741536;
        k.CompleteRequest();
        pagingReferenceCount := pagingReferenceCount - 1;
        status := -1073741536;
      } else {
        k.myStatus := STATUS_PENDING;
        k.MarkPended();
        status := STATUS_PENDING;
      }
    }

    /** What a request that is neither queued nor handed down is completed with. */
    static function ControlAnswer(c: Control): int
      requires c.DeviceName? || c.UniqueId? || c.Geometry?
    {
      match c
      case DeviceName(outputLength, nameSize, needed) =>
        if outputLength < nameSize then INVALID_PARAMETER else if outputLength < needed then BUFFER_OVERFLOW else 0
      case UniqueId(buffer, outputLength, idSize, needed) =>
        if buffer == 0 || outputLength < idSize then INVALID_PARAMETER
        else if outputLength < needed then BUFFER_OVERFLOW else 0
      case Geometry(outputLength, geometrySize, mediaTypes) =>
        if outputLength < geometrySize then -1073741789 else if outputLength < mediaTypes then BUFFER_OVERFLOW else 0
    }

    /** A format request whose parameters are accepted. */
    static predicate FormatAccepted(c: Control)
      requires c.Format?
    {
      c.inputLength >= c.size && c.valid &&
      (c.extended ==> c.inputLength >= c.extendedSize && c.inputLength >= c.fullSize && c.gap < 256 && c.sectors < 256)
    }

    /** A request for the driver's thread. */
    static predicate ToThread(c: Control) {
      c.QueueIt? || (c.Format? && FormatAccepted(c))
    }

    /** The switch over the control codes, for a started device. */
    method ControlStarted(c: Control, th: Thread, reply: Reply) returns (status: int)
      modifies k, this
      ensures Fresh(old(k.View())) ==>
                if c == PassOn then HandedDown(old(k.View()), k.View(), reply, status)
                else if ToThread(c) && Queues(th) then Queued(old(k.View()), k.View(), status) && k.myStatus == old(k.myStatus)
                else CompletedAtOnce(old(k.View()), k.View(), status)
      ensures Fresh(old(k.View())) ==> k.tally == if ToThread(c) && Queues(th) then old(k.tally) else Finished(old(k.tally))
      ensures Fresh(old(k.View())) && (c.DeviceName? || c.UniqueId? || c.Geometry?) ==> status == ControlAnswer(c)
      ensures Fresh(old(k.View())) && c.Format? && !FormatAccepted(c) ==> status == INVALID_PARAMETER
      ensures Fresh(old(k.View())) && ToThread(c) && !Queues(th) ==> status == Unqueued(th)
      ensures pagingReferenceCount == old(pagingReferenceCount) + if ToThread(c) && StartsThread(th) then 1 else 0
    {
      match c {
        case DeviceName(outputLength, nameSize, needed) =>
          if outputLength < nameSize {
            status := INVALID_PARAMETER;
          } else if outputLength < needed {
            status := BUFFER_OVERFLOW;
          } else {
            status := 0;
          }
        case UniqueId(buffer, outputLength, idSize, needed) =>
          if buffer == 0 {
            status := INVALID_PARAMETER;
          } else if outputLength < idSize {
            status := INVALID_PARAMETER;
          } else if outputLength < needed {
            status := BUFFER_OVERFLOW;
          } else {
            status := 0;
          }
        case Format(inputLength, size, valid, extended, extendedSize, fullSize, gap, sectors) =>
          if inputLength < size || !valid {
            status := INVALID_PARAMETER;
          } else if extended && (inputLength < extendedSize || inputLength < fullSize || gap >= 256 || sectors >= 256) {
            status := INVALID_PARAMETER;
          } else {
            status := QueueIrpToThread(th);
          }
        case QueueIt =>
          status := QueueIrpToThread(th);
        case Geometry(outputLength, geometrySize, mediaTypes) =>
          if outputLength < geometrySize {
            status := -1073741789;
          } else {
            status := 0;
            if outputLength < mediaTypes { status := BUFFER_OVERFLOW; }
          }
        case PassOn =>
          status := SkipAndCall(reply);
          return;
      }
      if status != STATUS_PENDING {
        k.myStatus := status;
        k.CompleteRequest();
      }
    }

    /** The requests that are left waiting in one of the driver's queues. */
    static predicate Waits(r: Request) {
      r.DeviceControl? &&
      if r.hold && !r.exempt then !r.refuse else !r.removed && r.started && ToThread(r.c) && Queues(r.th)
    }

    /** `FloppyDeviceControl`: every request is queued, completed or handed down. */
    method DispatchDeviceControl(r: Request, reply: Reply) returns (status: int)
      requires r.DeviceControl?
      modifies k, this
      ensures Fresh(old(k.View())) ==> Ending(k.s, k.pended, status, k.myStatus) == Outcome(r, reply, old(k.myStatus))
      ensures Fresh(old(k.View())) ==> k.tally == if Waits(r) then old(k.tally) else Finished(old(k.tally))
      ensures Fresh(old(k.View())) ==>
                CompletedAtOnce(old(k.View()), k.View(), status) || Queued(old(k.View()), k.View(), status) ||
                HandedDown(old(k.View()), k.View(), reply, status)
      ensures Fresh(old(k.View())) && r.hold && !r.exempt ==> (k.s == DC <==> r.refuse)
      ensures Fresh(old(k.View())) && Waits(r) ==>
                Queued(old(k.View()), k.View(), status) &&
                k.myStatus == if r.hold && !r.exempt then STATUS_PENDING else old(k.myStatus)
      ensures Fresh(old(k.View())) && !(r.hold && !r.exempt) && r.removed ==> status == DELETE_PENDING
      ensures Fresh(old(k.View())) && !(r.hold && !r.exempt) && !r.removed ==>
                (k.s == SKIP2 <==> !r.started || r.c == PassOn)
      ensures Fresh(old(k.View())) && !(r.hold && !r.exempt) && !r.removed && r.started ==>
                (r.c.DeviceName? || r.c.UniqueId? || r.c.Geometry? ==> status == ControlAnswer(r.c)) &&
                (r.c.Format? && !FormatAccepted(r.c) ==> status == INVALID_PARAMETER) &&
                (ToThread(r.c) && !Queues(r.th) ==> status == Unqueued(r.th)) &&
                (k.s == NP <==> ToThread(r.c) && Queues(r.th))
      ensures Fresh(old(k.View())) && r.hold && !r.exempt && r.refuse ==> status == -1073741536
      ensures pagingReferenceCount == old(pagingReferenceCount) +
                if r.hold && !r.exempt then (if r.refuse then 0 else 1)
                else if !r.removed && r.started && ToThread(r.c) && StartsThread(r.th) then 1 else 0
    {
      if r.hold {
        if !r.exempt {
          status := QueueRequest(r.refuse);
          return;
        }
      }
      if r.removed {
        k.myStatus := DELETE_PENDING;
        k.CompleteRequest();
        return DELETE_PENDING;
      }
      if !r.started {
        status := SkipAndCall(reply);
        return;
      }
      status := ControlStarted(r.c, r.th, reply);
    }
  }

  /** How a request is left; `initial` is the status it comes with. */
  function Outcome(r: Request, reply: Reply, initial: int): Ending
    requires r != Other
  {
    match r
    case CreateClose => Ending(DC, false, STATUS_SUCCESS, STATUS_SUCCESS)
    case DeviceControl(hold, exempt, refuse, removed, started, c, th) =>
      if Driver.Waits(r) then Ending(NP, true, STATUS_PENDING, if hold && !exempt then STATUS_PENDING else initial)
      else if !(hold && !exempt) && !removed && (!started || c == PassOn) then Ending(SKIP2, false, Code(reply), initial)
      else
        var status := if hold && !exempt then -1073741536
                      else if removed then DELETE_PENDING
                      else if Driver.ToThread(c) then Unqueued(th)
                      else if c.Format? then INVALID_PARAMETER
                      else Driver.ControlAnswer(c);
        Ending(DC, false, status, status)
    case PnP(removed, _, minor, _, start) =>
      if !Driver.CompletesPnP(r) then
        Ending(SKIP2, Driver.Stops(r), Code(reply), if Driver.Stops(r) || Driver.Clears(r) then STATUS_SUCCESS else initial)
      else
        var status := if removed then DELETE_PENDING
                      else if minor == 0 then Driver.StartAnswer(start, initial)
                      else if minor == 5 || minor == 1 then STATUS_UNSUCCESSFUL
                      else if reply == Pend then STATUS_SUCCESS else Code(reply);
        Ending(DC, false, status, status)
  }

  /** The final checks of the two variants: only the strict one checks the status of a pended request. */
  const LENIENT := Check(true, false, true, true)
  const STRICT := Check(true, true, true, true)

  /** `main`: the lenient variant never calls `errorFn`. The strict one calls it exactly when a started device takes the
      stop or query-stop path, the request reaches the thread, and the lower driver returns another status than pending.
      Every request is completed or handed down exactly once, or is left waiting in a queue and was neither. */
  method Harness(notSupported: bool, r: Request, reply: Reply, strict: bool)
    returns (ending: Ending, failed: bool, ghost tally: Tally)
    ensures tally == Tally(if r == Other || Driver.Waits(r) then 0 else 1, 0)
    ensures var initial := if notSupported then STATUS_NOT_SUPPORTED else 0;
            ending == if r == Other then Ending(NP, false, -1, initial) else Outcome(r, reply, initial)
    ensures failed <==> strict && Driver.Stops(r) && reply != Pend
  {
    var k := new Kernel.Load(0, notSupported);
    var d := new Driver(k);
    var status;
    match r {
      case CreateClose =>
        k.myStatus := 0;
        k.CompleteRequest();
        status := 0;
      case DeviceControl(_, _, _, _, _, _, _) => status := d.DispatchDeviceControl(r, reply);
      case PnP(_, _, _, _, _) => status := d.DispatchPnP(r, reply);
      case Other => return Ending(k.s, k.pended, -1, k.myStatus), k.failed, k.tally;
    }
    k.FinalCheck(if strict then STRICT else LENIENT, status);
    ending, failed, tally := Ending(k.s, k.pended, status, k.myStatus), k.failed, k.tally;
  }
}
