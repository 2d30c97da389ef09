/** The CD audio filter driver of benchmarks/seahorn/bmc/cdaudio_simpl1_{true,false}-*.cil.c. */
module CdAudio {
  import opened IrpProtocol

  /** What `CdAudioIsPlayActive` reads. */
  datatype Play = Play(active: int, buffer: int, irp: int, status: int, ioStatus: int, audioStatus: int)

  /** What the I/O control routines read: the control code, the buffers (null is 0), and the lengths they compare. */
  datatype Control = Control(code: int, outputLength: int, inputLength: int, play: Play, lastSession: int, toc: int,
                             subQ: int, subQPosition: int, subQSize: int, format: int, msfSize: int, seekSize: int,
                             trackData: int, paused: int, srb: Srb, srbAgain: Srb)

  datatype Request =
    | DeviceControl(active: int, c: Control, pendingReturned: bool)
    | PnP(minor: int, usageType: int, active: int)
    | Power
    | Other

  const UNSUPPORTED := -1073741808
  const BUFFER_TOO_SMALL := -1073741789
  const INFO_LENGTH_MISMATCH := -1073741820
  const PLAY_ACTIVE := -2147483631

  /** The request is on its way through the driver, and a wait is harmless. */
  predicate Passing(p: Irp) {
    p.s == NP && !p.customIrp
  }

  /** The request block that `SendSrbSynchronous` works with: the constant 0 in both files. */
  const SRB_IRP := 0

  /** What one call of `SendSrbSynchronous` reads. */
  datatype Srb = Srb(status: int, ioStatus: int)

  /** `SendSrbSynchronous`, for any request block: without one it fails at once, whatever the device would have answered. */
  method SendSrb(k: Kernel, irp: int, srb: Srb) returns (status: int)
    modifies k
    ensures irp == 0 ==> status == STATUS_INSUFFICIENT_RESOURCES && k.View() == old(k.View()) && k.tally == old(k.tally)
    ensures irp != 0 ==> status == if srb.status == STATUS_PENDING then srb.ioStatus else srb.status
    ensures Passing(old(k.View())) ==> k.View() == old(k.View()) && k.tally == old(k.tally)
  {
    if irp == 0 { return STATUS_INSUFFICIENT_RESOURCES; }
    status := srb.status;
    if status == STATUS_PENDING {
      k.KeWait();
      status := srb.ioStatus;
    }
  }

  predicate Playing(pl: Play) {
    pl.active != 0 && pl.buffer != 0 && pl.irp != 0 && pl.audioStatus == 17 &&
    (if pl.status == STATUS_PENDING then pl.ioStatus else pl.status) >= 0
  }

  method IsPlayActive(k: Kernel, pl: Play) returns (r: int)
    modifies k
    ensures Passing(old(k.View())) ==> k.View() == old(k.View()) && k.tally == old(k.tally)
    ensures r == if Playing(pl) then 1 else 0
  {
    if pl.active == 0 { return 0; }
    if pl.buffer == 0 { return 0; }
    if pl.irp == 0 { return 0; }
    var status := pl.status;
    if status == STATUS_PENDING {
      k.KeWait();
      status := pl.ioStatus;
    }
    if status < 0 { return 0; }
    r := if pl.audioStatus == 17 then 1 else 0;
  }

  /** The request was handed down and the answer is returned as it came. */
  ghost predicate HandedDown(before: Irp, after: Irp, reply: Reply) {
    after == before.(s := SKIP2, lowerDriverReturn := Code(reply))
  }

  /** The request was completed with the status that is returned. */
  ghost predicate CompletedWith(before: Irp, after: Irp, status: int) {
    after == before.(s := DC, myStatus := status)
  }

  /** `CdAudioSendToNextDriver` and `CdAudioPower`. */
  method SendToNextDriver(k: Kernel, reply: Reply) returns (status: int)
    modifies k
    ensures Fresh(old(k.View())) ==> HandedDown(old(k.View()), k.View(), reply) && k.tally == Finished(old(k.tally))
    ensures status == Code(reply)
  {
    k.SkipLocation();
    status := k.CallDriver(reply, false);
  }

  /** `AG_SetStatusAndReturn`. */
  method SetStatusAndReturn(k: Kernel, st: int) returns (status: int)
    modifies k
    ensures old(k.s) == NP ==> CompletedWith(old(k.View()), k.View(), st) && k.tally == Finished(old(k.tally))
    ensures status == st
  {
    k.myStatus := st;
    k.CompleteRequest();
    return st;
  }

  /** The control codes that the first changer model completes itself. */
  predicate Handled535(code: int) {
    code == 147512 || code == 147456 || code == 147500 || code == 147480 || code == 147460 || code == 149512 ||
    code == 147508 || code == 147476 || code == 147496
  }

  /** The error with which a handled request is completed: what is not rejected first fails for want of a request
      block, after every allocation and whatever the device would have answered. */
  function Error535(c: Control): (status: int)
    ensures status < 0
  {
    if c.code == 147512 && Playing(c.play) then PLAY_ACTIVE
    else if c.code == 147512 && c.outputLength != 0 then BUFFER_TOO_SMALL
    else if c.code == 147456 && c.outputLength != 0 then BUFFER_TOO_SMALL
    else if c.code == 147456 && Playing(c.play) then PLAY_ACTIVE
    else if c.code == 147500 && c.outputLength < c.subQSize then BUFFER_TOO_SMALL
    else if c.code == 147500 && c.subQ != 0 && c.format != 1 then STATUS_UNSUCCESSFUL
    else if c.code == 147480 && c.inputLength < c.msfSize then INFO_LENGTH_MISMATCH
    else if c.code == 147460 && c.inputLength < c.seekSize then INFO_LENGTH_MISMATCH
    else if c.code == 147508 || c.code == 147476 || c.code == 147496 then UNSUPPORTED
    else STATUS_INSUFFICIENT_RESOURCES
  }

  /** `CdAudio535DeviceControl`: a handled request is always completed, and with an error since no SRB can be sent. */
  method Control535(k: Kernel, c: Control, irp: int, reply: Reply) returns (status: int)
    modifies k
    ensures Fresh(old(k.View())) ==> k.tally == Finished(old(k.tally))
    ensures Fresh(old(k.View())) && Handled535(c.code) ==>
              CompletedWith(old(k.View()), k.View(), status) && (irp == 0 ==> status == Error535(c))
    ensures Fresh(old(k.View())) && !Handled535(c.code) ==>
              HandedDown(old(k.View()), k.View(), reply) && status == Code(reply)
  {
    var st;
    if c.code == 147512 {
      var tmp := IsPlayActive(k, c.play);
      if tmp != 0 {
        st := PLAY_ACTIVE;
      } else if c.outputLength != 0 {
        st := BUFFER_TOO_SMALL;
      } else if c.lastSession == 0 {
        status := SetStatusAndReturn(k, STATUS_INSUFFICIENT_RESOURCES);
        return;
      } else {
        st := SendSrb(k, irp, c.srb);
        if st < 0 {
          status := SetStatusAndReturn(k, st);
          return;
        }
        st := 0;
      }
    } else if c.code == 147456 {
      if c.outputLength != 0 {
        st := BUFFER_TOO_SMALL;
      } else {
        var tmp := IsPlayActive(k, c.play);
        if tmp != 0 {
          st := PLAY_ACTIVE;
        } else if c.toc == 0 {
          status := SetStatusAndReturn(k, STATUS_INSUFFICIENT_RESOURCES);
          return;
        } else {
          st := SendSrb(k, irp, c.srb);
          if st >= 0 && st != -1073741764 {
            st := 0;
          } else if st != -1073741764 {
            status := SetStatusAndReturn(k, st);
            return;
          }
        }
      }
    } else if c.code == 147500 {
      if c.outputLength < c.subQSize {
        st := BUFFER_TOO_SMALL;
      } else if c.subQ == 0 {
        status := SetStatusAndReturn(k, STATUS_INSUFFICIENT_RESOURCES);
        return;
      } else if c.format != 1 {
        status := SetStatusAndReturn(k, STATUS_UNSUCCESSFUL);
        return;
      } else {
        st := SendSrb(k, irp, c.srb);
      }
    } else if c.code == 147480 {
      if c.inputLength < c.msfSize { st := INFO_LENGTH_MISMATCH; } else { st := SendSrb(k, irp, c.srb); }
    } else if c.code == 147460 {
      if c.inputLength < c.seekSize { st := INFO_LENGTH_MISMATCH; } else { st := SendSrb(k, irp, c.srb); }
    } else if c.code == 149512 {
      st := SendSrb(k, irp, c.srb);
    } else if c.code == 147508 || c.code == 147476 || c.code == 147496 {
      st := UNSUPPORTED;
    } else {
      if c.code == 149504 {
        var _ := IsPlayActive(k, c.play);
      }
      status := SendToNextDriver(k, reply);
      return;
    }
    status := SetStatusAndReturn(k, st);
  }

  predicate Handled435(code: int) {
    code == 147456 || code == 147480 || code == 147464 || code == 147460 || code == 147468 || code == 147472 ||
    code == 147500 || code == 149512 || code == 147508 || code == 147476 || code == 147496
  }

  /** The only two requests that the second changer model completes with success. */
  predicate Succeeds435(c: Control) {
    (c.code == 147468 && c.subQ != 0 && c.paused == 1) || (c.code == 149504 && Playing(c.play))
  }

  /** The error with which any other handled request is completed. */
  function Error435(c: Control): (status: int)
    ensures status < 0
  {
    if c.code == 147456 && c.outputLength < c.trackData then BUFFER_TOO_SMALL
    else if c.code == 147456 && Playing(c.play) then PLAY_ACTIVE
    else if c.code == 147480 && c.inputLength < c.msfSize then INFO_LENGTH_MISMATCH
    else if c.code == 147460 && c.inputLength < c.seekSize then INFO_LENGTH_MISMATCH
    else if c.code == 147472 && c.paused == 0 then STATUS_UNSUCCESSFUL
    else if c.code == 147500 && c.outputLength < c.subQSize then BUFFER_TOO_SMALL
    else if c.code == 147500 && c.subQPosition != 0 && c.format != 1 then STATUS_UNSUCCESSFUL
    else if c.code == 147508 || c.code == 147476 || c.code == 147496 then UNSUPPORTED
    else STATUS_INSUFFICIENT_RESOURCES
  }

  /** `CdAudio435DeviceControl`. */
  method Control435(k: Kernel, c: Control, irp: int, reply: Reply) returns (status: int)
    modifies k
    ensures Fresh(old(k.View())) ==> k.tally == Finished(old(k.tally))
    ensures Fresh(old(k.View())) && (Handled435(c.code) || Succeeds435(c)) ==>
              CompletedWith(old(k.View()), k.View(), status) &&
              (irp == 0 ==> status == if Succeeds435(c) then 0 else Error435(c))
    ensures Fresh(old(k.View())) && !Handled435(c.code) && !Succeeds435(c) ==>
              HandedDown(old(k.View()), k.View(), reply) && status == Code(reply)
  {
    var st;
    if c.code == 147456 {
      if c.outputLength < c.trackData {
        st := BUFFER_TOO_SMALL;
      } else {
        var tmp := IsPlayActive(k, c.play);
        if tmp != 0 {
          st := PLAY_ACTIVE;
        } else if c.toc == 0 {
          status := SetStatusAndReturn(k, STATUS_INSUFFICIENT_RESOURCES);
          return;
        } else {
          st := SendSrb(k, irp, c.srb);
          if st < 0 && st != -1073741764 {
            status := SetStatusAndReturn(k, st);
            return;
          }
          st := 0;
        }
      }
    } else if c.code == 147480 || c.code == 147464 {
      st := SendSrb(k, irp, c.srb);
      if c.code == 147464 {
        status := SetStatusAndReturn(k, st);
        return;
      }
      if c.inputLength < c.msfSize { st := INFO_LENGTH_MISMATCH; } else { st := SendSrb(k, irp, c.srbAgain); }
    } else if c.code == 147460 {
      if c.inputLength < c.seekSize {
        st := INFO_LENGTH_MISMATCH;
      } else {
        st := SendSrb(k, irp, c.srb);
        if st < 0 && st == UNSUPPORTED { st := -1073741803; }
      }
    } else if c.code == 147468 {
      if c.subQ == 0 {
        status := SetStatusAndReturn(k, STATUS_INSUFFICIENT_RESOURCES);
        return;
      }
      if c.paused == 1 {
        status := SetStatusAndReturn(k, 0);
        return;
      }
      st := SendSrb(k, irp, c.srb);
      if st >= 0 { st := SendSrb(k, irp, c.srbAgain); }
    } else if c.code == 147472 {
      if c.paused == 0 {
        status := SetStatusAndReturn(k, STATUS_UNSUCCESSFUL);
        return;
      }
      st := SendSrb(k, irp, c.srb);
    } else if c.code == 147500 {
      if c.outputLength < c.subQSize {
        st := BUFFER_TOO_SMALL;
      } else if c.subQPosition == 0 {
        status := SetStatusAndReturn(k, STATUS_INSUFFICIENT_RESOURCES);
        return;
      } else if c.format != 1 {
        status := SetStatusAndReturn(k, STATUS_UNSUCCESSFUL);
        return;
      } else {
        st := SendSrb(k, irp, c.srb);
      }
    } else if c.code == 149512 {
      st := SendSrb(k, irp, c.srb);
    } else if c.code == 147508 || c.code == 147476 || c.code == 147496 {
      st := UNSUPPORTED;
    } else if c.code == 149504 {
      var tmp := IsPlayActive(k, c.play);
      if tmp == 1 {
        status := SetStatusAndReturn(k, 0);
      } else {
        status := SendToNextDriver(k, reply);
      }
      return;
    } else {
      status := SendToNextDriver(k, reply);
      return;
    }
    status := SetStatusAndReturn(k, st);
  }

  /** `CdAudioAtapiDeviceControl`. */
  method ControlAtapi(k: Kernel, c: Control, irp: int, reply: Reply) returns (status: int)
    modifies k
    ensures Fresh(old(k.View())) ==> k.tally == Finished(old(k.tally))
    ensures Fresh(old(k.View())) && c.code == 147464 ==>
              CompletedWith(old(k.View()), k.View(), status) && (irp == 0 ==> status == STATUS_INSUFFICIENT_RESOURCES)
    ensures Fresh(old(k.View())) && c.code != 147464 ==>
              HandedDown(old(k.View()), k.View(), reply) && status == Code(reply)
  {
    if c.code == 147464 {
      var st := SendSrb(k, irp, c.srb);
      status := SetStatusAndReturn(k, st);
    } else {
      status := SendToNextDriver(k, reply);
    }
  }

  /** `CdAudioHPCdrDeviceControl`: the read-TOC request goes down with the inspecting routine registered. It is never
      held back, and it is pended exactly if the lower driver says so to that routine. */
  method ControlHPCdr(k: Kernel, c: Control, reply: Reply, pendingReturned: bool) returns (status: int)
    modifies k
    ensures Fresh(old(k.View())) ==> k.tally == Finished(old(k.tally))
    ensures Fresh(old(k.View())) && c.code == 147512 ==>
              k.View() == old(k.View()).(s := IPC, compRegistered := true, routine := Inspect, pended := pendingReturned,
                                         lowerDriverReturn := Code(reply))
    ensures Fresh(old(k.View())) && c.code != 147512 ==> HandedDown(old(k.View()), k.View(), reply)
    ensures status == Code(reply)
  {
    if c.code == 147512 {
      k.RegisterCompletion(Inspect);
      status := k.CallDriver(reply, pendingReturned);
    } else {
      status := SendToNextDriver(k, reply);
    }
  }

  /** The state after a dispatch routine, up to the status: completed, handed down, or sent down and inspected. */
  ghost predicate Dispatched(p: Irp, status: int) {
    !p.failed &&
    match p.s
    case DC => !p.pended && p.myStatus == status && status != STATUS_PENDING && status != -1
    case SKIP2 => !p.pended && status == p.lowerDriverReturn && status != -1
    case IPC => status == p.lowerDriverReturn && status != -1
    case _ => false
  }

  /** How a request is left; `initial` is the status it comes with. */
  function Outcome(r: Request, reply: Reply, initial: int): Ending
    requires r != Other
  {
    match r
    case DeviceControl(active, c, pendingReturned) =>
      if active == 2 && Handled535(c.code) then Ending(DC, false, Error535(c), Error535(c))
      else if active == 3 && Succeeds435(c) then Ending(DC, false, STATUS_SUCCESS, STATUS_SUCCESS)
      else if active == 3 && Handled435(c.code) then Ending(DC, false, Error435(c), Error435(c))
      else if active == 1 && c.code == 147464 then
        Ending(DC, false, STATUS_INSUFFICIENT_RESOURCES, STATUS_INSUFFICIENT_RESOURCES)
      else if active == 7 && c.code == 147512 then Ending(IPC, pendingReturned, Code(reply), initial)
      else Ending(SKIP2, false, Code(reply), initial)
    case PnP(minor, usageType, _) =>
      if minor == 0 || (minor == 22 && usageType == 1) then Ending(DC, false, initial, initial)
      else Ending(SKIP2, false, Code(reply), initial)
    case Power => Ending(SKIP2, false, Code(reply), initial)
  }

  method DispatchDeviceControl(k: Kernel, r: Request, reply: Reply) returns (status: int)
    requires r.DeviceControl?
    modifies k
    ensures Fresh(old(k.View())) ==> Ending(k.s, k.pended, status, k.myStatus) == Outcome(r, reply, old(k.myStatus))
    ensures Fresh(old(k.View())) ==> k.tally == Finished(old(k.tally))
    ensures Fresh(old(k.View())) ==>
              Dispatched(k.View(), status) &&
              (k.pended <==> r.active == 7 && r.c.code == 147512 && r.pendingReturned) &&
              (k.pended ==> k.s == IPC && status == Code(reply))
    ensures Fresh(old(k.View())) && r.active == 2 ==>
              if Handled535(r.c.code) then CompletedWith(old(k.View()), k.View(), status) && status == Error535(r.c)
              else HandedDown(old(k.View()), k.View(), reply) && status == Code(reply)
    ensures Fresh(old(k.View())) && r.active == 3 ==>
              if Succeeds435(r.c) then CompletedWith(old(k.View()), k.View(), status) && status == STATUS_SUCCESS
              else if Handled435(r.c.code) then CompletedWith(old(k.View()), k.View(), status) && status == Error435(r.c)
              else HandedDown(old(k.View()), k.View(), reply) && status == Code(reply)
    ensures Fresh(old(k.View())) && r.active == 1 ==>
              if r.c.code == 147464
              then CompletedWith(old(k.View()), k.View(), status) && status == STATUS_INSUFFICIENT_RESOURCES
              else HandedDown(old(k.View()), k.View(), reply) && status == Code(reply)
    ensures Fresh(old(k.View())) && r.active == 7 && r.c.code == 147512 ==>
              k.View() == old(k.View()).(s := IPC, compRegistered := true, routine := Inspect, pended := r.pendingReturned,
                                         lowerDriverReturn := Code(reply)) && status == Code(reply)
    ensures Fresh(old(k.View())) && r.active != 2 && r.active != 3 && r.active != 1 &&
            !(r.active == 7 && r.c.code == 147512) ==>
              HandedDown(old(k.View()), k.View(), reply) && status == Code(reply)
  {
    if r.active == 2 {
      status := Control535(k, r.c, SRB_IRP, reply);
    } else if r.active == 3 {
      status := Control435(k, r.c, SRB_IRP, reply);
    } else if r.active == 1 {
      status := ControlAtapi(k, r.c, SRB_IRP, reply);
    } else if r.active == 7 {
      status := ControlHPCdr(k, r.c, reply, r.pendingReturned);
    } else {
      status := SendToNextDriver(k, reply);
    }
  }

  /** `CdAudioForwardIrpSynchronous`: it waits whatever the answer, and returns the request's own status. */
  method ForwardIrpSynchronous(k: Kernel, reply: Reply) returns (status: int)
    modifies k
    ensures Fresh(old(k.View())) ==>
              k.View() == old(k.View()).(compRegistered := true, routine := Signal, lowerDriverReturn := Code(reply),
                                         setEventCalled := reply != Pend) &&
              status == old(k.myStatus) && k.tally == old(k.tally)
  {
    k.RegisterCompletion(Signal);
    status := k.CallDriver(reply, false);
    if Fresh(old(k.View())) {
      ForwardComesBack(old(k.View()), reply, false);
    }
    k.KeWait();
    status := k.myStatus;
  }

  /** `CdAudioStartDevice`: the inquiry that follows a successful start never happens, and cannot change the outcome. */
  method StartDevice(k: Kernel, active: int, reply: Reply) returns (status: int)
    modifies k
    ensures Fresh(old(k.View())) ==>
              k.View() == old(k.View()).(compRegistered := true, routine := Signal, lowerDriverReturn := Code(reply),
                                         setEventCalled := reply != Pend) &&
              status == old(k.myStatus) && k.tally == old(k.tally)
  {
    status := ForwardIrpSynchronous(k, reply);
    if status < 0 { return; }
    if active == 255 { return 0; }
    return 0;
  }

  /** `CdAudioPnp`. */
  method DispatchPnP(k: Kernel, r: Request, reply: Reply) returns (status: int)
    requires r.PnP?
    modifies k
    ensures Fresh(old(k.View())) ==> Ending(k.s, k.pended, status, k.myStatus) == Outcome(r, reply, old(k.myStatus))
    ensures Fresh(old(k.View())) ==> k.tally == Finished(old(k.tally))
    ensures Fresh(old(k.View())) ==> Dispatched(k.View(), status) && !k.pended && k.s != IPC
    ensures Fresh(old(k.View())) ==> (k.s == DC <==> r.minor == 0 || (r.minor == 22 && r.usageType == 1))
    ensures Fresh(old(k.View())) && k.s == DC ==>
              k.View() == old(k.View()).(s := DC, compRegistered := true, routine := Signal, lowerDriverReturn := Code(reply),
                                         setEventCalled := r.minor == 22 || reply != Pend) &&
              status == old(k.myStatus)
    ensures Fresh(old(k.View())) && k.s != DC ==> HandedDown(old(k.View()), k.View(), reply) && status == Code(reply)
  {
    if r.minor == 0 {
      status := StartDevice(k, r.active, reply);
      k.myStatus := status;
      k.CompleteRequest();
    } else if r.minor == 22 {
      if r.usageType != 1 {
        status := SendToNextDriver(k, reply);
        return;
      }
      k.KeWait();
      status := ForwardIrpSynchronous(k, reply);
      k.KeSetEvent();
      k.CompleteRequest();
    } else {
      status := SendToNextDriver(k, reply);
    }
  }

  /** The final checks of the two variants: only the strict one checks the status of a pended request. */
  const LENIENT := Check(true, false, true, true)
  const STRICT := Check(true, true, true, true)

  /** `main`: the lenient variant never calls `errorFn`. The strict one calls it exactly when the inspecting completion
      routine marks the request pending and the lower driver returns another status than pending. Every request is
      completed or handed down exactly once. */
  method Harness(loadStatus: int, notSupported: bool, r: Request, reply: Reply, strict: bool)
    returns (ending: Ending, failed: bool, ghost tally: Tally)
    ensures tally == Tally(if loadStatus >= 0 && r != Other then 1 else 0, 0)
    ensures loadStatus < 0 ==> ending.phase == UNLOADED && ending.status == loadStatus
    ensures loadStatus >= 0 ==>
              var initial := if notSupported then STATUS_NOT_SUPPORTED else 0;
              ending == if r == Other then Ending(NP, false, -1, initial) else Outcome(r, reply, initial)
    ensures failed <==>
              strict && loadStatus >= 0 && r.DeviceControl? && r.active == 7 && r.c.code == 147512 && r.pendingReturned &&
              reply != Pend
  {
    var status := loadStatus;
    var k := new Kernel.Load(status, notSupported);
    if status >= 0 {
      match r {
        case DeviceControl(_, _, _) => status := DispatchDeviceControl(k, r, reply);
        case PnP(_, _, _) => status := DispatchPnP(k, r, reply);
        case Power => status := SendToNextDriver(k, reply);
        case Other => return Ending(k.s, k.pended, -1, k.myStatus), k.failed, k.tally;
      }
    }
    k.FinalCheck(if strict then STRICT else LENIENT, status);
    ending, failed, tally := Ending(k.s, k.pended, status, k.myStatus), k.failed, k.tally;
  }
}
