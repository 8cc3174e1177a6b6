/** The consumer of rabbit_consumer/message_consumer.py: each function of that file
    as a method that issues its remote calls one at a time through `Services` and
    stops at the first call that raises. Each method is proved to issue exactly the
    calls of its trace function in Workflow (or the prefix before the fault). */
module Consumer {
  import opened Remote
  import opened Workflow
  import ConsumeProperties

  datatype Error = UnsupportedMessageType(eventType: string) | DecodeError | RemoteError

  /** How handling returns: normally, or by raising. */
  datatype Status = Completed | Raised(error: Error)

  // ---- delete_machine

  /** Delete host `h` if the registry says it exists. */
  method DeleteHostIfExists(svc: Services, h: string) returns (ok: bool)
    modifies svc
    ensures Ran(old(svc.Snapshot()), HostTrace(old(svc.State()), h), ok, svc.Snapshot())
  {
    ghost var x0 := svc.Snapshot();
    var found;
    ok, found := svc.CheckHostExists(h);
    ghost var x1 := svc.Snapshot();
    var ok2 := ok;
    if ok && found {
      ok2 := svc.DeleteHost(h);
    }
    RanThen(x0, [Op.CheckHostExists(h)], ok, x1, if found then [Op.DeleteHost(h)] else [], ok2, svc.Snapshot());
    ok := ok2;
  }

  /** Detach the resolved address and the primary interface of machine `m`, bound to `h`. */
  method Detach(svc: Services, m: MachineName, h: string, resolve: string -> string) returns (ok: bool)
    modifies svc
    ensures Ran(old(svc.Snapshot()), DetachTrace(old(svc.State()), m, h, resolve), ok, svc.Snapshot())
  {
    ghost var x0 := svc.Snapshot();
    var details;
    ok, details := svc.GetMachineDetails(m);
    ghost var x1 := svc.Snapshot();
    var ip := resolve(h);
    var ok2 := ok;
    if ok {
      ok2 := svc.Query(Op.Resolve(h));
    }
    RanThen(x0, [Op.GetMachineDetails(m)], ok, x1, [Op.Resolve(h)], ok2, svc.Snapshot());
    ghost var t := [Op.GetMachineDetails(m)] + [Op.Resolve(h)];
    ghost var x2 := svc.Snapshot();
    ok := ok2;
    if ok && ip in details {
      ok2 := svc.DeleteAddress(ip, m);
    }
    RanThen(x0, t, ok, x2, if ip in details then [Op.DeleteAddress(ip, m)] else [], ok2, svc.Snapshot());
    t := t + if ip in details then [Op.DeleteAddress(ip, m)] else [];
    ghost var x3 := svc.Snapshot();
    ok := ok2;
    if ok && "eth0" in details {
      ok2 := svc.DeleteInterface(m);
    }
    RanThen(x0, t, ok, x3, if "eth0" in details then [Op.DeleteInterface(m)] else [], ok2, svc.Snapshot());
    ok := ok2;
  }

  /** Delete the host machine `m` is bound to, if it exists, then detach. */
  method Unbind(svc: Services, m: MachineName, h: string, resolve: string -> string) returns (ok: bool)
    modifies svc
    ensures Ran(old(svc.Snapshot()), UnbindTrace(old(svc.State()), m, h, resolve), ok, svc.Snapshot())
  {
    ghost var x0 := svc.Snapshot();
    ok := DeleteHostIfExists(svc, h);
    ghost var x1 := svc.Snapshot();
    var ok2 := ok;
    if ok {
      ok2 := Detach(svc, m, h, resolve);
    }
    RanThen(x0, HostTrace(x0.reg, h), ok, x1, DetachTrace(Apply(x0.reg, HostTrace(x0.reg, h)), m, h, resolve), ok2, svc.Snapshot());
    ok := ok2;
  }

  /** Tear down machine `m`. */
  method RemoveMachine(svc: Services, m: MachineName, resolve: string -> string) returns (ok: bool)
    modifies svc
    ensures Ran(old(svc.Snapshot()), RemoveMachineTrace(old(svc.State()), m, resolve), ok, svc.Snapshot())
  {
    ghost var x0 := svc.Snapshot();
    var bound;
    ok, bound := svc.SearchHostByMachine(m);
    ghost var x1 := svc.Snapshot();
    var ok2 := ok;
    if ok && Named(bound) {
      ok2 := Unbind(svc, m, bound.value, resolve);
    }
    ghost var unbind := if Named(bound) then UnbindTrace(x0.reg, m, bound.value, resolve) else [];
    RanThen(x0, [Op.SearchHostByMachine(m)], ok, x1, unbind, ok2, svc.Snapshot());
    ghost var x2 := svc.Snapshot();
    ok := ok2;
    if ok {
      ok2 := svc.DeleteMachine(m);
    }
    RanThen(x0, [Op.SearchHostByMachine(m)] + unbind, ok, x2, [Op.DeleteMachine(m)], ok2, svc.Snapshot());
    ok := ok2;
  }

  /** Find the machine filed under the VM's serial and tear it down if there is one. */
  method RemoveBySerial(svc: Services, vm: VmData, resolve: string -> string) returns (ok: bool)
    modifies svc
    ensures Ran(old(svc.Snapshot()), RemoveBySerialTrace(old(svc.State()), Serial(vm), resolve), ok, svc.Snapshot())
  {
    ghost var x0 := svc.Snapshot();
    var found;
    ok, found := svc.SearchMachineBySerial(vm);
    ghost var x1 := svc.Snapshot();
    var ok2 := ok;
    if ok && found.Some? {
      ok2 := RemoveMachine(svc, found.value, resolve);
    }
    RanThen(x0, [Op.SearchMachineBySerial(Serial(vm))], ok, x1,
            if found.None? then [] else RemoveMachineTrace(x0.reg, found.value, resolve), ok2, svc.Snapshot());
    ok := ok2;
  }

  /** `delete_machine(vm, nd)`: best-effort removal of every registry record of the VM. */
  method DeleteMachine(svc: Services, vm: VmData, nd: Option<Address>, resolve: string -> string) returns (ok: bool)
    modifies svc
    ensures Ran(old(svc.Snapshot()), DeleteTrace(old(svc.State()), vm, nd, resolve), ok, svc.Snapshot())
  {
    ghost var x0 := svc.Snapshot();
    ok := true;
    if nd.Some? {
      ok := DeleteHostIfExists(svc, nd.value.hostname);
    } else {
      RanNothing(x0);
    }
    ghost var first := if nd.Some? then HostTrace(x0.reg, nd.value.hostname) else [];
    ghost var x1 := svc.Snapshot();
    var ok2 := ok;
    if ok {
      ok2 := RemoveBySerial(svc, vm, resolve);
    }
    RanThen(x0, first, ok, x1, RemoveBySerialTrace(Apply(x0.reg, first), Serial(vm), resolve), ok2, svc.Snapshot());
    ok := ok2;
  }

  // ---- is_aq_managed_image, check_machine_valid

  /** `is_aq_managed_image(msg)`: fetch the VM's image; its metadata if it is managed. */
  method IsAqManagedImage(svc: Services, msg: RabbitMessage, cloud: Cloud) returns (ok: bool, meta: Option<Metadata>)
    modifies svc
    ensures Ran(old(svc.Snapshot()), [GetImage(VmOf(msg))], ok, svc.Snapshot())
    ensures svc.State() == old(svc.State())
    ensures meta.Some? <==> "AQ_OS" in cloud.image.metadata
    ensures meta.Some? ==> meta.value == cloud.image.metadata
  {
    ok := svc.Query(GetImage(VmOf(msg)));
    meta := AqManagedImage(cloud.image);
  }

  /** `check_machine_valid(msg)`: the VM still exists and its image is managed. */
  method CheckMachineValid(svc: Services, msg: RabbitMessage, cloud: Cloud) returns (ok: bool, valid: bool)
    modifies svc
    ensures Ran(old(svc.Snapshot()), ValidationTrace(VmOf(msg), cloud), ok, svc.Snapshot())
    ensures svc.State() == old(svc.State())
    ensures ok ==> (valid <==> cloud.existsAtValidation && "AQ_OS" in cloud.image.metadata)
  {
    ghost var x0 := svc.Snapshot();
    var vm := VmOf(msg);
    ok := svc.Query(CheckMachineExists(vm));
    ghost var x1 := svc.Snapshot();
    valid := cloud.existsAtValidation;
    var ok2 := ok;
    if ok && valid {
      var meta;
      ok2, meta := IsAqManagedImage(svc, msg, cloud);
      valid := meta.Some?;
    }
    RanThen(x0, [CheckMachineExists(vm)], ok, x1, if cloud.existsAtValidation then [GetImage(vm)] else [], ok2, svc.Snapshot());
    ok := ok2;
  }

  // ---- handle_create_machine

  /** The registry creates of the create workflow, in order. */
  method Provision(svc: Services, vm: VmData, nets: seq<Address>, meta: Option<Metadata>) returns (ok: bool)
    modifies svc
    ensures Ran(old(svc.Snapshot()), ProvisionTrace(old(svc.State()), vm, nets, meta), ok, svc.Snapshot())
  {
    ghost var x0 := svc.Snapshot();
    var m;
    ok, m := svc.CreateMachine(vm);
    ghost var t := [Op.CreateMachine(vm)];
    ghost var x1 := svc.Snapshot();
    var ok2 := ok;
    if ok {
      ok2 := svc.AddMachineNics(m, nets);
    }
    RanThen(x0, t, ok, x1, [Op.AddMachineNics(m, nets)], ok2, svc.Snapshot());
    t := t + [Op.AddMachineNics(m, nets)];
    x1 := svc.Snapshot();
    ok := ok2;
    if ok {
      ok2 := svc.SetInterfaceBootable(m, "eth0");
    }
    RanThen(x0, t, ok, x1, [Op.SetInterfaceBootable(m, "eth0")], ok2, svc.Snapshot());
    t := t + [Op.SetInterfaceBootable(m, "eth0")];
    x1 := svc.Snapshot();
    ok := ok2;
    if ok {
      ok2 := svc.CreateHost(meta, nets, m);
    }
    RanThen(x0, t, ok, x1, [Op.CreateHost(meta, nets, m)], ok2, svc.Snapshot());
    t := t + [Op.CreateHost(meta, nets, m)];
    x1 := svc.Snapshot();
    ok := ok2;
    if ok {
      ok2 := svc.Query(AqManage(nets, meta));
    }
    RanThen(x0, t, ok, x1, [AqManage(nets, meta)], ok2, svc.Snapshot());
    t := t + [AqManage(nets, meta)];
    x1 := svc.Snapshot();
    ok := ok2;
    if ok {
      ok2 := svc.Query(AqMake(nets, meta));
    }
    RanThen(x0, t, ok, x1, [AqMake(nets, meta)], ok2, svc.Snapshot());
    ok := ok2;
  }

  /** `add_aq_details_to_metadata(vm, nets)`: tag the VM unless it has vanished. */
  method AddAqDetailsToMetadata(svc: Services, vm: VmData, nets: seq<Address>, cloud: Cloud) returns (ok: bool)
    modifies svc
    ensures Ran(old(svc.Snapshot()), TagBackTrace(old(svc.State()), vm, nets, cloud), ok, svc.Snapshot())
  {
    ghost var x0 := svc.Snapshot();
    ok := svc.Query(CheckMachineExists(vm));
    ghost var x1 := svc.Snapshot();
    var ok2 := ok;
    if ok && cloud.existsAtTagBack {
      var found;
      ok2, found := svc.SearchMachineBySerial(vm);
      ghost var x2 := svc.Snapshot();
      var metadata := AqDetails(nets, found);
      var ok3 := ok2;
      if ok2 {
        ok3 := svc.Query(UpdateMetadata(vm, metadata));
      }
      RanThen(x1, [SearchMachineBySerial(Serial(vm))], ok2, x2, [UpdateMetadata(vm, metadata)], ok3, svc.Snapshot());
      ok2 := ok3;
    }
    RanThen(x0, [CheckMachineExists(vm)], ok, x1,
            if !cloud.existsAtTagBack then []
            else [SearchMachineBySerial(Serial(vm))] + [UpdateMetadata(vm, AqDetails(nets, MachineBySerial(x0.reg, Serial(vm))))],
            ok2, svc.Snapshot());
    ok := ok2;
  }

  /** Clear stale records for the primary address, provision, tag back. */
  method Reconcile(svc: Services, vm: VmData, cloud: Cloud, meta: Option<Metadata>, resolve: string -> string) returns (ok: bool)
    requires !LocalOnly(cloud.networks)
    requires meta == AqManagedImage(cloud.image)
    modifies svc
    ensures Ran(old(svc.Snapshot()), ReconcileTrace(old(svc.State()), vm, cloud, resolve), ok, svc.Snapshot())
  {
    ghost var x0 := svc.Snapshot();
    var nets := cloud.networks;
    ok := DeleteMachine(svc, vm, Some(nets[0]), resolve);
    ghost var cleared := DeleteTrace(x0.reg, vm, Some(nets[0]), resolve);
    ghost var x1 := svc.Snapshot();
    var ok2 := ok;
    if ok {
      ok2 := Provision(svc, vm, nets, meta);
    }
    ghost var provision := ProvisionTrace(Apply(x0.reg, cleared), vm, nets, meta);
    RanThen(x0, cleared, ok, x1, provision, ok2, svc.Snapshot());
    ghost var x2 := svc.Snapshot();
    ok := ok2;
    if ok {
      ok2 := AddAqDetailsToMetadata(svc, vm, nets, cloud);
    }
    RanThen(x0, cleared + provision, ok, x2, TagBackTrace(Apply(x0.reg, cleared + provision), vm, nets, cloud), ok2, svc.Snapshot());
    ok := ok2;
  }

  /** After validation: fetch the image and networks, skip a VM without a usable
      primary hostname, and reconcile otherwise. */
  method CreateValidated(svc: Services, msg: RabbitMessage, cloud: Cloud, resolve: string -> string) returns (ok: bool)
    modifies svc
    ensures Ran(old(svc.Snapshot()), ValidatedTrace(old(svc.State()), VmOf(msg), cloud, resolve), ok, svc.Snapshot())
  {
    ghost var x0 := svc.Snapshot();
    var vm := VmOf(msg);
    var meta;
    ok, meta := IsAqManagedImage(svc, msg, cloud);
    ghost var x1 := svc.Snapshot();
    var ok2 := ok;
    if ok {
      ok2 := svc.Query(GetServerNetworks(vm));
    }
    RanThen(x0, [GetImage(vm)], ok, x1, [GetServerNetworks(vm)], ok2, svc.Snapshot());
    ghost var x2 := svc.Snapshot();
    ghost var rest: seq<Op> := [];
    var nets := cloud.networks;
    ok := ok2;
    if !LocalOnly(nets) {
      rest := ReconcileTrace(x0.reg, vm, cloud, resolve);
      if ok {
        ok2 := Reconcile(svc, vm, cloud, meta, resolve);
      }
    }
    RanThen(x0, [GetImage(vm)] + [GetServerNetworks(vm)], ok, x2, rest, ok2, svc.Snapshot());
    ok := ok2;
  }

  /** `handle_create_machine(msg)`. */
  method HandleCreateMachine(svc: Services, msg: RabbitMessage, cloud: Cloud, resolve: string -> string) returns (ok: bool)
    modifies svc
    ensures Ran(old(svc.Snapshot()), CreateTrace(old(svc.State()), msg, cloud, resolve), ok, svc.Snapshot())
  {
    ghost var x0 := svc.Snapshot();
    var valid;
    ok, valid := CheckMachineValid(svc, msg, cloud);
    ghost var x1 := svc.Snapshot();
    var ok2 := ok;
    ghost var rest: seq<Op> := [];
    if MachineValid(cloud) {
      rest := ValidatedTrace(x0.reg, VmOf(msg), cloud, resolve);
      if ok {
        ok2 := CreateValidated(svc, msg, cloud, resolve);
      }
    }
    RanThen(x0, ValidationTrace(VmOf(msg), cloud), ok, x1, rest, ok2, svc.Snapshot());
    ok := ok2;
  }

  // ---- handle_machine_delete, consume, on_message

  /** `handle_machine_delete(msg)`: delete_machine without network details. */
  method HandleMachineDelete(svc: Services, msg: RabbitMessage, resolve: string -> string) returns (ok: bool)
    modifies svc
    ensures Ran(old(svc.Snapshot()), DeleteWorkflowTrace(old(svc.State()), msg, resolve), ok, svc.Snapshot())
  {
    ok := DeleteMachine(svc, VmOf(msg), None, resolve);
  }

  /** `consume(msg)`: run the workflow the event type routes to; raise for any other type. */
  method Consume(svc: Services, msg: RabbitMessage, cloud: Cloud, resolve: string -> string) returns (st: Status)
    modifies svc
    ensures Route(msg.eventType) == NoHandler ==>
              st == Raised(UnsupportedMessageType(msg.eventType)) && svc.Snapshot() == old(svc.Snapshot())
    ensures Route(msg.eventType) != NoHandler ==>
              Ran(old(svc.Snapshot()), ConsumeTrace(old(svc.State()), msg, cloud, resolve), st.Completed?, svc.Snapshot())
              && (st.Raised? ==> st.error == RemoteError)
  {
    var ok;
    if msg.eventType == SUPPORTED_MESSAGE_TYPES["create"] {
      ok := HandleCreateMachine(svc, msg, cloud, resolve);
    } else if msg.eventType == SUPPORTED_MESSAGE_TYPES["delete"] {
      ok := HandleMachineDelete(svc, msg, resolve);
    } else {
      return Raised(UnsupportedMessageType(msg.eventType));
    }
    st := if ok then Completed else Raised(RemoteError);
  }

  /** `on_message(delivery)`: drop and acknowledge unsupported event types; otherwise
      decode, consume, and acknowledge only once consume has returned normally. */
  method OnMessage(svc: Services, d: Delivery, cloud: Cloud, resolve: string -> string) returns (st: Status)
    modifies svc
    ensures d.eventType !in SUPPORTED_MESSAGE_TYPES.Values ==>
              st == Completed && svc.log == old(svc.log) + [Ack]
              && svc.State() == old(svc.State()) && svc.failAt == old(svc.failAt)
    ensures d.eventType in SUPPORTED_MESSAGE_TYPES.Values && d.body.None? ==>
              st == Raised(DecodeError) && svc.Snapshot() == old(svc.Snapshot())
    ensures d.eventType in SUPPORTED_MESSAGE_TYPES.Values && d.body.Some? ==>
              var msg := d.body.value;
              var t := ConsumeTrace(old(svc.State()), msg, cloud, resolve);
              var off := FaultOffset(old(svc.failAt), |old(svc.log)|, |t|);
              && (Route(msg.eventType) == NoHandler ==>
                    st == Raised(UnsupportedMessageType(msg.eventType)) && svc.Snapshot() == old(svc.Snapshot()))
              && (Route(msg.eventType) != NoHandler ==>
                    && (st.Completed? <==> off.None?)
                    && svc.log == old(svc.log) + Issued(t, off) + (if st.Completed? then [Ack] else [])
                    && svc.State() == Apply(old(svc.State()), Issued(t, off)))
    ensures Acks(svc.log) == Acks(old(svc.log)) + (if st.Completed? then 1 else 0)
  {
    ghost var log0 := svc.log;
    ghost var r0 := svc.State();
    ghost var failAt0 := svc.failAt;
    if d.eventType !in SUPPORTED_MESSAGE_TYPES.Values {
      svc.Acknowledge();
      ConsumeProperties.AcksAppend(log0, [Ack]);
      assert [Ack][..0] == [];
      return Completed;
    }
    if d.body.None? {
      return Raised(DecodeError);
    }
    st := Consume(svc, d.body.value, cloud, resolve);
    if st.Completed? {
      svc.Acknowledge();
    }
    if Route(d.body.value.eventType) != NoHandler {
      ghost var t := ConsumeTrace(r0, d.body.value, cloud, resolve);
      ConsumeProperties.ConsumeUnacked(r0, d.body.value, cloud, resolve);
      ConsumeProperties.AckOnCompletion(log0, t, FaultOffset(failAt0, |log0|, |t|), st.Completed?);
    }
  }
}
