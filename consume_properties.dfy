/** Properties of `consume` and `on_message`: every routed workflow keeps the registry
    consistent whichever call raises, when it meets the interfaces-first rule, and a
    message is acknowledged once and only when handling returns normally. */
module ConsumeProperties {
  import opened Remote
  import opened Workflow
  import opened Invariants
  import opened DeleteProperties
  import opened CreateProperties

  // ---- acknowledgements

  /** No acknowledgement among the calls. */
  predicate Unacked(t: seq<Op>)
  {
    forall i :: 0 <= i < |t| ==> t[i] != Ack
  }

  lemma {:induction false} AcksAppend(a: seq<Op>, b: seq<Op>)
    ensures Acks(a + b) == Acks(a) + Acks(b)
    decreases |b|
  {
    if b == [] {
      assert a + b == a;
    } else {
      var b' := b[..|b| - 1];
      assert (a + b)[..|a + b| - 1] == a + b';
      AcksAppend(a, b');
    }
  }

  lemma {:induction false} AcksNone(t: seq<Op>)
    requires Unacked(t)
    ensures Acks(t) == 0
    decreases |t|
  {
    if t != [] {
      AcksNone(t[..|t| - 1]);
    }
  }

  lemma UnackedAppend(a: seq<Op>, b: seq<Op>)
    requires Unacked(a) && Unacked(b)
    ensures Unacked(a + b)
  {
    forall i | 0 <= i < |a + b|
      ensures (a + b)[i] != Ack
    {
      if i >= |a| {
        assert (a + b)[i] == b[i - |a|];
      }
    }
  }

  /** Registry calls and name resolution are not acknowledgements. */
  lemma CallsUnacked(t: seq<Op>)
    requires ReconcilerCalls(t)
    ensures Unacked(t)
  {
    forall i | 0 <= i < |t|
      ensures t[i] != Ack
    {
      assert IsRegistryCall(t[i]) || t[i].Resolve?;
    }
  }

  lemma ProvisionUnacked(r: Reg, vm: VmData, nets: seq<Address>, meta: Option<Metadata>)
    ensures Unacked(ProvisionTrace(r, vm, nets, meta))
  {
    assert ReconcilerCalls(ProvisionTrace(r, vm, nets, meta));
    CallsUnacked(ProvisionTrace(r, vm, nets, meta));
  }

  lemma TagBackUnacked(r: Reg, vm: VmData, nets: seq<Address>, cloud: Cloud)
    ensures Unacked(TagBackTrace(r, vm, nets, cloud))
  {
  }

  lemma PreambleUnacked(vm: VmData)
    ensures Unacked(Preamble(vm))
  {
    assert Preamble(vm) == [CheckMachineExists(vm), GetImage(vm), GetImage(vm), GetServerNetworks(vm)];
  }

  /** Past both gates: registry calls, name resolution and VM queries only. */
  lemma ReconcileUnacked(r: Reg, msg: RabbitMessage, cloud: Cloud, resolve: string -> string)
    requires MachineValid(cloud) && !LocalOnly(cloud.networks)
    ensures Unacked(CreateTrace(r, msg, cloud, resolve))
  {
    var vm := VmOf(msg);
    var cleared := ClearTrace(r, vm, cloud, resolve);
    var provision := ProvisionTrace(Apply(r, cleared), vm, cloud.networks, AqManagedImage(cloud.image));
    var tag := TagBackTrace(Apply(r, cleared + provision), vm, cloud.networks, cloud);
    CreateShape(r, msg, cloud, resolve);
    DeleteCallsOnly(r, vm, Some(cloud.networks[0]), resolve);
    CallsUnacked(cleared);
    ProvisionUnacked(Apply(r, cleared), vm, cloud.networks, AqManagedImage(cloud.image));
    TagBackUnacked(Apply(r, cleared + provision), vm, cloud.networks, cloud);
    PreambleUnacked(vm);
    UnackedAppend(provision, tag);
    UnackedAppend(cleared, provision + tag);
    UnackedAppend(Preamble(vm), cleared + (provision + tag));
  }

  /** The create workflow never acknowledges. */
  lemma CreateUnacked(r: Reg, msg: RabbitMessage, cloud: Cloud, resolve: string -> string)
    ensures Unacked(CreateTrace(r, msg, cloud, resolve))
  {
    var vm := VmOf(msg);
    if MachineValid(cloud) && !LocalOnly(cloud.networks) {
      ReconcileUnacked(r, msg, cloud, resolve);
    } else if !MachineValid(cloud) {
      assert CreateTrace(r, msg, cloud, resolve) == ValidationTrace(vm, cloud);
    } else {
      assert CreateTrace(r, msg, cloud, resolve)
             == ValidationTrace(vm, cloud) + [GetImage(vm)] + [GetServerNetworks(vm)];
    }
  }

  /** The workflows never acknowledge: only `on_message` does. */
  lemma ConsumeUnacked(r: Reg, msg: RabbitMessage, cloud: Cloud, resolve: string -> string)
    ensures Unacked(ConsumeTrace(r, msg, cloud, resolve))
  {
    match Route(msg.eventType)
    case CreateHandler =>
      CreateUnacked(r, msg, cloud, resolve);
    case DeleteHandler =>
      DeleteCallsOnly(r, VmOf(msg), None, resolve);
    case NoHandler =>
  }

  /** The log `on_message` leaves behind holds one acknowledgement more than before
      exactly when handling returned normally. */
  lemma AckOnCompletion(log: seq<Op>, t: seq<Op>, off: Option<nat>, done: bool)
    requires Unacked(t)
    ensures Acks(log + Issued(t, off) + (if done then [Ack] else []))
            == Acks(log) + (if done then 1 else 0)
  {
    var s := Issued(t, off);
    assert Unacked(s);
    AcksNone(s);
    AcksAppend(log, s);
    AcksAppend(log + s, if done then [Ack] else []);
    if done {
      assert [Ack][..0] == [];
    }
  }

  // ---- the registry stays consistent

  /** `consume` meets the interfaces-first rule exactly when the workflow it routes to
      does not reach an unbound machine with its primary interface attached. */
  lemma ConsumeDetachesFirst(r: Reg, msg: RabbitMessage, cloud: Cloud, resolve: string -> string)
    ensures DetachesFirst(r, ConsumeTrace(r, msg, cloud, resolve)) <==>
      match Route(msg.eventType)
      case CreateHandler => !CreateKeepsInterface(r, msg, cloud)
      case DeleteHandler => !KeepsInterface(r, VmOf(msg), None)
      case NoHandler => true
  {
    match Route(msg.eventType)
    case CreateHandler => CreateDetachesFirst(r, msg, cloud, resolve);
    case DeleteHandler => DeleteDetachesFirst(r, VmOf(msg), None, resolve);
    case NoHandler =>
  }

  /** From a consistent registry, the record rules accept every call `consume` issues,
      and the registry is consistent after it whichever call raises. */
  lemma ConsumeSound(r: Reg, msg: RabbitMessage, cloud: Cloud, resolve: string -> string, off: Option<nat>)
    requires Valid(r) && ResolvesToAddresses(resolve)
    ensures Sound(r, ConsumeTrace(r, msg, cloud, resolve))
    ensures Valid(Apply(r, Issued(ConsumeTrace(r, msg, cloud, resolve), off)))
  {
    match Route(msg.eventType)
    case CreateHandler =>
      CreateSound(r, msg, cloud, resolve, off);
    case DeleteHandler =>
      DeleteSound(r, VmOf(msg), None, resolve);
      SoundIssued(r, DeleteWorkflowTrace(r, msg, resolve), off);
    case NoHandler =>
  }
}
