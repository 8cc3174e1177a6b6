/** Properties of `handle_create_machine`: its gates, the order of what it deletes and
    creates, what it writes back onto the VM (and that the hostnames can be read back
    from the comma-joined value), and what it leaves in the registry. */
module CreateProperties {
  import opened Remote
  import opened Workflow
  import opened Invariants
  import opened DeleteProperties

  /** The machines filed under `serial`. */
  function MachinesFiled(r: Reg, serial: string): set<MachineName>
  {
    set m | m in r.machines && r.machines[m].serial == serial
  }

  /** The calls before the reconciliation when both gates pass: the existence check
      and image fetch of `check_machine_valid`, then the image and networks fetched
      again by the handler. */
  function Preamble(vm: VmData): seq<Op>
  {
    [CheckMachineExists(vm)] + [GetImage(vm)] + ([GetImage(vm)] + [GetServerNetworks(vm)])
  }

  /** The calls issued for the delete of stale records in the create workflow. */
  function ClearTrace(r: Reg, vm: VmData, cloud: Cloud, resolve: string -> string): seq<Op>
    requires !LocalOnly(cloud.networks)
  {
    DeleteTrace(r, vm, Some(cloud.networks[0]), resolve)
  }

  // ---- traces that leave the registry alone

  /** The checks and fetches before the reconciliation change nothing. */
  lemma PreambleInert(r: Reg, vm: VmData)
    ensures Mutations(Preamble(vm)) == [] && Apply(r, Preamble(vm)) == r
    ensures Valid(r) ==> Sound(r, Preamble(vm))
    ensures forall i :: 0 <= i < |Preamble(vm)| ==>
      Preamble(vm)[i].CheckMachineExists? || Preamble(vm)[i].GetImage? || Preamble(vm)[i].GetServerNetworks?
  {
    assert Preamble(vm) == [CheckMachineExists(vm), GetImage(vm), GetImage(vm), GetServerNetworks(vm)];
    InertTrace(r, [CheckMachineExists(vm), GetImage(vm), GetImage(vm), GetServerNetworks(vm)]);
  }

  lemma {:induction false} MutationsNone(t: seq<Op>)
    requires forall i :: 0 <= i < |t| ==> !IsRegistryMutation(t[i])
    ensures Mutations(t) == []
    decreases |t|
  {
    if t != [] {
      MutationsNone(t[1..]);
    }
  }

  /** A trace without registry changes changes nothing, and the record rules accept it. */
  lemma InertTrace(r: Reg, t: seq<Op>)
    requires forall i :: 0 <= i < |t| ==> !IsRegistryMutation(t[i])
    ensures Mutations(t) == [] && Apply(r, t) == r
    ensures Valid(r) ==> Sound(r, t)
  {
    MutationsNone(t);
    ApplyInert(r, t);
    forall k | 0 <= k <= |t|
      ensures Apply(r, t[..k]) == r
    {
      ApplyInert(r, t[..k]);
    }
    if Valid(r) {
      forall k | 0 <= k < |t|
        ensures SoundAt(r, t, k)
      {
        assert Apply(r, t[..k]) == r && Apply(r, t[..k + 1]) == r;
      }
    }
  }

  // ---- add_aq_details_to_metadata

  lemma TagBackFacts(r: Reg, vm: VmData, nets: seq<Address>, cloud: Cloud)
    ensures var t := TagBackTrace(r, vm, nets, cloud);
      && Mutations(t) == [] && Apply(r, t) == r && (Valid(r) ==> Sound(r, t))
      && (forall i :: 0 <= i < |t| && t[i].UpdateMetadata? ==>
            cloud.existsAtTagBack && t[i] == UpdateMetadata(vm, AqDetails(nets, MachineBySerial(r, Serial(vm)))))
      && (cloud.existsAtTagBack ==> t[|t| - 1] == UpdateMetadata(vm, AqDetails(nets, MachineBySerial(r, Serial(vm)))))
      && (!cloud.existsAtTagBack ==> t == [CheckMachineExists(vm)])
  {
    InertTrace(r, TagBackTrace(r, vm, nets, cloud));
  }

  // ---- the HOSTNAMES value

  /** `s.split(sep)`: the pieces between separators; always at least one piece. */
  function Split(sep: char, s: string): (parts: seq<string>)
    ensures |parts| >= 1
    decreases |s|
  {
    if s == [] then [""]
    else
      var rest := Split(sep, s[1..]);
      if s[0] == sep then [""] + rest else [[s[0]] + rest[0]] + rest[1..]
  }

  lemma {:induction false} SplitPlain(sep: char, a: string)
    requires sep !in a
    ensures Split(sep, a) == [a]
    decreases |a|
  {
    if a != [] {
      SplitPlain(sep, a[1..]);
      assert [a[0]] + a[1..] == a;
    }
  }

  lemma {:induction false} SplitAt(sep: char, a: string, b: string)
    requires sep !in a
    ensures Split(sep, a + [sep] + b) == [a] + Split(sep, b)
    decreases |a|
  {
    var s := a + [sep] + b;
    if a == [] {
      assert s[1..] == b;
    } else {
      assert s[1..] == a[1..] + [sep] + b;
      SplitAt(sep, a[1..], b);
      assert [s[0]] + a[1..] == a;
    }
  }

  /** Splitting a comma-joined list gives the list back, provided it is not empty
      and no element holds a comma. */
  lemma {:induction false} JoinSplit(xs: seq<string>)
    requires |xs| >= 1
    requires forall i :: 0 <= i < |xs| ==> ',' !in xs[i]
    ensures Split(',', Join(",", xs)) == xs
    decreases |xs|
  {
    if |xs| == 1 {
      SplitPlain(',', xs[0]);
    } else {
      JoinSplit(xs[1..]);
      SplitAt(',', xs[0], Join(",", xs[1..]));
      assert xs[0] + "," + Join(",", xs[1..]) == xs[0] + [','] + Join(",", xs[1..]);
      assert [xs[0]] + xs[1..] == xs;
    }
  }

  /** The tag-back's HOSTNAMES value lists every hostname of the VM, in order, when
      the VM has at least one address and no hostname holds a comma. */
  lemma HostnamesReadBack(nets: seq<Address>, machine: Option<MachineName>)
    requires |nets| >= 1
    requires forall i :: 0 <= i < |nets| ==> ',' !in nets[i].hostname
    ensures var v := AqDetails(nets, machine)["HOSTNAMES"];
      v.Text? && |Split(',', v.text)| == |nets|
      && forall i :: 0 <= i < |nets| ==> Split(',', v.text)[i] == nets[i].hostname
  {
    JoinSplit(Hostnames(nets));
  }

  // ---- the registry creates

  lemma ProvisionApply(r: Reg, vm: VmData, nets: seq<Address>, meta: Option<Metadata>)
    ensures Apply(r, ProvisionTrace(r, vm, nets, meta))
            == WithHost(WithNics(WithMachine(r, vm), r.nextId, nets), nets, r.nextId)
    ensures Mutations(ProvisionTrace(r, vm, nets, meta)) == ProvisionTrace(r, vm, nets, meta)
  {
    var m := r.nextId;
    var p1 := [CreateMachine(vm)];
    var p2 := p1 + [AddMachineNics(m, nets)];
    var p3 := p2 + [SetInterfaceBootable(m, "eth0")];
    var p4 := p3 + [CreateHost(meta, nets, m)];
    var p5 := p4 + [AqManage(nets, meta)];
    var p6 := p5 + [AqMake(nets, meta)];
    assert ProvisionTrace(r, vm, nets, meta) == p6;
    var r1 := WithMachine(r, vm);
    var r2 := WithNics(r1, m, nets);
    var r4 := WithHost(r2, nets, m);
    EffectCreates(r, vm, m, nets, meta);
    EffectCreates(r1, vm, m, nets, meta);
    EffectCreates(r2, vm, m, nets, meta);
    EffectCreates(r4, vm, m, nets, meta);
    ApplyOne(r, CreateMachine(vm));
    ApplyAppend(r, p1, [AddMachineNics(m, nets)]);
    ApplyOne(r1, AddMachineNics(m, nets));
    ApplyAppend(r, p2, [SetInterfaceBootable(m, "eth0")]);
    ApplyOne(r2, SetInterfaceBootable(m, "eth0"));
    ApplyAppend(r, p3, [CreateHost(meta, nets, m)]);
    ApplyOne(r2, CreateHost(meta, nets, m));
    ApplyAppend(r, p4, [AqManage(nets, meta)]);
    ApplyOne(r4, AqManage(nets, meta));
    ApplyAppend(r, p5, [AqMake(nets, meta)]);
    ApplyOne(r4, AqMake(nets, meta));
    ProvisionMutations(r, vm, nets, meta);
  }

  lemma ProvisionMutations(r: Reg, vm: VmData, nets: seq<Address>, meta: Option<Metadata>)
    ensures Mutations(ProvisionTrace(r, vm, nets, meta)) == ProvisionTrace(r, vm, nets, meta)
  {
    var m := r.nextId;
    var p1 := [CreateMachine(vm)];
    var p2 := p1 + [AddMachineNics(m, nets)];
    var p3 := p2 + [SetInterfaceBootable(m, "eth0")];
    var p4 := p3 + [CreateHost(meta, nets, m)];
    var p5 := p4 + [AqManage(nets, meta)];
    var p6 := p5 + [AqMake(nets, meta)];
    assert ProvisionTrace(r, vm, nets, meta) == p6;
    DeletionsOne(CreateMachine(vm));
    DeletionsOne(AddMachineNics(m, nets));
    DeletionsOne(SetInterfaceBootable(m, "eth0"));
    DeletionsOne(CreateHost(meta, nets, m));
    DeletionsOne(AqManage(nets, meta));
    DeletionsOne(AqMake(nets, meta));
    MutationsAppend(p1, [AddMachineNics(m, nets)]);
    MutationsAppend(p2, [SetInterfaceBootable(m, "eth0")]);
    MutationsAppend(p3, [CreateHost(meta, nets, m)]);
    MutationsAppend(p4, [AqManage(nets, meta)]);
    MutationsAppend(p5, [AqMake(nets, meta)]);
  }

  /** The creates file the new machine under the VM's serial, with the registry's next
      name, and bind it to a host of the VM's primary hostname. */
  lemma ProvisionFrame(r: Reg, vm: VmData, nets: seq<Address>, meta: Option<Metadata>)
    requires !LocalOnly(nets)
    ensures var r' := Apply(r, ProvisionTrace(r, vm, nets, meta));
      && r'.serials == r.serials[Serial(vm) := r.nextId]
      && r'.nextId == r.nextId + 1
      && r.nextId in r'.machines && r'.machines[r.nextId].host == Some(nets[0].hostname)
      && r'.machines[r.nextId].serial == Serial(vm)
      && r'.hosts == r.hosts + {nets[0].hostname}
      && r'.machines.Keys == r.machines.Keys + {r.nextId}
  {
    ProvisionApply(r, vm, nets, meta);
  }

  /** The machine record: accepted, and consistent after it. */
  lemma MachineStep(r: Reg, vm: VmData)
    requires Valid(r) && Serial(vm) !in r.serials
    ensures Sound(r, [CreateMachine(vm)]) && Apply(r, [CreateMachine(vm)]) == WithMachine(r, vm)
    ensures Valid(WithMachine(r, vm))
  {
    EffectCreates(r, vm, r.nextId, [], None);
    ValidEffect(r, CreateMachine(vm));
    SoundSnoc(r, [], CreateMachine(vm), WithMachine(r, vm));
    assert [] + [CreateMachine(vm)] == [CreateMachine(vm)];
  }

  /** The NICs of the machine just filed: accepted, and consistent after them. */
  lemma NicsStep(r: Reg, p: seq<Op>, m: MachineName, nets: seq<Address>, r1: Reg)
    requires Sound(r, p) && Apply(r, p) == r1 && Valid(r1) && m in r1.machines
    ensures Sound(r, p + [AddMachineNics(m, nets)]) && Apply(r, p + [AddMachineNics(m, nets)]) == WithNics(r1, m, nets)
    ensures Valid(WithNics(r1, m, nets))
    ensures |nets| > 0 ==> "eth0" in WithNics(r1, m, nets).machines[m].details
  {
    EffectCreates(r1, VmData("", ""), m, nets, None);
    ValidEffect(r1, AddMachineNics(m, nets));
    SoundSnoc(r, p, AddMachineNics(m, nets), WithNics(r1, m, nets));
  }

  /** Marking the interface bootable: accepted, and nothing changes. */
  lemma BootStep(r: Reg, p: seq<Op>, m: MachineName, r2: Reg)
    requires Sound(r, p) && Apply(r, p) == r2 && Valid(r2)
    requires m in r2.machines && "eth0" in r2.machines[m].details
    ensures Sound(r, p + [SetInterfaceBootable(m, "eth0")]) && Apply(r, p + [SetInterfaceBootable(m, "eth0")]) == r2
  {
    EffectCreates(r2, VmData("", ""), m, [], None);
    SoundSnoc(r, p, SetInterfaceBootable(m, "eth0"), r2);
  }

  /** The machine, its NICs and its bootable interface: accepted, and consistent after
      each call. */
  lemma MachineCreatesSound(r: Reg, vm: VmData, nets: seq<Address>)
    requires Valid(r) && Serial(vm) !in r.serials && |nets| > 0
    ensures var m := r.nextId;
      var t := [CreateMachine(vm)] + [AddMachineNics(m, nets)] + [SetInterfaceBootable(m, "eth0")];
      Sound(r, t) && Apply(r, t) == WithNics(WithMachine(r, vm), m, nets)
  {
    var m := r.nextId;
    var r1 := WithMachine(r, vm);
    MachineStep(r, vm);
    NicsStep(r, [CreateMachine(vm)], m, nets, r1);
    BootStep(r, [CreateMachine(vm)] + [AddMachineNics(m, nets)], m, WithNics(r1, m, nets));
  }

  /** From a consistent registry with nothing filed under the VM's serial and no host
      of its primary hostname, the record rules accept the creates, and they keep the
      registry consistent. */
  lemma ProvisionSound(r: Reg, vm: VmData, nets: seq<Address>, meta: Option<Metadata>)
    requires Valid(r) && Serial(vm) !in r.serials
    requires !LocalOnly(nets) && nets[0].hostname !in r.hosts
    ensures Sound(r, ProvisionTrace(r, vm, nets, meta))
  {
    var m := r.nextId;
    var p3 := [CreateMachine(vm)] + [AddMachineNics(m, nets)] + [SetInterfaceBootable(m, "eth0")];
    MachineCreatesSound(r, vm, nets);
    var r2 := Apply(r, p3);
    SoundValid(r, p3);
    var r4 := WithHost(r2, nets, m);
    EffectCreates(r2, vm, m, nets, meta);
    EffectCreates(r4, vm, m, nets, meta);
    ValidEffect(r2, CreateHost(meta, nets, m));
    var p4 := p3 + [CreateHost(meta, nets, m)];
    var p5 := p4 + [AqManage(nets, meta)];
    SoundSnoc(r, p3, CreateHost(meta, nets, m), r4);
    SoundSnoc(r, p4, AqManage(nets, meta), r4);
    SoundSnoc(r, p5, AqMake(nets, meta), r4);
  }

  // ---- handle_create_machine

  /** The calls of the create workflow once both gates pass, in four parts. */
  lemma CreateShape(r: Reg, msg: RabbitMessage, cloud: Cloud, resolve: string -> string)
    requires MachineValid(cloud) && !LocalOnly(cloud.networks)
    ensures var vm := VmOf(msg);
      var cleared := ClearTrace(r, vm, cloud, resolve);
      var provision := ProvisionTrace(Apply(r, cleared), vm, cloud.networks, AqManagedImage(cloud.image));
      CreateTrace(r, msg, cloud, resolve)
      == Preamble(vm) + (cleared + (provision + TagBackTrace(Apply(r, cleared + provision), vm, cloud.networks, cloud)))
  {
    var vm := VmOf(msg);
    var cleared := ClearTrace(r, vm, cloud, resolve);
    var provision := ProvisionTrace(Apply(r, cleared), vm, cloud.networks, AqManagedImage(cloud.image));
    var tag := TagBackTrace(Apply(r, cleared + provision), vm, cloud.networks, cloud);
    var a := [CheckMachineExists(vm)] + [GetImage(vm)];
    var b := [GetImage(vm)] + [GetServerNetworks(vm)];
    assert ValidationTrace(vm, cloud) == a;
    assert ReconcileTrace(r, vm, cloud, resolve) == cleared + provision + tag;
    assert ValidatedTrace(r, vm, cloud, resolve) == b + (cleared + provision + tag);
    assert CreateTrace(r, msg, cloud, resolve) == a + (b + (cleared + provision + tag));
    SeqAssoc(cleared, provision, tag);
    SeqAssoc(a, b, cleared + (provision + tag));
  }

  /** The validation gate and the hostname gate: when either stops the workflow, no
      registry call and no name resolution is issued at all, and a VM already gone
      costs one existence check. Past both gates a machine is created. */
  lemma CreateGates(r: Reg, msg: RabbitMessage, cloud: Cloud, resolve: string -> string)
    ensures !cloud.existsAtValidation ==> CreateTrace(r, msg, cloud, resolve) == [CheckMachineExists(VmOf(msg))]
    ensures !MachineValid(cloud) || LocalOnly(cloud.networks) ==>
      var t := CreateTrace(r, msg, cloud, resolve);
      forall i :: 0 <= i < |t| ==> !IsRegistryCall(t[i]) && !t[i].Resolve?
    ensures CreateMachine(VmOf(msg)) in CreateTrace(r, msg, cloud, resolve)
            <==> MachineValid(cloud) && !LocalOnly(cloud.networks)
  {
    var t := CreateTrace(r, msg, cloud, resolve);
    if MachineValid(cloud) && !LocalOnly(cloud.networks) {
      var vm := VmOf(msg);
      var cleared := ClearTrace(r, vm, cloud, resolve);
      var provision := ProvisionTrace(Apply(r, cleared), vm, cloud.networks, AqManagedImage(cloud.image));
      CreateShape(r, msg, cloud, resolve);
      assert provision[0] == CreateMachine(vm);
      assert t[|Preamble(vm)| + |cleared|] == CreateMachine(vm);
    }
  }

  /** Past both gates, what the create workflow changes, in order: the deletions of
      `delete_machine` for the VM and its primary address, read off the registry it
      starts from, then the creates, all naming the registry's next machine. */
  lemma CreateMutations(r: Reg, msg: RabbitMessage, cloud: Cloud, resolve: string -> string)
    requires MachineValid(cloud) && !LocalOnly(cloud.networks)
    ensures Mutations(CreateTrace(r, msg, cloud, resolve))
      == DeleteOrder(r, VmOf(msg), Some(cloud.networks[0]), resolve)
         + ProvisionTrace(r, VmOf(msg), cloud.networks, AqManagedImage(cloud.image))
  {
    var vm := VmOf(msg);
    var meta := AqManagedImage(cloud.image);
    var cleared := ClearTrace(r, vm, cloud, resolve);
    var r1 := Apply(r, cleared);
    var provision := ProvisionTrace(r1, vm, cloud.networks, meta);
    var tag := TagBackTrace(Apply(r, cleared + provision), vm, cloud.networks, cloud);
    CreateShape(r, msg, cloud, resolve);
    PreambleInert(r, vm);
    ProvisionMutations(r1, vm, cloud.networks, meta);
    TagBackFacts(Apply(r, cleared + provision), vm, cloud.networks, cloud);
    MutationsAppend(provision, tag);
    assert Mutations(provision + tag) == provision;
    DeleteDeletions(r, vm, Some(cloud.networks[0]), resolve);
    MutationsAppend(cleared, provision + tag);
    MutationsAppend(Preamble(vm), cleared + (provision + tag));
    assert Mutations(CreateTrace(r, msg, cloud, resolve))
           == DeleteOrder(r, vm, Some(cloud.networks[0]), resolve) + provision;
    DeleteClears(r, vm, Some(cloud.networks[0]), resolve);
    ProvisionSameName(r, r1, vm, cloud.networks, meta);
  }

  /** The creates depend on the registry only through the next machine name. */
  lemma ProvisionSameName(r: Reg, r1: Reg, vm: VmData, nets: seq<Address>, meta: Option<Metadata>)
    requires r1.nextId == r.nextId
    ensures ProvisionTrace(r1, vm, nets, meta) == ProvisionTrace(r, vm, nets, meta)
  {
  }

  /** After the stale records are cleared and the creates are issued, the VM's serial
      files the machine just created, named by the registry's next name at the start. */
  lemma FiledAfterProvision(r: Reg, vm: VmData, cloud: Cloud, resolve: string -> string)
    requires !LocalOnly(cloud.networks)
    ensures var cleared := ClearTrace(r, vm, cloud, resolve);
      var provision := ProvisionTrace(Apply(r, cleared), vm, cloud.networks, AqManagedImage(cloud.image));
      MachineBySerial(Apply(r, cleared + provision), Serial(vm)) == Some(r.nextId)
  {
    var cleared := ClearTrace(r, vm, cloud, resolve);
    var r1 := Apply(r, cleared);
    var provision := ProvisionTrace(r1, vm, cloud.networks, AqManagedImage(cloud.image));
    DeleteClears(r, vm, Some(cloud.networks[0]), resolve);
    ProvisionFrame(r1, vm, cloud.networks, AqManagedImage(cloud.image));
    ApplyAppend(r, cleared, provision);
  }

  /** Nothing before the tag-back writes onto the VM. */
  lemma NoWriteBeforeTagBack(r: Reg, vm: VmData, cloud: Cloud, resolve: string -> string)
    requires !LocalOnly(cloud.networks)
    ensures var cleared := ClearTrace(r, vm, cloud, resolve);
      var pre := Preamble(vm) + (cleared + ProvisionTrace(Apply(r, cleared), vm, cloud.networks, AqManagedImage(cloud.image)));
      forall i :: 0 <= i < |pre| ==> !pre[i].UpdateMetadata?
  {
    var cleared := ClearTrace(r, vm, cloud, resolve);
    var provision := ProvisionTrace(Apply(r, cleared), vm, cloud.networks, AqManagedImage(cloud.image));
    DeleteCallsOnly(r, vm, Some(cloud.networks[0]), resolve);
    ProvisionCallsOnly(Apply(r, cleared), vm, cloud.networks, AqManagedImage(cloud.image));
    ReconcilerCallsAppend(cleared, provision);
    PreambleInert(Apply(r, cleared), vm);
    NoWriteAppend(Preamble(vm), cleared + provision);
  }

  /** Neither piece writes VM metadata, so neither does the whole. */
  lemma NoWriteAppend(a: seq<Op>, b: seq<Op>)
    requires forall i :: 0 <= i < |a| ==> !a[i].UpdateMetadata?
    requires ReconcilerCalls(b)
    ensures forall i :: 0 <= i < |a + b| ==> !(a + b)[i].UpdateMetadata?
  {
    forall i | 0 <= i < |a + b|
      ensures !(a + b)[i].UpdateMetadata?
    {
      if i >= |a| {
        assert (a + b)[i] == b[i - |a|];
        assert IsRegistryCall(b[i - |a|]) || b[i - |a|].Resolve?;
      }
    }
  }

  /** Past both gates, the only write onto the VM is the tag-back's, and it records
      the machine just created. */
  lemma TagBackPassed(r: Reg, msg: RabbitMessage, cloud: Cloud, resolve: string -> string)
    requires MachineValid(cloud) && !LocalOnly(cloud.networks)
    ensures var t := CreateTrace(r, msg, cloud, resolve);
      && (forall i :: 0 <= i < |t| && t[i].UpdateMetadata? ==>
            cloud.existsAtTagBack && t[i] == UpdateMetadata(VmOf(msg), AqDetails(cloud.networks, Some(r.nextId))))
      && (cloud.existsAtTagBack ==>
            t[|t| - 1] == UpdateMetadata(VmOf(msg), AqDetails(cloud.networks, Some(r.nextId))))
  {
    CreateShape(r, msg, cloud, resolve);
    TagBackLast(r, VmOf(msg), cloud, resolve);
  }

  lemma TagBackLast(r: Reg, vm: VmData, cloud: Cloud, resolve: string -> string)
    requires !LocalOnly(cloud.networks)
    ensures var cleared := ClearTrace(r, vm, cloud, resolve);
      var provision := ProvisionTrace(Apply(r, cleared), vm, cloud.networks, AqManagedImage(cloud.image));
      var t := Preamble(vm) + (cleared + (provision + TagBackTrace(Apply(r, cleared + provision), vm, cloud.networks, cloud)));
      var w := UpdateMetadata(vm, AqDetails(cloud.networks, Some(r.nextId)));
      && (forall i :: 0 <= i < |t| && t[i].UpdateMetadata? ==> cloud.existsAtTagBack && t[i] == w)
      && (cloud.existsAtTagBack ==> t[|t| - 1] == w)
  {
    var cleared := ClearTrace(r, vm, cloud, resolve);
    var provision := ProvisionTrace(Apply(r, cleared), vm, cloud.networks, AqManagedImage(cloud.image));
    var r2 := Apply(r, cleared + provision);
    var tag := TagBackTrace(r2, vm, cloud.networks, cloud);
    var w := UpdateMetadata(vm, AqDetails(cloud.networks, Some(r.nextId)));
    FiledAfterProvision(r, vm, cloud, resolve);
    TagBackFacts(r2, vm, cloud.networks, cloud);
    DeleteCallsOnly(r, vm, Some(cloud.networks[0]), resolve);
    CallsDoNotWrite(cleared);
    ProvisionCallsOnly(Apply(r, cleared), vm, cloud.networks, AqManagedImage(cloud.image));
    CallsDoNotWrite(provision);
    PreambleInert(r, vm);
    WritesOnlyInTail(provision, tag, cloud.existsAtTagBack, w);
    WritesOnlyInTail(cleared, provision + tag, cloud.existsAtTagBack, w);
    WritesOnlyInTail(Preamble(vm), cleared + (provision + tag), cloud.existsAtTagBack, w);
  }

  /** Registry calls and name resolution write no VM metadata. */
  lemma CallsDoNotWrite(t: seq<Op>)
    requires ReconcilerCalls(t)
    ensures forall i :: 0 <= i < |t| ==> !t[i].UpdateMetadata?
  {
    forall i | 0 <= i < |t|
      ensures !t[i].UpdateMetadata?
    {
      assert IsRegistryCall(t[i]) || t[i].Resolve?;
    }
  }

  /** When only the tail writes VM metadata, and every write there is `w` and needs
      `ok`, the whole sequence says the same, and ends as the tail does. */
  lemma WritesOnlyInTail(pre: seq<Op>, tail: seq<Op>, ok: bool, w: Op)
    requires forall i :: 0 <= i < |pre| ==> !pre[i].UpdateMetadata?
    requires forall i :: 0 <= i < |tail| && tail[i].UpdateMetadata? ==> ok && tail[i] == w
    requires ok ==> |tail| > 0 && tail[|tail| - 1] == w
    ensures forall i :: 0 <= i < |pre + tail| && (pre + tail)[i].UpdateMetadata? ==> ok && (pre + tail)[i] == w
    ensures ok ==> (pre + tail)[|pre + tail| - 1] == w
  {
    forall i | 0 <= i < |pre + tail| && (pre + tail)[i].UpdateMetadata?
      ensures ok && (pre + tail)[i] == w
    {
      if i >= |pre| {
        assert (pre + tail)[i] == tail[i - |pre|];
      }
    }
    if ok {
      assert (pre + tail)[|pre + tail| - 1] == tail[|tail| - 1];
    }
  }

  /** The tag-back writes onto the VM only past both gates and only if the VM still
      exists; it is then the last call, and it records the hostnames, the success
      status and the machine just created. */
  lemma CreateTagBack(r: Reg, msg: RabbitMessage, cloud: Cloud, resolve: string -> string)
    ensures var t := CreateTrace(r, msg, cloud, resolve);
      forall i :: 0 <= i < |t| && t[i].UpdateMetadata? ==>
        && MachineValid(cloud) && !LocalOnly(cloud.networks) && cloud.existsAtTagBack
        && t[i] == UpdateMetadata(VmOf(msg), AqDetails(cloud.networks, Some(r.nextId)))
    ensures MachineValid(cloud) && !LocalOnly(cloud.networks) && cloud.existsAtTagBack ==>
      var t := CreateTrace(r, msg, cloud, resolve);
      t[|t| - 1] == UpdateMetadata(VmOf(msg), AqDetails(cloud.networks, Some(r.nextId)))
  {
    if MachineValid(cloud) && !LocalOnly(cloud.networks) {
      TagBackPassed(r, msg, cloud, resolve);
    } else {
      var t := CreateTrace(r, msg, cloud, resolve);
      if !MachineValid(cloud) {
        assert t == ValidationTrace(VmOf(msg), cloud);
      } else {
        assert t == ValidationTrace(VmOf(msg), cloud) + [GetImage(VmOf(msg))] + [GetServerNetworks(VmOf(msg))];
      }
    }
  }

  // ---- what the create workflow leaves in the registry

  /** The tag-back changes nothing, so the reconciliation ends where the creates do. */
  lemma ReconcileApply(r: Reg, vm: VmData, cloud: Cloud, resolve: string -> string)
    requires !LocalOnly(cloud.networks)
    ensures var cleared := ClearTrace(r, vm, cloud, resolve);
      var provision := ProvisionTrace(Apply(r, cleared), vm, cloud.networks, AqManagedImage(cloud.image));
      var tag := TagBackTrace(Apply(r, cleared + provision), vm, cloud.networks, cloud);
      Apply(r, cleared + (provision + tag)) == Apply(Apply(r, cleared), provision)
  {
    var cleared := ClearTrace(r, vm, cloud, resolve);
    var r1 := Apply(r, cleared);
    var provision := ProvisionTrace(r1, vm, cloud.networks, AqManagedImage(cloud.image));
    var r2 := Apply(r, cleared + provision);
    var tag := TagBackTrace(r2, vm, cloud.networks, cloud);
    ApplyAppend(r, cleared, provision);
    TagBackFacts(r2, vm, cloud.networks, cloud);
    ApplyAppend(r1, provision, tag);
    ApplyAppend(r, cleared, provision + tag);
  }

  /** From a consistent registry, the record rules accept every call of the
      reconciliation: the stale deletes leave nothing filed under the serial and no
      host of the primary hostname, so the creates are accepted in turn. Whether the
      interfaces-first rule holds too is `ReconcileDetachesFirst`. */
  lemma ReconcileSound(r: Reg, vm: VmData, cloud: Cloud, resolve: string -> string)
    requires Valid(r) && ResolvesToAddresses(resolve) && !LocalOnly(cloud.networks)
    ensures var cleared := ClearTrace(r, vm, cloud, resolve);
      var provision := ProvisionTrace(Apply(r, cleared), vm, cloud.networks, AqManagedImage(cloud.image));
      var tag := TagBackTrace(Apply(r, cleared + provision), vm, cloud.networks, cloud);
      Sound(r, cleared + (provision + tag))
  {
    var nets := cloud.networks;
    var cleared := ClearTrace(r, vm, cloud, resolve);
    var r1 := Apply(r, cleared);
    var provision := ProvisionTrace(r1, vm, nets, AqManagedImage(cloud.image));
    var r2 := Apply(r, cleared + provision);
    var tag := TagBackTrace(r2, vm, nets, cloud);
    DeleteSound(r, vm, Some(nets[0]), resolve);
    SoundValid(r, cleared);
    DeleteClears(r, vm, Some(nets[0]), resolve);
    ProvisionSound(r1, vm, nets, AqManagedImage(cloud.image));
    SoundValid(r1, provision);
    ApplyAppend(r, cleared, provision);
    TagBackFacts(r2, vm, nets, cloud);
    SoundAppend(r1, provision, tag);
    SoundAppend(r, cleared, provision + tag);
  }

  /** Past both gates the create workflow leaves the registry where the creates,
      issued after the stale deletes, leave it. */
  lemma CreateApply(r: Reg, msg: RabbitMessage, cloud: Cloud, resolve: string -> string)
    requires MachineValid(cloud) && !LocalOnly(cloud.networks)
    ensures var vm := VmOf(msg);
      var cleared := ClearTrace(r, vm, cloud, resolve);
      Apply(r, CreateTrace(r, msg, cloud, resolve))
      == Apply(Apply(r, cleared), ProvisionTrace(Apply(r, cleared), vm, cloud.networks, AqManagedImage(cloud.image)))
  {
    var vm := VmOf(msg);
    var cleared := ClearTrace(r, vm, cloud, resolve);
    var provision := ProvisionTrace(Apply(r, cleared), vm, cloud.networks, AqManagedImage(cloud.image));
    var tag := TagBackTrace(Apply(r, cleared + provision), vm, cloud.networks, cloud);
    CreateShape(r, msg, cloud, resolve);
    PreambleInert(r, vm);
    ApplyAppend(r, Preamble(vm), cleared + (provision + tag));
    ReconcileApply(r, vm, cloud, resolve);
  }

  /** Past both gates, from a consistent registry, the record rules accept every call
      of the create workflow. */
  lemma CreatePassedSound(r: Reg, msg: RabbitMessage, cloud: Cloud, resolve: string -> string)
    requires Valid(r) && ResolvesToAddresses(resolve)
    requires MachineValid(cloud) && !LocalOnly(cloud.networks)
    ensures Sound(r, CreateTrace(r, msg, cloud, resolve))
  {
    var vm := VmOf(msg);
    var cleared := ClearTrace(r, vm, cloud, resolve);
    var provision := ProvisionTrace(Apply(r, cleared), vm, cloud.networks, AqManagedImage(cloud.image));
    var tag := TagBackTrace(Apply(r, cleared + provision), vm, cloud.networks, cloud);
    CreateShape(r, msg, cloud, resolve);
    PreambleInert(r, vm);
    ReconcileSound(r, vm, cloud, resolve);
    SoundAppend(r, Preamble(vm), cleared + (provision + tag));
  }

  /** When a gate stops the create workflow, nothing in the registry changes. */
  lemma CreateStopped(r: Reg, msg: RabbitMessage, cloud: Cloud, resolve: string -> string)
    requires !MachineValid(cloud) || LocalOnly(cloud.networks)
    ensures Mutations(CreateTrace(r, msg, cloud, resolve)) == []
    ensures Apply(r, CreateTrace(r, msg, cloud, resolve)) == r
    ensures Valid(r) ==> Sound(r, CreateTrace(r, msg, cloud, resolve))
  {
    var t := CreateTrace(r, msg, cloud, resolve);
    var vm := VmOf(msg);
    if !MachineValid(cloud) {
      assert t == ValidationTrace(vm, cloud);
    } else {
      assert t == ValidationTrace(vm, cloud) + [GetImage(vm)] + [GetServerNetworks(vm)];
    }
    InertTrace(r, t);
  }

  /** From a consistent registry, the record rules accept every call of the create
      workflow and the registry stays consistent, whichever call raises. Whether the
      interfaces-first rule holds too is `CreateDetachesFirst`. */
  lemma CreateSound(r: Reg, msg: RabbitMessage, cloud: Cloud, resolve: string -> string, off: Option<nat>)
    requires Valid(r) && ResolvesToAddresses(resolve)
    ensures Sound(r, CreateTrace(r, msg, cloud, resolve))
    ensures Valid(Apply(r, Issued(CreateTrace(r, msg, cloud, resolve), off)))
  {
    if MachineValid(cloud) && !LocalOnly(cloud.networks) {
      CreatePassedSound(r, msg, cloud, resolve);
    } else {
      CreateStopped(r, msg, cloud, resolve);
    }
    SoundIssued(r, CreateTrace(r, msg, cloud, resolve), off);
  }

  /** After the create workflow completes past both gates, exactly one machine is
      filed under the VM's serial: the one just created, bound to a host of the VM's
      primary hostname, and no other machine is bound to that host. */
  lemma CreateOneMachine(r: Reg, msg: RabbitMessage, cloud: Cloud, resolve: string -> string)
    requires Valid(r) && ResolvesToAddresses(resolve)
    requires MachineValid(cloud) && !LocalOnly(cloud.networks)
    ensures var r' := Apply(r, CreateTrace(r, msg, cloud, resolve));
      var h := cloud.networks[0].hostname;
      && Valid(r')
      && MachinesFiled(r', Serial(VmOf(msg))) == {r.nextId}
      && r'.machines[r.nextId].host == Some(h) && h in r'.hosts
      && (forall m :: m in r'.machines && r'.machines[m].host == Some(h) ==> m == r.nextId)
      && r'.nextId == r.nextId + 1
  {
    var vm := VmOf(msg);
    var cleared := ClearTrace(r, vm, cloud, resolve);
    var r1 := Apply(r, cleared);
    var r' := Apply(r, CreateTrace(r, msg, cloud, resolve));
    CreateSound(r, msg, cloud, resolve, None);
    SoundValid(r, CreateTrace(r, msg, cloud, resolve));
    CreateApply(r, msg, cloud, resolve);
    DeleteClears(r, vm, Some(cloud.networks[0]), resolve);
    ProvisionFrame(r1, vm, cloud.networks, AqManagedImage(cloud.image));
    FiledOnce(r', Serial(vm), r.nextId);
    HostOnce(r', cloud.networks[0].hostname, r.nextId);
  }

  /** In a consistent registry, the machine a serial is filed under is the only
      machine holding that serial. */
  lemma FiledOnce(r: Reg, serial: string, m: MachineName)
    requires Valid(r) && serial in r.serials && r.serials[serial] == m
    ensures MachinesFiled(r, serial) == {m}
  {
  }

  /** In a consistent registry, a host is bound to one machine at most. */
  lemma HostOnce(r: Reg, h: string, m: MachineName)
    requires Valid(r) && m in r.machines && r.machines[m].host == Some(h)
    ensures forall m' :: m' in r.machines && r.machines[m'].host == Some(h) ==> m' == m
  {
  }

  // ---- the interfaces-first rule

  /** Past both gates, the stale delete of the create workflow reaches the machine
      filed under the serial unbound and with its primary interface attached. */
  predicate CreateKeepsInterface(r: Reg, msg: RabbitMessage, cloud: Cloud)
  {
    MachineValid(cloud) && !LocalOnly(cloud.networks) && KeepsInterface(r, VmOf(msg), Some(cloud.networks[0]))
  }

  /** Provisioning only talks to the registry. */
  lemma ProvisionCallsOnly(r: Reg, vm: VmData, nets: seq<Address>, meta: Option<Metadata>)
    ensures ReconcilerCalls(ProvisionTrace(r, vm, nets, meta))
  {
    var m := r.nextId;
    assert ProvisionTrace(r, vm, nets, meta)
      == [CreateMachine(vm), AddMachineNics(m, nets), SetInterfaceBootable(m, "eth0"),
          CreateHost(meta, nets, m), AqManage(nets, meta), AqMake(nets, meta)];
  }

  /** Provisioning deletes no machine. */
  lemma ProvisionKeepsMachines(r: Reg, vm: VmData, nets: seq<Address>, meta: Option<Metadata>)
    ensures forall x :: DeleteMachine(x) !in ProvisionTrace(r, vm, nets, meta)
  {
    var m := r.nextId;
    assert ProvisionTrace(r, vm, nets, meta)
      == [CreateMachine(vm), AddMachineNics(m, nets), SetInterfaceBootable(m, "eth0"),
          CreateHost(meta, nets, m), AqManage(nets, meta), AqMake(nets, meta)];
  }

  /** The reconciliation meets the interfaces-first rule exactly when its stale delete
      does not reach an unbound machine with its primary interface attached. */
  lemma ReconcileDetachesFirst(r: Reg, vm: VmData, cloud: Cloud, resolve: string -> string)
    requires !LocalOnly(cloud.networks)
    ensures var cleared := ClearTrace(r, vm, cloud, resolve);
      var provision := ProvisionTrace(Apply(r, cleared), vm, cloud.networks, AqManagedImage(cloud.image));
      var tag := TagBackTrace(Apply(r, cleared + provision), vm, cloud.networks, cloud);
      DetachesFirst(r, cleared + (provision + tag)) <==> !KeepsInterface(r, vm, Some(cloud.networks[0]))
  {
    var cleared := ClearTrace(r, vm, cloud, resolve);
    var provision := ProvisionTrace(Apply(r, cleared), vm, cloud.networks, AqManagedImage(cloud.image));
    var tag := TagBackTrace(Apply(r, cleared + provision), vm, cloud.networks, cloud);
    DeleteDetachesFirst(r, vm, Some(cloud.networks[0]), resolve);
    ProvisionKeepsMachines(Apply(r, cleared), vm, cloud.networks, AqManagedImage(cloud.image));
    TagBackFacts(Apply(r, cleared + provision), vm, cloud.networks, cloud);
    DetachesFirstVacuous(Apply(r, cleared), provision + tag);
    DetachesFirstAppend(r, cleared, provision + tag);
  }

  /** The create workflow meets the interfaces-first rule exactly when it does not pass
      both gates only to reach an unbound machine with its primary interface attached. */
  lemma CreateDetachesFirst(r: Reg, msg: RabbitMessage, cloud: Cloud, resolve: string -> string)
    ensures DetachesFirst(r, CreateTrace(r, msg, cloud, resolve)) <==> !CreateKeepsInterface(r, msg, cloud)
  {
    if MachineValid(cloud) && !LocalOnly(cloud.networks) {
      PassedDetachesFirst(r, msg, cloud, resolve);
    } else {
      GatedDetachesFirst(r, msg, cloud, resolve);
    }
  }

  lemma PassedDetachesFirst(r: Reg, msg: RabbitMessage, cloud: Cloud, resolve: string -> string)
    requires MachineValid(cloud) && !LocalOnly(cloud.networks)
    ensures DetachesFirst(r, CreateTrace(r, msg, cloud, resolve))
            <==> !KeepsInterface(r, VmOf(msg), Some(cloud.networks[0]))
  {
    CreateShape(r, msg, cloud, resolve);
    PartsDetachFirst(r, VmOf(msg), cloud, resolve);
  }

  lemma PartsDetachFirst(r: Reg, vm: VmData, cloud: Cloud, resolve: string -> string)
    requires !LocalOnly(cloud.networks)
    ensures var cleared := ClearTrace(r, vm, cloud, resolve);
      var provision := ProvisionTrace(Apply(r, cleared), vm, cloud.networks, AqManagedImage(cloud.image));
      var tag := TagBackTrace(Apply(r, cleared + provision), vm, cloud.networks, cloud);
      DetachesFirst(r, Preamble(vm) + (cleared + (provision + tag))) <==> !KeepsInterface(r, vm, Some(cloud.networks[0]))
  {
    var cleared := ClearTrace(r, vm, cloud, resolve);
    var provision := ProvisionTrace(Apply(r, cleared), vm, cloud.networks, AqManagedImage(cloud.image));
    var tag := TagBackTrace(Apply(r, cleared + provision), vm, cloud.networks, cloud);
    PreambleInert(r, vm);
    DetachesFirstVacuous(r, Preamble(vm));
    ReconcileDetachesFirst(r, vm, cloud, resolve);
    DetachesFirstAppend(r, Preamble(vm), cleared + (provision + tag));
  }

  /** Stopped by a gate, the create workflow deletes nothing. */
  lemma GatedDetachesFirst(r: Reg, msg: RabbitMessage, cloud: Cloud, resolve: string -> string)
    requires !MachineValid(cloud) || LocalOnly(cloud.networks)
    ensures DetachesFirst(r, CreateTrace(r, msg, cloud, resolve))
  {
    var vm := VmOf(msg);
    var t := CreateTrace(r, msg, cloud, resolve);
    if !MachineValid(cloud) {
      assert t == ValidationTrace(vm, cloud);
    } else {
      assert t == ValidationTrace(vm, cloud) + [GetImage(vm)] + [GetServerNetworks(vm)];
    }
    DetachesFirstVacuous(r, t);
  }

  /** A create event delivered again after it completed: the stale delete of the second
      run finds the machine the first run created, bound to the primary host that
      step 1 deletes, so that machine goes with its primary interface attached. */
  lemma RedeliveredKeepsInterface(r: Reg, msg: RabbitMessage, cloud: Cloud, resolve: string -> string)
    requires Valid(r) && ResolvesToAddresses(resolve)
    requires MachineValid(cloud) && !LocalOnly(cloud.networks)
    ensures var r' := Apply(r, CreateTrace(r, msg, cloud, resolve));
      CreateKeepsInterface(r', msg, cloud) && !DetachesFirst(r', CreateTrace(r', msg, cloud, resolve))
  {
    var r' := Apply(r, CreateTrace(r, msg, cloud, resolve));
    RedeliveredState(r, msg, cloud, resolve);
    PassedDetachesFirst(r', msg, cloud, resolve);
  }

  /** After one completed create, the machine filed under the serial is bound to the
      primary host and holds `eth0`. */
  lemma RedeliveredState(r: Reg, msg: RabbitMessage, cloud: Cloud, resolve: string -> string)
    requires Valid(r) && ResolvesToAddresses(resolve)
    requires MachineValid(cloud) && !LocalOnly(cloud.networks)
    ensures KeepsInterface(Apply(r, CreateTrace(r, msg, cloud, resolve)), VmOf(msg), Some(cloud.networks[0]))
  {
    var vm := VmOf(msg);
    var nets := cloud.networks;
    var cleared := ClearTrace(r, vm, cloud, resolve);
    var r1 := Apply(r, cleared);
    var r' := Apply(r, CreateTrace(r, msg, cloud, resolve));
    CreateOneMachine(r, msg, cloud, resolve);
    CreateApply(r, msg, cloud, resolve);
    DeleteClears(r, vm, Some(nets[0]), resolve);
    ProvisionApply(r1, vm, nets, AqManagedImage(cloud.image));
    ProvisionFrame(r1, vm, nets, AqManagedImage(cloud.image));
    assert r'.serials[Serial(vm)] == r.nextId;
    assert "eth0" in DetailsOf(r', r.nextId);
  }

  /** A create event delivered twice: the second run deletes the machine the first
      created and files a fresh one, so the serial still has exactly one machine. */
  lemma CreateRedelivered(r: Reg, msg: RabbitMessage, cloud: Cloud, resolve: string -> string)
    requires Valid(r) && ResolvesToAddresses(resolve)
    requires MachineValid(cloud) && !LocalOnly(cloud.networks)
    ensures var r' := Apply(r, CreateTrace(r, msg, cloud, resolve));
      var r'' := Apply(r', CreateTrace(r', msg, cloud, resolve));
      && Valid(r'')
      && MachinesFiled(r'', Serial(VmOf(msg))) == {r.nextId + 1}
      && r.nextId !in r''.machines
  {
    var vm := VmOf(msg);
    var r' := Apply(r, CreateTrace(r, msg, cloud, resolve));
    CreateOneMachine(r, msg, cloud, resolve);
    CreateOneMachine(r', msg, cloud, resolve);
    var r1 := Apply(r', ClearTrace(r', vm, cloud, resolve));
    CreateApply(r', msg, cloud, resolve);
    DeleteClears(r', vm, Some(cloud.networks[0]), resolve);
    ProvisionFrame(r1, vm, cloud.networks, AqManagedImage(cloud.image));
    assert r'.serials[Serial(vm)] == r.nextId;
  }

  /** The registry of the scenarios below: machine 7 files VM `v1` and is bound to
      host `h1`; the next machine name is 8. */
  function ScenarioReg(): Reg
  {
    Reg({"h1"}, map[7 := Machine("v1", Some("h1"), {"10.0.0.5", "eth0"})], map["v1" := 7], 8)
  }

  /** A create event for VM `v2`, with nothing filed under its serial, no host `h2`
      and primary address h2/10.0.0.9: nothing is deleted, and the six creates name
      the registry's next machine 8. */
  lemma CreateScenario(msg: RabbitMessage, cloud: Cloud, resolve: string -> string)
    requires msg.vmId == "v2" && cloud.existsAtValidation && cloud.existsAtTagBack
    requires "AQ_OS" in cloud.image.metadata
    requires cloud.networks == [Address("h2", "10.0.0.9", "fa:16:3e:00:00:01")]
    ensures var vm := VmOf(msg);
      var nets := cloud.networks;
      var meta := Some(cloud.image.metadata);
      Mutations(CreateTrace(ScenarioReg(), msg, cloud, resolve))
      == [CreateMachine(vm), AddMachineNics(8, nets), SetInterfaceBootable(8, "eth0"),
          CreateHost(meta, nets, 8), AqManage(nets, meta), AqMake(nets, meta)]
  {
    var r := ScenarioReg();
    var vm := VmOf(msg);
    var nets := cloud.networks;
    var meta := Some(cloud.image.metadata);
    CreateMutations(r, msg, cloud, resolve);
    ScenarioNothingStale(vm, nets[0], resolve);
    assert AqManagedImage(cloud.image) == meta;
    ScenarioCreates(vm, nets, meta);
  }

  /** Nothing is filed under serial `v2` and there is no host `h2`: nothing to delete. */
  lemma ScenarioNothingStale(vm: VmData, nd: Address, resolve: string -> string)
    requires Serial(vm) == "v2" && nd.hostname == "h2"
    ensures DeleteOrder(ScenarioReg(), vm, Some(nd), resolve) == []
  {
  }

  /** The creates name machine 8. */
  lemma ScenarioCreates(vm: VmData, nets: seq<Address>, meta: Option<Metadata>)
    ensures ProvisionTrace(ScenarioReg(), vm, nets, meta)
            == [CreateMachine(vm), AddMachineNics(8, nets), SetInterfaceBootable(8, "eth0"),
                CreateHost(meta, nets, 8), AqManage(nets, meta), AqMake(nets, meta)]
  {
  }

  /** The same event: the last call tags the VM with hostname h2, status SUCCESS
      and machine 8. */
  lemma CreateScenarioTagBack(msg: RabbitMessage, cloud: Cloud, resolve: string -> string)
    requires msg.vmId == "v2" && cloud.existsAtValidation && cloud.existsAtTagBack
    requires "AQ_OS" in cloud.image.metadata
    requires cloud.networks == [Address("h2", "10.0.0.9", "fa:16:3e:00:00:01")]
    ensures var t := CreateTrace(ScenarioReg(), msg, cloud, resolve);
      t[|t| - 1] == UpdateMetadata(VmOf(msg), map["HOSTNAMES" := Text("h2"), "AQ_STATUS" := Text("SUCCESS"),
                                                   "AQ_MACHINE" := MachineRef(Some(8))])
  {
    var r := ScenarioReg();
    assert Serial(VmOf(msg)) == "v2";
    CreateTagBack(r, msg, cloud, resolve);
    assert Hostnames(cloud.networks) == ["h2"];
  }
}
