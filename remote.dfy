/** The consumer's remote collaborators as abstract state: the Aquilon registry
    (machines, hosts, the serial index), name resolution and the OpenStack control
    plane, together with the log of every call the consumer issues to them.

    Every remote call can raise. One injected fault stands for that: the call issued
    while the log has length `failAt` raises, and nothing after it runs. */
module Remote {

  datatype Option<T> = None | Some(value: T)

  /** Registry machine names are chosen by the registry; here they are sequence numbers. */
  type MachineName = nat

  /** One network attachment of a VM, as the control plane reports it. */
  datatype Address = Address(hostname: string, ip: string, mac: string)

  /** The identity of one VM, derived from one event. */
  datatype VmData = VmData(virtualMachineId: string, projectId: string)

  /** The serial number the registry files a VM's machine under. */
  function Serial(vm: VmData): string { vm.virtualMachineId }

  /** Image metadata as the control plane returns it. */
  type Metadata = map<string, string>

  /** A value written into a VM's metadata by the tag-back step. */
  datatype MetaValue = Text(text: string) | MachineRef(machine: Option<MachineName>)

  /** A registry machine record: its serial, the host bound to it (if any) and its
      details, the addresses and interface names attached to it. */
  datatype Machine = Machine(serial: string, host: Option<string>, details: set<string>)

  /** The registry: live host records, machine records, the serial index and the
      name the next created machine receives. */
  datatype Reg = Reg(
    hosts: set<string>,
    machines: map<MachineName, Machine>,
    serials: map<string, MachineName>,
    nextId: MachineName)

  /** A call the consumer issues, as it appears in the call log. */
  datatype Op =
    // Aquilon registry
    | CheckHostExists(host: string)
    | DeleteHost(host: string)
    | SearchMachineBySerial(serial: string)
    | SearchHostByMachine(machine: MachineName)
    | GetMachineDetails(machine: MachineName)
    | DeleteAddress(ip: string, machine: MachineName)
    | DeleteInterface(machine: MachineName)
    | DeleteMachine(machine: MachineName)
    | CreateMachine(vm: VmData)
    | AddMachineNics(machine: MachineName, nics: seq<Address>)
    | SetInterfaceBootable(machine: MachineName, iface: string)
    | CreateHost(image: Option<Metadata>, nics: seq<Address>, machine: MachineName)
    | AqManage(nics: seq<Address>, image: Option<Metadata>)
    | AqMake(nics: seq<Address>, image: Option<Metadata>)
    // name resolution
    | Resolve(host: string)
    // OpenStack control plane
    | CheckMachineExists(vm: VmData)
    | GetImage(vm: VmData)
    | GetServerNetworks(vm: VmData)
    | UpdateMetadata(vm: VmData, metadata: map<string, MetaValue>)
    // message transport
    | Ack

  predicate IsRegistryCall(op: Op)
  {
    || op.CheckHostExists? || op.DeleteHost? || op.SearchMachineBySerial?
    || op.SearchHostByMachine? || op.GetMachineDetails? || op.DeleteAddress?
    || op.DeleteInterface? || op.DeleteMachine? || op.CreateMachine?
    || op.AddMachineNics? || op.SetInterfaceBootable? || op.CreateHost?
    || op.AqManage? || op.AqMake?
  }

  predicate IsDeletion(op: Op)
  {
    op.DeleteHost? || op.DeleteAddress? || op.DeleteInterface? || op.DeleteMachine?
  }

  /** Calls that change the registry. */
  predicate IsRegistryMutation(op: Op)
  {
    || IsDeletion(op) || op.CreateMachine? || op.AddMachineNics?
    || op.SetInterfaceBootable? || op.CreateHost? || op.AqManage? || op.AqMake?
  }

  /** The number of acknowledgements in a log. */
  function Acks(log: seq<Op>): nat
  {
    if log == [] then 0 else Acks(log[..|log| - 1]) + (if log[|log| - 1] == Ack then 1 else 0)
  }

  // ---- answers the registry gives to its queries

  function MachineBySerial(r: Reg, serial: string): Option<MachineName>
  {
    if serial in r.serials then Some(r.serials[serial]) else None
  }

  function HostOfMachine(r: Reg, m: MachineName): Option<string>
  {
    if m in r.machines then r.machines[m].host else None
  }

  function DetailsOf(r: Reg, m: MachineName): set<string>
  {
    if m in r.machines then r.machines[m].details else {}
  }

  // ---- interface names attached by AddMachineNics: eth0, eth1, ...

  function DecimalDigit(d: nat): char
    requires d < 10
  {
    "0123456789"[d]
  }

  function Decimal(n: nat): string
  {
    if n < 10 then [DecimalDigit(n)] else Decimal(n / 10) + [DecimalDigit(n % 10)]
  }

  function Iface(i: nat): string { "eth" + Decimal(i) }

  /** What attaching `nics` adds to a machine's details: each address and an
      interface per address, numbered in list order. */
  function NicDetails(nics: seq<Address>): (d: set<string>)
    ensures |nics| > 0 ==> "eth0" in d && nics[0].ip in d
  {
    assert |nics| > 0 ==> Iface(0) == "eth0";
    (set i | 0 <= i < |nics| :: nics[i].ip) + (set i | 0 <= i < |nics| :: Iface(i))
  }

  // ---- the effect of each call on the registry

  function Unbind(mc: Machine, h: string): Machine
  {
    if mc.host == Some(h) then mc.(host := None) else mc
  }

  function WithoutHost(r: Reg, h: string): Reg
  {
    r.(hosts := r.hosts - {h}, machines := map m | m in r.machines :: Unbind(r.machines[m], h))
  }

  function WithoutDetail(r: Reg, m: MachineName, d: string): Reg
  {
    if m in r.machines
    then r.(machines := r.machines[m := r.machines[m].(details := r.machines[m].details - {d})])
    else r
  }

  function WithoutMachine(r: Reg, m: MachineName): Reg
  {
    r.(machines := r.machines - {m},
       serials := map s | s in r.serials && r.serials[s] != m :: r.serials[s])
  }

  function WithMachine(r: Reg, vm: VmData): Reg
  {
    r.(machines := r.machines[r.nextId := Machine(Serial(vm), None, {})],
       serials := r.serials[Serial(vm) := r.nextId],
       nextId := r.nextId + 1)
  }

  function WithNics(r: Reg, m: MachineName, nics: seq<Address>): Reg
  {
    if m in r.machines
    then r.(machines := r.machines[m := r.machines[m].(details := r.machines[m].details + NicDetails(nics))])
    else r
  }

  function WithHost(r: Reg, nics: seq<Address>, m: MachineName): Reg
  {
    if |nics| > 0 && m in r.machines
    then r.(hosts := r.hosts + {nics[0].hostname},
            machines := r.machines[m := r.machines[m].(host := Some(nics[0].hostname))])
    else r
  }

  /** How a successful call changes the registry. Queries, name resolution,
      control-plane calls, the acknowledgement, and also bootable/manage/make
      (which change nothing this model tracks) leave it as it is. */
  function Effect(r: Reg, op: Op): Reg
  {
    match op
    case DeleteHost(h) => WithoutHost(r, h)
    case DeleteAddress(ip, m) => WithoutDetail(r, m, ip)
    case DeleteInterface(m) => WithoutDetail(r, m, "eth0")
    case DeleteMachine(m) => WithoutMachine(r, m)
    case CreateMachine(vm) => WithMachine(r, vm)
    case AddMachineNics(m, nics) => WithNics(r, m, nics)
    case CreateHost(_, nics, m) => WithHost(r, nics, m)
    case _ => r
  }

  /** Queries, name resolution and control-plane calls change nothing; only creating a
      machine uses up a name, only creating a host adds one, and only creating or
      deleting a machine touches the serial index. */
  lemma EffectFrame(r: Reg, op: Op)
    ensures !IsRegistryMutation(op) ==> Effect(r, op) == r
    ensures Effect(r, op).nextId == if op.CreateMachine? then r.nextId + 1 else r.nextId
    ensures !op.CreateHost? ==> Effect(r, op).hosts <= r.hosts
    ensures !op.CreateMachine? && !op.DeleteMachine? ==> Effect(r, op).serials == r.serials
  {
  }

  /** The registry after the calls of `t`, in order. */
  function Apply(r: Reg, t: seq<Op>): Reg
    decreases |t|
  {
    if t == [] then r else Effect(Apply(r, t[..|t| - 1]), t[|t| - 1])
  }

  // ---- faults

  /** Where, within a run of `n` calls starting at log position `start`, the injected
      fault strikes (None: the run completes). */
  function FaultOffset(failAt: Option<nat>, start: nat, n: nat): (off: Option<nat>)
    ensures off.Some? ==> off.value < n
  {
    if failAt.Some? && start <= failAt.value < start + n then Some(failAt.value - start) else None
  }

  /** The calls of `t` that succeed when the fault strikes at `off`. */
  function Issued(t: seq<Op>, off: Option<nat>): (s: seq<Op>)
    ensures off.Some? && off.value <= |t| ==> |s| == off.value && s == t[..off.value]
    ensures off.None? ==> s == t
  {
    if off.Some? && off.value <= |t| then t[..off.value] else t
  }

  /** What the consumer can observe of its collaborators at one moment: the call
      log, the pending fault and the registry. */
  datatype Snap = Snap(log: seq<Op>, failAt: Option<nat>, reg: Reg)

  /** A run meant to issue the calls `t`, from `before`, ended with `ok` in `after`:
      it completed exactly when the fault did not strike within it; the log grew by
      the calls that succeeded, the registry took their effects in order, and a
      fault that struck is used up. */
  ghost predicate Ran(before: Snap, t: seq<Op>, ok: bool, after: Snap)
  {
    var off := FaultOffset(before.failAt, |before.log|, |t|);
    && ok == off.None?
    && after.log == before.log + Issued(t, off)
    && after.reg == Apply(before.reg, Issued(t, off))
    && after.failAt == (if ok then before.failAt else None)
  }

  lemma {:induction false} ApplyAppend(r: Reg, a: seq<Op>, b: seq<Op>)
    ensures Apply(r, a + b) == Apply(Apply(r, a), b)
    decreases |b|
  {
    if b == [] {
      assert a + b == a;
    } else {
      var b' := b[..|b| - 1];
      assert (a + b)[..|a + b| - 1] == a + b';
      ApplyAppend(r, a, b');
    }
  }

  /** Running `a` and then, if it completed, `b` is a run of `a + b`. */
  lemma RanThen(x: Snap, a: seq<Op>, ok1: bool, y: Snap, b: seq<Op>, ok2: bool, z: Snap)
    requires Ran(x, a, ok1, y)
    requires ok1 ==> Ran(y, b, ok2, z)
    requires !ok1 ==> !ok2 && z == y
    ensures Ran(x, a + b, ok2, z)
  {
    var offA := FaultOffset(x.failAt, |x.log|, |a|);
    var off := FaultOffset(x.failAt, |x.log|, |a + b|);
    if ok1 {
      var offB := FaultOffset(y.failAt, |y.log|, |b|);
      ApplyAppend(x.reg, a, b);
      if offB.Some? {
        assert off == Some(|a| + offB.value);
        assert (a + b)[..|a| + offB.value] == a + b[..offB.value];
        ApplyAppend(x.reg, a, b[..offB.value]);
      } else {
        assert off.None?;
      }
    } else {
      assert off == offA;
      assert (a + b)[..offA.value] == a[..offA.value];
    }
  }

  /** A run that issues nothing completes and changes nothing. */
  lemma RanNothing(x: Snap)
    ensures Ran(x, [], true, x)
  {
  }

  /** The remote systems as the consumer sees them: the registry's records, which
      the registry calls change in place, the log of every call so far, and the
      position at which the next injected fault strikes. */
  class Services {
    var hosts: set<string>
    var machines: map<MachineName, Machine>
    var serials: map<string, MachineName>
    var nextId: MachineName
    var log: seq<Op>
    var failAt: Option<nat>

    function State(): Reg
      reads this
    {
      Reg(hosts, machines, serials, nextId)
    }

    function Snapshot(): Snap
      reads this
    {
      Snap(log, failAt, State())
    }

    constructor (initial: Reg, fault: Option<nat>)
      ensures State() == initial && log == [] && failAt == fault
    {
      hosts, machines, serials, nextId := initial.hosts, initial.machines, initial.serials, initial.nextId;
      log, failAt := [], fault;
    }

    /** Issue `op`: it raises if the fault strikes now, and is logged otherwise. */
    method Call(op: Op) returns (ok: bool)
      modifies this
      ensures ok == (old(failAt) != Some(|old(log)|))
      ensures log == old(log) + (if ok then [op] else [])
      ensures failAt == (if ok then old(failAt) else None)
      ensures State() == old(State())
    {
      if failAt == Some(|log|) {
        failAt := None;
        ok := false;
      } else {
        log := log + [op];
        ok := true;
      }
    }

    /** A call the registry answers without changing anything, or a call to another
        collaborator. */
    method Query(op: Op) returns (ok: bool)
      requires Effect(State(), op) == State()
      modifies this
      ensures Ran(old(Snapshot()), [op], ok, Snapshot())
      ensures State() == old(State())
    {
      ok := Call(op);
    }

    method CheckHostExists(h: string) returns (ok: bool, found: bool)
      modifies this
      ensures Ran(old(Snapshot()), [Op.CheckHostExists(h)], ok, Snapshot())
      ensures State() == old(State())
      ensures found == (h in old(hosts))
    {
      found := h in hosts;
      ok := Query(Op.CheckHostExists(h));
    }

    method SearchMachineBySerial(vm: VmData) returns (ok: bool, m: Option<MachineName>)
      modifies this
      ensures Ran(old(Snapshot()), [Op.SearchMachineBySerial(Serial(vm))], ok, Snapshot())
      ensures State() == old(State())
      ensures m == MachineBySerial(old(State()), Serial(vm))
    {
      m := if Serial(vm) in serials then Some(serials[Serial(vm)]) else None;
      ok := Query(Op.SearchMachineBySerial(Serial(vm)));
    }

    method SearchHostByMachine(m: MachineName) returns (ok: bool, h: Option<string>)
      modifies this
      ensures Ran(old(Snapshot()), [Op.SearchHostByMachine(m)], ok, Snapshot())
      ensures State() == old(State())
      ensures h == HostOfMachine(old(State()), m)
    {
      h := if m in machines then machines[m].host else None;
      ok := Query(Op.SearchHostByMachine(m));
    }

    method GetMachineDetails(m: MachineName) returns (ok: bool, details: set<string>)
      modifies this
      ensures Ran(old(Snapshot()), [Op.GetMachineDetails(m)], ok, Snapshot())
      ensures State() == old(State())
      ensures details == DetailsOf(old(State()), m)
    {
      details := if m in machines then machines[m].details else {};
      ok := Query(Op.GetMachineDetails(m));
    }

    method DeleteHost(h: string) returns (ok: bool)
      modifies this
      ensures Ran(old(Snapshot()), [Op.DeleteHost(h)], ok, Snapshot())
    {
      ok := Call(Op.DeleteHost(h));
      if ok {
        hosts := hosts - {h};
        machines := map m | m in machines :: Unbind(machines[m], h);
      }
    }

    method DeleteAddress(ip: string, m: MachineName) returns (ok: bool)
      modifies this
      ensures Ran(old(Snapshot()), [Op.DeleteAddress(ip, m)], ok, Snapshot())
    {
      ok := Call(Op.DeleteAddress(ip, m));
      if ok && m in machines {
        machines := machines[m := machines[m].(details := machines[m].details - {ip})];
      }
    }

    method DeleteInterface(m: MachineName) returns (ok: bool)
      modifies this
      ensures Ran(old(Snapshot()), [Op.DeleteInterface(m)], ok, Snapshot())
    {
      ok := Call(Op.DeleteInterface(m));
      if ok && m in machines {
        machines := machines[m := machines[m].(details := machines[m].details - {"eth0"})];
      }
    }

    method DeleteMachine(m: MachineName) returns (ok: bool)
      modifies this
      ensures Ran(old(Snapshot()), [Op.DeleteMachine(m)], ok, Snapshot())
    {
      ok := Call(Op.DeleteMachine(m));
      if ok {
        machines := machines - {m};
        serials := map s | s in serials && serials[s] != m :: serials[s];
      }
    }

    method CreateMachine(vm: VmData) returns (ok: bool, m: MachineName)
      modifies this
      ensures Ran(old(Snapshot()), [Op.CreateMachine(vm)], ok, Snapshot())
      ensures m == old(nextId)
    {
      ok := Call(Op.CreateMachine(vm));
      m := nextId;
      if ok {
        machines := machines[m := Machine(Serial(vm), None, {})];
        serials := serials[Serial(vm) := m];
        nextId := nextId + 1;
      }
    }

    method AddMachineNics(m: MachineName, nics: seq<Address>) returns (ok: bool)
      modifies this
      ensures Ran(old(Snapshot()), [Op.AddMachineNics(m, nics)], ok, Snapshot())
    {
      ok := Call(Op.AddMachineNics(m, nics));
      if ok && m in machines {
        machines := machines[m := machines[m].(details := machines[m].details + NicDetails(nics))];
      }
    }

    method SetInterfaceBootable(m: MachineName, iface: string) returns (ok: bool)
      modifies this
      ensures Ran(old(Snapshot()), [Op.SetInterfaceBootable(m, iface)], ok, Snapshot())
      ensures State() == old(State())
    {
      ok := Query(Op.SetInterfaceBootable(m, iface));
    }

    method CreateHost(image: Option<Metadata>, nics: seq<Address>, m: MachineName) returns (ok: bool)
      modifies this
      ensures Ran(old(Snapshot()), [Op.CreateHost(image, nics, m)], ok, Snapshot())
    {
      ok := Call(Op.CreateHost(image, nics, m));
      if ok && |nics| > 0 && m in machines {
        hosts := hosts + {nics[0].hostname};
        machines := machines[m := machines[m].(host := Some(nics[0].hostname))];
      }
    }

    /** The acknowledgement goes to the transport; it is logged and never faults. */
    method Acknowledge()
      modifies this
      ensures log == old(log) + [Ack] && failAt == old(failAt) && State() == old(State())
    {
      log := log + [Ack];
    }
  }
}
