/** Properties of `delete_machine` and the delete workflow: what it deletes, in what
    order, what it leaves behind, that the record rules accept every call, and when
    the interfaces-first rule holds; then the teardown corrected to always meet it. */
module DeleteProperties {
  import opened Remote
  import opened Workflow
  import opened Invariants

  /** A call that at most detaches something from a machine's details. */
  predicate DetailsOnly(op: Op)
  {
    !IsRegistryMutation(op) || op.DeleteAddress? || op.DeleteInterface?
    || op.SetInterfaceBootable? || op.AqManage? || op.AqMake?
  }

  lemma {:induction false} ApplyDetailsOnly(r: Reg, t: seq<Op>)
    requires forall i :: 0 <= i < |t| ==> DetailsOnly(t[i])
    ensures Apply(r, t).hosts == r.hosts && Apply(r, t).serials == r.serials
    ensures Apply(r, t).nextId == r.nextId && Apply(r, t).machines.Keys == r.machines.Keys
    ensures forall m :: HostOfMachine(Apply(r, t), m) == HostOfMachine(r, m)
    decreases |t|
  {
    if t != [] {
      ApplyDetailsOnly(r, t[..|t| - 1]);
    }
  }

  /** The calls `delete_machine` is expected to delete, read off the registry it starts
      from: the stale primary host if it exists; then, for the machine filed under the
      VM's serial, its bound host if it is still bound to a named one, the address
      that host resolves to and the primary interface if its details hold them, and
      last the machine itself. */
  function DeleteOrder(r: Reg, vm: VmData, nd: Option<Address>, resolve: string -> string): seq<Op>
  {
    var stale := nd.Some? && nd.value.hostname in r.hosts;
    var first := if stale then [DeleteHost(nd.value.hostname)] else [];
    if Serial(vm) !in r.serials then first
    else
      var m := r.serials[Serial(vm)];
      if !StillBound(r, nd, m) then first + [DeleteMachine(m)]
      else
        var h := HostOfMachine(r, m).value;
        var details := DetailsOf(r, m);
        first
        + (if h in r.hosts then [DeleteHost(h)] else [])
        + (if resolve(h) in details then [DeleteAddress(resolve(h), m)] else [])
        + (if "eth0" in details then [DeleteInterface(m)] else [])
        + [DeleteMachine(m)]
  }

  /** Machine `m` is bound to a named host that step 1 does not delete as the stale
      primary host. */
  predicate StillBound(r: Reg, nd: Option<Address>, m: MachineName)
  {
    var bound := HostOfMachine(r, m);
    Named(bound) && !(nd.Some? && nd.value.hostname in r.hosts && bound.value == nd.value.hostname)
  }

  /** The order deletions come in: hosts, then the address, the interface, the machine. */
  function Rank(op: Op): nat
  {
    match op
    case DeleteHost(_) => 0
    case DeleteAddress(_, _) => 1
    case DeleteInterface(_) => 2
    case _ => 3
  }

  // ---- delete_host_if_exists

  lemma HostStep(r: Reg, h: string)
    ensures Deletions(HostTrace(r, h)) == Mutations(HostTrace(r, h))
                                      == (if h in r.hosts then [DeleteHost(h)] else [])
    ensures Apply(r, HostTrace(r, h)) == (if h in r.hosts then WithoutHost(r, h) else r)
    ensures HostsChecked(r, HostTrace(r, h))
    ensures Valid(r) ==> Sound(r, HostTrace(r, h))
  {
    var c := CheckHostExists(h);
    ApplyOne(r, c);
    DeletionsOne(c);
    if Valid(r) {
      SoundStep(r, c);
    }
    if h in r.hosts {
      var d := DeleteHost(h);
      assert HostTrace(r, h) == [c] + [d];
      DeletionsOne(d);
      DeletionsAppend([c], [d]);
      MutationsAppend([c], [d]);
      ApplyAppend(r, [c], [d]);
      ApplyOne(r, d);
      assert ([c] + [d])[..1] == [c];
      if Valid(r) {
        SoundStep(r, d);
        SoundAppend(r, [c], [d]);
      }
    } else {
      assert HostTrace(r, h) == [c];
    }
  }

  // ---- the detach part of step 3

  /** The calls of the detach part, spelled out. */
  lemma DetachShape(r: Reg, m: MachineName, h: string, resolve: string -> string)
    ensures DetachTrace(r, m, h, resolve)
      == [GetMachineDetails(m), Resolve(h)] + DetachDeletions(DetailsOf(r, m), m, resolve(h))
  {
  }

  /** What the detach part deletes, given the details it fetched and the address resolved. */
  function DetachDeletions(details: set<string>, m: MachineName, ip: string): seq<Op>
  {
    (if ip in details then [DeleteAddress(ip, m)] else [])
    + (if "eth0" in details then [DeleteInterface(m)] else [])
  }

  lemma DetachDeletionsFacts(details: set<string>, m: MachineName, ip: string)
    ensures Deletions(DetachDeletions(details, m, ip)) == Mutations(DetachDeletions(details, m, ip))
                                                      == DetachDeletions(details, m, ip)
  {
    var a := if ip in details then [DeleteAddress(ip, m)] else [];
    var e := if "eth0" in details then [DeleteInterface(m)] else [];
    DeletionsOne(DeleteAddress(ip, m));
    DeletionsOne(DeleteInterface(m));
    DeletionsAppend(a, e);
    MutationsAppend(a, e);
  }

  lemma DetachStep(r: Reg, m: MachineName, h: string, resolve: string -> string)
    ensures Deletions(DetachTrace(r, m, h, resolve)) == Mutations(DetachTrace(r, m, h, resolve))
      == DetachDeletions(DetailsOf(r, m), m, resolve(h))
  {
    var g := [GetMachineDetails(m), Resolve(h)];
    var d := DetachDeletions(DetailsOf(r, m), m, resolve(h));
    DetachShape(r, m, h, resolve);
    DetachDeletionsFacts(DetailsOf(r, m), m, resolve(h));
    assert Deletions(g) == [] && Mutations(g) == [] by {
      assert g[1..] == [Resolve(h)];
      DeletionsOne(Resolve(h));
    }
    DeletionsAppend(g, d);
    MutationsAppend(g, d);
  }

  /** The detach part starts with the details fetch and touches nothing but details. */
  lemma DetachDetailsOnly(r: Reg, m: MachineName, h: string, resolve: string -> string)
    ensures forall i :: 0 <= i < |DetachTrace(r, m, h, resolve)| ==> DetailsOnly(DetachTrace(r, m, h, resolve)[i])
    ensures DetachTrace(r, m, h, resolve)[0] == GetMachineDetails(m)
  {
    var t := DetachTrace(r, m, h, resolve);
    var d := DetachDeletions(DetailsOf(r, m), m, resolve(h));
    DetachShape(r, m, h, resolve);
    forall i | 0 <= i < |t|
      ensures DetailsOnly(t[i])
    {
      if i >= 2 {
        assert t[i] == d[i - 2];
      }
    }
  }

  /** The details fetch and the name resolution change nothing. */
  lemma FetchSound(r: Reg, m: MachineName, h: string)
    requires Valid(r)
    ensures Sound(r, [GetMachineDetails(m)] + [Resolve(h)]) && Apply(r, [GetMachineDetails(m)] + [Resolve(h)]) == r
  {
    SoundStep(r, GetMachineDetails(m));
    SoundStep(r, Resolve(h));
    SoundAppend(r, [GetMachineDetails(m)], [Resolve(h)]);
    ApplyAppend(r, [GetMachineDetails(m)], [Resolve(h)]);
  }

  /** Deleting an address the details hold: accepted, and `eth0` stays as it was. */
  lemma AddressSound(r: Reg, m: MachineName, ip: string, present: bool)
    requires Valid(r) && m in r.machines && ip != "eth0" && (present ==> ip in DetailsOf(r, m))
    ensures var a := if present then [DeleteAddress(ip, m)] else [];
      var ra := Apply(r, a);
      Sound(r, a) && Valid(ra) && m in ra.machines
      && ("eth0" in DetailsOf(ra, m) <==> "eth0" in DetailsOf(r, m))
  {
    if present {
      SoundStep(r, DeleteAddress(ip, m));
    }
  }

  /** Deleting the interface when the details hold it: accepted. */
  lemma InterfaceSound(r: Reg, m: MachineName, present: bool)
    requires Valid(r) && m in r.machines && (present ==> "eth0" in DetailsOf(r, m))
    ensures Sound(r, if present then [DeleteInterface(m)] else [])
  {
    if present {
      SoundStep(r, DeleteInterface(m));
    }
  }

  lemma DetachSound(r: Reg, m: MachineName, h: string, resolve: string -> string)
    requires Valid(r) && m in r.machines && resolve(h) != "eth0"
    ensures Sound(r, DetachTrace(r, m, h, resolve))
  {
    var ip := resolve(h);
    var details := DetailsOf(r, m);
    var g := [GetMachineDetails(m)] + [Resolve(h)];
    var a := if ip in details then [DeleteAddress(ip, m)] else [];
    var e := if "eth0" in details then [DeleteInterface(m)] else [];
    assert DetachTrace(r, m, h, resolve) == g + a + e;
    FetchSound(r, m, h);
    AddressSound(r, m, ip, ip in details);
    SoundAppend(r, g, a);
    ApplyAppend(r, g, a);
    InterfaceSound(Apply(r, a), m, "eth0" in details);
    SoundAppend(r, g + a, e);
  }

  // ---- step 3: unbind the machine's host

  /** What step 3 deletes for a machine bound to host `h`, read off the registry. */
  function UnbindDeletions(r: Reg, m: MachineName, h: string, resolve: string -> string): seq<Op>
  {
    (if h in r.hosts then [DeleteHost(h)] else []) + DetachDeletions(DetailsOf(r, m), m, resolve(h))
  }

  lemma UnbindStep(r: Reg, m: MachineName, h: string, resolve: string -> string)
    ensures Deletions(UnbindTrace(r, m, h, resolve)) == Mutations(UnbindTrace(r, m, h, resolve))
                                                   == UnbindDeletions(r, m, h, resolve)
  {
    var a := HostTrace(r, h);
    var r1 := Apply(r, a);
    var b := DetachTrace(r1, m, h, resolve);
    HostStep(r, h);
    DetachStep(r1, m, h, resolve);
    assert DetailsOf(r1, m) == DetailsOf(r, m);
    DeletionsAppend(a, b);
    MutationsAppend(a, b);
  }

  /** Unbinding starts with the host check, and the host it deletes was just found. */
  lemma UnbindChecked(r: Reg, m: MachineName, h: string, resolve: string -> string)
    ensures HostsChecked(r, UnbindTrace(r, m, h, resolve))
    ensures UnbindTrace(r, m, h, resolve)[0] == CheckHostExists(h)
  {
    var a := HostTrace(r, h);
    var r1 := Apply(r, a);
    var b := DetachTrace(r1, m, h, resolve);
    HostStep(r, h);
    DetachDetailsOnly(r1, m, h, resolve);
    HostsCheckedVacuous(r1, b);
    HostsCheckedAppend(r, a, b);
  }

  lemma UnbindFrame(r: Reg, m: MachineName, h: string, resolve: string -> string)
    ensures var r' := Apply(r, UnbindTrace(r, m, h, resolve));
      && r'.hosts == r.hosts - {h} && r'.serials == r.serials && r'.nextId == r.nextId
      && r'.machines.Keys == r.machines.Keys
      && (HostOfMachine(r, m) == Some(h) ==>
            HostOfMachine(r', m) == (if h in r.hosts then None else Some(h)))
  {
    var a := HostTrace(r, h);
    var r1 := Apply(r, a);
    var b := DetachTrace(r1, m, h, resolve);
    HostFrame(r, m, h);
    DetachDetailsOnly(r1, m, h, resolve);
    ApplyAppend(r, a, b);
    ApplyDetailsOnly(r1, b);
  }

  /** The host step removes host `h` and nothing else but the binding to it. */
  lemma HostFrame(r: Reg, m: MachineName, h: string)
    ensures var r1 := Apply(r, HostTrace(r, h));
      && r1.hosts == r.hosts - {h} && r1.serials == r.serials && r1.nextId == r.nextId
      && r1.machines.Keys == r.machines.Keys
      && (HostOfMachine(r, m) == Some(h) ==>
            HostOfMachine(r1, m) == (if h in r.hosts then None else Some(h)))
  {
    HostStep(r, h);
    if h !in r.hosts {
      assert r.hosts - {h} == r.hosts;
    }
  }

  lemma UnbindSound(r: Reg, m: MachineName, h: string, resolve: string -> string)
    requires Valid(r) && m in r.machines && resolve(h) != "eth0"
    ensures Sound(r, UnbindTrace(r, m, h, resolve))
  {
    var a := HostTrace(r, h);
    HostStep(r, h);
    SoundValid(r, a);
    DetachSound(Apply(r, a), m, h, resolve);
    SoundAppend(r, a, DetachTrace(Apply(r, a), m, h, resolve));
  }

  // ---- remove one machine: steps 3 and 4 for the machine found

  /** What steps 3 and 4 delete for machine `m`, read off the registry. */
  function RemoveMachineDeletions(r: Reg, m: MachineName, resolve: string -> string): seq<Op>
  {
    var bound := HostOfMachine(r, m);
    (if Named(bound) then UnbindDeletions(r, m, bound.value, resolve) else []) + [DeleteMachine(m)]
  }

  /** The part of step 3 issued for the machine's bound host, if it has a named one. */
  function UnbindIfNamed(r: Reg, m: MachineName, resolve: string -> string): seq<Op>
  {
    var bound := HostOfMachine(r, m);
    if Named(bound) then UnbindTrace(r, m, bound.value, resolve) else []
  }

  lemma RemoveMachineShape(r: Reg, m: MachineName, resolve: string -> string)
    ensures RemoveMachineTrace(r, m, resolve)
      == [SearchHostByMachine(m)] + UnbindIfNamed(r, m, resolve) + [DeleteMachine(m)]
  {
  }

  lemma RemoveMachineStep(r: Reg, m: MachineName, resolve: string -> string)
    ensures Deletions(RemoveMachineTrace(r, m, resolve)) == Mutations(RemoveMachineTrace(r, m, resolve))
                                                      == RemoveMachineDeletions(r, m, resolve)
  {
    var bound := HostOfMachine(r, m);
    RemoveMachineShape(r, m, resolve);
    if Named(bound) {
      UnbindStep(r, m, bound.value, resolve);
    }
    BetweenSearchAndDelete(m, UnbindIfNamed(r, m, resolve));
  }

  /** Between the host search and the machine deletion, the deletions and the changes
      are those of the calls in between, followed by the machine deletion. */
  lemma BetweenSearchAndDelete(m: MachineName, u: seq<Op>)
    requires Deletions(u) == Mutations(u)
    ensures var t := [SearchHostByMachine(m)] + u + [DeleteMachine(m)];
      Deletions(t) == Mutations(t) == Deletions(u) + [DeleteMachine(m)]
  {
    SearchDeleteDeletions(m, u);
    SearchDeleteMutations(m, u);
  }

  lemma SearchDeleteDeletions(m: MachineName, u: seq<Op>)
    ensures Deletions([SearchHostByMachine(m)] + u + [DeleteMachine(m)]) == Deletions(u) + [DeleteMachine(m)]
  {
    var search, last := [SearchHostByMachine(m)], [DeleteMachine(m)];
    DeletionsOne(SearchHostByMachine(m));
    DeletionsOne(DeleteMachine(m));
    DeletionsAppend(search, u);
    assert Deletions(search + u) == Deletions(u);
    DeletionsAppend(search + u, last);
  }

  lemma SearchDeleteMutations(m: MachineName, u: seq<Op>)
    ensures Mutations([SearchHostByMachine(m)] + u + [DeleteMachine(m)]) == Mutations(u) + [DeleteMachine(m)]
  {
    var search, last := [SearchHostByMachine(m)], [DeleteMachine(m)];
    DeletionsOne(SearchHostByMachine(m));
    DeletionsOne(DeleteMachine(m));
    MutationsAppend(search, u);
    assert Mutations(search + u) == Mutations(u);
    MutationsAppend(search + u, last);
  }

  /** Removing a machine starts with the host search and ends with the machine. */
  lemma RemoveMachineEnds(r: Reg, m: MachineName, resolve: string -> string)
    ensures RemoveMachineTrace(r, m, resolve)[0] == SearchHostByMachine(m)
    ensures var t := RemoveMachineTrace(r, m, resolve); t[|t| - 1] == DeleteMachine(m)
  {
    RemoveMachineShape(r, m, resolve);
  }

  /** Every host removing a machine deletes was just checked and found. */
  lemma RemoveMachineChecked(r: Reg, m: MachineName, resolve: string -> string)
    ensures HostsChecked(r, RemoveMachineTrace(r, m, resolve))
  {
    var bound := HostOfMachine(r, m);
    var q := [SearchHostByMachine(m)];
    var u := UnbindIfNamed(r, m, resolve);
    var d := [DeleteMachine(m)];
    RemoveMachineShape(r, m, resolve);
    ApplyOne(r, SearchHostByMachine(m));
    if Named(bound) {
      UnbindChecked(r, m, bound.value, resolve);
    } else {
      HostsCheckedVacuous(r, u);
    }
    HostsCheckedVacuous(r, q);
    HostsCheckedAppend(r, q, u);
    HostsCheckedVacuous(Apply(r, q + u), d);
    HostsCheckedAppend(r, q + u, d);
  }

  lemma RemoveMachineFrame(r: Reg, m: MachineName, resolve: string -> string)
    ensures var bound := HostOfMachine(r, m); var r' := Apply(r, RemoveMachineTrace(r, m, resolve));
      && r'.hosts == (if Named(bound) then r.hosts - {bound.value} else r.hosts)
      && r'.serials == (map s | s in r.serials && r.serials[s] != m :: r.serials[s])
      && r'.nextId == r.nextId
      && m !in r'.machines
  {
    var bound := HostOfMachine(r, m);
    var q := [SearchHostByMachine(m)];
    var u := UnbindIfNamed(r, m, resolve);
    var d := [DeleteMachine(m)];
    RemoveMachineShape(r, m, resolve);
    ApplyOne(r, SearchHostByMachine(m));
    ApplyAppend(r, q, u);
    var r2 := Apply(r, q + u);
    if Named(bound) {
      UnbindFrame(r, m, bound.value, resolve);
    } else {
      assert r2 == r;
    }
    ApplyAppend(r, q + u, d);
    ApplyOne(r2, DeleteMachine(m));
  }

  /** From a consistent registry, the record rules accept removing machine `m`.
      Whether the interfaces-first rule holds too is `RemoveMachineDetachesFirst`. */
  lemma RemoveMachineSound(r: Reg, m: MachineName, resolve: string -> string)
    requires Valid(r) && m in r.machines && ResolvesToAddresses(resolve)
    ensures Sound(r, RemoveMachineTrace(r, m, resolve))
  {
    var bound := HostOfMachine(r, m);
    var q := [SearchHostByMachine(m)];
    var u := UnbindIfNamed(r, m, resolve);
    var d := [DeleteMachine(m)];
    RemoveMachineShape(r, m, resolve);
    ApplyOne(r, SearchHostByMachine(m));
    ApplyAppend(r, q, u);
    var r2 := Apply(r, q + u);
    SoundStep(r, SearchHostByMachine(m));
    if Named(bound) {
      UnbindSound(r, m, bound.value, resolve);
      UnbindFrame(r, m, bound.value, resolve);
      assert bound.value in r.hosts;
    } else {
      assert r2 == r;
    }
    SoundAppend(r, q, u);
    SoundValid(r, q + u);
    assert Permitted(r2, DeleteMachine(m));
    SoundStep(r2, DeleteMachine(m));
    SoundAppend(r, q + u, d);
  }

  // ---- look the machine up by serial and remove it

  /** What the lookup by serial and the teardown delete, read off the registry. */
  function RemoveBySerialDeletions(r: Reg, serial: string, resolve: string -> string): seq<Op>
  {
    if serial in r.serials then RemoveMachineDeletions(r, r.serials[serial], resolve) else []
  }

  lemma RemoveBySerialStep(r: Reg, serial: string, resolve: string -> string)
    ensures Deletions(RemoveBySerialTrace(r, serial, resolve)) == Mutations(RemoveBySerialTrace(r, serial, resolve))
                                                             == RemoveBySerialDeletions(r, serial, resolve)
    ensures HostsChecked(r, RemoveBySerialTrace(r, serial, resolve))
    ensures RemoveBySerialTrace(r, serial, resolve)[0] == SearchMachineBySerial(serial)
  {
    var q := [SearchMachineBySerial(serial)];
    DeletionsOne(SearchMachineBySerial(serial));
    ApplyOne(r, SearchMachineBySerial(serial));
    HostsCheckedVacuous(r, q);
    if serial in r.serials {
      var m := r.serials[serial];
      var u := RemoveMachineTrace(r, m, resolve);
      assert RemoveBySerialTrace(r, serial, resolve) == q + u;
      RemoveMachineStep(r, m, resolve);
      RemoveMachineEnds(r, m, resolve);
      RemoveMachineChecked(r, m, resolve);
      DeletionsAppend(q, u);
      MutationsAppend(q, u);
      HostsCheckedAppend(r, q, u);
    } else {
      assert RemoveBySerialTrace(r, serial, resolve) == q;
    }
  }

  lemma RemoveBySerialFrame(r: Reg, serial: string, resolve: string -> string)
    ensures var r' := Apply(r, RemoveBySerialTrace(r, serial, resolve));
      && serial !in r'.serials && r'.hosts <= r.hosts && r'.nextId == r.nextId
      && (serial in r.serials ==> r.serials[serial] !in r'.machines)
      && (serial in r.serials && Named(HostOfMachine(r, r.serials[serial])) ==>
            HostOfMachine(r, r.serials[serial]).value !in r'.hosts)
      && (serial !in r.serials ==> r' == r)
  {
    var q := [SearchMachineBySerial(serial)];
    ApplyOne(r, SearchMachineBySerial(serial));
    if serial in r.serials {
      var m := r.serials[serial];
      var u := RemoveMachineTrace(r, m, resolve);
      assert RemoveBySerialTrace(r, serial, resolve) == q + u;
      RemoveMachineFrame(r, m, resolve);
      ApplyAppend(r, q, u);
    } else {
      assert RemoveBySerialTrace(r, serial, resolve) == q;
    }
  }

  /** From a consistent registry, the record rules accept the lookup by serial and the
      removal. Whether the interfaces-first rule holds too is
      `RemoveBySerialDetachesFirst`. */
  lemma RemoveBySerialSound(r: Reg, serial: string, resolve: string -> string)
    requires Valid(r) && ResolvesToAddresses(resolve)
    ensures Sound(r, RemoveBySerialTrace(r, serial, resolve))
  {
    var q := [SearchMachineBySerial(serial)];
    SoundStep(r, SearchMachineBySerial(serial));
    if serial in r.serials {
      var m := r.serials[serial];
      var u := RemoveMachineTrace(r, m, resolve);
      assert RemoveBySerialTrace(r, serial, resolve) == q + u;
      RemoveMachineSound(r, m, resolve);
      SoundAppend(r, q, u);
    } else {
      assert RemoveBySerialTrace(r, serial, resolve) == q;
    }
  }

  // ---- delete_machine

  /** The stale primary host check of step 1, when there is a primary address. */
  function FirstTrace(r: Reg, nd: Option<Address>): seq<Op>
  {
    if nd.Some? then HostTrace(r, nd.value.hostname) else []
  }

  lemma FirstStep(r: Reg, nd: Option<Address>)
    ensures var stale := nd.Some? && nd.value.hostname in r.hosts;
      && Deletions(FirstTrace(r, nd)) == Mutations(FirstTrace(r, nd))
         == (if stale then [DeleteHost(nd.value.hostname)] else [])
      && Apply(r, FirstTrace(r, nd)) == (if stale then WithoutHost(r, nd.value.hostname) else r)
    ensures HostsChecked(r, FirstTrace(r, nd))
    ensures Valid(r) ==> Sound(r, FirstTrace(r, nd))
  {
    if nd.Some? {
      HostStep(r, nd.value.hostname);
    }
  }

  /** Everything `delete_machine` deletes, in order, is what `DeleteOrder` reads off the
      registry it starts from, and it changes the registry in no other way. */
  lemma DeleteDeletions(r: Reg, vm: VmData, nd: Option<Address>, resolve: string -> string)
    ensures Deletions(DeleteTrace(r, vm, nd, resolve)) == DeleteOrder(r, vm, nd, resolve)
    ensures Mutations(DeleteTrace(r, vm, nd, resolve)) == DeleteOrder(r, vm, nd, resolve)
  {
    var a := FirstTrace(r, nd);
    var r1 := Apply(r, a);
    var b := RemoveBySerialTrace(r1, Serial(vm), resolve);
    assert DeleteTrace(r, vm, nd, resolve) == a + b;
    FirstStep(r, nd);
    RemoveBySerialStep(r1, Serial(vm), resolve);
    DeletionsAppend(a, b);
    MutationsAppend(a, b);
    var stale := nd.Some? && nd.value.hostname in r.hosts;
    if stale {
      StaleOrder(r, vm, nd.value, resolve);
    } else {
      assert r1 == r;
      PlainOrder(r, vm, nd, resolve);
    }
  }

  /** Without a stale primary host to delete first, what is left to delete. */
  lemma PlainOrder(r: Reg, vm: VmData, nd: Option<Address>, resolve: string -> string)
    requires !(nd.Some? && nd.value.hostname in r.hosts)
    ensures DeleteOrder(r, vm, nd, resolve) == RemoveBySerialDeletions(r, Serial(vm), resolve)
  {
    if Serial(vm) in r.serials {
      var m := r.serials[Serial(vm)];
      var bound := HostOfMachine(r, m);
      if Named(bound) {
        var h := bound.value;
        var details := DetailsOf(r, m);
        var x := if h in r.hosts then [DeleteHost(h)] else [];
        var y := if resolve(h) in details then [DeleteAddress(resolve(h), m)] else [];
        var z := if "eth0" in details then [DeleteInterface(m)] else [];
        assert DeleteOrder(r, vm, nd, resolve) == [] + x + y + z + [DeleteMachine(m)];
        assert RemoveBySerialDeletions(r, Serial(vm), resolve) == (x + (y + z)) + [DeleteMachine(m)];
      }
    }
  }

  /** Once step 1 has deleted the stale primary host, what is left to delete. */
  lemma StaleOrder(r: Reg, vm: VmData, nd: Address, resolve: string -> string)
    requires nd.hostname in r.hosts
    ensures DeleteOrder(r, vm, Some(nd), resolve)
            == [DeleteHost(nd.hostname)] + RemoveBySerialDeletions(WithoutHost(r, nd.hostname), Serial(vm), resolve)
  {
    var r1 := WithoutHost(r, nd.hostname);
    assert r1.serials == r.serials;
    if Serial(vm) in r.serials {
      var m := r.serials[Serial(vm)];
      var bound := HostOfMachine(r, m);
      var bound1 := HostOfMachine(r1, m);
      assert bound1 == (if bound == Some(nd.hostname) then None else bound);
      if Named(bound1) {
        assert DetailsOf(r1, m) == DetailsOf(r, m);
        assert bound1.value in r1.hosts <==> bound1.value in r.hosts;
        assert UnbindDeletions(r1, m, bound1.value, resolve) == UnbindDeletions(r, m, bound1.value, resolve);
      }
    }
  }

  /** Every host `delete_machine` deletes is deleted right after a check of that host
      found it. */
  lemma DeleteChecksHosts(r: Reg, vm: VmData, nd: Option<Address>, resolve: string -> string)
    ensures HostsChecked(r, DeleteTrace(r, vm, nd, resolve))
  {
    var a := FirstTrace(r, nd);
    var b := RemoveBySerialTrace(Apply(r, a), Serial(vm), resolve);
    FirstStep(r, nd);
    RemoveBySerialStep(Apply(r, a), Serial(vm), resolve);
    HostsCheckedAppend(r, a, b);
  }

  /** From a consistent registry, the record rules accept every call of
      `delete_machine`, and the registry stays consistent after each of them. Whether
      the interfaces-first rule holds too is `DeleteDetachesFirst`. */
  lemma DeleteSound(r: Reg, vm: VmData, nd: Option<Address>, resolve: string -> string)
    requires Valid(r) && ResolvesToAddresses(resolve)
    ensures Sound(r, DeleteTrace(r, vm, nd, resolve))
  {
    var a := FirstTrace(r, nd);
    FirstStep(r, nd);
    SoundValid(r, a);
    RemoveBySerialSound(Apply(r, a), Serial(vm), resolve);
    SoundAppend(r, a, RemoveBySerialTrace(Apply(r, a), Serial(vm), resolve));
  }

  /** After `delete_machine`: no machine is filed under the VM's serial, the stale
      primary host is gone, the host the old machine was bound to is gone, no host was
      added and no machine name was used up. */
  lemma DeleteClears(r: Reg, vm: VmData, nd: Option<Address>, resolve: string -> string)
    ensures var r' := Apply(r, DeleteTrace(r, vm, nd, resolve));
      && Serial(vm) !in r'.serials
      && (nd.Some? ==> nd.value.hostname !in r'.hosts)
      && (Serial(vm) in r.serials ==> r.serials[Serial(vm)] !in r'.machines)
      && (Serial(vm) in r.serials && Named(HostOfMachine(r, r.serials[Serial(vm)])) ==>
            HostOfMachine(r, r.serials[Serial(vm)]).value !in r'.hosts)
      && r'.hosts <= r.hosts
      && r'.nextId == r.nextId
  {
    var a := FirstTrace(r, nd);
    var r1 := Apply(r, a);
    var b := RemoveBySerialTrace(r1, Serial(vm), resolve);
    FirstStep(r, nd);
    RemoveBySerialFrame(r1, Serial(vm), resolve);
    ApplyAppend(r, a, b);
    if Serial(vm) in r.serials {
      var m := r.serials[Serial(vm)];
      var bound := HostOfMachine(r, m);
      if nd.Some? && nd.value.hostname in r.hosts && bound == Some(nd.value.hostname) {
        assert HostOfMachine(r1, m) == None;
      } else {
        assert HostOfMachine(r1, m) == bound;
      }
    }
  }

  // ---- consequences

  /** With no machine filed under the VM's serial, the only change `delete_machine`
      makes is deleting the stale primary host, and only if that host exists. */
  lemma DeleteWithoutMachine(r: Reg, vm: VmData, nd: Option<Address>, resolve: string -> string)
    requires Serial(vm) !in r.serials
    ensures Mutations(DeleteTrace(r, vm, nd, resolve))
            == (if nd.Some? && nd.value.hostname in r.hosts then [DeleteHost(nd.value.hostname)] else [])
  {
    DeleteDeletions(r, vm, nd, resolve);
  }

  /** Deletions in rank order, none after a machine deletion, none ranked below `k`. */
  predicate RankedFrom(d: seq<Op>, k: nat)
  {
    && (forall i :: 0 <= i < |d| ==> k <= Rank(d[i]))
    && (forall i, j :: 0 <= i < j < |d| ==> Rank(d[i]) <= Rank(d[j]) && !d[i].DeleteMachine?)
  }

  lemma RankedPrepend(b: bool, x: Op, d: seq<Op>, k: nat)
    requires RankedFrom(d, k) && Rank(x) <= k && !x.DeleteMachine?
    ensures RankedFrom((if b then [x] else []) + d, Rank(x))
  {
    if b {
      RankedCons(x, d, k);
    } else {
      assert [] + d == d;
    }
  }

  lemma RankedCons(x: Op, d: seq<Op>, k: nat)
    requires RankedFrom(d, k) && Rank(x) <= k && !x.DeleteMachine?
    ensures RankedFrom([x] + d, Rank(x))
  {
    var e := [x] + d;
    forall i | 0 <= i < |e|
      ensures Rank(x) <= Rank(e[i])
    {
      if i > 0 {
        assert e[i] == d[i - 1];
      }
    }
    forall i, j | 0 <= i < j < |e|
      ensures Rank(e[i]) <= Rank(e[j]) && !e[i].DeleteMachine?
    {
      assert e[j] == d[j - 1];
      if i > 0 {
        assert e[i] == d[i - 1];
      } else {
        assert e[i] == x;
      }
    }
  }

  lemma SeqAssoc(a: seq<Op>, b: seq<Op>, c: seq<Op>)
    ensures a + b + c == a + (b + c)
  {
  }

  lemma OrderRanked(r: Reg, vm: VmData, nd: Option<Address>, resolve: string -> string)
    ensures RankedFrom(DeleteOrder(r, vm, nd, resolve), 0)
  {
    var stale := nd.Some? && nd.value.hostname in r.hosts;
    var x0 := DeleteHost(if nd.Some? then nd.value.hostname else "");
    if Serial(vm) !in r.serials {
      RankedPrepend(stale, x0, [], 0);
      assert DeleteOrder(r, vm, nd, resolve) == (if stale then [x0] else []) + [];
    } else {
      var m := r.serials[Serial(vm)];
      var tail := [DeleteMachine(m)];
      assert RankedFrom(tail, 3);
      if !StillBound(r, nd, m) {
        RankedPrepend(stale, x0, tail, 3);
        assert DeleteOrder(r, vm, nd, resolve) == (if stale then [x0] else []) + tail;
      } else {
        var h := HostOfMachine(r, m).value;
        var details := DetailsOf(r, m);
        var x3 := DeleteInterface(m);
        var x2 := DeleteAddress(resolve(h), m);
        var x1 := DeleteHost(h);
        var o3 := if "eth0" in details then [x3] else [];
        var o2 := if resolve(h) in details then [x2] else [];
        var o1 := if h in r.hosts then [x1] else [];
        var o0 := if stale then [x0] else [];
        RankedPrepend("eth0" in details, x3, tail, 3);
        RankedPrepend(resolve(h) in details, x2, o3 + tail, 2);
        RankedPrepend(h in r.hosts, x1, o2 + (o3 + tail), 1);
        RankedPrepend(stale, x0, o1 + (o2 + (o3 + tail)), 0);
        assert DeleteOrder(r, vm, nd, resolve) == o0 + o1 + o2 + o3 + tail;
        calc {
          o0 + o1 + o2 + o3 + tail;
          { SeqAssoc(o0 + o1 + o2, o3, tail); }
          o0 + o1 + o2 + (o3 + tail);
          { SeqAssoc(o0 + o1, o2, o3 + tail); }
          o0 + o1 + (o2 + (o3 + tail));
          { SeqAssoc(o0, o1, o2 + (o3 + tail)); }
          o0 + (o1 + (o2 + (o3 + tail)));
        }
      }
    }
  }

  /** When a machine is filed under the serial, deleting it is the last call. */
  lemma DeleteEndsWithMachine(r: Reg, vm: VmData, nd: Option<Address>, resolve: string -> string)
    requires Serial(vm) in r.serials
    ensures var t := DeleteTrace(r, vm, nd, resolve); t[|t| - 1] == DeleteMachine(r.serials[Serial(vm)])
  {
    var a := FirstTrace(r, nd);
    var r1 := Apply(r, a);
    FirstKeepsSerials(r, nd);
    var m := r.serials[Serial(vm)];
    var u := RemoveMachineTrace(r1, m, resolve);
    RemoveMachineEnds(r1, m, resolve);
    assert DeleteTrace(r, vm, nd, resolve) == a + [SearchMachineBySerial(Serial(vm))] + u;
  }

  /** Host records are deleted first, then the address, then the interface, and the
      machine record last of all: no deletion follows it. */
  lemma DeleteOrdered(r: Reg, vm: VmData, nd: Option<Address>, resolve: string -> string)
    ensures var d := Deletions(DeleteTrace(r, vm, nd, resolve));
      forall i, j :: 0 <= i < j < |d| ==> Rank(d[i]) <= Rank(d[j]) && !d[i].DeleteMachine?
  {
    DeleteDeletions(r, vm, nd, resolve);
    OrderRanked(r, vm, nd, resolve);
  }

  /** The reference order holds an address deletion exactly for the still-bound
      machine filed under the VM's serial, its host's address, when its details hold it. */
  lemma OrderHasAddress(r: Reg, vm: VmData, nd: Option<Address>, resolve: string -> string, ip: string, m: MachineName)
    ensures DeleteAddress(ip, m) in DeleteOrder(r, vm, nd, resolve) <==>
      && Serial(vm) in r.serials && m == r.serials[Serial(vm)] && StillBound(r, nd, m)
      && ip == resolve(HostOfMachine(r, m).value) && ip in DetailsOf(r, m)
  {
    var stale := nd.Some? && nd.value.hostname in r.hosts;
    var first := if stale then [DeleteHost(nd.value.hostname)] else [];
    assert DeleteAddress(ip, m) !in first;
    if Serial(vm) in r.serials {
      var m' := r.serials[Serial(vm)];
      if StillBound(r, nd, m') {
        var h := HostOfMachine(r, m').value;
        var details := DetailsOf(r, m');
        var hp := if h in r.hosts then [DeleteHost(h)] else [];
        var ap := if resolve(h) in details then [DeleteAddress(resolve(h), m')] else [];
        var ep := if "eth0" in details then [DeleteInterface(m')] else [];
        assert DeleteOrder(r, vm, nd, resolve) == first + hp + ap + ep + [DeleteMachine(m')];
        assert DeleteAddress(ip, m) !in hp + ep + [DeleteMachine(m')];
      } else {
        assert DeleteOrder(r, vm, nd, resolve) == first + [DeleteMachine(m')];
      }
    }
  }

  /** The reference order holds an interface deletion exactly for the still-bound
      machine filed under the VM's serial, when its details hold `eth0`. */
  lemma OrderHasInterface(r: Reg, vm: VmData, nd: Option<Address>, resolve: string -> string, m: MachineName)
    ensures DeleteInterface(m) in DeleteOrder(r, vm, nd, resolve) <==>
      && Serial(vm) in r.serials && m == r.serials[Serial(vm)] && StillBound(r, nd, m)
      && "eth0" in DetailsOf(r, m)
  {
    var stale := nd.Some? && nd.value.hostname in r.hosts;
    var first := if stale then [DeleteHost(nd.value.hostname)] else [];
    assert DeleteInterface(m) !in first;
    if Serial(vm) in r.serials {
      var m' := r.serials[Serial(vm)];
      if StillBound(r, nd, m') {
        var h := HostOfMachine(r, m').value;
        var details := DetailsOf(r, m');
        var hp := if h in r.hosts then [DeleteHost(h)] else [];
        var ap := if resolve(h) in details then [DeleteAddress(resolve(h), m')] else [];
        var ep := if "eth0" in details then [DeleteInterface(m')] else [];
        assert DeleteOrder(r, vm, nd, resolve) == first + hp + ap + ep + [DeleteMachine(m')];
        assert DeleteInterface(m) !in hp + ap + [DeleteMachine(m')];
      } else {
        assert DeleteOrder(r, vm, nd, resolve) == first + [DeleteMachine(m')];
      }
    }
  }

  /** The address is detached exactly when the machine filed under the serial is
      still bound to a named host, the address is what that host name resolves to,
      and the machine's details hold it; the interface exactly when the machine is
      still bound and its details hold the primary interface. */
  lemma DeleteDetaches(r: Reg, vm: VmData, nd: Option<Address>, resolve: string -> string, ip: string, m: MachineName)
    ensures DeleteAddress(ip, m) in DeleteTrace(r, vm, nd, resolve) <==>
      && Serial(vm) in r.serials && m == r.serials[Serial(vm)] && StillBound(r, nd, m)
      && ip == resolve(HostOfMachine(r, m).value) && ip in DetailsOf(r, m)
    ensures DeleteInterface(m) in DeleteTrace(r, vm, nd, resolve) <==>
      && Serial(vm) in r.serials && m == r.serials[Serial(vm)] && StillBound(r, nd, m)
      && "eth0" in DetailsOf(r, m)
  {
    var t := DeleteTrace(r, vm, nd, resolve);
    DeleteDeletions(r, vm, nd, resolve);
    InDeletions(t, DeleteAddress(ip, m));
    InDeletions(t, DeleteInterface(m));
    OrderHasAddress(r, vm, nd, resolve, ip, m);
    OrderHasInterface(r, vm, nd, resolve, m);
  }

  /** A machine without a named host is deleted directly: its host is not looked up
      further and nothing is detached from it. */
  lemma DeleteUnbound(r: Reg, vm: VmData, nd: Option<Address>, resolve: string -> string)
    requires Serial(vm) in r.serials && !Named(HostOfMachine(r, r.serials[Serial(vm)]))
    ensures var m := r.serials[Serial(vm)];
      DeleteTrace(r, vm, nd, resolve)
      == FirstTrace(r, nd) + [SearchMachineBySerial(Serial(vm)), SearchHostByMachine(m), DeleteMachine(m)]
  {
    FirstKeepsUnbound(r, nd, r.serials[Serial(vm)]);
    RemoveUnbound(Apply(r, FirstTrace(r, nd)), Serial(vm), resolve);
  }

  /** Step 1 keeps the serial index. */
  lemma FirstKeepsSerials(r: Reg, nd: Option<Address>)
    ensures Apply(r, FirstTrace(r, nd)).serials == r.serials
  {
    FirstStep(r, nd);
  }

  /** Step 1 keeps the serial index, and leaves an unbound machine unbound. */
  lemma FirstKeepsUnbound(r: Reg, nd: Option<Address>, m: MachineName)
    requires !Named(HostOfMachine(r, m))
    ensures var r1 := Apply(r, FirstTrace(r, nd));
      r1.serials == r.serials && !Named(HostOfMachine(r1, m))
  {
    FirstStep(r, nd);
  }

  /** Tearing down an unbound machine: the lookups, then the machine. */
  lemma RemoveUnbound(r: Reg, serial: string, resolve: string -> string)
    requires serial in r.serials && !Named(HostOfMachine(r, r.serials[serial]))
    ensures var m := r.serials[serial];
      RemoveBySerialTrace(r, serial, resolve) == [SearchMachineBySerial(serial), SearchHostByMachine(m), DeleteMachine(m)]
  {
    var m := r.serials[serial];
    assert RemoveMachineTrace(r, m, resolve) == [SearchHostByMachine(m)] + [] + [DeleteMachine(m)];
    assert RemoveBySerialTrace(r, serial, resolve) == [SearchMachineBySerial(serial)] + RemoveMachineTrace(r, m, resolve);
  }

  /** Running `delete_machine` again on the registry it left behind changes nothing. */
  lemma DeleteIdempotent(r: Reg, vm: VmData, nd: Option<Address>, resolve: string -> string)
    ensures var r' := Apply(r, DeleteTrace(r, vm, nd, resolve));
      && Mutations(DeleteTrace(r', vm, nd, resolve)) == []
      && Apply(r', DeleteTrace(r', vm, nd, resolve)) == r'
  {
    var r' := Apply(r, DeleteTrace(r, vm, nd, resolve));
    DeleteClears(r, vm, nd, resolve);
    DeleteDeletions(r', vm, nd, resolve);
    var a := FirstTrace(r', nd);
    FirstStep(r', nd);
    RemoveBySerialFrame(Apply(r', a), Serial(vm), resolve);
    ApplyAppend(r', a, RemoveBySerialTrace(Apply(r', a), Serial(vm), resolve));
  }

  /** When the VM's new primary hostname is the host its old machine is bound to,
      step 1 deletes that host, so step 3 finds the machine unbound: the machine is
      deleted without its address or primary interface being detached first. */
  lemma DeleteReusedHostname(r: Reg, vm: VmData, nd: Address, resolve: string -> string)
    requires nd.hostname != "" && nd.hostname in r.hosts
    requires Serial(vm) in r.serials && HostOfMachine(r, r.serials[Serial(vm)]) == Some(nd.hostname)
    ensures Mutations(DeleteTrace(r, vm, Some(nd), resolve))
            == [DeleteHost(nd.hostname), DeleteMachine(r.serials[Serial(vm)])]
  {
    DeleteDeletions(r, vm, Some(nd), resolve);
  }

  /** A delete event for VM `v1` whose machine is bound to host `h1`, with address
      10.0.0.5 and the primary interface attached: the host, the address, the
      interface and the machine are deleted, in that order. */
  lemma DeleteScenario(msg: RabbitMessage, resolve: string -> string)
    requires msg.vmId == "v1" && resolve("h1") == "10.0.0.5"
    ensures var r := Reg({"h1"}, map[7 := Machine("v1", Some("h1"), {"10.0.0.5", "eth0"})], map["v1" := 7], 8);
      Mutations(DeleteWorkflowTrace(r, msg, resolve))
      == [DeleteHost("h1"), DeleteAddress("10.0.0.5", 7), DeleteInterface(7), DeleteMachine(7)]
  {
    var r := Reg({"h1"}, map[7 := Machine("v1", Some("h1"), {"10.0.0.5", "eth0"})], map["v1" := 7], 8);
    DeleteDeletions(r, VmOf(msg), None, resolve);
    ScenarioDeleteOrder(r, VmOf(msg), resolve);
  }

  /** The teardown order of that scenario, read off the registry. */
  lemma ScenarioDeleteOrder(r: Reg, vm: VmData, resolve: string -> string)
    requires r == Reg({"h1"}, map[7 := Machine("v1", Some("h1"), {"10.0.0.5", "eth0"})], map["v1" := 7], 8)
    requires Serial(vm) == "v1" && resolve("h1") == "10.0.0.5"
    ensures DeleteOrder(r, vm, None, resolve)
            == [DeleteHost("h1"), DeleteAddress("10.0.0.5", 7), DeleteInterface(7), DeleteMachine(7)]
  {
    assert HostOfMachine(r, 7) == Some("h1") && StillBound(r, None, 7);
    assert DetailsOf(r, 7) == {"10.0.0.5", "eth0"};
  }

  /** Calls to the registry or to name resolution, and nothing else. */
  predicate ReconcilerCalls(t: seq<Op>)
  {
    forall i :: 0 <= i < |t| ==> IsRegistryCall(t[i]) || t[i].Resolve?
  }

  lemma ReconcilerCallsAppend(a: seq<Op>, b: seq<Op>)
    requires ReconcilerCalls(a) && ReconcilerCalls(b)
    ensures ReconcilerCalls(a + b)
  {
    forall i | 0 <= i < |a + b|
      ensures IsRegistryCall((a + b)[i]) || (a + b)[i].Resolve?
    {
      if i >= |a| {
        assert (a + b)[i] == b[i - |a|];
      }
    }
  }

  /** `delete_machine` only talks to the registry and to name resolution. */
  lemma DeleteCallsOnly(r: Reg, vm: VmData, nd: Option<Address>, resolve: string -> string)
    ensures ReconcilerCalls(DeleteTrace(r, vm, nd, resolve))
  {
    var a := FirstTrace(r, nd);
    assert ReconcilerCalls(a);
    RemoveBySerialCallsOnly(Apply(r, a), Serial(vm), resolve);
    ReconcilerCallsAppend(a, RemoveBySerialTrace(Apply(r, a), Serial(vm), resolve));
  }

  lemma UnbindCallsOnly(r: Reg, m: MachineName, h: string, resolve: string -> string)
    ensures ReconcilerCalls(UnbindTrace(r, m, h, resolve))
  {
    var ht := HostTrace(r, h);
    var dt := DetachTrace(Apply(r, ht), m, h, resolve);
    DetachShape(Apply(r, ht), m, h, resolve);
    assert ReconcilerCalls(ht) && ReconcilerCalls(dt);
    ReconcilerCallsAppend(ht, dt);
  }

  lemma RemoveMachineCallsOnly(r: Reg, m: MachineName, resolve: string -> string)
    ensures ReconcilerCalls(RemoveMachineTrace(r, m, resolve))
  {
    var bound := HostOfMachine(r, m);
    var u := UnbindIfNamed(r, m, resolve);
    if Named(bound) {
      UnbindCallsOnly(r, m, bound.value, resolve);
    }
    RemoveMachineShape(r, m, resolve);
    ReconcilerCallsAppend([SearchHostByMachine(m)], u);
    ReconcilerCallsAppend([SearchHostByMachine(m)] + u, [DeleteMachine(m)]);
  }

  lemma RemoveBySerialCallsOnly(r: Reg, serial: string, resolve: string -> string)
    ensures ReconcilerCalls(RemoveBySerialTrace(r, serial, resolve))
  {
    var q := [SearchMachineBySerial(serial)];
    if serial in r.serials {
      var m := r.serials[serial];
      RemoveMachineCallsOnly(r, m, resolve);
      assert RemoveBySerialTrace(r, serial, resolve) == q + RemoveMachineTrace(r, m, resolve);
      ReconcilerCallsAppend(q, RemoveMachineTrace(r, m, resolve));
    } else {
      assert RemoveBySerialTrace(r, serial, resolve) == q;
    }
  }

  // ---- the interfaces-first rule

  /** `delete_machine` reaches the machine filed under the VM's serial with its primary
      interface attached: once step 1 has run the machine has no named host, so step 3
      detaches nothing, and its details hold `eth0`. */
  predicate KeepsInterface(r: Reg, vm: VmData, nd: Option<Address>)
  {
    Serial(vm) in r.serials && !StillBound(r, nd, r.serials[Serial(vm)])
    && "eth0" in DetailsOf(r, r.serials[Serial(vm)])
  }

  /** The detach part deletes no machine and leaves no primary interface behind. */
  lemma DetachDropsInterface(r: Reg, m: MachineName, h: string, resolve: string -> string)
    ensures "eth0" !in DetailsOf(Apply(r, DetachTrace(r, m, h, resolve)), m)
    ensures forall x :: DeleteMachine(x) !in DetachTrace(r, m, h, resolve)
  {
    var ip := resolve(h);
    var details := DetailsOf(r, m);
    var g := [GetMachineDetails(m)] + [Resolve(h)];
    var a := if ip in details then [DeleteAddress(ip, m)] else [];
    var e := if "eth0" in details then [DeleteInterface(m)] else [];
    assert DetachTrace(r, m, h, resolve) == g + a + e;
    ApplyInert(r, g);
    ApplyAppend(r, g, a);
    ApplyOne(r, DeleteAddress(ip, m));
    ApplyAppend(r, g + a, e);
    ApplyOne(Apply(r, a), DeleteInterface(m));
  }

  /** Unbinding deletes no machine and leaves no primary interface behind. */
  lemma UnbindDropsInterface(r: Reg, m: MachineName, h: string, resolve: string -> string)
    ensures "eth0" !in DetailsOf(Apply(r, UnbindTrace(r, m, h, resolve)), m)
    ensures forall x :: DeleteMachine(x) !in UnbindTrace(r, m, h, resolve)
  {
    var a := HostTrace(r, h);
    DetachDropsInterface(Apply(r, a), m, h, resolve);
    ApplyAppend(r, a, DetachTrace(Apply(r, a), m, h, resolve));
  }

  /** Removing machine `m` meets the interfaces-first rule exactly when the machine has a
      named host, so that it is detached, or its details hold no primary interface. */
  lemma RemoveMachineDetachesFirst(r: Reg, m: MachineName, resolve: string -> string)
    ensures DetachesFirst(r, RemoveMachineTrace(r, m, resolve))
            <==> Named(HostOfMachine(r, m)) || "eth0" !in DetailsOf(r, m)
  {
    var bound := HostOfMachine(r, m);
    var q := [SearchHostByMachine(m)];
    var u := UnbindIfNamed(r, m, resolve);
    RemoveMachineShape(r, m, resolve);
    ApplyOne(r, SearchHostByMachine(m));
    ApplyAppend(r, q, u);
    if Named(bound) {
      UnbindDropsInterface(r, m, bound.value, resolve);
    } else {
      assert Apply(r, q + u) == r;
    }
    DetachesFirstVacuous(r, q + u);
    DetachesFirstAppend(r, q + u, [DeleteMachine(m)]);
    DetachesFirstOne(Apply(r, q + u), DeleteMachine(m));
  }

  /** The lookup by serial and the teardown meet the interfaces-first rule exactly when
      no machine is filed under the serial, or it has a named host, or its details hold
      no primary interface. */
  lemma RemoveBySerialDetachesFirst(r: Reg, serial: string, resolve: string -> string)
    ensures DetachesFirst(r, RemoveBySerialTrace(r, serial, resolve))
            <==> (serial in r.serials ==>
                    Named(HostOfMachine(r, r.serials[serial])) || "eth0" !in DetailsOf(r, r.serials[serial]))
  {
    var q := [SearchMachineBySerial(serial)];
    ApplyOne(r, SearchMachineBySerial(serial));
    DetachesFirstVacuous(r, q);
    if serial in r.serials {
      var m := r.serials[serial];
      assert RemoveBySerialTrace(r, serial, resolve) == q + RemoveMachineTrace(r, m, resolve);
      RemoveMachineDetachesFirst(r, m, resolve);
      DetachesFirstAppend(r, q, RemoveMachineTrace(r, m, resolve));
    } else {
      assert RemoveBySerialTrace(r, serial, resolve) == q;
    }
  }

  /** Step 1 keeps the serial index and the details, and leaves the machine of the
      serial with a named host exactly when it is still bound. */
  lemma FirstBinding(r: Reg, vm: VmData, nd: Option<Address>)
    requires Serial(vm) in r.serials
    ensures var r1 := Apply(r, FirstTrace(r, nd)); var m := r.serials[Serial(vm)];
      && r1.serials == r.serials
      && DetailsOf(r1, m) == DetailsOf(r, m)
      && (Named(HostOfMachine(r1, m)) <==> StillBound(r, nd, m))
      && (Named(HostOfMachine(r1, m)) ==> HostOfMachine(r1, m) == HostOfMachine(r, m))
  {
    FirstStep(r, nd);
  }

  /** `delete_machine` meets the interfaces-first rule exactly when it does not reach the
      machine filed under the serial unbound with its primary interface attached. */
  lemma DeleteDetachesFirst(r: Reg, vm: VmData, nd: Option<Address>, resolve: string -> string)
    ensures DetachesFirst(r, DeleteTrace(r, vm, nd, resolve)) <==> !KeepsInterface(r, vm, nd)
  {
    var a := FirstTrace(r, nd);
    var r1 := Apply(r, a);
    assert DeleteTrace(r, vm, nd, resolve) == a + RemoveBySerialTrace(r1, Serial(vm), resolve);
    FirstStep(r, nd);
    FirstDetaches(r, nd);
    RemoveBySerialDetachesFirst(r1, Serial(vm), resolve);
    DetachesFirstAppend(r, a, RemoveBySerialTrace(r1, Serial(vm), resolve));
    if Serial(vm) in r.serials {
      FirstBinding(r, vm, nd);
    } else {
      FirstKeepsSerials(r, nd);
    }
  }

  /** When the VM's new primary hostname is the host its old machine is bound to and
      that machine still has its primary interface, `delete_machine` breaks the
      interfaces-first rule. */
  lemma ReusedHostnameKeepsInterface(r: Reg, vm: VmData, nd: Address, resolve: string -> string)
    requires nd.hostname in r.hosts && Serial(vm) in r.serials
    requires HostOfMachine(r, r.serials[Serial(vm)]) == Some(nd.hostname)
    requires "eth0" in DetailsOf(r, r.serials[Serial(vm)])
    ensures !DetachesFirst(r, DeleteTrace(r, vm, Some(nd), resolve))
  {
    DeleteDetachesFirst(r, vm, Some(nd), resolve);
  }

  /** A delete event for a VM whose machine has no host but still has its primary
      interface, as a create that raised after attaching the NICs leaves it, deletes
      that machine with the interface attached, breaking the interfaces-first rule. */
  lemma UnboundKeepsInterface(r: Reg, vm: VmData, resolve: string -> string)
    requires Serial(vm) in r.serials && HostOfMachine(r, r.serials[Serial(vm)]) == None
    requires "eth0" in DetailsOf(r, r.serials[Serial(vm)])
    ensures !DetachesFirst(r, DeleteTrace(r, vm, None, resolve))
  {
    DeleteDetachesFirst(r, vm, None, resolve);
  }

  // ---- the corrected teardown

  /** The interface step deletes no machine, leaves no primary interface behind and
      changes nothing else. */
  lemma InterfaceDropsInterface(r: Reg, m: MachineName)
    ensures "eth0" !in DetailsOf(Apply(r, InterfaceTrace(r, m)), m)
    ensures forall x :: DeleteMachine(x) !in InterfaceTrace(r, m)
    ensures Apply(r, InterfaceTrace(r, m)) == if "eth0" in DetailsOf(r, m) then WithoutDetail(r, m, "eth0") else r
  {
    var g := [GetMachineDetails(m)];
    var e := if "eth0" in DetailsOf(r, m) then [DeleteInterface(m)] else [];
    ApplyOne(r, GetMachineDetails(m));
    ApplyAppend(r, g, e);
    ApplyOne(r, DeleteInterface(m));
  }

  /** The corrected teardown of a machine always meets the interfaces-first rule. */
  lemma DetachingRemoveDetaches(r: Reg, m: MachineName, resolve: string -> string)
    ensures DetachesFirst(r, DetachingRemoveTrace(r, m, resolve))
  {
    var bound := HostOfMachine(r, m);
    var q := [SearchHostByMachine(m)];
    var u := if Named(bound) then UnbindTrace(r, m, bound.value, resolve) else InterfaceTrace(r, m);
    assert DetachingRemoveTrace(r, m, resolve) == q + u + [DeleteMachine(m)];
    ApplyOne(r, SearchHostByMachine(m));
    ApplyAppend(r, q, u);
    if Named(bound) {
      UnbindDropsInterface(r, m, bound.value, resolve);
    } else {
      InterfaceDropsInterface(r, m);
    }
    DetachesFirstVacuous(r, q + u);
    DetachesFirstAppend(r, q + u, [DeleteMachine(m)]);
    DetachesFirstOne(Apply(r, q + u), DeleteMachine(m));
  }

  /** The corrected teardown of a machine meets the record rules too. */
  lemma DetachingRemoveSound(r: Reg, m: MachineName, resolve: string -> string)
    requires Valid(r) && m in r.machines && ResolvesToAddresses(resolve)
    ensures Sound(r, DetachingRemoveTrace(r, m, resolve))
  {
    var bound := HostOfMachine(r, m);
    if Named(bound) {
      assert DetachingRemoveTrace(r, m, resolve) == RemoveMachineTrace(r, m, resolve);
      RemoveMachineSound(r, m, resolve);
    } else {
      var q := [SearchHostByMachine(m)];
      var u := InterfaceTrace(r, m);
      var g := [GetMachineDetails(m)];
      var e := if "eth0" in DetailsOf(r, m) then [DeleteInterface(m)] else [];
      assert DetachingRemoveTrace(r, m, resolve) == q + u + [DeleteMachine(m)];
      SoundStep(r, SearchHostByMachine(m));
      SoundStep(r, GetMachineDetails(m));
      SoundAppend(r, q, g);
      ApplyAppend(r, q, g);
      if "eth0" in DetailsOf(r, m) {
        SoundStep(r, DeleteInterface(m));
      }
      SoundAppend(r, q + g, e);
      ApplyAppend(r, q + g, e);
      assert q + g + e == q + u;
      InterfaceDropsInterface(r, m);
      var r2 := Apply(r, q + u);
      SoundValid(r, q + u);
      assert r2.machines[m].host == None;
      SoundStep(r2, DeleteMachine(m));
      SoundAppend(r, q + u, [DeleteMachine(m)]);
    }
  }

  /** The corrected teardown ends where the teardown as written does: the interface it
      adds goes with the machine anyway. */
  lemma DetachingRemoveSameEnd(r: Reg, m: MachineName, resolve: string -> string)
    ensures Apply(r, DetachingRemoveTrace(r, m, resolve)) == Apply(r, RemoveMachineTrace(r, m, resolve))
  {
    var bound := HostOfMachine(r, m);
    if !Named(bound) {
      var q := [SearchHostByMachine(m)];
      var u := InterfaceTrace(r, m);
      assert DetachingRemoveTrace(r, m, resolve) == q + u + [DeleteMachine(m)];
      assert RemoveMachineTrace(r, m, resolve) == q + [DeleteMachine(m)];
      ApplyOne(r, SearchHostByMachine(m));
      ApplyAppend(r, q, u);
      InterfaceDropsInterface(r, m);
      ApplyAppend(r, q + u, [DeleteMachine(m)]);
      ApplyAppend(r, q, [DeleteMachine(m)]);
      ApplyOne(Apply(r, q + u), DeleteMachine(m));
      ApplyOne(r, DeleteMachine(m));
      var r2 := Apply(r, q + u);
      assert WithoutMachine(r2, m).machines == WithoutMachine(r, m).machines;
    }
  }

  /** The corrected `delete_machine` issues step 1, the lookup by serial, and the
      corrected teardown of the machine found. */
  lemma DetachingDeleteShape(r: Reg, vm: VmData, nd: Option<Address>, resolve: string -> string)
    ensures var a := FirstTrace(r, nd); var r1 := Apply(r, a);
      DetachingDeleteTrace(r, vm, nd, resolve)
      == a + ([SearchMachineBySerial(Serial(vm))]
              + if Serial(vm) in r1.serials then DetachingRemoveTrace(r1, r1.serials[Serial(vm)], resolve) else [])
  {
  }

  lemma FirstDetaches(r: Reg, nd: Option<Address>)
    ensures DetachesFirst(r, FirstTrace(r, nd))
  {
    if nd.Some? {
      assert forall x :: DeleteMachine(x) !in HostTrace(r, nd.value.hostname);
    }
    DetachesFirstVacuous(r, FirstTrace(r, nd));
  }

  /** Whatever the registry, the corrected `delete_machine` meets the interfaces-first rule. */
  lemma DetachingDeleteDetaches(r: Reg, vm: VmData, nd: Option<Address>, resolve: string -> string)
    ensures DetachesFirst(r, DetachingDeleteTrace(r, vm, nd, resolve))
  {
    var a := FirstTrace(r, nd);
    var r1 := Apply(r, a);
    var q := [SearchMachineBySerial(Serial(vm))];
    var b := if Serial(vm) in r1.serials then DetachingRemoveTrace(r1, r1.serials[Serial(vm)], resolve) else [];
    DetachingDeleteShape(r, vm, nd, resolve);
    FirstDetaches(r, nd);
    ApplyOne(r1, SearchMachineBySerial(Serial(vm)));
    DetachesFirstVacuous(r1, q);
    if Serial(vm) in r1.serials {
      DetachingRemoveDetaches(r1, r1.serials[Serial(vm)], resolve);
    }
    DetachesFirstAppend(r1, q, b);
    DetachesFirstAppend(r, a, q + b);
  }

  /** From a consistent registry, the corrected `delete_machine` meets the record rules. */
  lemma DetachingDeleteSound(r: Reg, vm: VmData, nd: Option<Address>, resolve: string -> string)
    requires Valid(r) && ResolvesToAddresses(resolve)
    ensures Sound(r, DetachingDeleteTrace(r, vm, nd, resolve))
  {
    var a := FirstTrace(r, nd);
    var r1 := Apply(r, a);
    var q := [SearchMachineBySerial(Serial(vm))];
    var b := if Serial(vm) in r1.serials then DetachingRemoveTrace(r1, r1.serials[Serial(vm)], resolve) else [];
    DetachingDeleteShape(r, vm, nd, resolve);
    FirstStep(r, nd);
    SoundValid(r, a);
    SoundStep(r1, SearchMachineBySerial(Serial(vm)));
    if Serial(vm) in r1.serials {
      DetachingRemoveSound(r1, r1.serials[Serial(vm)], resolve);
    }
    SoundAppend(r1, q, b);
    SoundAppend(r, a, q + b);
  }

  /** The corrected `delete_machine` leaves the registry exactly as the one as written. */
  lemma DetachingDeleteSameEnd(r: Reg, vm: VmData, nd: Option<Address>, resolve: string -> string)
    ensures Apply(r, DetachingDeleteTrace(r, vm, nd, resolve)) == Apply(r, DeleteTrace(r, vm, nd, resolve))
  {
    var a := FirstTrace(r, nd);
    var r1 := Apply(r, a);
    var q := [SearchMachineBySerial(Serial(vm))];
    DetachingDeleteShape(r, vm, nd, resolve);
    assert DeleteTrace(r, vm, nd, resolve) == a + RemoveBySerialTrace(r1, Serial(vm), resolve);
    ApplyAppend(r, a, RemoveBySerialTrace(r1, Serial(vm), resolve));
    ApplyOne(r1, SearchMachineBySerial(Serial(vm)));
    if Serial(vm) in r1.serials {
      var m := r1.serials[Serial(vm)];
      var b := DetachingRemoveTrace(r1, m, resolve);
      assert RemoveBySerialTrace(r1, Serial(vm), resolve) == q + RemoveMachineTrace(r1, m, resolve);
      DetachingRemoveSameEnd(r1, m, resolve);
      ApplyAppend(r1, q, b);
      ApplyAppend(r1, q, RemoveMachineTrace(r1, m, resolve));
      ApplyAppend(r, a, q + b);
    } else {
      assert RemoveBySerialTrace(r1, Serial(vm), resolve) == q + [];
    }
  }

  /** Wherever the machine filed under the serial is still bound, the corrected
      `delete_machine` issues exactly the calls of the one as written. */
  lemma DetachingDeleteAgrees(r: Reg, vm: VmData, nd: Option<Address>, resolve: string -> string)
    requires Serial(vm) in r.serials ==> StillBound(r, nd, r.serials[Serial(vm)])
    ensures DetachingDeleteTrace(r, vm, nd, resolve) == DeleteTrace(r, vm, nd, resolve)
  {
    var a := FirstTrace(r, nd);
    var r1 := Apply(r, a);
    DetachingDeleteShape(r, vm, nd, resolve);
    assert DeleteTrace(r, vm, nd, resolve) == a + RemoveBySerialTrace(r1, Serial(vm), resolve);
    if Serial(vm) in r.serials {
      FirstBinding(r, vm, nd);
      var m := r1.serials[Serial(vm)];
      assert DetachingRemoveTrace(r1, m, resolve) == RemoveMachineTrace(r1, m, resolve);
    } else {
      FirstKeepsSerials(r, nd);
    }
  }
}
