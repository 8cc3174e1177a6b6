/** The registry's own rules and the consistency the consumer keeps, stated over
    call traces so that every step of a workflow can be checked against them. */
module Invariants {
  import opened Remote
  import opened Workflow

  /** A consistent registry: the serial index and the machine records agree, so each
      serial files at most one machine; machine names are below the next one to be
      handed out; a bound host is a live, named host record; and no host is bound to
      two machines. */
  ghost predicate Valid(r: Reg)
  {
    && (forall s :: s in r.serials ==> r.serials[s] in r.machines && r.machines[r.serials[s]].serial == s)
    && (forall m :: m in r.machines ==> r.machines[m].serial in r.serials && r.serials[r.machines[m].serial] == m)
    && (forall m :: m in r.machines ==> m < r.nextId)
    && (forall m :: m in r.machines && r.machines[m].host.Some? ==>
          Named(r.machines[m].host) && r.machines[m].host.value in r.hosts)
    && (forall m1, m2 ::
          m1 in r.machines && m2 in r.machines && r.machines[m1].host.Some? && r.machines[m1].host == r.machines[m2].host
          ==> m1 == m2)
  }

  /** The record rules a strict registry enforces: a delete needs its target, a machine
      goes only once its host record is gone, a host is created once, for a machine
      without one. The rule that a machine's interfaces go before it is `Detached`. */
  predicate Permitted(r: Reg, op: Op)
  {
    match op
    case DeleteHost(h) => h in r.hosts
    case DeleteAddress(ip, m) => m in r.machines && ip in r.machines[m].details
    case DeleteInterface(m) => m in r.machines && "eth0" in r.machines[m].details
    case DeleteMachine(m) =>
      m in r.machines && (r.machines[m].host.None? || r.machines[m].host.value !in r.hosts)
    case AddMachineNics(m, _) => m in r.machines
    case SetInterfaceBootable(m, iface) => m in r.machines && iface in r.machines[m].details
    case CreateHost(_, nics, m) =>
      |nics| > 0 && nics[0].hostname !in r.hosts && m in r.machines && r.machines[m].host.None?
    case _ => true
  }

  /** Every call of `t`, issued in order from `r`, is one the registry accepts, and
      the registry stays consistent after each of them. */
  ghost predicate Sound(r: Reg, t: seq<Op>)
  {
    forall k :: 0 <= k < |t| ==> SoundAt(r, t, k)
  }

  /** Call `k` of `t` is accepted, and the registry is consistent after it. */
  ghost predicate SoundAt(r: Reg, t: seq<Op>, k: nat)
    requires k < |t|
  {
    Permitted(Apply(r, t[..k]), t[k]) && Valid(Apply(r, t[..k + 1]))
  }

  /** The interfaces-first rule: a machine is deleted only once its primary interface
      `eth0` is no longer among its details. */
  predicate Detached(r: Reg, op: Op)
  {
    op.DeleteMachine? ==> "eth0" !in DetailsOf(r, op.machine)
  }

  /** Every machine deletion of `t`, issued in order from `r`, meets the
      interfaces-first rule. */
  ghost predicate DetachesFirst(r: Reg, t: seq<Op>)
  {
    forall k :: 0 <= k < |t| ==> Detached(Apply(r, t[..k]), t[k])
  }

  /** Every host deletion in `t` comes straight after a check of that host, which
      found it. */
  ghost predicate HostsChecked(r: Reg, t: seq<Op>)
  {
    forall i :: 0 <= i < |t| && t[i].DeleteHost? ==>
      0 < i && t[i - 1] == CheckHostExists(t[i].host) && t[i].host in Apply(r, t[..i]).hosts
  }

  /** The deletions among the calls of `t`, in order. */
  function Deletions(t: seq<Op>): (d: seq<Op>)
    ensures forall i :: 0 <= i < |d| ==> IsDeletion(d[i])
  {
    if t == [] then [] else (if IsDeletion(t[0]) then [t[0]] else []) + Deletions(t[1..])
  }

  /** The calls of `t` that change the registry, in order. */
  function Mutations(t: seq<Op>): (d: seq<Op>)
    ensures forall i :: 0 <= i < |d| ==> IsRegistryMutation(d[i])
  {
    if t == [] then [] else (if IsRegistryMutation(t[0]) then [t[0]] else []) + Mutations(t[1..])
  }

  /** Name resolution yields addresses, never the primary interface's name. */
  ghost predicate ResolvesToAddresses(resolve: string -> string)
  {
    forall h :: resolve(h) != "eth0"
  }

  // ---- algebra of traces

  lemma ApplyOne(r: Reg, op: Op)
    ensures Apply(r, [op]) == Effect(r, op)
  {
    assert [op][..0] == [];
  }

  /** The effect of each create, for use at a registry that is itself a term. */
  lemma EffectCreates(r: Reg, vm: VmData, m: MachineName, nics: seq<Address>, image: Option<Metadata>)
    ensures Effect(r, CreateMachine(vm)) == WithMachine(r, vm)
    ensures Effect(r, AddMachineNics(m, nics)) == WithNics(r, m, nics)
    ensures Effect(r, SetInterfaceBootable(m, "eth0")) == r
    ensures Effect(r, CreateHost(image, nics, m)) == WithHost(r, nics, m)
    ensures Effect(r, AqManage(nics, image)) == r && Effect(r, AqMake(nics, image)) == r
  {
  }

  lemma {:induction false} DeletionsAppend(a: seq<Op>, b: seq<Op>)
    ensures Deletions(a + b) == Deletions(a) + Deletions(b)
    decreases |a|
  {
    if a == [] {
      assert a + b == b;
    } else {
      assert (a + b)[1..] == a[1..] + b;
      DeletionsAppend(a[1..], b);
    }
  }

  lemma DeletionsOne(op: Op)
    ensures Deletions([op]) == (if IsDeletion(op) then [op] else [])
    ensures Mutations([op]) == (if IsRegistryMutation(op) then [op] else [])
  {
    assert [op][1..] == [];
  }

  lemma {:induction false} MutationsAppend(a: seq<Op>, b: seq<Op>)
    ensures Mutations(a + b) == Mutations(a) + Mutations(b)
    decreases |a|
  {
    if a == [] {
      assert a + b == b;
    } else {
      assert (a + b)[1..] == a[1..] + b;
      MutationsAppend(a[1..], b);
    }
  }

  /** A deletion occurs in a trace exactly when it occurs among its deletions. */
  lemma {:induction false} InDeletions(t: seq<Op>, op: Op)
    requires IsDeletion(op)
    ensures op in t <==> op in Deletions(t)
    decreases |t|
  {
    if t != [] {
      assert t == [t[0]] + t[1..];
      InDeletions(t[1..], op);
    }
  }

  /** Every registry a sound trace passes through, down to any prefix, is consistent. */
  lemma SoundPrefix(r: Reg, t: seq<Op>, k: nat)
    requires Valid(r) && Sound(r, t) && k <= |t|
    ensures Valid(Apply(r, t[..k]))
  {
    if k == 0 {
      assert t[..0] == [];
    } else {
      assert SoundAt(r, t, k - 1);
    }
  }

  lemma SoundValid(r: Reg, t: seq<Op>)
    requires Valid(r) && Sound(r, t)
    ensures Valid(Apply(r, t))
  {
    SoundPrefix(r, t, |t|);
    assert t[..|t|] == t;
  }

  /** The registry stays consistent whatever call the fault strikes. */
  lemma SoundIssued(r: Reg, t: seq<Op>, off: Option<nat>)
    requires Valid(r) && Sound(r, t)
    ensures Valid(Apply(r, Issued(t, off)))
  {
    if off.Some? && off.value <= |t| {
      SoundPrefix(r, t, off.value);
    } else {
      SoundValid(r, t);
    }
  }

  lemma SoundAppend(r: Reg, a: seq<Op>, b: seq<Op>)
    requires Sound(r, a) && Sound(Apply(r, a), b)
    ensures Sound(r, a + b)
  {
    forall k | 0 <= k < |a + b|
      ensures SoundAt(r, a + b, k)
    {
      if k < |a| {
        assert (a + b)[..k] == a[..k];
        assert (a + b)[..k + 1] == a[..k + 1];
        assert SoundAt(r, a, k);
      } else {
        var j := k - |a|;
        assert (a + b)[..k] == a + b[..j];
        assert (a + b)[..k + 1] == a + b[..j + 1];
        ApplyAppend(r, a, b[..j]);
        ApplyAppend(r, a, b[..j + 1]);
        assert SoundAt(Apply(r, a), b, j);
      }
    }
  }

  lemma SoundOne(r: Reg, op: Op)
    requires Permitted(r, op) && Valid(Effect(r, op))
    ensures Sound(r, [op])
  {
    ApplyOne(r, op);
    assert [op][..1] == [op];
    assert SoundAt(r, [op], 0);
  }

  /** Extending a sound trace by one accepted call that keeps the registry consistent. */
  lemma SoundSnoc(r: Reg, t: seq<Op>, op: Op, after: Reg)
    requires Sound(r, t) && Permitted(Apply(r, t), op) && after == Effect(Apply(r, t), op) && Valid(after)
    ensures Sound(r, t + [op]) && Apply(r, t + [op]) == after
  {
    SoundOne(Apply(r, t), op);
    SoundAppend(r, t, [op]);
    ApplyAppend(r, t, [op]);
    ApplyOne(Apply(r, t), op);
  }

  lemma DetachesFirstAppend(r: Reg, a: seq<Op>, b: seq<Op>)
    ensures DetachesFirst(r, a + b) <==> DetachesFirst(r, a) && DetachesFirst(Apply(r, a), b)
  {
    if DetachesFirst(r, a + b) {
      DetachesFirstLeft(r, a, b);
      DetachesFirstRight(r, a, b);
    }
    if DetachesFirst(r, a) && DetachesFirst(Apply(r, a), b) {
      DetachesFirstJoin(r, a, b);
    }
  }

  /** Call `|a| + j` of `a + b` is call `j` of `b`, issued where `a` left the registry. */
  lemma DetachedAt(r: Reg, a: seq<Op>, b: seq<Op>, j: nat)
    requires j < |b|
    ensures Detached(Apply(r, (a + b)[..|a| + j]), (a + b)[|a| + j]) == Detached(Apply(Apply(r, a), b[..j]), b[j])
  {
    assert (a + b)[..|a| + j] == a + b[..j];
    ApplyAppend(r, a, b[..j]);
  }

  /** Call `k` of `a + b`, for `k` inside `a`, is call `k` of `a`. */
  lemma DetachedBefore(r: Reg, a: seq<Op>, b: seq<Op>, k: nat)
    requires k < |a|
    ensures Detached(Apply(r, (a + b)[..k]), (a + b)[k]) == Detached(Apply(r, a[..k]), a[k])
  {
    assert (a + b)[..k] == a[..k];
    assert (a + b)[k] == a[k];
  }

  lemma DetachesFirstLeft(r: Reg, a: seq<Op>, b: seq<Op>)
    requires DetachesFirst(r, a + b)
    ensures DetachesFirst(r, a)
  {
    forall k | 0 <= k < |a|
      ensures Detached(Apply(r, a[..k]), a[k])
    {
      DetachedBefore(r, a, b, k);
      assert Detached(Apply(r, (a + b)[..k]), (a + b)[k]);
    }
  }

  lemma DetachesFirstRight(r: Reg, a: seq<Op>, b: seq<Op>)
    requires DetachesFirst(r, a + b)
    ensures DetachesFirst(Apply(r, a), b)
  {
    forall j | 0 <= j < |b|
      ensures Detached(Apply(Apply(r, a), b[..j]), b[j])
    {
      DetachedAt(r, a, b, j);
      assert Detached(Apply(r, (a + b)[..|a| + j]), (a + b)[|a| + j]);
    }
  }

  lemma DetachesFirstJoin(r: Reg, a: seq<Op>, b: seq<Op>)
    requires DetachesFirst(r, a) && DetachesFirst(Apply(r, a), b)
    ensures DetachesFirst(r, a + b)
  {
    forall k | 0 <= k < |a + b|
      ensures Detached(Apply(r, (a + b)[..k]), (a + b)[k])
    {
      var now := Detached(Apply(r, (a + b)[..k]), (a + b)[k]);
      if k < |a| {
        DetachedBefore(r, a, b, k);
        assert Detached(Apply(r, a[..k]), a[k]);
      } else {
        DetachedAt(r, a, b, k - |a|);
        assert Detached(Apply(Apply(r, a), b[..k - |a|]), b[k - |a|]);
      }
      assert now;
    }
  }

  /** A trace that deletes no machine meets the interfaces-first rule. */
  lemma DetachesFirstVacuous(r: Reg, t: seq<Op>)
    requires forall m :: DeleteMachine(m) !in t
    ensures DetachesFirst(r, t)
  {
  }

  lemma DetachesFirstOne(r: Reg, op: Op)
    ensures DetachesFirst(r, [op]) <==> Detached(r, op)
  {
    assert [op][..0] == [];
  }

  lemma HostsCheckedAppend(r: Reg, a: seq<Op>, b: seq<Op>)
    requires HostsChecked(r, a) && HostsChecked(Apply(r, a), b)
    requires |b| > 0 ==> !b[0].DeleteHost?
    ensures HostsChecked(r, a + b)
  {
    forall i | 0 <= i < |a + b| && (a + b)[i].DeleteHost?
      ensures 0 < i && (a + b)[i - 1] == CheckHostExists((a + b)[i].host)
              && (a + b)[i].host in Apply(r, (a + b)[..i]).hosts
    {
      if i < |a| {
        assert (a + b)[..i] == a[..i];
      } else {
        var j := i - |a|;
        assert (a + b)[..i] == a + b[..j];
        ApplyAppend(r, a, b[..j]);
      }
    }
  }

  /** A trace with no deletion of a host checks every host it deletes. */
  lemma HostsCheckedVacuous(r: Reg, t: seq<Op>)
    requires forall i :: 0 <= i < |t| ==> !t[i].DeleteHost?
    ensures HostsChecked(r, t)
  {
  }

  // ---- frame facts: what a trace leaves alone

  lemma {:induction false} ApplySerials(r: Reg, t: seq<Op>)
    requires forall i :: 0 <= i < |t| ==> !t[i].DeleteMachine? && !t[i].CreateMachine?
    ensures Apply(r, t).serials == r.serials
    decreases |t|
  {
    if t != [] {
      ApplySerials(r, t[..|t| - 1]);
    }
  }

  lemma {:induction false} ApplyNextId(r: Reg, t: seq<Op>)
    requires forall i :: 0 <= i < |t| ==> !t[i].CreateMachine?
    ensures Apply(r, t).nextId == r.nextId
    decreases |t|
  {
    if t != [] {
      ApplyNextId(r, t[..|t| - 1]);
    }
  }

  lemma {:induction false} ApplyHostsShrink(r: Reg, t: seq<Op>)
    requires forall i :: 0 <= i < |t| ==> !t[i].CreateHost?
    ensures Apply(r, t).hosts <= r.hosts
    decreases |t|
  {
    if t != [] {
      ApplyHostsShrink(r, t[..|t| - 1]);
    }
  }

  /** A trace of calls that change nothing leaves the registry as it is. */
  lemma {:induction false} ApplyInert(r: Reg, t: seq<Op>)
    requires forall i :: 0 <= i < |t| ==> !IsRegistryMutation(t[i]) || t[i].SetInterfaceBootable? || t[i].AqManage? || t[i].AqMake?
    ensures Apply(r, t) == r
    decreases |t|
  {
    if t != [] {
      ApplyInert(r, t[..|t| - 1]);
    }
  }

  // ---- each effect keeps the registry consistent

  lemma ValidWithoutHost(r: Reg, h: string)
    requires Valid(r)
    ensures Valid(WithoutHost(r, h))
  {
    var r' := WithoutHost(r, h);
    assert forall m :: m in r'.machines ==> r'.machines[m].serial == r.machines[m].serial;
    forall m1, m2 | m1 in r'.machines && m2 in r'.machines && r'.machines[m1].host.Some?
                    && r'.machines[m1].host == r'.machines[m2].host
      ensures m1 == m2
    {
      assert r.machines[m1].host == r'.machines[m1].host;
      assert r.machines[m2].host == r'.machines[m2].host;
    }
  }

  lemma ValidWithoutDetail(r: Reg, m: MachineName, d: string)
    requires Valid(r)
    ensures Valid(WithoutDetail(r, m, d))
  {
  }

  lemma ValidWithoutMachine(r: Reg, m: MachineName)
    requires Valid(r)
    ensures Valid(WithoutMachine(r, m))
  {
    var r' := WithoutMachine(r, m);
    forall m' | m' in r'.machines
      ensures r'.machines[m'].serial in r'.serials && r'.serials[r'.machines[m'].serial] == m'
    {
      assert r.serials[r.machines[m'].serial] == m';
    }
  }

  lemma ValidWithNics(r: Reg, m: MachineName, nics: seq<Address>)
    requires Valid(r)
    ensures Valid(WithNics(r, m, nics))
  {
  }

  lemma ValidWithMachine(r: Reg, vm: VmData)
    requires Valid(r) && Serial(vm) !in r.serials
    ensures Valid(WithMachine(r, vm))
  {
    var r' := WithMachine(r, vm);
    forall s | s in r'.serials
      ensures r'.serials[s] in r'.machines && r'.machines[r'.serials[s]].serial == s
    {
      if s != Serial(vm) {
        assert r.serials[s] < r.nextId;
      }
    }
    forall m | m in r'.machines
      ensures r'.machines[m].serial in r'.serials && r'.serials[r'.machines[m].serial] == m
    {
      if m != r.nextId {
        assert r.machines[m].serial in r.serials;
      }
    }
  }

  lemma ValidWithHost(r: Reg, image: Option<Metadata>, nics: seq<Address>, m: MachineName)
    requires Valid(r) && Permitted(r, CreateHost(image, nics, m)) && nics[0].hostname != ""
    ensures Valid(WithHost(r, nics, m))
  {
  }

  lemma ValidEffect(r: Reg, op: Op)
    requires Valid(r)
    requires op.CreateMachine? ==> Serial(op.vm) !in r.serials
    requires op.CreateHost? ==> Permitted(r, op) && op.nics[0].hostname != ""
    ensures Valid(Effect(r, op))
  {
    match op
    case DeleteHost(h) => ValidWithoutHost(r, h);
    case DeleteAddress(ip, m) => ValidWithoutDetail(r, m, ip);
    case DeleteInterface(m) => ValidWithoutDetail(r, m, "eth0");
    case DeleteMachine(m) => ValidWithoutMachine(r, m);
    case CreateMachine(vm) => ValidWithMachine(r, vm);
    case AddMachineNics(m, nics) => ValidWithNics(r, m, nics);
    case CreateHost(image, nics, m) => ValidWithHost(r, image, nics, m);
    case _ =>
  }

  /** A call the registry accepts, from a consistent registry, that keeps it consistent. */
  lemma SoundStep(r: Reg, op: Op)
    requires Valid(r) && Permitted(r, op)
    requires op.CreateMachine? ==> Serial(op.vm) !in r.serials
    requires op.CreateHost? ==> op.nics[0].hostname != ""
    ensures Sound(r, [op]) && Apply(r, [op]) == Effect(r, op) && Valid(Effect(r, op))
  {
    ValidEffect(r, op);
    SoundOne(r, op);
    ApplyOne(r, op);
  }
}
