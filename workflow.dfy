/** What the consumer in rabbit_consumer/message_consumer.py means to do, as pure
    functions: the supported event types and routing, the image and validity
    checks, and, for each workflow, the exact sequence of remote calls it issues
    when nothing raises, computed from the registry it starts from. */
module Workflow {
  import opened Remote

  const CREATE_END := "compute.instance.create.end"
  const DELETE_START := "compute.instance.delete.start"

  /** The event types the consumer handles, keyed by workflow. */
  const SUPPORTED_MESSAGE_TYPES: map<string, string> :=
    map["create" := CREATE_END, "delete" := DELETE_START]

  /** A decoded lifecycle event. */
  datatype RabbitMessage = RabbitMessage(
    eventType: string,
    projectName: string,
    userName: string,
    vmName: string,
    vmId: string,
    projectId: string)

  /** A message as it arrives: the event type read from the envelope, and the
      decoded event, or None when the body does not decode. */
  datatype Delivery = Delivery(eventType: string, body: Option<RabbitMessage>)

  function VmOf(msg: RabbitMessage): VmData
  {
    VmData(msg.vmId, msg.projectId)
  }

  datatype Image = Image(name: string, metadata: Metadata)

  /** The control plane's answers while one event is processed: whether the VM
      exists at validation and again at tag-back, its image, and its networks. */
  datatype Cloud = Cloud(
    existsAtValidation: bool,
    existsAtTagBack: bool,
    image: Image,
    networks: seq<Address>)

  datatype Handler = CreateHandler | DeleteHandler | NoHandler

  /** The handler `consume` dispatches an event type to. */
  function Route(eventType: string): (h: Handler)
    ensures h == CreateHandler <==> eventType == SUPPORTED_MESSAGE_TYPES["create"]
    ensures h == DeleteHandler <==> eventType == SUPPORTED_MESSAGE_TYPES["delete"]
    ensures h == NoHandler <==> eventType !in SUPPORTED_MESSAGE_TYPES.Values
  {
    assert SUPPORTED_MESSAGE_TYPES.Values == {CREATE_END, DELETE_START} by {
      assert SUPPORTED_MESSAGE_TYPES["create"] == CREATE_END;
      assert SUPPORTED_MESSAGE_TYPES["delete"] == DELETE_START;
    }
    if eventType == CREATE_END then CreateHandler
    else if eventType == DELETE_START then DeleteHandler
    else NoHandler
  }

  /** The image metadata of a VM that Aquilon manages, or None for any other image. */
  function AqManagedImage(image: Image): (meta: Option<Metadata>)
    ensures meta.Some? <==> "AQ_OS" in image.metadata
    ensures meta.Some? ==> meta.value == image.metadata
  {
    if "AQ_OS" !in image.metadata then None else Some(image.metadata)
  }

  /** The create workflow's validation gate: the VM still exists and its image is managed. */
  predicate MachineValid(cloud: Cloud): (ok: bool)
    ensures ok <==> cloud.existsAtValidation && "AQ_OS" in cloud.image.metadata
  {
    cloud.existsAtValidation && AqManagedImage(cloud.image).Some?
  }

  /** Python truthiness of an optional hostname. */
  predicate Named(h: Option<string>)
  {
    h.Some? && h.value != ""
  }

  // ---- delete_machine

  /** Check that host `h` exists and delete it if it does. */
  function HostTrace(r: Reg, h: string): seq<Op>
  {
    [CheckHostExists(h)] + (if h in r.hosts then [DeleteHost(h)] else [])
  }

  /** Fetch machine `m`'s details and resolve its host name `h`; detach the address
      if the details hold it, then the primary interface if they hold it. */
  function DetachTrace(r: Reg, m: MachineName, h: string, resolve: string -> string): seq<Op>
  {
    var details := DetailsOf(r, m);
    var ip := resolve(h);
    [GetMachineDetails(m)] + [Resolve(h)]
    + (if ip in details then [DeleteAddress(ip, m)] else [])
    + (if "eth0" in details then [DeleteInterface(m)] else [])
  }

  /** For a machine bound to host `h`: delete the host if it exists, then detach. */
  function UnbindTrace(r: Reg, m: MachineName, h: string, resolve: string -> string): seq<Op>
  {
    HostTrace(r, h) + DetachTrace(Apply(r, HostTrace(r, h)), m, h, resolve)
  }

  /** Tear down machine `m`: unbind it if it has a host name, then delete it. */
  function RemoveMachineTrace(r: Reg, m: MachineName, resolve: string -> string): seq<Op>
  {
    var bound := HostOfMachine(r, m);
    [SearchHostByMachine(m)]
    + (if Named(bound) then UnbindTrace(r, m, bound.value, resolve) else [])
    + [DeleteMachine(m)]
  }

  /** Look the machine up by serial and tear it down if there is one. */
  function RemoveBySerialTrace(r: Reg, serial: string, resolve: string -> string): seq<Op>
  {
    var found := MachineBySerial(r, serial);
    [SearchMachineBySerial(serial)]
    + if found.None? then [] else RemoveMachineTrace(r, found.value, resolve)
  }

  /** The calls of `delete_machine(vm, nd)`. */
  function DeleteTrace(r: Reg, vm: VmData, nd: Option<Address>, resolve: string -> string): (t: seq<Op>)
    ensures |t| > 0 && t[0] == if nd.Some? then CheckHostExists(nd.value.hostname) else SearchMachineBySerial(Serial(vm))
  {
    var first := if nd.Some? then HostTrace(r, nd.value.hostname) else [];
    first + RemoveBySerialTrace(Apply(r, first), Serial(vm), resolve)
  }

  // ---- delete_machine, corrected to detach a machine that has no named host

  /** Fetch machine `m`'s details and delete its primary interface if they hold it. */
  function InterfaceTrace(r: Reg, m: MachineName): seq<Op>
  {
    [GetMachineDetails(m)] + (if "eth0" in DetailsOf(r, m) then [DeleteInterface(m)] else [])
  }

  /** Tear down machine `m` as `RemoveMachineTrace` does, except that a machine with no
      named host still has its primary interface deleted before the machine is. */
  function DetachingRemoveTrace(r: Reg, m: MachineName, resolve: string -> string): seq<Op>
  {
    var bound := HostOfMachine(r, m);
    [SearchHostByMachine(m)]
    + (if Named(bound) then UnbindTrace(r, m, bound.value, resolve) else InterfaceTrace(r, m))
    + [DeleteMachine(m)]
  }

  /** The calls of `delete_machine(vm, nd)` with that correction: step 1 as written,
      then the machine filed under the serial goes by `DetachingRemoveTrace`. */
  function DetachingDeleteTrace(r: Reg, vm: VmData, nd: Option<Address>, resolve: string -> string): seq<Op>
  {
    var first := if nd.Some? then HostTrace(r, nd.value.hostname) else [];
    var found := MachineBySerial(Apply(r, first), Serial(vm));
    first + [SearchMachineBySerial(Serial(vm))]
    + if found.None? then [] else DetachingRemoveTrace(Apply(r, first), found.value, resolve)
  }

  // ---- add_aq_details_to_metadata

  function Hostnames(nets: seq<Address>): (hs: seq<string>)
    ensures |hs| == |nets|
    ensures forall i :: 0 <= i < |nets| ==> hs[i] == nets[i].hostname
  {
    if nets == [] then [] else [nets[0].hostname] + Hostnames(nets[1..])
  }

  /** The total length of the strings `xs`. */
  function TotalLength(xs: seq<string>): nat
  {
    if xs == [] then 0 else |xs[0]| + TotalLength(xs[1..])
  }

  /** `sep.join(xs)`: the first string comes first, and every string and every
      separator between two of them is there. */
  function Join(sep: string, xs: seq<string>): (s: string)
    ensures |xs| > 0 ==> xs[0] <= s
    ensures |xs| > 0 ==> |s| == TotalLength(xs) + |sep| * (|xs| - 1)
    ensures |xs| == 0 ==> s == ""
  {
    if |xs| == 0 then "" else if |xs| == 1 then xs[0] else xs[0] + sep + Join(sep, xs[1..])
  }

  /** The metadata the tag-back writes onto the VM. */
  function AqDetails(nets: seq<Address>, machine: Option<MachineName>): (d: map<string, MetaValue>)
    ensures d.Keys == {"HOSTNAMES", "AQ_STATUS", "AQ_MACHINE"}
    ensures d["HOSTNAMES"].Text? && d["AQ_STATUS"] == Text("SUCCESS") && d["AQ_MACHINE"] == MachineRef(machine)
  {
    map["HOSTNAMES" := Text(Join(",", Hostnames(nets))),
        "AQ_STATUS" := Text("SUCCESS"),
        "AQ_MACHINE" := MachineRef(machine)]
  }

  /** The calls of `add_aq_details_to_metadata(vm, nets)`. */
  function TagBackTrace(r: Reg, vm: VmData, nets: seq<Address>, cloud: Cloud): (t: seq<Op>)
    ensures |t| > 0 && t[0] == CheckMachineExists(vm)
    ensures forall i :: 0 <= i < |t| ==> !IsRegistryMutation(t[i])
    ensures UpdateMetadata(vm, AqDetails(nets, MachineBySerial(r, Serial(vm)))) in t <==> cloud.existsAtTagBack
  {
    [CheckMachineExists(vm)]
    + if !cloud.existsAtTagBack then []
      else [SearchMachineBySerial(Serial(vm))]
           + [UpdateMetadata(vm, AqDetails(nets, MachineBySerial(r, Serial(vm))))]
  }

  // ---- handle_create_machine

  /** The calls of `check_machine_valid`. */
  function ValidationTrace(vm: VmData, cloud: Cloud): (t: seq<Op>)
    ensures |t| > 0 && t[0] == CheckMachineExists(vm)
    ensures forall i :: 0 <= i < |t| ==> !IsRegistryCall(t[i])
    ensures GetImage(vm) in t <==> cloud.existsAtValidation
  {
    [CheckMachineExists(vm)] + if cloud.existsAtValidation then [GetImage(vm)] else []
  }

  /** No usable primary hostname: the create workflow skips such a VM. */
  predicate LocalOnly(nets: seq<Address>): (b: bool)
    ensures b <==> !(|nets| > 0 && Named(Some(nets[0].hostname)))
  {
    |nets| == 0 || nets[0].hostname == ""
  }

  /** The registry creates, in order, once stale records are gone; the new machine
      receives the registry's next name. */
  function ProvisionTrace(r: Reg, vm: VmData, nets: seq<Address>, meta: Option<Metadata>): seq<Op>
  {
    var m := r.nextId;
    [CreateMachine(vm)] + [AddMachineNics(m, nets)] + [SetInterfaceBootable(m, "eth0")]
    + [CreateHost(meta, nets, m)] + [AqManage(nets, meta)] + [AqMake(nets, meta)]
  }

  /** Clear stale records, provision, tag back: the part of the create workflow
      after its gates. */
  function ReconcileTrace(r: Reg, vm: VmData, cloud: Cloud, resolve: string -> string): seq<Op>
    requires !LocalOnly(cloud.networks)
  {
    var nets := cloud.networks;
    var cleared := DeleteTrace(r, vm, Some(nets[0]), resolve);
    var provision := ProvisionTrace(Apply(r, cleared), vm, nets, AqManagedImage(cloud.image));
    cleared + provision + TagBackTrace(Apply(r, cleared + provision), vm, nets, cloud)
  }

  /** Past the validation gate: fetch the image and the networks, then reconcile
      unless there is no usable primary hostname. */
  function ValidatedTrace(r: Reg, vm: VmData, cloud: Cloud, resolve: string -> string): seq<Op>
  {
    [GetImage(vm)] + [GetServerNetworks(vm)]
    + if LocalOnly(cloud.networks) then [] else ReconcileTrace(r, vm, cloud, resolve)
  }

  /** The calls of `handle_create_machine(msg)`. */
  function CreateTrace(r: Reg, msg: RabbitMessage, cloud: Cloud, resolve: string -> string): (t: seq<Op>)
    ensures |t| > 0 && t[0] == CheckMachineExists(VmOf(msg))
    ensures !MachineValid(cloud) || LocalOnly(cloud.networks) ==> forall i :: 0 <= i < |t| ==> !IsRegistryCall(t[i])
    ensures MachineValid(cloud) && !LocalOnly(cloud.networks) ==> CreateMachine(VmOf(msg)) in t
  {
    var vm := VmOf(msg);
    ValidationTrace(vm, cloud)
    + if !MachineValid(cloud) then [] else ValidatedTrace(r, vm, cloud, resolve)
  }

  // ---- handle_machine_delete and consume

  /** The calls of `handle_machine_delete(msg)`. */
  function DeleteWorkflowTrace(r: Reg, msg: RabbitMessage, resolve: string -> string): (t: seq<Op>)
    ensures |t| > 0 && t[0] == SearchMachineBySerial(Serial(VmOf(msg)))
  {
    DeleteTrace(r, VmOf(msg), None, resolve)
  }

  /** The calls of `consume(msg)`: those of the handler its type routes to. */
  function ConsumeTrace(r: Reg, msg: RabbitMessage, cloud: Cloud, resolve: string -> string): (t: seq<Op>)
    ensures msg.eventType !in SUPPORTED_MESSAGE_TYPES.Values ==> t == []
    ensures msg.eventType == SUPPORTED_MESSAGE_TYPES["create"] ==> |t| > 0 && t[0] == CheckMachineExists(VmOf(msg))
    ensures msg.eventType == SUPPORTED_MESSAGE_TYPES["delete"] ==> |t| > 0 && t[0] == SearchMachineBySerial(Serial(VmOf(msg)))
  {
    match Route(msg.eventType)
    case CreateHandler => CreateTrace(r, msg, cloud, resolve)
    case DeleteHandler => DeleteWorkflowTrace(r, msg, resolve)
    case NoHandler => []
  }
}
