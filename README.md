# OpenStack Rabbit Consumer: the VM lifecycle reconciler, in Dafny

The consumer listens for OpenStack compute lifecycle events on RabbitMQ and keeps the
Aquilon inventory registry in step with them.

- A `compute.instance.create.end` event for a VM whose image is Aquilon-managed
  (its metadata holds `AQ_OS`) does four things in order:
  - clears any stale registry records for the VM;
  - creates a machine filed under the VM's serial, attaches its NICs and marks `eth0`
    bootable;
  - creates the host and runs `aq_manage` and `aq_make`;
  - tags the VM's metadata with its hostnames, `AQ_STATUS=SUCCESS` and the machine
    name.
- A `compute.instance.delete.start` event tears the VM's records down.
- Teardown (`delete_machine`) is best effort. Every record is checked before it is
  deleted. Deletions come in this order: the stale primary host, then the bound host,
  then the address, then the `eth0` interface, and the machine last. The address and
  the interface are detached only from a machine that is still bound to a named host.
  A machine whose host step 1 has just deleted, or that never got a host, is deleted
  with `eth0` still attached (see Findings).
- `on_message` acknowledges unsupported event types straight away. It acknowledges
  a supported event only once `consume` has returned normally.

## How it is modelled

- `Remote` (remote.dfy): the remote systems.
  - The registry state is `Reg`: host names, machines with their bound host and
    details, and the serial index.
  - Every registry, control-plane and name-resolution call is an `Op`.
  - `Effect` and `Apply` say how calls change the registry.
  - `class Services` holds that state as fields, together with the call log and a
    single injected fault. Its methods issue one call each; the call raises if the
    fault strikes at that point.
  - `Ran(before, t, ok, after)` says that a run issued the calls `t` against that
    state, or, if one raised, exactly the calls before it.
- `Workflow` (workflow.dfy): the supported event types, routing, the image and
  validity checks, and, for each function of message_consumer.py, the calls it is
  meant to issue, computed as a pure function of the registry it starts from.
- `Consumer` (consumer.dfy): each function of message_consumer.py as a method over
  `Services`, with the same branches and early returns. Each method is proved to
  issue exactly its trace from `Workflow`, or that trace's prefix up to a raising
  call.
- `Invariants` (invariants.dfy):
  - `Valid` is the registry's consistency invariant: serial index and machines agree
    both ways, machine names lie below the next free name, a bound host exists, and
    a host is bound to at most one machine.
  - `Permitted` states the registry's record rules for each call: a delete needs its
    target, a machine goes only once its host record is gone, and a host is created
    once, for a machine without one.
  - `Sound(r, t)` means every call of `t` meets the record rules when issued and
    leaves the registry consistent.
  - `Detached` states the interfaces-first rule, which the comments at
    message_consumer.py:71-75 and :85 describe: a machine is deleted only once `eth0`
    is no longer among its details. `DetachesFirst(r, t)` means every machine
    deletion of `t` meets it. It is kept apart from `Sound` because the code as
    written breaks it on some paths. The `...DetachesFirst` lemmas say exactly when.
- `DeleteProperties`, `CreateProperties` and `ConsumeProperties` hold what is proved
  about teardown, creation, routing and acknowledgement.

The other collaborators are parameters:
- the control plane's answers about the VM are a `Cloud` value;
- `socket.gethostbyname` is an uninterpreted function `resolve`;
- a message as it arrives is a `Delivery`: its envelope's event type and the decoded
  event, or `None` when the body does not decode.

## Model

| member | source | states |
|---|---|---|
| Workflow.Route | OpenStack-Rabbit-Consumer/rabbit_consumer/message_consumer.py:38-50 | The create handler is chosen exactly for `SUPPORTED_MESSAGE_TYPES["create"]`, the delete handler exactly for `SUPPORTED_MESSAGE_TYPES["delete"]`, and no handler exactly for a type outside the supported values. |
| Workflow.AqManagedImage | OpenStack-Rabbit-Consumer/rabbit_consumer/message_consumer.py:24-35 | The image counts as managed exactly when its metadata holds `AQ_OS`, and its metadata is then returned unchanged. |
| Workflow.Hostnames | OpenStack-Rabbit-Consumer/rabbit_consumer/message_consumer.py:206 | One hostname per address, in list order. |
| Workflow.MachineValid | OpenStack-Rabbit-Consumer/rabbit_consumer/message_consumer.py:102-118 | The VM is valid exactly when it still exists at validation and its image metadata holds `AQ_OS`. |
| Workflow.ValidationTrace | OpenStack-Rabbit-Consumer/rabbit_consumer/message_consumer.py:102-118 | Validation starts with the existence check, fetches the image exactly when the VM exists, and makes no registry call. |
| Workflow.LocalOnly | OpenStack-Rabbit-Consumer/rabbit_consumer/message_consumer.py:137 | The VM is skipped exactly when it has no address or its first address has an empty hostname (Python truthiness). |
| Workflow.DeleteTrace | OpenStack-Rabbit-Consumer/rabbit_consumer/message_consumer.py:53-99 | `delete_machine` starts with the check of the stale primary host when network details are given, and with the lookup by serial otherwise. |
| Workflow.TagBackTrace | OpenStack-Rabbit-Consumer/rabbit_consumer/message_consumer.py:192-212 | The tag-back starts with the existence check, changes no registry record, and writes the metadata exactly when the VM still exists. |
| Workflow.AqDetails | OpenStack-Rabbit-Consumer/rabbit_consumer/message_consumer.py:206-211 | The metadata written has exactly the keys HOSTNAMES, AQ_STATUS and AQ_MACHINE, with AQ_STATUS=SUCCESS and AQ_MACHINE the machine found by serial. |
| Workflow.Join | OpenStack-Rabbit-Consumer/rabbit_consumer/message_consumer.py:208 | `",".join`: empty for no strings; otherwise it starts with the first string and its length is the strings' total plus one separator between each two. |
| Workflow.CreateTrace | OpenStack-Rabbit-Consumer/rabbit_consumer/message_consumer.py:121-159 | The create workflow starts with the existence check; when a gate stops it, it makes no registry call; past both gates it creates the machine. |
| Workflow.DeleteWorkflowTrace | OpenStack-Rabbit-Consumer/rabbit_consumer/message_consumer.py:176-189 | The delete event has no network details, so its first call is the lookup by serial. |
| Workflow.ConsumeTrace | OpenStack-Rabbit-Consumer/rabbit_consumer/message_consumer.py:38-50 | An unsupported type issues no call; a create event starts with the existence check, a delete event with the lookup by serial. |
| Remote.EffectFrame | OpenStack-Rabbit-Consumer/rabbit_consumer/message_consumer.py:53-159 | The effect of one call: queries and control-plane calls change nothing, only creating a machine uses up a name, only creating a host adds one, and only creating or deleting a machine touches the serial index. |
| Consumer.IsAqManagedImage | OpenStack-Rabbit-Consumer/rabbit_consumer/message_consumer.py:24-35 | Issues one image fetch and changes no record; the result is present exactly when the metadata holds `AQ_OS`. |
| Consumer.CheckMachineValid | OpenStack-Rabbit-Consumer/rabbit_consumer/message_consumer.py:102-118 | Checks that the VM exists and fetches the image only if it does; the VM is valid exactly when it exists and its image holds `AQ_OS`; no registry record changes. |
| Consumer.DeleteHostIfExists | OpenStack-Rabbit-Consumer/rabbit_consumer/message_consumer.py:62-64 | Checks the host and deletes it exactly when the check found it, stopping at a raising call. |
| Consumer.Detach | OpenStack-Rabbit-Consumer/rabbit_consumer/message_consumer.py:86-94 | Fetches the details and resolves the hostname, then deletes the address if the details hold it and the interface if they hold `eth0`, in that order. |
| Consumer.Unbind | OpenStack-Rabbit-Consumer/rabbit_consumer/message_consumer.py:79-94 | Deletes the bound host if it exists, then detaches the address and interface. |
| Consumer.RemoveMachine | OpenStack-Rabbit-Consumer/rabbit_consumer/message_consumer.py:77-99 | Looks up the bound host; unbinds only if it is a non-empty name; deletes the machine last. |
| Consumer.RemoveBySerial | OpenStack-Rabbit-Consumer/rabbit_consumer/message_consumer.py:66-99 | Looks the machine up by serial, returns if none is filed, otherwise removes it. |
| Consumer.DeleteMachine | OpenStack-Rabbit-Consumer/rabbit_consumer/message_consumer.py:53-99 | Issues exactly the calls of `delete_machine` (stale primary host first, if given) and leaves the registry as they do, or stops at the raising call. |
| Consumer.Provision | OpenStack-Rabbit-Consumer/rabbit_consumer/message_consumer.py:145-153 | Creates the machine, then, on the name it returned, attaches the NICs, marks `eth0` bootable, creates the host, and runs manage and make, in that order. |
| Consumer.AddAqDetailsToMetadata | OpenStack-Rabbit-Consumer/rabbit_consumer/message_consumer.py:192-212 | Writes nothing unless the VM still exists; otherwise searches the machine by serial and writes HOSTNAMES, AQ_STATUS and AQ_MACHINE. |
| Consumer.Reconcile | OpenStack-Rabbit-Consumer/rabbit_consumer/message_consumer.py:142-155 | Clears stale records with the first address, then provisions, then tags back. |
| Consumer.CreateValidated | OpenStack-Rabbit-Consumer/rabbit_consumer/message_consumer.py:132-155 | Fetches the image and networks again, and returns before any registry call when there is no usable primary hostname. |
| Consumer.HandleCreateMachine | OpenStack-Rabbit-Consumer/rabbit_consumer/message_consumer.py:121-159 | Issues exactly the create workflow's calls: the validation gate, then the rest only if it passes. |
| Consumer.HandleMachineDelete | OpenStack-Rabbit-Consumer/rabbit_consumer/message_consumer.py:176-189 | Issues exactly the calls of `delete_machine` with no network details. |
| Consumer.Consume | OpenStack-Rabbit-Consumer/rabbit_consumer/message_consumer.py:38-50 | An unsupported type raises the unsupported-type error and leaves the state and the log untouched; a supported type runs its handler and raises only if a remote call raised. |
| Consumer.OnMessage | OpenStack-Rabbit-Consumer/rabbit_consumer/message_consumer.py:215-233 | Unsupported types: acknowledged once, nothing else. A body that does not decode: raises, nothing issued, no acknowledgement. Otherwise: the handler's calls, then one acknowledgement exactly when it returned normally. The log gains exactly one acknowledgement exactly when the result is normal. |
| Remote.Services.CheckHostExists | OpenStack-Rabbit-Consumer/rabbit_consumer/message_consumer.py:62 | Answers whether the host is recorded, changing nothing. |
| Remote.Services.SearchMachineBySerial | OpenStack-Rabbit-Consumer/rabbit_consumer/message_consumer.py:66 | Answers the machine filed under the serial, changing nothing. |
| Remote.Services.SearchHostByMachine | OpenStack-Rabbit-Consumer/rabbit_consumer/message_consumer.py:77 | Answers the machine's bound host, changing nothing. |
| Remote.Services.GetMachineDetails | OpenStack-Rabbit-Consumer/rabbit_consumer/message_consumer.py:86 | Answers the machine's details, changing nothing. |
| Remote.Services.DeleteHost | OpenStack-Rabbit-Consumer/rabbit_consumer/message_consumer.py:64 | Removes the host and its binding to any machine. |
| Remote.Services.DeleteAddress | OpenStack-Rabbit-Consumer/rabbit_consumer/message_consumer.py:91 | Removes the address from the machine's details. |
| Remote.Services.DeleteInterface | OpenStack-Rabbit-Consumer/rabbit_consumer/message_consumer.py:94 | Removes `eth0` from the machine's details. |
| Remote.Services.DeleteMachine | OpenStack-Rabbit-Consumer/rabbit_consumer/message_consumer.py:99 | Removes the machine and its serial entry. |
| Remote.Services.CreateMachine | OpenStack-Rabbit-Consumer/rabbit_consumer/message_consumer.py:145 | Files a new machine under the VM's serial with the registry's next name and returns that name. |
| Remote.Services.AddMachineNics | OpenStack-Rabbit-Consumer/rabbit_consumer/message_consumer.py:146 | Adds every address and an interface per address to the machine's details. |
| Remote.Services.SetInterfaceBootable | OpenStack-Rabbit-Consumer/rabbit_consumer/message_consumer.py:147 | Changes no record tracked here. |
| Remote.Services.CreateHost | OpenStack-Rabbit-Consumer/rabbit_consumer/message_consumer.py:150 | Records the first address's hostname as a host and binds the machine to it. |
| Remote.Services.Acknowledge | OpenStack-Rabbit-Consumer/rabbit_consumer/message_consumer.py:226 | Appends one acknowledgement to the log; no record changes and it never raises. |
| Remote.NicDetails | OpenStack-Rabbit-Consumer/rabbit_consumer/message_consumer.py:146 | After NICs are attached, the details hold `eth0` and the first address. |
| DeleteProperties.HostStep | OpenStack-Rabbit-Consumer/rabbit_consumer/message_consumer.py:62-64 | Deletes the host exactly when it is recorded, right after the check, and the record rules accept it. |
| DeleteProperties.DetachStep | OpenStack-Rabbit-Consumer/rabbit_consumer/message_consumer.py:86-94 | The detach part deletes exactly the address if held, then `eth0` if held, and changes nothing but details. |
| DeleteProperties.DetachDetailsOnly | OpenStack-Rabbit-Consumer/rabbit_consumer/message_consumer.py:86-94 | The detach part starts with the details fetch and changes nothing but the machine's details. |
| DeleteProperties.AddressSound | OpenStack-Rabbit-Consumer/rabbit_consumer/message_consumer.py:90-91 | The record rules accept deleting an address the details hold, and `eth0` stays as it was. |
| DeleteProperties.InterfaceSound | OpenStack-Rabbit-Consumer/rabbit_consumer/message_consumer.py:93-94 | The record rules accept deleting `eth0` when the details hold it. |
| DeleteProperties.DetachSound | OpenStack-Rabbit-Consumer/rabbit_consumer/message_consumer.py:86-94 | The record rules accept the detach part, and the registry stays consistent. |
| DeleteProperties.UnbindStep | OpenStack-Rabbit-Consumer/rabbit_consumer/message_consumer.py:79-94 | Unbinding deletes the host exactly when it is recorded, then exactly what the detach part deletes. |
| DeleteProperties.UnbindChecked | OpenStack-Rabbit-Consumer/rabbit_consumer/message_consumer.py:79-83 | Unbinding starts with the host check, and the host it deletes was found by that check. |
| DeleteProperties.HostFrame | OpenStack-Rabbit-Consumer/rabbit_consumer/message_consumer.py:79-83 | The host step removes only the host and the binding to it. |
| DeleteProperties.UnbindFrame | OpenStack-Rabbit-Consumer/rabbit_consumer/message_consumer.py:79-94 | After unbinding, the host is gone, no machine or serial was removed, and the machine is unbound if the host existed. |
| DeleteProperties.UnbindSound | OpenStack-Rabbit-Consumer/rabbit_consumer/message_consumer.py:79-94 | The record rules accept the unbinding, and the registry stays consistent. |
| DeleteProperties.RemoveMachineStep | OpenStack-Rabbit-Consumer/rabbit_consumer/message_consumer.py:77-99 | Removing a machine deletes exactly its bound host, address and interface where present, and the machine; it changes nothing else. |
| DeleteProperties.RemoveMachineEnds | OpenStack-Rabbit-Consumer/rabbit_consumer/message_consumer.py:77-99 | Removing a machine starts with the host search and ends with deleting the machine. |
| DeleteProperties.RemoveMachineChecked | OpenStack-Rabbit-Consumer/rabbit_consumer/message_consumer.py:77-99 | Every host removing a machine deletes was checked, and found, just before. |
| DeleteProperties.RemoveMachineFrame | OpenStack-Rabbit-Consumer/rabbit_consumer/message_consumer.py:77-99 | Afterwards the machine and its serial entries are gone, and so is its bound host if it had one. |
| DeleteProperties.RemoveMachineSound | OpenStack-Rabbit-Consumer/rabbit_consumer/message_consumer.py:77-99 | The record rules accept the machine's removal, and the registry stays consistent. |
| DeleteProperties.RemoveBySerialStep | OpenStack-Rabbit-Consumer/rabbit_consumer/message_consumer.py:66-99 | What the lookup by serial and removal delete, read off the registry; each host deleted was just checked. |
| DeleteProperties.RemoveBySerialFrame | OpenStack-Rabbit-Consumer/rabbit_consumer/message_consumer.py:66-99 | The serial is no longer filed and its machine and bound host are gone; with no machine filed, nothing changes. |
| DeleteProperties.RemoveBySerialSound | OpenStack-Rabbit-Consumer/rabbit_consumer/message_consumer.py:66-99 | The record rules accept the lookup and the removal, and the registry stays consistent. |
| DeleteProperties.FirstStep | OpenStack-Rabbit-Consumer/rabbit_consumer/message_consumer.py:62-64 | Step 1 deletes the stale primary host exactly when network details are given and that host is recorded. |
| DeleteProperties.DeleteDeletions | OpenStack-Rabbit-Consumer/rabbit_consumer/message_consumer.py:53-99 | Everything `delete_machine` deletes, and everything it changes, equals the reference order `DeleteOrder` read off the starting registry. |
| DeleteProperties.DeleteChecksHosts | OpenStack-Rabbit-Consumer/rabbit_consumer/message_consumer.py:62-83 | Every host deleted is deleted right after a check of that same host, and it exists at that point. |
| DeleteProperties.DeleteSound | OpenStack-Rabbit-Consumer/rabbit_consumer/message_consumer.py:53-99 | The record rules accept every call of `delete_machine`, and the registry stays consistent after each. |
| DeleteProperties.DeleteClears | OpenStack-Rabbit-Consumer/rabbit_consumer/message_consumer.py:53-99 | Afterwards: no machine filed under the serial, the old machine gone, the stale primary host gone, the old bound host gone, no host added, no name used up. |
| DeleteProperties.DeleteWithoutMachine | OpenStack-Rabbit-Consumer/rabbit_consumer/message_consumer.py:62-69 | With nothing filed under the serial, the only change is deleting the stale primary host, and only if it exists. |
| DeleteProperties.DeleteOrdered | OpenStack-Rabbit-Consumer/rabbit_consumer/message_consumer.py:62-99 | Deletions come hosts first, then the address, then the interface, and no deletion follows the machine deletion. |
| DeleteProperties.DeleteEndsWithMachine | OpenStack-Rabbit-Consumer/rabbit_consumer/message_consumer.py:66-99 | When a machine is filed under the serial, the last call deletes that machine. |
| DeleteProperties.DeleteDetaches | OpenStack-Rabbit-Consumer/rabbit_consumer/message_consumer.py:77-94 | The address is deleted if and only if the machine is still bound to a named host, the address is that host's resolution, and the details hold it; the interface if and only if the machine is still bound and `eth0` is in its details. |
| DeleteProperties.OrderHasAddress | OpenStack-Rabbit-Consumer/rabbit_consumer/message_consumer.py:77-91 | The reference order deletes an address exactly for the still-bound machine filed under the serial, that host's address, when the details hold it. |
| DeleteProperties.OrderHasInterface | OpenStack-Rabbit-Consumer/rabbit_consumer/message_consumer.py:77-94 | The reference order deletes `eth0` exactly for the still-bound machine filed under the serial, when the details hold it. |
| DeleteProperties.DeleteUnbound | OpenStack-Rabbit-Consumer/rabbit_consumer/message_consumer.py:77-99 | A machine with no named host is deleted directly after the host lookup, with nothing detached. |
| DeleteProperties.RemoveUnbound | OpenStack-Rabbit-Consumer/rabbit_consumer/message_consumer.py:66-99 | A machine with no named host is looked up, its host searched, and it is deleted; nothing else. |
| DeleteProperties.FirstKeepsSerials | OpenStack-Rabbit-Consumer/rabbit_consumer/message_consumer.py:62-64 | Step 1 leaves the serial index as it was. |
| DeleteProperties.FirstKeepsUnbound | OpenStack-Rabbit-Consumer/rabbit_consumer/message_consumer.py:62-64 | Step 1 keeps the serial index and leaves an unbound machine unbound. |
| DeleteProperties.DeleteIdempotent | OpenStack-Rabbit-Consumer/rabbit_consumer/message_consumer.py:53-99 | A second run on the registry the first left behind deletes nothing and changes nothing. |
| DeleteProperties.DeleteReusedHostname | OpenStack-Rabbit-Consumer/rabbit_consumer/message_consumer.py:62-83 | When the new primary hostname is the old machine's bound host, that host and then the machine are deleted, with nothing detached in between. |
| DeleteProperties.DeleteScenario | OpenStack-Rabbit-Consumer/rabbit_consumer/message_consumer.py:176-189 | Deleting VM `v1`, whose machine is bound to `h1` and holds address 10.0.0.5 and `eth0`, deletes `h1`, the address, the interface and the machine, in that order. |
| DeleteProperties.ScenarioDeleteOrder | OpenStack-Rabbit-Consumer/rabbit_consumer/message_consumer.py:53-99 | For VM `v1` bound to host `h1`, with 10.0.0.5 and `eth0` attached, the teardown deletes the host, the address, the interface and the machine, in that order. |
| DeleteProperties.DetachDropsInterface | OpenStack-Rabbit-Consumer/rabbit_consumer/message_consumer.py:86-94 | The detach part deletes no machine and leaves no `eth0` in the details. |
| DeleteProperties.UnbindDropsInterface | OpenStack-Rabbit-Consumer/rabbit_consumer/message_consumer.py:79-94 | Unbinding deletes no machine and leaves no `eth0` in the details. |
| DeleteProperties.RemoveMachineDetachesFirst | OpenStack-Rabbit-Consumer/rabbit_consumer/message_consumer.py:77-99 | Removing a machine meets the interfaces-first rule if and only if the machine has a named host or its details hold no `eth0`. |
| DeleteProperties.RemoveBySerialDetachesFirst | OpenStack-Rabbit-Consumer/rabbit_consumer/message_consumer.py:66-99 | The lookup and removal meet the interfaces-first rule if and only if no machine is filed, or it has a named host, or its details hold no `eth0`. |
| DeleteProperties.FirstBinding | OpenStack-Rabbit-Consumer/rabbit_consumer/message_consumer.py:62-64 | Step 1 keeps the serial index and the details, and leaves the serial's machine with a named host exactly when it is still bound. |
| DeleteProperties.DeleteDetachesFirst | OpenStack-Rabbit-Consumer/rabbit_consumer/message_consumer.py:53-99 | `delete_machine` meets the interfaces-first rule if and only if it does not reach the serial's machine unbound with `eth0` attached (`KeepsInterface`). |
| DeleteProperties.ReusedHostnameKeepsInterface | OpenStack-Rabbit-Consumer/rabbit_consumer/message_consumer.py:62-83 | When the new primary hostname is the old machine's bound host and `eth0` is attached, `delete_machine` breaks the interfaces-first rule. |
| DeleteProperties.UnboundKeepsInterface | OpenStack-Rabbit-Consumer/rabbit_consumer/message_consumer.py:77-99 | A delete event for a machine with no host but with `eth0` attached breaks the interfaces-first rule. |
| DeleteProperties.InterfaceDropsInterface | OpenStack-Rabbit-Consumer/rabbit_consumer/message_consumer.py:85-94 | Corrected teardown: the interface step deletes `eth0` exactly when the details hold it, and deletes no machine. |
| DeleteProperties.DetachingRemoveDetaches | OpenStack-Rabbit-Consumer/rabbit_consumer/message_consumer.py:77-99 | Corrected teardown: removing a machine always meets the interfaces-first rule. |
| DeleteProperties.DetachingRemoveSound | OpenStack-Rabbit-Consumer/rabbit_consumer/message_consumer.py:77-99 | Corrected teardown: the record rules accept removing the machine, and the registry stays consistent. |
| DeleteProperties.DetachingRemoveSameEnd | OpenStack-Rabbit-Consumer/rabbit_consumer/message_consumer.py:77-99 | Corrected teardown: removing a machine leaves the registry exactly as the code as written does. |
| DeleteProperties.DetachingDeleteShape | OpenStack-Rabbit-Consumer/rabbit_consumer/message_consumer.py:53-99 | Corrected `delete_machine`: step 1, the lookup by serial, then the corrected teardown of the machine found. |
| DeleteProperties.DetachingDeleteDetaches | OpenStack-Rabbit-Consumer/rabbit_consumer/message_consumer.py:53-99 | Corrected `delete_machine`: every call meets the interfaces-first rule, from any registry. |
| DeleteProperties.DetachingDeleteSound | OpenStack-Rabbit-Consumer/rabbit_consumer/message_consumer.py:53-99 | Corrected `delete_machine`: from a consistent registry the record rules accept every call, and the registry stays consistent. |
| DeleteProperties.DetachingDeleteSameEnd | OpenStack-Rabbit-Consumer/rabbit_consumer/message_consumer.py:53-99 | Corrected `delete_machine`: it leaves the registry exactly as the code as written does. |
| DeleteProperties.DetachingDeleteAgrees | OpenStack-Rabbit-Consumer/rabbit_consumer/message_consumer.py:53-99 | Corrected `delete_machine`: wherever the serial's machine is still bound, it issues exactly the calls of the code as written. |
| DeleteProperties.DeleteCallsOnly | OpenStack-Rabbit-Consumer/rabbit_consumer/message_consumer.py:53-99 | `delete_machine` issues only registry calls and name resolutions. |
| CreateProperties.TagBackFacts | OpenStack-Rabbit-Consumer/rabbit_consumer/message_consumer.py:192-212 | The tag-back changes no record; a gone VM costs a single existence check; otherwise it writes, as its last call, HOSTNAMES, AQ_STATUS=SUCCESS and the machine filed under the serial. |
| CreateProperties.ProvisionApply | OpenStack-Rabbit-Consumer/rabbit_consumer/message_consumer.py:145-153 | The creates leave the registry as creating the machine, attaching its NICs and creating its host do. All six count as registry changes; marking `eth0` bootable, `aq_manage` and `aq_make` change no record tracked here. |
| CreateProperties.ProvisionFrame | OpenStack-Rabbit-Consumer/rabbit_consumer/message_consumer.py:145-153 | Afterwards the serial files the registry's next name, which is bound to the primary hostname; the host is recorded; exactly one machine name is new. |
| CreateProperties.MachineCreatesSound | OpenStack-Rabbit-Consumer/rabbit_consumer/message_consumer.py:145-147 | The record rules accept creating the machine, attaching NICs and marking `eth0` bootable, and the registry stays consistent. |
| CreateProperties.ProvisionSound | OpenStack-Rabbit-Consumer/rabbit_consumer/message_consumer.py:145-153 | With nothing filed under the serial and no host of the primary hostname, the record rules accept all the creates. |
| CreateProperties.MachineStep | OpenStack-Rabbit-Consumer/rabbit_consumer/message_consumer.py:145 | The record rules accept creating the machine, which files it under the serial and keeps the registry consistent. |
| CreateProperties.NicsStep | OpenStack-Rabbit-Consumer/rabbit_consumer/message_consumer.py:146 | The record rules accept attaching the NICs; the details then hold `eth0`. |
| CreateProperties.BootStep | OpenStack-Rabbit-Consumer/rabbit_consumer/message_consumer.py:147 | The record rules accept marking `eth0` bootable, and nothing changes. |
| CreateProperties.ProvisionSameName | OpenStack-Rabbit-Consumer/rabbit_consumer/message_consumer.py:145-153 | The creates depend on the registry only through its next machine name. |
| CreateProperties.CreateShape | OpenStack-Rabbit-Consumer/rabbit_consumer/message_consumer.py:129-155 | Past both gates, the workflow is the preamble, then the stale deletes, then the creates, then the tag-back. |
| CreateProperties.PreambleInert | OpenStack-Rabbit-Consumer/rabbit_consumer/message_consumer.py:107-135 | The existence check, the image fetches and the network fetch change nothing, are all accepted, and are only VM queries. |
| CreateProperties.CreateGates | OpenStack-Rabbit-Consumer/rabbit_consumer/message_consumer.py:107-140 | A gone VM costs one existence check; when a gate stops the workflow, no registry call and no name resolution happen; a machine is created if and only if both gates pass. |
| CreateProperties.CreateStopped | OpenStack-Rabbit-Consumer/rabbit_consumer/message_consumer.py:129-140 | When a gate stops the workflow, the registry is unchanged. |
| CreateProperties.CreateMutations | OpenStack-Rabbit-Consumer/rabbit_consumer/message_consumer.py:142-153 | Past both gates, the only changes are `delete_machine`'s deletions for the VM and its first address, then the six creates in order. |
| CreateProperties.FiledAfterProvision | OpenStack-Rabbit-Consumer/rabbit_consumer/message_consumer.py:142-150 | After the stale deletes and the creates, the serial files the machine just created. |
| CreateProperties.NoWriteBeforeTagBack | OpenStack-Rabbit-Consumer/rabbit_consumer/message_consumer.py:129-153 | Nothing before the tag-back writes VM metadata. |
| CreateProperties.NoWriteAppend | OpenStack-Rabbit-Consumer/rabbit_consumer/message_consumer.py:142-153 | Registry calls and name resolutions after calls that write no metadata write none either. |
| CreateProperties.TagBackPassed | OpenStack-Rabbit-Consumer/rabbit_consumer/message_consumer.py:142-155 | Past both gates, the only metadata write is the tag-back of the new machine, and it is the last call. |
| CreateProperties.CreateTagBack | OpenStack-Rabbit-Consumer/rabbit_consumer/message_consumer.py:121-212 | Metadata is written only when both gates pass and the VM still exists; the write then comes last and records the hostnames, SUCCESS and the machine just created. |
| CreateProperties.ReconcileApply | OpenStack-Rabbit-Consumer/rabbit_consumer/message_consumer.py:142-155 | The tag-back changes nothing, so the reconciliation ends where the creates end. |
| CreateProperties.ReconcileSound | OpenStack-Rabbit-Consumer/rabbit_consumer/message_consumer.py:142-155 | From a consistent registry, the record rules accept every call of the reconciliation. |
| CreateProperties.CreateApply | OpenStack-Rabbit-Consumer/rabbit_consumer/message_consumer.py:121-155 | Past both gates, the workflow ends where the creates after the stale deletes end. |
| CreateProperties.CreatePassedSound | OpenStack-Rabbit-Consumer/rabbit_consumer/message_consumer.py:121-155 | Past both gates, the record rules accept every call of the workflow. |
| CreateProperties.CreateSound | OpenStack-Rabbit-Consumer/rabbit_consumer/message_consumer.py:121-159 | The record rules accept every call of the create workflow, and the registry is consistent after it, whichever call raises. |
| CreateProperties.ProvisionKeepsMachines | OpenStack-Rabbit-Consumer/rabbit_consumer/message_consumer.py:145-153 | The creates delete no machine. |
| CreateProperties.ProvisionCallsOnly | OpenStack-Rabbit-Consumer/rabbit_consumer/message_consumer.py:145-153 | The creates only call the registry. |
| CreateProperties.ReconcileDetachesFirst | OpenStack-Rabbit-Consumer/rabbit_consumer/message_consumer.py:142-155 | The reconciliation meets the interfaces-first rule if and only if its stale delete does not reach an unbound machine with `eth0` attached. |
| CreateProperties.CreateDetachesFirst | OpenStack-Rabbit-Consumer/rabbit_consumer/message_consumer.py:121-159 | The create workflow meets the interfaces-first rule if and only if it does not pass both gates and then reach an unbound machine with `eth0` attached. |
| CreateProperties.PassedDetachesFirst | OpenStack-Rabbit-Consumer/rabbit_consumer/message_consumer.py:121-159 | Past both gates, the create workflow meets the interfaces-first rule if and only if its stale delete does not reach an unbound machine with `eth0` attached. |
| CreateProperties.GatedDetachesFirst | OpenStack-Rabbit-Consumer/rabbit_consumer/message_consumer.py:129-140 | A create workflow stopped by a gate meets the interfaces-first rule. |
| CreateProperties.RedeliveredKeepsInterface | OpenStack-Rabbit-Consumer/rabbit_consumer/message_consumer.py:121-159 | A create event handled again after it completed deletes the first run's machine with `eth0` attached: step 1 removed its host, so nothing is detached. |
| CreateProperties.RedeliveredState | OpenStack-Rabbit-Consumer/rabbit_consumer/message_consumer.py:142-155 | After one completed create, the machine filed under the serial is reached unbound by a second run's stale delete and holds `eth0`. |
| CreateProperties.CreateOneMachine | OpenStack-Rabbit-Consumer/rabbit_consumer/message_consumer.py:142-155 | Afterwards exactly one machine is filed under the serial, the new one; it is bound to the recorded primary host, which no other machine is bound to. |
| CreateProperties.FiledOnce | OpenStack-Rabbit-Consumer/rabbit_consumer/message_consumer.py:145 | In a consistent registry the machine a serial is filed under is the only machine holding it. |
| CreateProperties.HostOnce | OpenStack-Rabbit-Consumer/rabbit_consumer/message_consumer.py:150 | In a consistent registry a host is bound to at most one machine. |
| CreateProperties.CreateRedelivered | OpenStack-Rabbit-Consumer/rabbit_consumer/message_consumer.py:142-155 | A create event handled twice leaves exactly one machine under the serial, the second one, and the first is deleted. |
| CreateProperties.CreateScenario | OpenStack-Rabbit-Consumer/rabbit_consumer/message_consumer.py:121-153 | Creating VM `v2`, with nothing filed and no host `h2`: nothing is deleted, and the six creates name the next machine, 8. |
| CreateProperties.ScenarioNothingStale | OpenStack-Rabbit-Consumer/rabbit_consumer/message_consumer.py:62-69 | With nothing filed under `v2` and no host `h2`, the reference order deletes nothing. |
| CreateProperties.ScenarioCreates | OpenStack-Rabbit-Consumer/rabbit_consumer/message_consumer.py:145-153 | From the scenario registry the creates name machine 8. |
| CreateProperties.CreateScenarioTagBack | OpenStack-Rabbit-Consumer/rabbit_consumer/message_consumer.py:192-212 | The last call of that create tags the VM with hostname `h2`, status SUCCESS and machine 8. |
| ConsumeProperties.CallsUnacked | OpenStack-Rabbit-Consumer/rabbit_consumer/message_consumer.py:53-99 | Registry calls and name resolutions are not acknowledgements. |
| ConsumeProperties.ProvisionUnacked | OpenStack-Rabbit-Consumer/rabbit_consumer/message_consumer.py:145-153 | The creates hold no acknowledgement. |
| ConsumeProperties.PreambleUnacked | OpenStack-Rabbit-Consumer/rabbit_consumer/message_consumer.py:107-135 | The validation calls and the fetches hold no acknowledgement. |
| ConsumeProperties.ReconcileUnacked | OpenStack-Rabbit-Consumer/rabbit_consumer/message_consumer.py:121-155 | Past both gates the create workflow holds no acknowledgement. |
| ConsumeProperties.CreateUnacked | OpenStack-Rabbit-Consumer/rabbit_consumer/message_consumer.py:121-159 | The create workflow never acknowledges. |
| ConsumeProperties.ConsumeUnacked | OpenStack-Rabbit-Consumer/rabbit_consumer/message_consumer.py:38-50 | No handler acknowledges; only `on_message` does. |
| ConsumeProperties.AckOnCompletion | OpenStack-Rabbit-Consumer/rabbit_consumer/message_consumer.py:232-233 | The log gains one acknowledgement if handling completed, and none otherwise, whatever prefix of the handler's calls was issued. |
| ConsumeProperties.ConsumeDetachesFirst | OpenStack-Rabbit-Consumer/rabbit_consumer/message_consumer.py:38-50 | `consume` meets the interfaces-first rule if and only if the routed workflow does not reach an unbound machine with `eth0` attached. |
| ConsumeProperties.ConsumeSound | OpenStack-Rabbit-Consumer/rabbit_consumer/message_consumer.py:38-50 | From a consistent registry, the record rules accept every call `consume` issues, and the registry stays consistent whichever call raises. |
| CreateProperties.JoinSplit | OpenStack-Rabbit-Consumer/rabbit_consumer/message_consumer.py:208 | Splitting a comma-joined, non-empty list of comma-free names at commas gives the list back. |
| CreateProperties.HostnamesReadBack | OpenStack-Rabbit-Consumer/rabbit_consumer/message_consumer.py:206-208 | HOSTNAMES splits back into every hostname of the VM, in order. |

## Left out

- `initiate_consumer` (OpenStack-Rabbit-Consumer/rabbit_consumer/message_consumer.py:236-271) is not modelled: the RabbitMQ connection, queue binding, Kerberos check, configuration and the endless consume loop are network I/O and process plumbing.
- JSON decoding and the `MessageEventType`, `RabbitMessage`, `VmData` and `ImageMetadata` parsers are not part of this model. A message arrives already decoded, or as `None` when its body does not decode; `ImageMetadata.from_dict` is the metadata map itself.
- `_print_debug_logging` and every logger call are left out: they only log.
- The `aq_api` and `openstack_api` clients and `socket.gethostbyname` are not part of this model:
  - each call is an `Op`, and its registry effect is an abstract update (`Effect`);
  - the control plane's answers are the `Cloud` value;
  - name resolution is the parameter `resolve`;
  - any exception such a call raises is one injected fault (`failAt`): the call that would be issued at that position raises with no registry effect, and nothing after it runs. A call that Aquilon applied before the client raised, such as a `create_machine` that timed out after the machine was filed, cannot be represented.
- The control plane's answers are fixed per event. Both image fetches of the create workflow see the same image, and the VM's existence can differ only between validation and tag-back.
- `SetInterfaceBootable`, `AqManage` and `AqMake` change no record tracked here. Their effect inside Aquilon is not modelled.
- `Remote.NicDetails` assumes `add_machine_nics` names interfaces `eth0`, `eth1`, … in address order. It records each address and each interface name in the details as a set, so Python's `in` on the details text is modelled as membership and substring matches are not.
- Machine names are natural numbers the registry hands out in sequence, so `AQ_MACHINE` is a machine reference and not the registry's name text.
- `DeleteProperties.DeleteSound`, `ConsumeProperties.ConsumeSound` and the create soundness lemmas assume that no hostname resolves to the text `eth0` (`ResolvesToAddresses`). Otherwise the address delete would already have removed that detail from the stale details the interface check reads.
- `Invariants.Permitted` constrains only the registry calls that change records. Queries and control-plane calls are always permitted.
- `CreateProperties.JoinSplit` requires a non-empty list of names without commas. Joining an empty list gives `""`, which splits to `[""]`, so no round trip exists there.
- RemoveMachineSound (`DeleteProperties.RemoveMachineSound`): states the record rules of `Permitted` only. The interfaces-first rule is stated by `RemoveMachineDetachesFirst`. A machine without a named host is deleted with `eth0` attached, so the code as written breaks that rule.
- RemoveBySerialSound (`DeleteProperties.RemoveBySerialSound`): states the record rules only; the interfaces-first rule is stated by `RemoveBySerialDetachesFirst`, which the code as written breaks for an unbound machine with `eth0` attached.
- DeleteSound (`DeleteProperties.DeleteSound`): states the record rules only. The interfaces-first rule is stated by `DeleteDetachesFirst`. The reused-hostname and unbound-machine paths delete a machine with `eth0` attached, so the code as written breaks that rule there (see Findings).
- ReconcileSound (`CreateProperties.ReconcileSound`): states the record rules only. The interfaces-first rule is stated by `ReconcileDetachesFirst`. A redelivered create's stale delete breaks it.
- CreatePassedSound (`CreateProperties.CreatePassedSound`): states the record rules only. The interfaces-first rule is stated by `CreateDetachesFirst`, and `RedeliveredKeepsInterface` shows that a redelivered create breaks it.
- CreateSound (`CreateProperties.CreateSound`): states the record rules only. The interfaces-first rule is stated by `CreateDetachesFirst`, and `RedeliveredKeepsInterface` shows that a redelivered create breaks it.
- ConsumeSound (`ConsumeProperties.ConsumeSound`): states the record rules only. The interfaces-first rule is stated by `ConsumeDetachesFirst`. The code as written breaks it on the redelivery and unbound-machine paths.
- `Invariants.Detached` asks only that `eth0` be gone, which is what the interface check at message_consumer.py:93-94 removes. Addresses are not constrained, including the primary address deleted at :90-91: for a machine with no named host there is no hostname to resolve, so the corrected teardown cannot find that address either. Further interfaces (`eth1`, …) of a machine with several NICs are not constrained.
- The corrected teardown (`DetachingDeleteTrace`) is a pure trace with its properties proved. `Consumer.DeleteMachine` and the other workflows keep the code as written.
- `cloud-energy-collection/iriscasttools/main.py` and `OpenStack-Rabbit-Consumer/entrypoint.py` are outside this model: they are bootstrap and argument handling.

## Findings

| source | as written | input that shows it | evidently intended | confidence | as-written member | corrected member |
|---|---|---|---|---|---|---|
| OpenStack-Rabbit-Consumer/rabbit_consumer/message_consumer.py:62-99 | The address and `eth0` are deleted only inside `if hostname:`, that is, only while `search_host_by_machine` still names a host. When step 1 has just deleted that host, the machine is deleted with `eth0` still attached. | A create event handled a second time after it completed: the first run's machine is bound to the VM's primary host, step 1 deletes that host, and the host search then finds none. | Detach the interfaces before deleting the machine, as the comment at :85 says, whether or not a host is still bound. | not executed; that Aquilon refuses such a delete is taken from the comments at :71-75 and :85 | CreateProperties.RedeliveredKeepsInterface | DeleteProperties.DetachingDeleteDetaches |
| OpenStack-Rabbit-Consumer/rabbit_consumer/message_consumer.py:77-99 | A machine that never got a host is deleted without its `eth0` being detached. | A delete event for a VM whose create raised after `add_machine_nics`: its machine has `eth0` and no host. | Delete `eth0` from such a machine first as well. | not executed; that Aquilon refuses such a delete is taken from the comments at :71-75 and :85 | DeleteProperties.UnboundKeepsInterface | DeleteProperties.DetachingDeleteDetaches |

The corrected teardown, `Workflow.DetachingDeleteTrace`, also fetches the details of a machine with no named host and deletes its `eth0` if present. It is proved to:
- meet the interfaces-first rule (`DetachingDeleteDetaches`);
- meet the record rules (`DetachingDeleteSound`);
- leave the registry exactly as the code as written does (`DetachingDeleteSameEnd`);
- issue the same calls wherever the machine is still bound (`DetachingDeleteAgrees`).
