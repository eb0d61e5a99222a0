# vSphere provider: instance discovery and reconciliation

This project models `VsphereProvider.ListInstances`, the reconciliation pass of the vSphere
provider of a unikernel orchestration platform, and proves properties of the model in Dafny.

One pass works like this:

- It asks the hypervisor for its VMs.
- It identifies each VM by the MAC address of the first recognised network adapter in its device
  list. Seven adapter emulations are recognised.
- It looks up the platform's stored instance record under the VM's instance UUID.
- It maps the VM's power state onto the record's lifecycle state.
- It resolves the VM's IP address through the instance listener. This lookup gets five attempts.
- It writes the refreshed record back into the shared instance store, under the record's own id.
- It returns the refreshed records in enumeration order.

Some VMs are skipped: those without a configuration block, without an identity, or without a
stored record. Any other failure ends the whole pass with an error and no list.

Files and modules:

- `wrappers.dfy` (`Wrappers`): `Option` and `Result`.
- `vsphere_types.dfy` (`VsphereTypes`): devices, VMs, instance records, lifecycle states, and the
  staged pass error.
- `find_eth.dfy` (`FindEth`): the MAC search. `FindMac` is its specification; `ScanDevices` is
  the labelled search loop proved against it.
- `power_state.dfy` (`PowerState`): the power-state switch.
- `retry_util.dfy` (`RetryUtil`): the bounded retry. `RetryFrom` is its specification; `Retry` is
  the loop proved against it.
- `instance_store.dfy` (`InstanceStore`): the shared store as a class `State`. Its map is a field
  that `ModifyInstances` reassigns.
- `list_instances.dfy` (`ListInstances`): the external calls as an `Environment` of oracles,
  the per-VM pipeline `ProcessVm`, and the pass `PassFrom`/`Reconcile` as specification
  functions. The method `VsphereProvider.ListInstances` is a loop over the enumerated VMs. Its
  body is the method `VsphereProvider.ReconcileVm`, proved to do what `ProcessVm` specifies.
  The loop is proved to return `Reconcile(...).Returned()` and to leave the store at
  `Reconcile(...).store`.
- `list_instances_lemmas.dfy` (`ListInstancesLemmas`): the properties of the pass.

The external calls are modelled as oracles, which are fields of `Environment`:

- the VM enumeration;
- the listener's own address lookup;
- the listener's MAC-to-IP lookup;
- the store's save.

The address lookup and the save are indexed by the VM's position in the enumeration. The IP lookup
is indexed by the position and by the attempt number. So an oracle can answer differently from
one call to the next, as a real network does.

Modelling decisions:

- Line 66 looks the record up under `instanceId`, which `ListInstances` does not declare
  (list_instances.go:66). The warning on line 68 reports `vm.Config.InstanceUuid`, so the model uses the VM's instance UUID as
  the lookup key.
- The record is written back under its own `Id` (line 102). The two keys are kept distinct
  throughout.
- The `"poweredOff"` case of the switch (line 76) is empty, and Go does not fall through. So a
  powered-off VM keeps its prior state; it is neither set to Stopped nor to Unknown. The
  model follows the code here.

## Model

| member | source | states |
|---|---|---|
| `FindEth.FindMac` | pkg/providers/vsphere/list_instances.go:26-60 | the result is the MAC of the first device, in list order, that is one of the seven adapter variants, and "" when the list has none |
| `FindEth.ScanDevices` | pkg/providers/vsphere/list_instances.go:26-61 | the labelled loop that breaks at the first recognised adapter returns exactly `FindMac` of the device list |
| `FindEth.OtherDevicesPassedOver` | pkg/providers/vsphere/list_instances.go:29-59 | devices outside the seven variants are passed over: the MAC is that of the first element of the adapter sub-list, or "" if that sub-list is empty |
| `FindEth.FirstAdapterWins` | pkg/providers/vsphere/list_instances.go:29-58 | a recognised adapter preceded only by other devices supplies the MAC, whatever follows, including a later adapter with a different MAC |
| `FindEth.EveryVariantRecognised` | pkg/providers/vsphere/list_instances.go:30-58 | each of the seven variants at the head of the list yields its own MAC |
| `PowerState.MapPowerState` | pkg/providers/vsphere/list_instances.go:72-83 | the mapped state is Running, Stopped, Unknown or the prior state |
| `PowerState.NamedPowerStates` | pkg/providers/vsphere/list_instances.go:72-79 | "poweredOn" gives Running, "suspended" gives Stopped, "poweredOff" leaves the prior state (the empty case does not fall through) |
| `PowerState.OtherPowerStatesAreUnknown` | pkg/providers/vsphere/list_instances.go:80-82 | every other power-state string gives Unknown |
| `PowerState.OnlyPoweredOffReadsPrior` | pkg/providers/vsphere/list_instances.go:72-83 | for every power state except "poweredOff" the result does not depend on the prior state |
| `PowerState.MapPowerStateIdempotent` | pkg/providers/vsphere/list_instances.go:72-83 | mapping the same power state a second time changes nothing |
| `RetryUtil.RetryFrom` | pkg/providers/vsphere/list_instances.go:90-99 | at most `budget` attempts; every attempt before the last failed; the outcome is the last attempt's; a failure means the budget was used up |
| `RetryUtil.Retry` | pkg/providers/vsphere/list_instances.go:90-99 | the sequential retry loop returns exactly the outcome and attempt count of `RetryFrom` |
| `RetryUtil.SucceedsOnFifthAttempt` | pkg/providers/vsphere/list_instances.go:90-97 | four failures then a success give success after exactly five attempts |
| `RetryUtil.ExhaustsBudget` | pkg/providers/vsphere/list_instances.go:90-98 | an action that always fails uses the whole budget and reports its last error |
| `InstanceStore.State.ModifyInstances` | pkg/providers/vsphere/list_instances.go:101-107 | a successful save leaves the map equal to the mutation applied to the old map (in `ListInstances`, the mutation `Put`, which stores a record under its own id); the save's error is returned |
| `ListInstances.VmMac` | pkg/providers/vsphere/list_instances.go:22-62 | a VM's MAC is "" without a configuration block or device list, and otherwise the MAC of the first element of its adapter sub-list ("" if there is none) |
| `ListInstances.Identified` | pkg/providers/vsphere/list_instances.go:22-70 | a VM goes on past the skip tests exactly when it has a configuration block and a device list, its first recognised adapter has a non-empty MAC, and the store holds a record under its instance UUID |
| `ListInstances.ProcessVm` | pkg/providers/vsphere/list_instances.go:22-107 | a VM is skipped exactly when it is not identified; a persisted record keeps the id and other fields of the record stored under the instance UUID and carries the mapped state; an error from a VM's pipeline is never an enumeration error |
| `ListInstances.PassFrom` | pkg/providers/vsphere/list_instances.go:20-111 | the pass commits at most one record per VM, and an error that ends it is never an enumeration error; `AbortedPassReportsVmError` proves it is the error of one particular VM's pipeline |
| `ListInstances.Reconcile` | pkg/providers/vsphere/list_instances.go:13-111 | the pass ends with an enumeration error exactly when the enumeration fails, and otherwise commits at most one record per enumerated VM |
| `ListInstances.VsphereProvider.ReconcileVm` | pkg/providers/vsphere/list_instances.go:22-107 | the loop body returns `ProcessVm`'s outcome and leaves the store changed only by the write of a persisted record under its own id; it reads the store through `State.GetInstances`, queries the listener through `IpLookup` and writes through `Put` |
| `ListInstances.VsphereProvider.ListInstances` | pkg/providers/vsphere/list_instances.go:13-112 | the method returns `Reconcile(env, old store).Returned()` and leaves the store at `Reconcile(env, old store).store` |
| `ListInstancesLemmas.EnumerationFailureAborts` | pkg/providers/vsphere/list_instances.go:15-18 | a failed enumeration yields the wrapped error, no list, and an untouched store |
| `ListInstancesLemmas.NoIdentityWithoutAdapter` | pkg/providers/vsphere/list_instances.go:22-62 | no configuration block, no device list, or no recognised adapter means an empty MAC |
| `ListInstancesLemmas.SkippedVmContributesNothing` | pkg/providers/vsphere/list_instances.go:22-70 | a VM without configuration, MAC or stored record is passed over: the pass continues with the next VM on the same store |
| `ListInstancesLemmas.EmptyFirstMacSkipsVm` | pkg/providers/vsphere/list_instances.go:29-65 | a first recognised adapter with an empty MAC gets the VM skipped even when a later adapter has a MAC |
| `ListInstancesLemmas.PersistedInstance` | pkg/providers/vsphere/list_instances.go:85-104 | a persisted record's VM got past the listener lookup and the save, and the record's address is the answer of the first successful lookup among at most five attempts on port 3000 |
| `ListInstancesLemmas.AbortStages` | pkg/providers/vsphere/list_instances.go:85-107 | an identified VM ends the pass exactly when the listener-address lookup fails, all five IP lookups fail, or the save fails; the error names that stage and carries that call's error |
| `ListInstancesLemmas.LaterVmsIgnoredAfterAbort` | pkg/providers/vsphere/list_instances.go:85-107 | once a VM ends the pass, no later VM is processed: appending VMs does not change a failed pass |
| `ListInstancesLemmas.StoreKeysAfterPass` | pkg/providers/vsphere/list_instances.go:101-104 | afterwards the store holds its old keys plus the ids of the committed records |
| `ListInstancesLemmas.StoreFrameAfterPass` | pkg/providers/vsphere/list_instances.go:101-104 | every entry under a key that no committed record carries is unchanged |
| `ListInstancesLemmas.LastWriteWins` | pkg/providers/vsphere/list_instances.go:101-104 | the last record committed under an id is the one stored under that id, also when a later VM ends the pass (that nothing is rolled back is stated by `AbortedPassReportsVmError`) |
| `ListInstancesLemmas.SourcesOrdered` | pkg/providers/vsphere/list_instances.go:21-109 | the positions of the VMs whose records are committed are one per record, within the enumeration, and strictly increasing |
| `ListInstancesLemmas.ShiftPersistedAt` | pkg/providers/vsphere/list_instances.go:21-109 | one direction only: if a later VM persists a record in the pass started one VM later (past a VM that does not abort, on the store that VM leaves), it persists the same record in the pass started at that VM |
| `ListInstancesLemmas.CommittedMatchSources` | pkg/providers/vsphere/list_instances.go:21-109 | the k-th committed record is what the pipeline of the VM at the k-th source position persisted, on the store as the pass reached that VM (the induction behind `CommittedInEnumerationOrder`) |
| `ListInstancesLemmas.CommittedInEnumerationOrder` | pkg/providers/vsphere/list_instances.go:21-109 | the k-th committed record is exactly the record that the pipeline of the VM at the k-th source position persisted, run on the store as the pass reached that VM; the positions strictly increase |
| `ListInstancesLemmas.CompletedPassCommitsEveryPersistedVm` | pkg/providers/vsphere/list_instances.go:21-109 | conversely, in a pass that completes, every VM that is not a source was skipped: it had no configuration, no MAC or no stored record when the pass reached it |
| `ListInstancesLemmas.AbortedPassReportsVmError` | pkg/providers/vsphere/list_instances.go:85-107 | a pass that ends in an error ends at one VM whose pipeline, on the store as the pass reached it, aborted with exactly that error; every committed record came from an earlier VM; nothing is rolled back: the pass leaves the store exactly as that VM found it, and every earlier VM that is not a source was skipped |
| `ListInstancesLemmas.ReconcileAgainIsStable` | pkg/providers/vsphere/list_instances.go:66-104 | a second pass over the same VM, with the same oracle answers, yields the same record and the same store, whether or not the record's id equals the VM's instance UUID |
| `ListInstancesLemmas.ScenarioOneRunningVm` | pkg/providers/vsphere/list_instances.go:13-112 | one powered-on VM that resolves to 10.0.0.5 on the first attempt yields exactly one Running record with that address |
| `ListInstancesLemmas.ScenarioNoAdapter` | pkg/providers/vsphere/list_instances.go:62-65 | a single VM without a recognised adapter yields an empty list, no error, and an untouched store |
| `ListInstancesLemmas.ScenarioListenerExhausted` | pkg/providers/vsphere/list_instances.go:90-99 | a matched first VM whose five IP lookups all fail ends the pass with an IP-lookup error, whatever VMs follow |

## Left out

- Hypervisor I/O (`c.Vms()`, `c.GetVmIp`) and the listener query (`common.GetInstanceIp`) are oracles in `Environment`. The session, the client, and the wire protocol are not modelled.
- The retry helper `unikutil.Retry` is not part of this model. It is modelled as at most the given number of sequential attempts, stopping at the first success and reporting the last error. The 2000 ms sleep between attempts is left out, because it involves time.
- `RetryUtil.Retry` requires a budget of at least one attempt (the pass always passes five). What the helper does with a budget of zero is not modelled.
- The store's implementation (`GetInstances`, `ModifyInstances`, its lock and its persistence) is not part of this model. The store is a plain map with a snapshot read and an update.
- `InstanceStore.State.ModifyInstances`: a failed save is modelled as leaving the map unchanged. How the real store behaves after a failed save is not modelled.
- The mutation closure on line 101 always returns nil. So the update is a total function, and an error from the closure itself is not modelled.
- Concurrent change to the store by other actors is not modelled, and neither is locking. Each VM's read and write see only this pass's own changes.
- Aliasing between the snapshot map and the mutated `instance` is not modelled. In the source, the store holds pointers, so the state written on lines 72-83 is visible in memory before the save, even when the pass later aborts. A failed lookup attempt also overwrites `IpAddress` the same way. The model treats records as values. Two effects of this are not captured. (1) When a record's `Id` differs from the instance UUID it was found under, the entry under the UUID is the same object in the source, so it also takes the new state and address; `StoreFrameAfterPass` holds for the value model only. (2) Two VMs matched to the same stored record append one pointer twice to the returned list, so both entries show the later VM's values; the model returns two distinct values.
- Logging (logrus warnings and debug messages) and the text of the `lxerrors` messages are left out. An error keeps its stage and its underlying cause.
- Instance fields the pass does not touch are one opaque `metadata` map. Lifecycle states other than Running, Stopped and Unknown are one `OtherState(name)` constructor.
