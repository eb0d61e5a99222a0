/** One reconciliation pass of the vSphere provider: enumerate the hypervisor's VMs, identify each
    by its MAC address, match it to the stored instance record, refresh that record's state and
    IP address, persist it, and return every refreshed record. */
module ListInstances {
  import opened Wrappers
  import opened VsphereTypes
  import opened FindEth
  import opened PowerState
  import opened RetryUtil
  import opened InstanceStore

  /** The port the instance listener answers IP lookups on. */
  const ListenerPort: int := 3000

  /** The attempt budget of the retried IP lookup. */
  const IpLookupAttempts: nat := 5

  /** One call of the listener's IP lookup; `vmIndex` is the VM's position in the enumeration
      and `attempt` the retry attempt, so the oracle may answer differently over time. */
  datatype IpQuery = IpQuery(vmIndex: nat, attempt: nat, listenerIp: string, port: int, mac: string)

  /** The external calls of one pass, as oracles:
      `vms`           the hypervisor's VM enumeration;
      `listenerIp`    the lookup of the instance listener's own address, made for the VM at a position;
      `instanceIp`    the listener's MAC-to-IP lookup;
      `saveInstances` the persistence layer's answer when the VM at a position is saved. */
  datatype Environment = Environment(
    vms: Result<seq<RemoteVm>, Cause>,
    listenerIp: nat -> Result<string, Cause>,
    instanceIp: IpQuery -> Result<string, Cause>,
    saveInstances: nat -> Option<Cause>)

  /** The action retried for the VM at position `i`. */
  function IpLookup(env: Environment, i: nat, listenerIp: string, mac: string): (lookup: nat -> Result<string, Cause>) {
    (attempt: nat) => env.instanceIp(IpQuery(i, attempt, listenerIp, ListenerPort, mac))
  }

  /** The mutation handed to the store: write `instance` under its own id. */
  function Put(instance: Instance): (update: map<string, Instance> -> map<string, Instance>) {
    m => m[instance.id := instance]
  }

  /** The MAC address a VM is identified by: that of the first recognised adapter of its device
      list, and "" when it has no configuration block, no device list, or no recognised adapter. */
  function VmMac(vm: RemoteVm): (mac: string)
    ensures vm.config.None? || vm.config.value.devices.None? ==> mac == ""
    ensures vm.config.Some? && vm.config.value.devices.Some? ==>
              var nics := Adapters(vm.config.value.devices.value);
              mac == if nics == [] then "" else nics[0].macAddress
  {
    if vm.config.None? || vm.config.value.devices.None? then ""
    else
      OtherDevicesPassedOver(vm.config.value.devices.value);
      FindMac(vm.config.value.devices.value)
  }

  /** A VM that has a configuration block, a non-empty MAC and a record under its instance UUID. */
  predicate Identified(vm: RemoteVm, store: map<string, Instance>): (b: bool)
    ensures b <==> && vm.config.Some? && vm.config.value.devices.Some?
                   && Adapters(vm.config.value.devices.value) != []
                   && Adapters(vm.config.value.devices.value)[0].macAddress != ""
                   && vm.config.value.instanceUuid in store
  {
    vm.config.Some? && VmMac(vm) != "" && vm.config.value.instanceUuid in store
  }

  /** What becomes of one VM: skipped, persisted as the given record, or the end of the pass. */
  datatype VmOutcome = Skipped | Persisted(instance: Instance) | Aborted(error: PassError)

  /** The pipeline for the VM at position `i`, given the store as it stands when it is reached. */
  function ProcessVm(env: Environment, i: nat, vm: RemoteVm, store: map<string, Instance>): (o: VmOutcome)
    ensures o.Skipped? <==> !Identified(vm, store)
    ensures o.Persisted? ==>
              var prior := store[vm.config.value.instanceUuid];
              && o.instance.id == prior.id
              && o.instance.metadata == prior.metadata
              && o.instance.state == MapPowerState(vm.powerState, prior.state)
    ensures o.Aborted? ==> o.error.stage != GettingVms
  {
    if !Identified(vm, store) then Skipped
    else
      var prior := store[vm.config.value.instanceUuid];
      var instance := prior.(state := MapPowerState(vm.powerState, prior.state));
      var listener := env.listenerIp(i);
      if listener.Failure? then Aborted(PassError(ListenerIp, listener.error))
      else
        var lookup := RetryFrom(IpLookupAttempts, IpLookup(env, i, listener.value, VmMac(vm)), 0);
        if lookup.outcome.Failure? then Aborted(PassError(InstanceIp, lookup.outcome.error))
        else
          var saved := env.saveInstances(i);
          if saved.Some? then Aborted(PassError(SavingState, saved.value))
          else Persisted(instance.(ipAddress := lookup.outcome.value))
  }

  /** A pass, or what remains of one: the records committed (in the order they were saved),
      the error that ended it early if any, and the store afterwards. */
  datatype PassOutcome = PassOutcome(committed: seq<Instance>, abort: Option<PassError>, store: map<string, Instance>)
  {
    /** What the caller receives: every committed record, or the error and no list at all. */
    function Returned(): (r: Result<seq<Instance>, PassError>) {
      if abort.None? then Success(committed) else Failure(abort.value)
    }
  }

  /** The pass over the VMs from position `i` on: it commits at most one record per VM, and an
      error that ends it comes from a VM's pipeline. */
  function PassFrom(env: Environment, vms: seq<RemoteVm>, i: nat, store: map<string, Instance>): (r: PassOutcome)
    requires i <= |vms|
    ensures |r.committed| <= |vms| - i
    ensures r.abort.Some? ==> r.abort.value.stage != GettingVms
    decreases |vms| - i
  {
    if i == |vms| then PassOutcome([], None, store)
    else
      match ProcessVm(env, i, vms[i], store)
      case Skipped => PassFrom(env, vms, i + 1, store)
      case Aborted(e) => PassOutcome([], Some(e), store)
      case Persisted(instance) =>
        var rest := PassFrom(env, vms, i + 1, store[instance.id := instance]);
        rest.(committed := [instance] + rest.committed)
  }

  /** The whole pass over an initial store: it ends with an enumeration error exactly when the
      enumeration fails. */
  function Reconcile(env: Environment, store: map<string, Instance>): (r: PassOutcome)
    ensures (r.abort.Some? && r.abort.value.stage == GettingVms) <==> env.vms.Failure?
    ensures env.vms.Success? ==> |r.committed| <= |env.vms.value|
  {
    if env.vms.Failure? then PassOutcome([], Some(PassError(GettingVms, env.vms.error)), store)
    else PassFrom(env, env.vms.value, 0, store)
  }

  /** The records committed so far, followed by what the rest of the pass does. */
  function Resume(done: seq<Instance>, rest: PassOutcome): (r: PassOutcome) {
    rest.(committed := done + rest.committed)
  }

  /** The provider; `state` is the platform's shared instance store. */
  class VsphereProvider {
    const state: State

    constructor (state: State)
      ensures this.state == state
    {
      this.state := state;
    }

    /** The reconciliation pass: the VMs are processed one at a time in enumeration order; a
        skipped VM is passed over, a persisted record is appended to the result, and an error
        ends the pass with no list. */
    method ListInstances(env: Environment) returns (r: Result<seq<Instance>, PassError>)
      modifies state
      ensures r == Reconcile(env, old(state.instances)).Returned()
      ensures state.instances == Reconcile(env, old(state.instances)).store
    {
      if env.vms.Failure? {
        return Failure(PassError(GettingVms, env.vms.error));
      }
      var vms := env.vms.value;
      ghost var initial := state.instances;
      var instances: seq<Instance> := [];
      for i := 0 to |vms|
        invariant Resume(instances, PassFrom(env, vms, i, state.instances)) == Reconcile(env, initial)
      {
        var outcome := ReconcileVm(env, i, vms[i]);
        match outcome
        case Skipped =>
        case Aborted(e) =>
          return Failure(e);
        case Persisted(instance) =>
          instances := instances + [instance];
      }
      assert instances + [] == instances;
      return Success(instances);
    }

    /** The body of the pass's loop for the VM at position `i`: identify it, look up its record,
        map its state, resolve its address and save the record under its own id. */
    method ReconcileVm(env: Environment, i: nat, vm: RemoteVm) returns (outcome: VmOutcome)
      modifies state
      ensures outcome == ProcessVm(env, i, vm, old(state.instances))
      ensures state.instances == if outcome.Persisted? then old(state.instances)[outcome.instance.id := outcome.instance]
                                 else old(state.instances)
    {
      if vm.config.None? {
        return Skipped;
      }
      var macAddr := "";
      if vm.config.value.devices.Some? {
        macAddr := ScanDevices(vm.config.value.devices.value);
      }
      if macAddr == "" {
        return Skipped;
      }
      var snapshot := state.GetInstances();
      if vm.config.value.instanceUuid !in snapshot {
        return Skipped;
      }
      var instance := snapshot[vm.config.value.instanceUuid];
      instance := instance.(state := MapPowerState(vm.powerState, instance.state));
      var listenerIp := env.listenerIp(i);
      if listenerIp.Failure? {
        return Aborted(PassError(ListenerIp, listenerIp.error));
      }
      var ip, _ := Retry(IpLookupAttempts, IpLookup(env, i, listenerIp.value, macAddr));
      if ip.Failure? {
        return Aborted(PassError(InstanceIp, ip.error));
      }
      instance := instance.(ipAddress := ip.value);
      var err := state.ModifyInstances(Put(instance), env.saveInstances(i));
      if err.Some? {
        return Aborted(PassError(SavingState, err.value));
      }
      return Persisted(instance);
    }
  }
}
