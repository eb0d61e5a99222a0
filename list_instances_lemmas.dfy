/** Properties of one reconciliation pass. */
module ListInstancesLemmas {
  import opened Wrappers
  import opened VsphereTypes
  import opened FindEth
  import opened PowerState
  import opened RetryUtil
  import opened ListInstances

  /** The ids of a sequence of records. */
  function Ids(c: seq<Instance>): (ids: set<string>) {
    set k | 0 <= k < |c| :: c[k].id
  }

  /** No later record of `c` carries the id of `c[k]`: it is the last write under that id. */
  ghost predicate LastWithId(c: seq<Instance>, k: int) {
    0 <= k < |c| && forall j :: k < j < |c| ==> c[j].id != c[k].id
  }

  lemma IdsCons(x: Instance, c: seq<Instance>)
    ensures Ids([x] + c) == {x.id} + Ids(c)
  {
    var xc := [x] + c;
    forall id | id in Ids(xc) ensures id in {x.id} + Ids(c) {
      var k :| 0 <= k < |xc| && xc[k].id == id;
      if k > 0 { assert c[k - 1] == xc[k]; }
    }
    forall id | id in Ids(c) ensures id in Ids(xc) {
      var k :| 0 <= k < |c| && c[k].id == id;
      assert xc[k + 1] == c[k];
    }
    assert xc[0] == x;
  }

  /** A failed enumeration ends the pass at once: an error wrapped as such, the store untouched. */
  lemma EnumerationFailureAborts(env: Environment, store: map<string, Instance>)
    requires env.vms.Failure?
    ensures Reconcile(env, store).Returned() == Failure(PassError(GettingVms, env.vms.error))
    ensures Reconcile(env, store).store == store
  {
  }

  /** A VM without a configuration block, without a device list, or without a recognised
      adapter has no identity. */
  lemma NoIdentityWithoutAdapter(vm: RemoteVm)
    requires || vm.config.None?
             || vm.config.value.devices.None?
             || forall d :: d in vm.config.value.devices.value ==> !IsNic(d)
    ensures VmMac(vm) == ""
  {
    if vm.config.Some? && vm.config.value.devices.Some? {
      var ds := vm.config.value.devices.value;
      assert forall j :: 0 <= j < |ds| ==> ds[j] in ds;
      assert NoNicBefore(ds, |ds|);
    }
  }

  /** A VM that is not identified (no configuration, no MAC, or no record under its instance
      UUID) is passed over: the pass continues with the next VM on the same store. */
  lemma SkippedVmContributesNothing(env: Environment, vms: seq<RemoteVm>, i: nat, store: map<string, Instance>)
    requires i < |vms|
    requires !Identified(vms[i], store)
    ensures PassFrom(env, vms, i, store) == PassFrom(env, vms, i + 1, store)
  {
  }

  /** The search stops at the first recognised adapter even when its MAC is empty, so such a
      VM is skipped even when a later adapter has a MAC. */
  lemma EmptyFirstMacSkipsVm(env: Environment, vms: seq<RemoteVm>, i: nat, store: map<string, Instance>,
                             pre: seq<Device>, kind: NicKind, post: seq<Device>)
    requires i < |vms|
    requires vms[i].config.Some?
    requires vms[i].config.value.devices == Some(pre + [EthernetCard(kind, "")] + post)
    requires forall x :: x in pre ==> !IsNic(x)
    ensures PassFrom(env, vms, i, store) == PassFrom(env, vms, i + 1, store)
  {
    FirstAdapterWins(pre, EthernetCard(kind, ""), post);
  }

  /** A persisted record's VM got past every external call, and the record's address is the
      answer of the first successful lookup among at most five attempts on the listener's port
      (its id, other fields and state are stated by `ProcessVm` itself). */
  lemma PersistedInstance(env: Environment, i: nat, vm: RemoteVm, store: map<string, Instance>)
    requires ProcessVm(env, i, vm, store).Persisted?
    ensures Identified(vm, store)
    ensures env.listenerIp(i).Success? && env.saveInstances(i).None?
    ensures var instance := ProcessVm(env, i, vm, store).instance;
            exists a :: && 0 <= a < IpLookupAttempts
                           && env.instanceIp(IpQuery(i, a, env.listenerIp(i).value, ListenerPort, VmMac(vm))) == Success(instance.ipAddress)
                           && forall b :: 0 <= b < a ==> env.instanceIp(IpQuery(i, b, env.listenerIp(i).value, ListenerPort, VmMac(vm))).Failure?
  {
    var lookup := RetryFrom(IpLookupAttempts, IpLookup(env, i, env.listenerIp(i).value, VmMac(vm)), 0);
    var a := lookup.count - 1;
    assert IpLookup(env, i, env.listenerIp(i).value, VmMac(vm))(a) == lookup.outcome;
    forall b | 0 <= b < a
      ensures env.instanceIp(IpQuery(i, b, env.listenerIp(i).value, ListenerPort, VmMac(vm))).Failure?
    {
      assert IpLookup(env, i, env.listenerIp(i).value, VmMac(vm))(b).Failure?;
    }
  }

  /** Every attempt of the retried IP lookup for the VM at position `i` fails. */
  ghost predicate AllLookupsFail(env: Environment, i: nat, vm: RemoteVm)
    requires env.listenerIp(i).Success?
  {
    forall a :: 0 <= a < IpLookupAttempts ==>
      env.instanceIp(IpQuery(i, a, env.listenerIp(i).value, ListenerPort, VmMac(vm))).Failure?
  }

  /** An identified VM ends the pass exactly when one of its three external calls fails, and the
      error names that stage and carries that call's own error. */
  lemma AbortStages(env: Environment, i: nat, vm: RemoteVm, store: map<string, Instance>)
    ensures var o := ProcessVm(env, i, vm, store);
            (o.Aborted? && o.error.stage == ListenerIp)
              <==> Identified(vm, store) && env.listenerIp(i).Failure?
    ensures var o := ProcessVm(env, i, vm, store);
            (o.Aborted? && o.error.stage == InstanceIp)
              <==> Identified(vm, store) && env.listenerIp(i).Success? && AllLookupsFail(env, i, vm)
    ensures var o := ProcessVm(env, i, vm, store);
            (o.Aborted? && o.error.stage == SavingState)
              <==> && Identified(vm, store) && env.listenerIp(i).Success? && !AllLookupsFail(env, i, vm)
                   && env.saveInstances(i).Some?
    ensures var o := ProcessVm(env, i, vm, store);
            o.Aborted? ==> o.error.stage != GettingVms
    ensures var o := ProcessVm(env, i, vm, store);
            o.Aborted? && o.error.stage == ListenerIp ==> o.error.cause == env.listenerIp(i).error
    ensures var o := ProcessVm(env, i, vm, store);
            o.Aborted? && o.error.stage == InstanceIp ==>
              o.error.cause == env.instanceIp(IpQuery(i, IpLookupAttempts - 1, env.listenerIp(i).value, ListenerPort, VmMac(vm))).error
    ensures var o := ProcessVm(env, i, vm, store);
            o.Aborted? && o.error.stage == SavingState ==> o.error.cause == env.saveInstances(i).value
  {
    if Identified(vm, store) && env.listenerIp(i).Success? {
      var action := IpLookup(env, i, env.listenerIp(i).value, VmMac(vm));
      var lookup := RetryFrom(IpLookupAttempts, action, 0);
      if AllLookupsFail(env, i, vm) {
        assert action(lookup.count - 1).Failure?;
      } else {
        var a :| 0 <= a < IpLookupAttempts && action(a).Success?;
      }
    }
  }

  /** Once a VM ends the pass, no later VM is looked at: appending VMs to the enumeration does
      not change a pass that failed. */
  lemma {:induction false} LaterVmsIgnoredAfterAbort(env: Environment, vms: seq<RemoteVm>, more: seq<RemoteVm>,
                                                     i: nat, store: map<string, Instance>)
    requires i <= |vms|
    requires PassFrom(env, vms, i, store).abort.Some?
    ensures PassFrom(env, vms + more, i, store) == PassFrom(env, vms, i, store)
    decreases |vms| - i
  {
    var all := vms + more;
    assert all[..|vms|] == vms;
    if i < |vms| {
      assert all[i] == vms[i];
      match ProcessVm(env, i, vms[i], store)
      case Skipped =>
        LaterVmsIgnoredAfterAbort(env, vms, more, i + 1, store);
      case Aborted(_) =>
      case Persisted(instance) =>
        LaterVmsIgnoredAfterAbort(env, vms, more, i + 1, store[instance.id := instance]);
    }
  }

  /** After a pass, whether it completed or failed, the store holds the keys it held plus the
      ids of the committed records. */
  lemma {:induction false} StoreKeysAfterPass(env: Environment, vms: seq<RemoteVm>, i: nat, store: map<string, Instance>)
    requires i <= |vms|
    ensures PassFrom(env, vms, i, store).store.Keys == store.Keys + Ids(PassFrom(env, vms, i, store).committed)
    decreases |vms| - i
  {
    if i < |vms| {
      var o := ProcessVm(env, i, vms[i], store);
      if o.Skipped? {
        StoreKeysAfterPass(env, vms, i + 1, store);
      } else if o.Persisted? {
        var store' := store[o.instance.id := o.instance];
        StoreKeysAfterPass(env, vms, i + 1, store');
        IdsCons(o.instance, PassFrom(env, vms, i + 1, store').committed);
      }
    }
  }

  /** A pass leaves every entry whose key no committed record carries as it was: nothing but the
      committed records is written. (That an aborted pass keeps its earlier commits is
      `AbortedPassReportsVmError`.) */
  lemma {:induction false} StoreFrameAfterPass(env: Environment, vms: seq<RemoteVm>, i: nat, store: map<string, Instance>,
                                               key: string)
    requires i <= |vms|
    requires key in store && key !in Ids(PassFrom(env, vms, i, store).committed)
    ensures key in PassFrom(env, vms, i, store).store
    ensures PassFrom(env, vms, i, store).store[key] == store[key]
    decreases |vms| - i
  {
    if i < |vms| {
      var o := ProcessVm(env, i, vms[i], store);
      if o.Skipped? {
        StoreFrameAfterPass(env, vms, i + 1, store, key);
      } else if o.Persisted? {
        var store' := store[o.instance.id := o.instance];
        IdsCons(o.instance, PassFrom(env, vms, i + 1, store').committed);
        StoreFrameAfterPass(env, vms, i + 1, store', key);
      }
    }
  }

  /** A committed record that no later committed record overwrites is the one stored under its id. */
  lemma {:induction false} LastWriteWins(env: Environment, vms: seq<RemoteVm>, i: nat, store: map<string, Instance>, k: nat)
    requires i <= |vms|
    requires LastWithId(PassFrom(env, vms, i, store).committed, k)
    ensures var o := PassFrom(env, vms, i, store);
            o.committed[k].id in o.store && o.store[o.committed[k].id] == o.committed[k]
    decreases |vms| - i
  {
    if i < |vms| {
      var o := ProcessVm(env, i, vms[i], store);
      if o.Skipped? {
        LastWriteWins(env, vms, i + 1, store, k);
      } else if o.Persisted? {
        var store' := store[o.instance.id := o.instance];
        var rest := PassFrom(env, vms, i + 1, store');
        var c := [o.instance] + rest.committed;
        assert PassFrom(env, vms, i, store).committed == c;
        if k == 0 {
          forall id | id in Ids(rest.committed) ensures id != o.instance.id {
            var j :| 0 <= j < |rest.committed| && rest.committed[j].id == id;
            assert c[j + 1] == rest.committed[j];
          }
          StoreFrameAfterPass(env, vms, i + 1, store', o.instance.id);
        } else {
          assert c[k] == rest.committed[k - 1];
          forall j | k - 1 < j < |rest.committed| ensures rest.committed[j].id != c[k].id {
            assert c[j + 1] == rest.committed[j];
          }
          LastWriteWins(env, vms, i + 1, store', k - 1);
        }
      }
    }
  }

  /** The store as the pass begun at position `i` on `store` finds it when it reaches the VM at
      position `j`: every earlier persisted record has been written. Past an abort the pass reaches
      no later VM, and the store is then the one left at the abort. */
  ghost function StoreAt(env: Environment, vms: seq<RemoteVm>, i: nat, store: map<string, Instance>, j: nat): (reached: map<string, Instance>)
    requires i <= j <= |vms|
    decreases j - i
  {
    if i == j then store
    else
      match ProcessVm(env, i, vms[i], store)
      case Skipped => StoreAt(env, vms, i + 1, store, j)
      case Aborted(_) => store
      case Persisted(instance) => StoreAt(env, vms, i + 1, store[instance.id := instance], j)
  }

  /** The positions of the VMs whose records the pass begun at position `i` commits, in order. */
  ghost function Sources(env: Environment, vms: seq<RemoteVm>, i: nat, store: map<string, Instance>): (src: seq<nat>)
    requires i <= |vms|
    decreases |vms| - i
  {
    if i == |vms| then []
    else
      match ProcessVm(env, i, vms[i], store)
      case Skipped => Sources(env, vms, i + 1, store)
      case Aborted(_) => []
      case Persisted(instance) => [i] + Sources(env, vms, i + 1, store[instance.id := instance])
  }

  /** Moving the start of the pass past a VM that does not abort leaves the store seen later unchanged. */
  lemma StoreAtStep(env: Environment, vms: seq<RemoteVm>, i: nat, store: map<string, Instance>, j: nat)
    requires i < j <= |vms|
    requires !ProcessVm(env, i, vms[i], store).Aborted?
    ensures var o := ProcessVm(env, i, vms[i], store);
            StoreAt(env, vms, i, store, j)
              == StoreAt(env, vms, i + 1, if o.Persisted? then store[o.instance.id := o.instance] else store, j)
  {
  }

  /** One committed record per source position, the positions strictly increasing within the
      enumeration. */
  lemma {:induction false} SourcesOrdered(env: Environment, vms: seq<RemoteVm>, i: nat, store: map<string, Instance>)
    requires i <= |vms|
    ensures var src := Sources(env, vms, i, store);
            && |src| == |PassFrom(env, vms, i, store).committed|
            && (forall k :: 0 <= k < |src| ==> i <= src[k] < |vms|)
            && (forall k, l :: 0 <= k < l < |src| ==> src[k] < src[l])
    decreases |vms| - i
  {
    if i < |vms| {
      var o := ProcessVm(env, i, vms[i], store);
      if o.Skipped? {
        SourcesOrdered(env, vms, i + 1, store);
      } else if o.Persisted? {
        var store' := store[o.instance.id := o.instance];
        SourcesOrdered(env, vms, i + 1, store');
        var rest := Sources(env, vms, i + 1, store');
        assert Sources(env, vms, i, store) == [i] + rest;
        PrependSmaller(i, rest, |vms|);
      }
    }
  }

  /** Putting a position below a strictly increasing run of later positions keeps it strictly
      increasing and within `[first, bound)`. */
  lemma PrependSmaller(first: nat, rest: seq<nat>, bound: nat)
    requires first < bound
    requires forall k :: 0 <= k < |rest| ==> first + 1 <= rest[k] < bound
    requires forall k, l :: 0 <= k < l < |rest| ==> rest[k] < rest[l]
    ensures forall k :: 0 <= k < |[first] + rest| ==> first <= ([first] + rest)[k] < bound
    ensures forall k, l :: 0 <= k < l < |[first] + rest| ==> ([first] + rest)[k] < ([first] + rest)[l]
  {
    forall k | 0 < k < 1 + |rest| ensures ([first] + rest)[k] == rest[k - 1] {
    }
  }

  /** The pass begun at position `i` on `store` reaches the VM at position `j`, and that VM's
      pipeline, run on the store as the pass then finds it, persists `instance`. */
  ghost predicate PersistedAt(env: Environment, vms: seq<RemoteVm>, i: nat, store: map<string, Instance>, j: nat,
                              instance: Instance) {
    i <= j < |vms| && ProcessVm(env, j, vms[j], StoreAt(env, vms, i, store, j)) == Persisted(instance)
  }

  /** Starting the pass one VM later, past a VM that does not abort, does not change what a later
      VM persists. */
  lemma ShiftPersistedAt(env: Environment, vms: seq<RemoteVm>, i: nat, store: map<string, Instance>, j: nat,
                         instance: Instance)
    requires i < |vms|
    requires !ProcessVm(env, i, vms[i], store).Aborted?
    requires var o := ProcessVm(env, i, vms[i], store);
             PersistedAt(env, vms, i + 1, if o.Persisted? then store[o.instance.id := o.instance] else store, j, instance)
    ensures PersistedAt(env, vms, i, store, j, instance)
  {
    StoreAtStep(env, vms, i, store, j);
  }

  /** The `k`-th committed record is what the pipeline of the VM at the `k`-th source position
      persisted. */
  lemma {:induction false} CommittedMatchSources(env: Environment, vms: seq<RemoteVm>, i: nat, store: map<string, Instance>)
    requires i <= |vms|
    ensures var src := Sources(env, vms, i, store);
            var c := PassFrom(env, vms, i, store).committed;
            |src| == |c| && forall k :: 0 <= k < |src| ==> PersistedAt(env, vms, i, store, src[k], c[k])
    decreases |vms| - i
  {
    SourcesOrdered(env, vms, i, store);
    if i < |vms| {
      var o := ProcessVm(env, i, vms[i], store);
      var src := Sources(env, vms, i, store);
      if o.Skipped? {
        CommittedMatchSources(env, vms, i + 1, store);
        assert src == Sources(env, vms, i + 1, store);
        assert PassFrom(env, vms, i, store) == PassFrom(env, vms, i + 1, store);
        forall k | 0 <= k < |src| ensures PersistedAt(env, vms, i, store, src[k], PassFrom(env, vms, i, store).committed[k]) {
          ShiftPersistedAt(env, vms, i, store, src[k], PassFrom(env, vms, i, store).committed[k]);
        }
      } else if o.Persisted? {
        var store' := store[o.instance.id := o.instance];
        SourcesOrdered(env, vms, i + 1, store');
        CommittedMatchSources(env, vms, i + 1, store');
        var rest := Sources(env, vms, i + 1, store');
        var c := PassFrom(env, vms, i + 1, store').committed;
        assert src == [i] + rest;
        assert PassFrom(env, vms, i, store).committed == [o.instance] + c;
        assert PersistedAt(env, vms, i, store, i, o.instance);
        forall k | 0 < k < |src| ensures PersistedAt(env, vms, i, store, src[k], ([o.instance] + c)[k]) {
          assert src[k] == rest[k - 1] && ([o.instance] + c)[k] == c[k - 1];
          ShiftPersistedAt(env, vms, i, store, rest[k - 1], c[k - 1]);
        }
      }
    }
  }

  /** The committed records are those of the VMs that reached persistence, one each, in
      enumeration order: the positions `src` strictly increase, and the pipeline of the VM at
      `src[k]`, run on the store as the pass reached it, persisted exactly the `k`-th record. */
  lemma CommittedInEnumerationOrder(env: Environment, vms: seq<RemoteVm>, i: nat, store: map<string, Instance>)
    returns (src: seq<nat>)
    requires i <= |vms|
    ensures src == Sources(env, vms, i, store)
    ensures var c := PassFrom(env, vms, i, store).committed;
            && |src| == |c|
            && (forall k :: 0 <= k < |src| ==> i <= src[k] < |vms|)
            && (forall k, l :: 0 <= k < l < |src| ==> src[k] < src[l])
            && forall k :: 0 <= k < |src| ==>
                 ProcessVm(env, src[k], vms[src[k]], StoreAt(env, vms, i, store, src[k])) == Persisted(c[k])
  {
    SourcesOrdered(env, vms, i, store);
    CommittedMatchSources(env, vms, i, store);
    src := Sources(env, vms, i, store);
  }

  /** Conversely, a pass that completes leaves out only skipped VMs: every VM whose position is not
      a source had no configuration, no MAC or no stored record when the pass reached it. */
  lemma {:induction false} CompletedPassCommitsEveryPersistedVm(env: Environment, vms: seq<RemoteVm>, i: nat,
                                                                store: map<string, Instance>, j: nat)
    requires i <= j < |vms|
    requires PassFrom(env, vms, i, store).abort.None?
    requires j !in Sources(env, vms, i, store)
    ensures ProcessVm(env, j, vms[j], StoreAt(env, vms, i, store, j)).Skipped?
    ensures !Identified(vms[j], StoreAt(env, vms, i, store, j))
    decreases |vms| - i
  {
    var o := ProcessVm(env, i, vms[i], store);
    if j > i {
      StoreAtStep(env, vms, i, store, j);
      if o.Skipped? {
        CompletedPassCommitsEveryPersistedVm(env, vms, i + 1, store, j);
      } else {
        var store' := store[o.instance.id := o.instance];
        assert Sources(env, vms, i, store) == [i] + Sources(env, vms, i + 1, store');
        CompletedPassCommitsEveryPersistedVm(env, vms, i + 1, store', j);
      }
    }
  }

  /** A pass that ends in an error ends at the VM whose pipeline raised it: some position `j`
      aborted with exactly the reported error, on the store as the pass reached it, and every
      committed record came from a VM before `j`. Nothing is rolled back: the pass leaves the
      store exactly as VM `j` found it, and every earlier VM that is not a source was skipped. */
  lemma {:induction false} AbortedPassReportsVmError(env: Environment, vms: seq<RemoteVm>, i: nat,
                                                     store: map<string, Instance>) returns (j: nat)
    requires i <= |vms|
    requires PassFrom(env, vms, i, store).abort.Some?
    ensures i <= j < |vms|
    ensures ProcessVm(env, j, vms[j], StoreAt(env, vms, i, store, j)) == Aborted(PassFrom(env, vms, i, store).abort.value)
    ensures forall k :: k in Sources(env, vms, i, store) ==> k < j
    ensures PassFrom(env, vms, i, store).store == StoreAt(env, vms, i, store, j)
    ensures forall k :: i <= k < j && k !in Sources(env, vms, i, store) ==>
              ProcessVm(env, k, vms[k], StoreAt(env, vms, i, store, k)).Skipped?
    decreases |vms| - i
  {
    var o := ProcessVm(env, i, vms[i], store);
    if o.Aborted? {
      j := i;
    } else {
      var store' := if o.Persisted? then store[o.instance.id := o.instance] else store;
      j := AbortedPassReportsVmError(env, vms, i + 1, store');
      StoreAtStep(env, vms, i, store, j);
      forall k | i < k < j ensures StoreAt(env, vms, i, store, k) == StoreAt(env, vms, i + 1, store', k) {
        StoreAtStep(env, vms, i, store, k);
      }
      if o.Persisted? {
        assert Sources(env, vms, i, store) == [i] + Sources(env, vms, i + 1, store');
      }
    }
  }

  /** Reconciling the same single VM again, with the same answers from the hypervisor, the
      listener and the persistence layer, yields the same record and leaves the store as the
      first pass left it, whether or not the record's id is the VM's instance UUID. */
  lemma ReconcileAgainIsStable(env: Environment, vm: RemoteVm, store: map<string, Instance>)
    requires env.vms == Success([vm])
    requires ProcessVm(env, 0, vm, store).Persisted?
    ensures Reconcile(env, Reconcile(env, store).store) == Reconcile(env, store)
  {
    var instance := ProcessVm(env, 0, vm, store).instance;
    var key := vm.config.value.instanceUuid;
    var store' := store[instance.id := instance];
    var vms := env.vms.value;
    assert |vms| == 1 && vms[0] == vm;
    assert [instance] + [] == [instance];
    assert PassFrom(env, vms, 0, store) == Resume([instance], PassFrom(env, vms, 1, store'));
    assert Reconcile(env, store) == PassOutcome([instance], None, store');
    if instance.id == key {
      // The second pass reads the record the first one wrote.
      MapPowerStateIdempotent(vm.powerState, store[key].state);
    } else {
      // The record under the instance UUID is the one the first pass read.
      assert store'[key] == store[key];
    }
    assert ProcessVm(env, 0, vm, store') == Persisted(instance);
    assert store'[instance.id := instance] == store';
    assert PassFrom(env, vms, 0, store') == Resume([instance], PassFrom(env, vms, 1, store'));
  }

  /** One poweredOn VM with one recognised adapter, matched in the store, whose MAC the listener
      resolves on the first attempt, yields one Running record with that address. */
  lemma ScenarioOneRunningVm(env: Environment, kind: NicKind, uuid: string, listenerIp: string,
                             store: map<string, Instance>)
    requires env.vms == Success([RemoteVm(Some(VmConfig(uuid, Some([EthernetCard(kind, "00:11:22:33:44:55")]))), "poweredOn")])
    requires uuid in store
    requires env.listenerIp(0) == Success(listenerIp)
    requires env.instanceIp(IpQuery(0, 0, listenerIp, 3000, "00:11:22:33:44:55")) == Success("10.0.0.5")
    requires env.saveInstances(0) == None
    ensures Reconcile(env, store).Returned() == Success([store[uuid].(state := Running, ipAddress := "10.0.0.5")])
  {
    var vms := env.vms.value;
    var vm := vms[0];
    assert |vms| == 1;
    var nic := EthernetCard(kind, "00:11:22:33:44:55");
    EveryVariantRecognised(kind, "00:11:22:33:44:55", []);
    assert [nic] + [] == [nic];
    assert VmMac(vm) == "00:11:22:33:44:55";
    var instance := store[uuid].(state := Running, ipAddress := "10.0.0.5");
    assert ProcessVm(env, 0, vm, store) == Persisted(instance);
    assert [instance] + [] == [instance];
    assert PassFrom(env, vms, 0, store) == Resume([instance], PassFrom(env, vms, 1, store[instance.id := instance]));
  }

  /** A single VM with no recognised adapter yields an empty list and no error. */
  lemma ScenarioNoAdapter(env: Environment, vm: RemoteVm, store: map<string, Instance>)
    requires env.vms == Success([vm])
    requires vm.config.Some? && vm.config.value.devices.Some?
    requires forall d :: d in vm.config.value.devices.value ==> !IsNic(d)
    ensures Reconcile(env, store).Returned() == Success([])
    ensures Reconcile(env, store).store == store
  {
    NoIdentityWithoutAdapter(vm);
    var vms := env.vms.value;
    assert vms[0] == vm && |vms| == 1;
    assert ProcessVm(env, 0, vm, store) == Skipped;
    assert PassFrom(env, vms, 0, store) == PassFrom(env, vms, 1, store);
  }

  /** When the first VM is matched but the listener fails all five attempts, the pass returns an
      IP-lookup error and no list, whatever VMs follow. */
  lemma ScenarioListenerExhausted(env: Environment, vm: RemoteVm, more: seq<RemoteVm>, store: map<string, Instance>)
    requires env.vms == Success([vm] + more)
    requires Identified(vm, store)
    requires env.listenerIp(0).Success?
    requires AllLookupsFail(env, 0, vm)
    ensures Reconcile(env, store).Returned().Failure?
    ensures Reconcile(env, store).Returned().error.stage == InstanceIp
  {
    AbortStages(env, 0, vm, store);
    var vms := env.vms.value;
    assert vms[0] == vm;
  }
}
