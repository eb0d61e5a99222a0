/** The records the discovery pass reads from the hypervisor and writes into the instance store. */
module VsphereTypes {
  import opened Wrappers

  /** The seven network-adapter emulations the pass recognises as carrying a VM's MAC address. */
  datatype NicKind =
    | VirtualE1000
    | VirtualE1000e
    | VirtualPCNet32
    | VirtualSriovEthernetCard
    | VirtualVmxnet
    | VirtualVmxnet2
    | VirtualVmxnet3

  /** One entry of a VM's hardware device list: a recognised adapter with its MAC address,
      or any other device (a disk, a controller, an adapter type outside the seven, ...). */
  datatype Device =
    | EthernetCard(kind: NicKind, macAddress: string)
    | OtherDevice(typeName: string)

  /** A VM's configuration block; `devices` is None when the hardware device list is nil. */
  datatype VmConfig = VmConfig(instanceUuid: string, devices: Option<seq<Device>>)

  /** A VM as the hypervisor enumerates it; `config` is None when the configuration block is nil,
      `powerState` is the runtime summary's power state. */
  datatype RemoteVm = RemoteVm(config: Option<VmConfig>, powerState: string)

  /** The platform's lifecycle states. The pass writes only the first three; `OtherState`
      stands for the states other code paths set, which the pass may leave in place. */
  datatype InstanceState = Running | Stopped | Unknown | OtherState(name: string)

  /** The platform's instance record. `metadata` stands for the fields the pass never touches. */
  datatype Instance = Instance(id: string, state: InstanceState, ipAddress: string, metadata: map<string, string>)

  /** The underlying error of a failed external call. */
  type Cause = string

  /** The stage a fatal error is wrapped with, so callers can tell the failures apart. */
  datatype Stage = GettingVms | ListenerIp | InstanceIp | SavingState

  datatype PassError = PassError(stage: Stage, cause: Cause)
}
