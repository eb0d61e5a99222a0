/** The mapping from the hypervisor's power state to the platform's lifecycle state. */
module PowerState {
  import opened VsphereTypes

  /** The power-state switch. The "poweredOff" case is empty and Go does not fall through,
      so a powered-off VM keeps the state it had before the pass. */
  function MapPowerState(powerState: string, prior: InstanceState): (s: InstanceState)
    ensures s == prior || s in {Running, Stopped, Unknown}
  {
    if powerState == "poweredOn" then Running
    else if powerState == "poweredOff" then prior
    else if powerState == "suspended" then Stopped
    else Unknown
  }

  /** The three named power states. */
  lemma NamedPowerStates(prior: InstanceState)
    ensures MapPowerState("poweredOn", prior) == Running
    ensures MapPowerState("suspended", prior) == Stopped
    ensures MapPowerState("poweredOff", prior) == prior
  {
  }

  /** Every other power state maps to Unknown. */
  lemma OtherPowerStatesAreUnknown(powerState: string, prior: InstanceState)
    requires powerState != "poweredOn" && powerState != "poweredOff" && powerState != "suspended"
    ensures MapPowerState(powerState, prior) == Unknown
  {
  }

  /** Only "poweredOff" lets the prior state through. */
  lemma OnlyPoweredOffReadsPrior(powerState: string, prior: InstanceState, prior': InstanceState)
    requires powerState != "poweredOff"
    ensures MapPowerState(powerState, prior) == MapPowerState(powerState, prior')
  {
  }

  /** Mapping the same power state twice changes nothing more. */
  lemma MapPowerStateIdempotent(powerState: string, prior: InstanceState)
    ensures MapPowerState(powerState, MapPowerState(powerState, prior)) == MapPowerState(powerState, prior)
  {
  }
}
