/** The platform's shared instance store, reduced to the two operations the pass uses. */
module InstanceStore {
  import opened Wrappers
  import opened VsphereTypes

  /** The store's map from instance id to instance record. */
  class State {
    var instances: map<string, Instance>

    constructor (initial: map<string, Instance>)
      ensures instances == initial
    {
      instances := initial;
    }

    /** A point-in-time read of the map. */
    function GetInstances(): (snapshot: map<string, Instance>)
      reads this
    {
      instances
    }

    /** Applies `update` to the map and persists the result; `saveError` is the persistence
        layer's answer. A failed save reports its error and leaves the map as it was. */
    method ModifyInstances(update: map<string, Instance> -> map<string, Instance>, saveError: Option<Cause>)
      returns (err: Option<Cause>)
      modifies this
      ensures err == saveError
      ensures instances == if saveError.None? then update(old(instances)) else old(instances)
    {
      err := saveError;
      if saveError.None? {
        instances := update(instances);
      }
    }
  }
}
