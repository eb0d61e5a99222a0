/** The search for the MAC address a VM is identified by. */
module FindEth {
  import opened VsphereTypes

  /** The type switch of the search: true exactly for the seven recognised adapter variants. */
  predicate IsNic(d: Device) {
    d.EthernetCard?
  }

  /** No recognised adapter stands among the first `k` devices. */
  ghost predicate NoNicBefore(ds: seq<Device>, k: int) {
    0 <= k <= |ds| && forall j :: 0 <= j < k ==> !IsNic(ds[j])
  }

  /** The device at position `k` is the first recognised adapter of the list. */
  ghost predicate IsFirstNic(ds: seq<Device>, k: int) {
    0 <= k < |ds| && IsNic(ds[k]) && NoNicBefore(ds, k)
  }

  /** The MAC address of the first recognised adapter in list order, or "" when there is none. */
  function FindMac(ds: seq<Device>): (mac: string)
    ensures NoNicBefore(ds, |ds|) ==> mac == ""
    ensures forall k :: IsFirstNic(ds, k) ==> mac == ds[k].macAddress
  {
    if ds == [] then ""
    else if IsNic(ds[0]) then ds[0].macAddress
    else
      var rest := FindMac(ds[1..]);
      assert NoNicBefore(ds, |ds|) ==> NoNicBefore(ds[1..], |ds| - 1);
      assert forall k :: IsFirstNic(ds, k) ==> IsFirstNic(ds[1..], k - 1);
      rest
  }

  /** The labelled search loop: walk the devices in order and stop at the first recognised adapter. */
  method ScanDevices(ds: seq<Device>) returns (macAddr: string)
    ensures macAddr == FindMac(ds)
  {
    macAddr := "";
    label FindEthLoop:
    for i := 0 to |ds|
      invariant macAddr == ""
      invariant NoNicBefore(ds, i)
    {
      match ds[i]
      case EthernetCard(_, mac) =>
        assert IsFirstNic(ds, i);
        macAddr := mac;
        break FindEthLoop;
      case OtherDevice(_) =>
    }
  }

  /** The recognised adapters of a device list, in list order. */
  function Adapters(ds: seq<Device>): (nics: seq<Device>)
    ensures |nics| <= |ds|
    ensures forall k :: 0 <= k < |nics| ==> IsNic(nics[k])
  {
    if ds == [] then []
    else (if IsNic(ds[0]) then [ds[0]] else []) + Adapters(ds[1..])
  }

  /** Devices other than the seven adapters are passed over: the search yields the MAC of the
      first element of the adapter sub-list. */
  lemma {:induction false} OtherDevicesPassedOver(ds: seq<Device>)
    ensures FindMac(ds) == if Adapters(ds) == [] then "" else Adapters(ds)[0].macAddress
  {
    if ds != [] && !IsNic(ds[0]) {
      OtherDevicesPassedOver(ds[1..]);
    }
  }

  /** A recognised adapter preceded only by other devices supplies the MAC, whatever follows it
      (in particular a second adapter with a different MAC). */
  lemma FirstAdapterWins(pre: seq<Device>, d: Device, post: seq<Device>)
    requires forall x :: x in pre ==> !IsNic(x)
    requires IsNic(d)
    ensures FindMac(pre + [d] + post) == d.macAddress
  {
    var ds := pre + [d] + post;
    assert ds[|pre|] == d;
    assert forall j :: 0 <= j < |pre| ==> ds[j] == pre[j];
    assert IsFirstNic(ds, |pre|);
  }

  /** Every one of the seven variants is recognised the same way. */
  lemma EveryVariantRecognised(kind: NicKind, mac: string, rest: seq<Device>)
    ensures FindMac([EthernetCard(kind, mac)] + rest) == mac
  {
  }
}
