/** Device resolution: probe the enumerated serial ports in order and stop at
    the first port that answers as a ready ESP32 or as one in the wrong boot
    mode. */
module Resolver {
  import opened Strings
  import opened Device

  datatype Resolution = Resolution(device: Option<Esp32>, status: Status)

  /** First-match search over the ports: a ready device is returned, a
      boot-mode error ends the search with no device, a miss moves on, and
      running out of ports means no device. */
  function Resolve(ports: seq<PortInfo>, flashId: string -> string): Resolution
    decreases |ports|
  {
    if ports == [] then Resolution(None, NoDeviceFound)
    else match Esp32(ports[0].device).CheckStatus(flashId)
      case DeviceFound => Resolution(Some(Esp32(ports[0].device)), DeviceFound)
      case BootModeError => Resolution(None, BootModeError)
      case NoDeviceFound => Resolve(ports[1..], flashId)
  }

  /** The loop over the ports with its two early returns. `probes` is the
      number of ports whose probe was run: every port before the last one
      probed was a miss, and no port after it was probed. */
  method GetDevice(ports: seq<PortInfo>, flashId: string -> string)
    returns (device: Option<Esp32>, status: Status, probes: nat)
    ensures Resolution(device, status) == Resolve(ports, flashId)
    ensures probes <= |ports|
    ensures forall i :: 0 <= i < probes - 1 ==> Esp32(ports[i].device).CheckStatus(flashId) == NoDeviceFound
    ensures status == NoDeviceFound ==> probes == |ports|
    ensures status != NoDeviceFound ==> 0 < probes && Esp32(ports[probes - 1].device).CheckStatus(flashId) == status
    ensures device.Some? ==> device.value == Esp32(ports[probes - 1].device)
  {
    var i := 0;
    while i < |ports|
      invariant i <= |ports|
      invariant Resolve(ports, flashId) == Resolve(ports[i..], flashId)
      invariant forall j :: 0 <= j < i ==> Esp32(ports[j].device).CheckStatus(flashId) == NoDeviceFound
    {
      var candidate := Esp32(ports[i].device);
      var s := candidate.CheckStatus(flashId);
      if s == DeviceFound {
        return Some(candidate), s, i + 1;
      }
      if s == BootModeError {
        return None, s, i + 1;
      }
      assert ports[i..][1..] == ports[i + 1..];
      i := i + 1;
    }
    return None, NoDeviceFound, |ports|;
  }

  /** A device is returned exactly when the status says it was found. */
  lemma {:induction false} DeviceIffFound(ports: seq<PortInfo>, flashId: string -> string)
    ensures Resolve(ports, flashId).device.Some? <==> Resolve(ports, flashId).status == DeviceFound
    decreases |ports|
  {
    if ports != [] && Esp32(ports[0].device).CheckStatus(flashId) == NoDeviceFound {
      DeviceIffFound(ports[1..], flashId);
    }
  }

  /** If every port misses, including when there are none, nothing is found. */
  lemma {:induction false} AllMissesMeanNoDevice(ports: seq<PortInfo>, flashId: string -> string)
    requires forall i :: 0 <= i < |ports| ==> Esp32(ports[i].device).CheckStatus(flashId) == NoDeviceFound
    ensures Resolve(ports, flashId) == Resolution(None, NoDeviceFound)
    decreases |ports|
  {
    if ports != [] {
      AllMissesMeanNoDevice(ports[1..], flashId);
    }
  }

  /** The first port that does not miss decides the outcome: its device when
      it is ready, no device when it is in the wrong boot mode, whatever the
      later ports would answer. */
  lemma {:induction false} FirstDecisivePortDecides(ports: seq<PortInfo>, flashId: string -> string, k: nat)
    requires k < |ports|
    requires forall i :: 0 <= i < k ==> Esp32(ports[i].device).CheckStatus(flashId) == NoDeviceFound
    requires Esp32(ports[k].device).CheckStatus(flashId) != NoDeviceFound
    ensures Esp32(ports[k].device).CheckStatus(flashId) == DeviceFound ==>
              Resolve(ports, flashId) == Resolution(Some(Esp32(ports[k].device)), DeviceFound)
    ensures Esp32(ports[k].device).CheckStatus(flashId) == BootModeError ==>
              Resolve(ports, flashId) == Resolution(None, BootModeError)
    decreases k
  {
    if k > 0 {
      FirstDecisivePortDecides(ports[1..], flashId, k - 1);
    }
  }

  /** Ports after the first decisive one are never consulted: appending ports
      to such a list does not change the outcome. */
  lemma {:induction false} LaterPortsIgnored(ports: seq<PortInfo>, later: seq<PortInfo>, flashId: string -> string)
    requires Resolve(ports, flashId).status != NoDeviceFound
    ensures Resolve(ports + later, flashId) == Resolve(ports, flashId)
    decreases |ports|
  {
    assert ports != [];
    assert (ports + later)[0] == ports[0];
    if Esp32(ports[0].device).CheckStatus(flashId) == NoDeviceFound {
      assert (ports + later)[1..] == ports[1..] + later;
      LaterPortsIgnored(ports[1..], later, flashId);
    }
  }

  /** Conversely, when no port is decisive the outcome is that of the ports
      that follow. */
  lemma {:induction false} MissesAreSkipped(ports: seq<PortInfo>, later: seq<PortInfo>, flashId: string -> string)
    requires Resolve(ports, flashId).status == NoDeviceFound
    ensures Resolve(ports + later, flashId) == Resolve(later, flashId)
    decreases |ports|
  {
    if ports != [] {
      assert (ports + later)[0] == ports[0];
      assert (ports + later)[1..] == ports[1..] + later;
      MissesAreSkipped(ports[1..], later, flashId);
    } else {
      assert ports + later == later;
    }
  }
}
