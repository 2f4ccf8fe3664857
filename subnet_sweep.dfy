/**
 * The "angry IP scan" of index.js:144-156: one ping for each of the 256
 * addresses of 192.168.4.0/24, issued to populate the operating system's
 * ARP cache. A ping that throws synchronously is reported and skipped; every
 * other one leaves a pending probe the caller waits on.
 */
module SubnetSweep {
  import opened Decimal
  import opened NetworkPorts

  /** The fixed /24 the sweep covers. */
  const SubnetPrefix: string := "192.168.4."

  /** The loop bound at index.js:146. */
  const HostCount: nat := 256

  /** `192.168.4.${i}` */
  function HostAddress(i: nat): string {
    SubnetPrefix + NatToString(i)
  }

  /** The last octet can be read back from a host address. */
  lemma HostAddressSuffix(i: nat)
    ensures |HostAddress(i)| > |SubnetPrefix|
    ensures ParseNat(HostAddress(i)[|SubnetPrefix|..]) == i
  {
    assert HostAddress(i)[|SubnetPrefix|..] == NatToString(i);
    ParseNatToString(i);
  }

  /** Different loop indices yield different addresses. */
  lemma HostAddressInjective(i: nat, j: nat)
    requires i != j
    ensures HostAddress(i) != HostAddress(j)
  {
    HostAddressSuffix(i);
    HostAddressSuffix(j);
  }

  /** The addresses whose probe left a pending promise, in sweep order. */
  function Pending(addrs: seq<string>, probe: string -> ProbeResult): (r: seq<string>)
    ensures |r| <= |addrs|
    ensures forall a :: a in r <==> a in addrs && !probe(a).Throws?
  {
    if addrs == [] then []
    else
      var rest := Pending(addrs[..|addrs| - 1], probe);
      var last := addrs[|addrs| - 1];
      assert forall a :: a in addrs <==> a in addrs[..|addrs| - 1] || a == last;
      if probe(last).Throws? then rest else rest + [last]
  }

  /** Sweeping one more address adds it to the pending probes unless its
      ping throws. */
  lemma PendingSnoc(addrs: seq<string>, a: string, probe: string -> ProbeResult)
    ensures Pending(addrs + [a], probe) == Pending(addrs, probe) + (if probe(a).Throws? then [] else [a])
  {
    assert (addrs + [a])[..|addrs|] == addrs;
  }

  /**
   * Runs the sweep. `probed` lists every address handed to the ping library,
   * `pending` those whose probe returned a promise.
   */
  method AngryIpScan(probe: string -> ProbeResult) returns (probed: seq<string>, pending: seq<string>)
    ensures |probed| == HostCount
    ensures forall i :: 0 <= i < HostCount ==> probed[i] == HostAddress(i)
    ensures forall i, j :: 0 <= i < j < HostCount ==> probed[i] != probed[j]
    ensures pending == Pending(probed, probe)
  {
    probed, pending := [], [];
    for i := 0 to HostCount
      invariant |probed| == i
      invariant forall k :: 0 <= k < i ==> probed[k] == HostAddress(k)
      invariant pending == Pending(probed, probe)
    {
      var ip := HostAddress(i);
      PendingSnoc(probed, ip, probe);
      probed := probed + [ip];
      if !probe(ip).Throws? {
        pending := pending + [ip];
      }
    }
    forall i, j | 0 <= i < j < HostCount ensures probed[i] != probed[j] {
      HostAddressInjective(i, j);
    }
  }

  /** Whether `Promise.all` over the sweep's pending probes fulfils: no
      probe of the subnet rejects. */
  predicate SweepSettles(probe: string -> ProbeResult) {
    forall i :: 0 <= i < HostCount ==> probe(HostAddress(i)) != Fault
  }

  /** The pending probes of a full sweep all fulfil exactly when the sweep
      settles, since the skipped ones are those that threw. */
  lemma PendingSettle(probed: seq<string>, probe: string -> ProbeResult)
    requires |probed| == HostCount && forall i :: 0 <= i < HostCount ==> probed[i] == HostAddress(i)
    ensures (forall a :: a in Pending(probed, probe) ==> probe(a) != Fault) <==> SweepSettles(probe)
  {
    if forall a :: a in Pending(probed, probe) ==> probe(a) != Fault {
      forall i | 0 <= i < HostCount ensures probe(HostAddress(i)) != Fault {
        assert probed[i] in probed;
      }
    }
  }
}
