/**
 * The two networking capabilities the presence core consumes, as abstract
 * ports. index.js shells out to `arp -an | grep -i <mac>` and calls the
 * `ping` library; here both become values supplied by the caller, so that
 * every behaviour of the core is a function of what the ports report.
 */
module NetworkPorts {
  import opened Options

  /** What one call of the ping library yields for one address. */
  datatype ProbeResult =
    | Reply(alive: bool)  // the probe promise fulfils with `{ alive }`
    | Fault               // the probe promise rejects
    | Throws              // the call throws before returning a promise

  /**
   * What the ARP query pipeline reports: the stdout chunk delivered to the
   * 'data' handler, if any, and the exit code delivered to the 'close'
   * handler (grep exits with 1 when no line matched).
   */
  datatype ArpLookup = ArpLookup(line: Option<string>, exitCode: int)

  /** The ARP query as a function of the MAC address, and the ping oracle. */
  datatype Ports = Ports(arp: string -> ArpLookup, probe: string -> ProbeResult)

  /** One use of a port, in the order the core makes them. */
  datatype PortCall = ArpQuery(mac: string) | Ping(ip: string)
}
