/**
 * `YuServer`: the settings the HTTP server derives from its configuration,
 * namely the address family of the listening socket and the hostname the
 * request handler uses to build short links and to refuse links to itself.
 */
module Server {
  import opened Common

  /** The hostname used when the configuration names none. */
  const DEFAULT_HOSTNAME := "yaturl.net"
  /** The port at which the hostname is used without a port suffix. */
  const HTTP_PORT := 80

  datatype AddressFamily = AF_INET | AF_INET6

  /**
   * The public hostname: the configured one, with ":port" appended unless
   * the port is 80; 'yaturl.net' whatever the port when none is configured.
   */
  function Hostname(configured: Option<string>, port: int): (r: string)
    ensures configured.None? ==> r == DEFAULT_HOSTNAME
    ensures configured.Some? && port == HTTP_PORT ==> r == configured.value
    ensures configured.Some? && port != HTTP_PORT ==>
      && StartsWith(r, configured.value + ":")
      && ParseInt(r[|configured.value| + 1..]) == port
      && ':' !in r[|configured.value| + 1..]
  {
    if configured.None? then DEFAULT_HOSTNAME
    else if port != HTTP_PORT then
      var h := configured.value + ":";
      var r := h + IntToDecimal(port);
      IntDecimalRoundTrip(port);
      assert r[..|h|] == h;
      assert r[|configured.value| + 1..] == IntToDecimal(port);
      r
    else configured.value
  }

  /**
   * The port of a suffixed hostname is what follows its last ':', whatever
   * colons the configured name itself contains.
   */
  lemma HostnamePortReadsBack(configured: string, port: int)
    requires port != HTTP_PORT
    ensures var r := Hostname(Some(configured), port);
      var k := RFind(r, ':');
      k == |configured| && r[..k] == configured && ParseInt(r[k + 1..]) == port
  {
    var r := Hostname(Some(configured), port);
    var k := RFind(r, ':');
    assert r[|configured|] == ':' by {
      assert r[..|configured| + 1] == configured + ":";
    }
    assert r[..|configured|] == configured by {
      assert r[..|configured| + 1][..|configured|] == configured;
    }
  }

  /** `_set_address_family`'s decision: IPv6 exactly when the host contains ':'. */
  function AddressFamilyOf(host: string): (f: AddressFamily)
    ensures f == AF_INET6 <==> ':' in host
  {
    if ':' in host then AF_INET6 else AF_INET
  }

  class YuServer {
    /** The (host, port) pair the socket is bound to. */
    const host: string
    const port: int
    var addressFamily: AddressFamily
    const hostname: string
    const resolveClients: bool
    const logIpActivated: bool

    /**
     * `__init__`: the address family from the host, then the hostname and
     * the two switches from the configuration. Binding the socket is left out.
     */
    constructor (host: string, port: int, configuredHostname: Option<string>, resolveClients: bool, logIpActivated: bool)
      ensures this.host == host && this.port == port
      ensures addressFamily == AddressFamilyOf(host)
      ensures hostname == Hostname(configuredHostname, port)
      ensures this.resolveClients == resolveClients && this.logIpActivated == logIpActivated
    {
      this.host := host;
      this.port := port;
      hostname := Hostname(configuredHostname, port);
      this.resolveClients := resolveClients;
      this.logIpActivated := logIpActivated;
      new;
      SetAddressFamily(host);
    }

    /** `_set_address_family` */
    method SetAddressFamily(host: string)
      modifies this`addressFamily
      ensures addressFamily == AddressFamilyOf(host)
    {
      if ':' in host {
        addressFamily := AF_INET6;
      } else {
        addressFamily := AF_INET;
      }
    }
  }
}
