/**
 The endpoint configuration of mqproxy: the two addresses and two ports the
 relay binds to, the defaults it falls back on, and the "scheme://address:port"
 URLs it builds from them.
 */
module BindConfigs {

  const Scheme: string := "tcp"
  const DefaultFrontendAddress: string := "127.0.0.1"
  const DefaultFrontendPort: string := "5570"
  const DefaultBackendAddress: string := "127.0.0.1"
  const DefaultBackendPort: string := "5571"

  /** The four-argument constructor: every field as given, unchecked. */
  datatype BindConfig = BindConfig(
    frontendAddress: string,
    frontendPort: string,
    backendAddress: string,
    backendPort: string)

  /** The two-argument constructor: the given addresses on the default ports. */
  function WithDefaultPorts(frontendAddress: string, backendAddress: string): (c: BindConfig)
    ensures c.frontendAddress == frontendAddress && c.backendAddress == backendAddress
    ensures c.frontendPort == "5570" && c.backendPort == "5571"
  {
    BindConfig(frontendAddress, DefaultFrontendPort, backendAddress, DefaultBackendPort)
  }

  /**
   The default constructor. It passes the default BACKEND address for the
   frontend as well; both constants are "127.0.0.1", so the result is the
   two-argument form on the default addresses.
   */
  function DefaultBindConfig(): (c: BindConfig)
    ensures c == WithDefaultPorts(DefaultFrontendAddress, DefaultBackendAddress)
    ensures c.frontendAddress == "127.0.0.1" && c.backendAddress == "127.0.0.1"
    ensures c.frontendPort == "5570" && c.backendPort == "5571"
  {
    BindConfig(DefaultBackendAddress, DefaultFrontendPort, DefaultBackendAddress, DefaultBackendPort)
  }

  /** One endpoint URL: the scheme, "://", the address, ":" and the port. */
  function Url(address: string, port: string): (url: string)
    ensures |url| == 7 + |address| + |port|
    ensures url[..6] == "tcp://"
    ensures url[6..6 + |address|] == address
    ensures url[6 + |address|] == ':'
    ensures url[7 + |address|..] == port
  {
    Scheme + "://" + address + ":" + port
  }

  /** build_urls: the frontend URL and the backend URL, in that order. */
  function BuildUrls(config: BindConfig): (urls: (string, string))
    ensures urls.0 == "tcp://" + config.frontendAddress + ":" + config.frontendPort
    ensures urls.1 == "tcp://" + config.backendAddress + ":" + config.backendPort
  {
    (Url(config.frontendAddress, config.frontendPort), Url(config.backendAddress, config.backendPort))
  }

  /**
   A URL determines its address and port when the port holds no ':' (the
   address may hold some, as an IPv6 literal or a host name with a colon does).
   */
  lemma UrlInjective(a1: string, p1: string, a2: string, p2: string)
    requires ':' !in p1 && ':' !in p2
    requires Url(a1, p1) == Url(a2, p2)
    ensures a1 == a2 && p1 == p2
  {
  }

  /**
   Each URL depends on its own side's fields only: two configurations whose
   frontend fields agree give the same frontend URL, whatever their backend
   fields, and likewise for the backend. This holds of every configuration,
   including the unchecked five-argument form.
   */
  lemma UrlsDependOnOwnSide(c1: BindConfig, c2: BindConfig)
    ensures c1.frontendAddress == c2.frontendAddress && c1.frontendPort == c2.frontendPort ==>
      BuildUrls(c1).0 == BuildUrls(c2).0
    ensures c1.backendAddress == c2.backendAddress && c1.backendPort == c2.backendPort ==>
      BuildUrls(c1).1 == BuildUrls(c2).1
  {
  }

  /**
   Conversely, a URL determines its own side's fields when that side's ports
   hold no ':' (the five-argument form stores ports unchecked, so one may).
   */
  lemma UrlsDetermineOwnSide(c1: BindConfig, c2: BindConfig)
    ensures ':' !in c1.frontendPort && ':' !in c2.frontendPort && BuildUrls(c1).0 == BuildUrls(c2).0 ==>
      c1.frontendAddress == c2.frontendAddress && c1.frontendPort == c2.frontendPort
    ensures ':' !in c1.backendPort && ':' !in c2.backendPort && BuildUrls(c1).1 == BuildUrls(c2).1 ==>
      c1.backendAddress == c2.backendAddress && c1.backendPort == c2.backendPort
  {
    if ':' !in c1.frontendPort && ':' !in c2.frontendPort && BuildUrls(c1).0 == BuildUrls(c2).0 {
      UrlInjective(c1.frontendAddress, c1.frontendPort, c2.frontendAddress, c2.frontendPort);
    }
    if ':' !in c1.backendPort && ':' !in c2.backendPort && BuildUrls(c1).1 == BuildUrls(c2).1 {
      UrlInjective(c1.backendAddress, c1.backendPort, c2.backendAddress, c2.backendPort);
    }
  }

  /** The URLs of the default configuration. */
  lemma DefaultUrls()
    ensures BuildUrls(DefaultBindConfig()) == ("tcp://127.0.0.1:5570", "tcp://127.0.0.1:5571")
  {
    assert Url("127.0.0.1", "5570") == "tcp://127.0.0.1:5570";
    assert Url("127.0.0.1", "5571") == "tcp://127.0.0.1:5571";
  }
}
