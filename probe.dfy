/**
 * The reachability check behind the "ping_test" button: where each entry
 * would be contacted, and how a connect outcome is classified.
 */
module Probe {
  import opened Wrappers

  /** What `urlparse(url).hostname` and `.port` give; `(None, None)` when parsing raises. */
  datatype ParsedUrl = ParsedUrl(host: Option<string>, port: Option<int>)

  /** Where an entry is probed: nowhere (unknown format) or a host and port. */
  datatype Endpoint = NoHost | HostPort(host: string, port: int)

  /** The port used when the link names none. */
  const DefaultPort: int := 443

  /** Python's `if not host` / `port if port else 443`. */
  function EndpointOf(p: ParsedUrl): (e: Endpoint)
    ensures e.NoHost? <==> p.host.None? || p.host.value == ""
    ensures e.HostPort? ==> e.host == p.host.value && e.port != 0
    ensures e.HostPort? && p.port.Some? && p.port.value != 0 ==> e.port == p.port.value
    ensures e.HostPort? && (p.port.None? || p.port.value == 0) ==> e.port == DefaultPort
  {
    match p.host
    case None => NoHost
    case Some(h) =>
      if h == "" then NoHost
      else HostPort(h, match p.port case Some(n) => if n != 0 then n else DefaultPort case None => DefaultPort)
  }

  /** The colour tiers of a successful connect: green, yellow and orange. */
  datatype Tier = Good | Fair | Poor

  function Severity(t: Tier): nat {
    match t
    case Good => 0
    case Fair => 1
    case Poor => 2
  }

  /** Latency tiering: below 120 ms good, below 250 ms fair, otherwise poor. */
  function TierOf(latencyMs: nat): (t: Tier)
    ensures t == Good <==> latencyMs < 120
    ensures t == Fair <==> 120 <= latencyMs < 250
    ensures t == Poor <==> 250 <= latencyMs
  {
    if latencyMs < 120 then Good else if latencyMs < 250 then Fair else Poor
  }

  /** A slower connection never lands in a better tier. */
  lemma TierMonotone(a: nat, b: nat)
    requires a <= b
    ensures Severity(TierOf(a)) <= Severity(TierOf(b))
  {
  }

  /** The values on either side of each tier boundary. */
  lemma TierBoundaries()
    ensures TierOf(119) == Good && TierOf(120) == Fair
    ensures TierOf(249) == Fair && TierOf(250) == Poor
  {
  }

  /** What the single connect attempt (timeout 2.5 s) gave. */
  datatype Connect = Connected(latencyMs: nat) | ConnectFailed

  /** One line of the report. */
  datatype ReportLine =
    | UnknownFormat(name: string)
    | Reached(name: string, tier: Tier, latencyMs: nat)
    | Unreachable(name: string)

  /** The report line for one entry; `c` is ignored when there is nothing to connect to. */
  function LineFor(name: string, e: Endpoint, c: Connect): (line: ReportLine)
    ensures line.name == name
    ensures line.UnknownFormat? <==> e.NoHost?
    ensures line.Unreachable? <==> e.HostPort? && c.ConnectFailed?
    ensures line.Reached? ==> c.Connected? && line.latencyMs == c.latencyMs && line.tier == TierOf(c.latencyMs)
  {
    match e
    case NoHost => UnknownFormat(name)
    case HostPort(_, _) =>
      match c
      case Connected(ms) => Reached(name, TierOf(ms), ms)
      case ConnectFailed => Unreachable(name)
  }
}
