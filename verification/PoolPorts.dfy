/** Tags and ports: v2ray/pool_ports.py, the port lists of v2ray/port_cleanup.py, and the
    port layout of the probe shell in v2ray/xray_session.py.  */
module PoolPorts {
  import opened Wrappers
  import opened Ordering
  import opened Arith
  import opened Text

  const DEFAULT_HTTP_START_PORT := 11201
  const DEFAULT_POOL_API_PORT := 20802
  const DEFAULT_PING_BASE_PORT := 45001
  const DEFAULT_PING_API_PORT := 45520

  function BalancerTag(slot: nat): string { "bal-slot-" + Padded(slot) }

  function SocksInboundTag(slot: nat): string { "socks-" + Padded(slot) }

  function HttpInboundTag(slot: nat): string { "http-" + Padded(slot) }

  const FALLBACK_TAG := "fallback"

  /** The outbound tag of a node. The source takes the first 16 hex digits of the key's
      SHA-1; the model keeps the key itself, so tags of different nodes differ. */
  function NodeTag(key: string): string { "n-" + key }

  lemma NodeTagInjective(a: string, b: string)
    requires NodeTag(a) == NodeTag(b)
    ensures a == b
  {
    assert a == NodeTag(a)[2..] && b == NodeTag(b)[2..];
  }

  lemma BalancerTagInjective(a: nat, b: nat)
    requires BalancerTag(a) == BalancerTag(b)
    ensures a == b
  {
    assert Padded(a) == BalancerTag(a)[9..] && Padded(b) == BalancerTag(b)[9..];
    PaddedInjective(a, b);
  }

  lemma InboundTagsDiffer(a: nat, b: nat)
    ensures SocksInboundTag(a) == SocksInboundTag(b) ==> a == b
    ensures HttpInboundTag(a) == HttpInboundTag(b) ==> a == b
    ensures SocksInboundTag(a) != HttpInboundTag(b)
  {
    assert Padded(a) == SocksInboundTag(a)[6..] == HttpInboundTag(a)[5..];
    assert Padded(b) == SocksInboundTag(b)[6..] == HttpInboundTag(b)[5..];
    if Padded(a) == Padded(b) { PaddedInjective(a, b); }
    assert SocksInboundTag(a)[0] == 's' && HttpInboundTag(b)[0] == 'h';
  }

  function SlotPortList(socks: int, http: int, count: nat): (r: seq<int>)
    ensures |r| == 2 * count
    ensures forall i | 0 <= i < count :: r[2 * i] == socks + i && r[2 * i + 1] == http + i
  {
    if count == 0 then []
    else SlotPortList(socks, http, count - 1) + [socks + count - 1, http + count - 1]
  }

  /** `pool_listen_ports`: the ports of the pool, or the error it raises. */
  method PoolListenPorts(socksStart: int, httpStart: int, slots: int, apiPort: int)
    returns (r: Result<seq<int>, string>)
    ensures var socks, http, count := Max(1024, socksStart), Max(1024, httpStart), Max(1, slots);
      && (r.Ok? <==> Max(socks, http) + count - 1 <= 65535 && 1 <= apiPort <= 65535)
      && (r.Ok? ==> r.value == SlotPortList(socks, http, count) + [apiPort])
  {
    var socks, http, count := Max(1024, socksStart), Max(1024, httpStart), Max(1, slots);
    var ports := [];
    for i := 0 to count
      invariant ports == SlotPortList(socks, http, i)
      invariant i > 0 ==> Max(socks, http) + i - 1 <= 65535
    {
      if Max(socks + i, http + i) > 65535 {
        return Err("Proxy pool ports exceed 65535");
      }
      ports := ports + [socks + i, http + i];
    }
    if !(1 <= apiPort <= 65535) {
      return Err("Invalid pool API port");
    }
    r := Ok(ports + [apiPort]);
  }

  predicate InRange(p: int, start: int, count: nat) { start <= p < start + count }

  lemma SlotPortsIn(socks: int, http: int, count: nat, p: int)
    ensures p in SlotPortList(socks, http, count) <==> InRange(p, socks, count) || InRange(p, http, count)
  {
    if count > 0 {
      SlotPortsIn(socks, http, count - 1, p);
    }
  }

  lemma SlotPortsDistinct(socks: int, http: int, count: nat)
    requires count >= 1
    ensures Distinct(SlotPortList(socks, http, count)) <==> socks + count <= http || http + count <= socks
  {
    var ports := SlotPortList(socks, http, count);
    var zero := 0;
    assert ports[2 * zero] == socks && ports[2 * zero + 1] == http;
    if socks <= http < socks + count {
      assert ports[2 * (http - socks)] == http;
    } else if http < socks < http + count {
      assert ports[2 * (socks - http) + 1] == http + (socks - http);
    } else {
      forall i, j | 0 <= i < j < |ports| ensures ports[i] != ports[j] {
        assert i == 2 * (i / 2) + i % 2 && j == 2 * (j / 2) + j % 2;
      }
    }
  }

  /** No listener collides exactly when the two ranges are apart and the API port is outside
      both. */
  lemma PoolPortsDistinct(socks: int, http: int, count: nat, api: int)
    requires count >= 1
    ensures Distinct(SlotPortList(socks, http, count) + [api])
       <==> (socks + count <= http || http + count <= socks)
            && !InRange(api, socks, count) && !InRange(api, http, count)
  {
    SlotPortsIn(socks, http, count, api);
    SlotPortsDistinct(socks, http, count);
    DistinctSnoc(SlotPortList(socks, http, count), api);
  }

  /** `pool_ports` of the clean-up: a missing or zero port means the default. */
  function CleanupArguments(start: int, httpStart: Option<int>, api: Option<int>): (int, int, int) {
    (Max(1024, start),
     if httpStart.Some? && httpStart.value != 0 then httpStart.value else DEFAULT_HTTP_START_PORT,
     if api.Some? && api.value != 0 then api.value else DEFAULT_POOL_API_PORT)
  }

  method CleanupPoolPorts(start: int, count: int, httpStart: Option<int>, api: Option<int>)
    returns (r: Result<seq<int>, string>)
    ensures var (s, h, a) := CleanupArguments(start, httpStart, api);
      && (r.Ok? <==> Max(s, Max(1024, h)) + Max(1, count) - 1 <= 65535 && 1 <= a <= 65535)
      && (r.Ok? ==> r.value == SlotPortList(s, Max(1024, h), Max(1, count)) + [a])
  {
    var (s, h, a) := CleanupArguments(start, httpStart, api);
    r := PoolListenPorts(s, h, count, a);
  }

  /** The ports the pool's own configuration opens: slot `i` listens on `start + i`. */
  function PoolShellPorts(socks: int, http: int, count: nat, api: int): seq<int> {
    [api] + SlotPortList(socks, http, count)
  }

  function CleanupPorts(start: int, count: nat, http: int, api: int): seq<int> {
    var (s, h, a) := CleanupArguments(start, Some(http), Some(api));
    SlotPortList(s, Max(1024, h), count) + [a]
  }

  lemma CleanupPortsIn(start: int, count: nat, http: int, api: int, p: int)
    ensures var (s, h, a) := CleanupArguments(start, Some(http), Some(api));
      (p in CleanupPorts(start, count, http, api) <==>
         InRange(p, s, count) || InRange(p, Max(1024, h), count) || p == a)
    ensures p in PoolShellPorts(start, http, count, api) <==>
      InRange(p, start, count) || InRange(p, http, count) || p == api
  {
    var (s, h, a) := CleanupArguments(start, Some(http), Some(api));
    SlotPortsIn(s, Max(1024, h), count, p);
    SlotPortsIn(start, http, count, p);
  }

  lemma ShellPortsApart(start: int, http: int, count: nat, api: int)
    requires count >= 1 && Distinct(PoolShellPorts(start, http, count, api))
    ensures api != start && api != http
  {
    var ports, zero := PoolShellPorts(start, http, count, api), 0;
    var slots := SlotPortList(start, http, count);
    assert slots[2 * zero] == start && slots[2 * zero + 1] == http;
    assert ports[0] == api && ports[1] == slots[0] && ports[2] == slots[1];
  }

  /** The clean-up frees exactly the ports of a pool whose ports are distinct when both ranges
      start at 1024 or above, and never otherwise: it raises a lower start port, which the pool
      does not, and takes a zero API port for the default. */
  lemma CleanupCoversPool(start: int, http: int, count: nat, api: int)
    requires count >= 1 && Distinct(PoolShellPorts(start, http, count, api))
    ensures (forall p :: p in PoolShellPorts(start, http, count, api) <==> p in CleanupPorts(start, count, http, api))
       <==> start >= 1024 && http >= 1024 && api != 0
  {
    ShellPortsApart(start, http, count, api);
    var missed := if start < 1024 then start else if http < 1024 then http else api;
    CleanupPortsIn(start, count, http, api, missed);
    if start >= 1024 && http >= 1024 && api != 0 {
      forall p ensures p in PoolShellPorts(start, http, count, api) <==> p in CleanupPorts(start, count, http, api) {
        CleanupPortsIn(start, count, http, api, p);
      }
    } else {
      assert missed in PoolShellPorts(start, http, count, api) && missed !in CleanupPorts(start, count, http, api);
    }
  }

  // ---- the probe shell -----------------------------------------------------------------

  function RangeList(start: int, count: nat): (r: seq<int>)
    ensures |r| == count && forall i | 0 <= i < count :: r[i] == start + i
  {
    seq(count, i => start + i)
  }

  lemma RangeListIn(start: int, count: nat, p: int)
    ensures p in RangeList(start, count) <==> InRange(p, start, count)
  {
    if InRange(p, start, count) {
      assert RangeList(start, count)[p - start] == p;
    }
  }

  /** `ping_live_slots` and `ping_api_port`: the API port never moves. */
  function ProbeShellPorts(base: int, concurrency: int): seq<int> {
    [DEFAULT_PING_API_PORT] + RangeList(base, Max(1, concurrency))
  }

  /** `ping_ports` of the clean-up: the API port moves past the range when it lies inside. */
  function CleanupPingPorts(base: int, concurrency: int): seq<int> {
    var start, count := Max(1024, base), Max(1, concurrency);
    var socks := RangeList(start, count);
    socks + [if DEFAULT_PING_API_PORT in socks then start + count else DEFAULT_PING_API_PORT]
  }

  /** The probe shell's listeners are distinct exactly when its fixed API port lies outside
      the SOCKS range. */
  lemma ProbePortsDistinct(base: int, concurrency: int)
    ensures Distinct(ProbeShellPorts(base, concurrency))
       <==> !InRange(DEFAULT_PING_API_PORT, base, Max(1, concurrency))
  {
    var count := Max(1, concurrency);
    var ports := ProbeShellPorts(base, concurrency);
    if InRange(DEFAULT_PING_API_PORT, base, count) {
      assert ports[1 + DEFAULT_PING_API_PORT - base] == ports[0];
    }
  }

  /** The clean-up frees the shell's ports exactly when the API port lies outside the range
      and the range starts at 1024 or above. */
  lemma ProbeCleanupCoversShell(base: int, concurrency: int)
    ensures (forall p :: p in ProbeShellPorts(base, concurrency) <==> p in CleanupPingPorts(base, concurrency))
       <==> base >= 1024 && !InRange(DEFAULT_PING_API_PORT, base, Max(1, concurrency))
  {
    var count := Max(1, concurrency);
    var shell, clean := ProbeShellPorts(base, concurrency), CleanupPingPorts(base, concurrency);
    RangeListIn(Max(1024, base), count, DEFAULT_PING_API_PORT);
    if base < 1024 {
      assert shell[1] == base;
      RangeListIn(Max(1024, base), count, base);
      assert base in shell && base !in clean;
    } else if InRange(DEFAULT_PING_API_PORT, base, count) {
      assert clean[count] == base + count;
      RangeListIn(base, count, base + count);
      assert base + count in clean && base + count !in shell;
    } else {
      assert shell == [DEFAULT_PING_API_PORT] + RangeList(base, count);
      assert clean == RangeList(base, count) + [DEFAULT_PING_API_PORT];
    }
  }

  /** With the default base port the shell works up to 519 parallel probes; the settings
      accept 1024. */
  lemma DefaultBaseLimit(concurrency: int)
    ensures Distinct(ProbeShellPorts(DEFAULT_PING_BASE_PORT, concurrency)) <==> concurrency <= 519
  {
    ProbePortsDistinct(DEFAULT_PING_BASE_PORT, concurrency);
  }
}
