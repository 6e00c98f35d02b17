/** The Xray configurations of v2ray/xray.py and where they send traffic.

    Only the parts that decide routing are kept: inbounds, outbounds, rules and balancers.  */
module XrayConfig {
  import opened Wrappers
  import opened Ordering
  import opened Text
  import opened PoolPorts

  datatype Target = ToOutbound(tag: string) | ToBalancer(tag: string)

  datatype Rule = Rule(inboundTags: seq<string>, target: Target)

  datatype Inbound = Inbound(tag: string, port: int)

  /** `node` stands for everything but the tag. */
  datatype Outbound = Outbound(tag: string, node: string)

  datatype Balancer = Balancer(tag: string, selector: string, fallbackTag: string)

  datatype Config = Config(inbounds: seq<Inbound>, outbounds: seq<Outbound>, rules: seq<Rule>, balancers: seq<Balancer>)

  // ---- what Xray does with a configuration ----------------------------------------------

  /** The target of the first rule that names the inbound. */
  function Route(rules: seq<Rule>, inbound: string): Option<Target> {
    if rules == [] then None
    else if inbound in rules[0].inboundTags then Some(rules[0].target)
    else Route(rules[1..], inbound)
  }

  /** The first outbound with a tag. */
  function FindOutbound(outbounds: seq<Outbound>, tag: string): Option<Outbound> {
    if outbounds == [] then None
    else if outbounds[0].tag == tag then Some(outbounds[0])
    else FindOutbound(outbounds[1..], tag)
  }

  lemma {:induction false} RouteAppend(a: seq<Rule>, b: seq<Rule>, inbound: string)
    ensures Route(a + b, inbound) == if Route(a, inbound).Some? then Route(a, inbound) else Route(b, inbound)
  {
    if a == [] {
      assert a + b == b;
    } else {
      RouteAppend(a[1..], b, inbound);
      assert (a + b)[1..] == a[1..] + b;
    }
  }

  lemma {:induction false} FindAppend(a: seq<Outbound>, b: seq<Outbound>, tag: string)
    ensures FindOutbound(a + b, tag) == if FindOutbound(a, tag).Some? then FindOutbound(a, tag) else FindOutbound(b, tag)
  {
    if a == [] {
      assert a + b == b;
    } else {
      FindAppend(a[1..], b, tag);
      assert (a + b)[1..] == a[1..] + b;
    }
  }

  function Tags(outbounds: seq<Outbound>): (r: seq<string>)
    ensures |r| == |outbounds| && forall i | 0 <= i < |r| :: r[i] == outbounds[i].tag
  {
    seq(|outbounds|, i requires 0 <= i < |outbounds| => outbounds[i].tag)
  }

  // ---- build_xray_routed_config ---------------------------------------------------------

  datatype Entry = Entry(node: string, tag: string, socksPort: Option<int>, httpPort: Option<int>)

  function EntryTag(e: Entry): string { Strip(e.tag) }

  function EntryInbounds(e: Entry): seq<Inbound> {
    (if e.socksPort.Some? then [Inbound("socks-" + EntryTag(e), e.socksPort.value)] else [])
    + (if e.httpPort.Some? then [Inbound("http-" + EntryTag(e), e.httpPort.value)] else [])
  }

  function InboundTags(e: Entry): seq<string> {
    (if e.socksPort.Some? then ["socks-" + EntryTag(e)] else [])
    + (if e.httpPort.Some? then ["http-" + EntryTag(e)] else [])
  }

  function EntryRule(e: Entry): Rule { Rule(InboundTags(e), ToOutbound(EntryTag(e))) }

  function EntryOutbound(e: Entry): Outbound { Outbound(EntryTag(e), e.node) }

  function EntryTags(entries: seq<Entry>): (r: seq<string>)
    ensures |r| == |entries| && forall i | 0 <= i < |r| :: r[i] == EntryTag(entries[i])
  {
    seq(|entries|, i requires 0 <= i < |entries| => EntryTag(entries[i]))
  }

  predicate Acceptable(e: Entry, before: seq<string>) {
    EntryTag(e) != "" && EntryTag(e) !in before && (e.socksPort.Some? || e.httpPort.Some?)
  }

  /** Every entry has a tag of its own and a port. */
  predicate Accepted(entries: seq<Entry>) {
    entries == [] ||
    var n := |entries| - 1;
    Accepted(entries[..n]) && Acceptable(entries[n], EntryTags(entries[..n]))
  }

  lemma {:induction false} AcceptedPrefix(entries: seq<Entry>, k: nat)
    requires Accepted(entries) && k <= |entries|
    ensures Accepted(entries[..k])
  {
    if k < |entries| {
      AcceptedPrefix(entries[..|entries| - 1], k);
      assert entries[..|entries| - 1][..k] == entries[..k];
    } else {
      assert entries[..k] == entries;
    }
  }

  lemma TagsStep(entries: seq<Entry>, i: nat)
    requires i < |entries|
    ensures entries[..i + 1][..i] == entries[..i]
    ensures EntryTags(entries[..i + 1]) == EntryTags(entries[..i]) + [EntryTag(entries[i])]
  {
    assert entries[..i + 1][..i] == entries[..i];
  }

  /** The lists built from the first entries. */
  function Inbounds(entries: seq<Entry>): seq<Inbound> {
    if entries == [] then [] else Inbounds(entries[..|entries| - 1]) + EntryInbounds(entries[|entries| - 1])
  }

  function Outbounds(entries: seq<Entry>): seq<Outbound> {
    if entries == [] then [] else Outbounds(entries[..|entries| - 1]) + [EntryOutbound(entries[|entries| - 1])]
  }

  function Rules(entries: seq<Entry>): seq<Rule> {
    if entries == [] then [] else Rules(entries[..|entries| - 1]) + [EntryRule(entries[|entries| - 1])]
  }

  const API_RULE := Rule(["api"], ToOutbound("api"))

  function OwnOutbounds(apiPort: Option<int>): seq<Outbound> {
    [Outbound("direct", "freedom"), Outbound("block", "blackhole")]
    + (if apiPort.Some? then [Outbound("api", "freedom")] else [])
  }

  function RoutedConfig(entries: seq<Entry>, apiPort: Option<int>): Config {
    Config(
      (if apiPort.Some? then [Inbound("api", apiPort.value)] else []) + Inbounds(entries),
      Outbounds(entries) + OwnOutbounds(apiPort),
      (if apiPort.Some? then [API_RULE] else []) + Rules(entries),
      [])
  }

  method BuildRoutedConfig(entries: seq<Entry>, apiPort: Option<int>) returns (r: Result<Config, string>)
    ensures r.Ok? <==> entries != [] && Accepted(entries)
    ensures r.Ok? ==> r.value == RoutedConfig(entries, apiPort)
  {
    if entries == [] { return Err("requires at least one entry"); }
    var inbounds, outbounds, rules := [], [], [];
    var seen: set<string> := {};
    for i := 0 to |entries|
      invariant inbounds == Inbounds(entries[..i]) && outbounds == Outbounds(entries[..i])
      invariant rules == Rules(entries[..i]) && Accepted(entries[..i])
      invariant forall t :: t in seen <==> t in EntryTags(entries[..i])
    {
      var e := entries[i];
      TagsStep(entries, i);
      if Accepted(entries) { AcceptedPrefix(entries, i + 1); }
      var tag := Strip(e.tag);
      if tag == "" { return Err("outbound tag must be non-empty"); }
      if tag in seen { return Err("duplicate outbound tag"); }
      seen := seen + {tag};
      outbounds := outbounds + [Outbound(tag, e.node)];
      var mine, tags := OpenPorts(e);
      if tags == [] { return Err("entry needs socks_port and/or http_port"); }
      inbounds := inbounds + mine;
      rules := rules + [Rule(tags, ToOutbound(tag))];
    }
    assert entries[..|entries|] == entries;
    outbounds := outbounds + [Outbound("direct", "freedom"), Outbound("block", "blackhole")];
    if apiPort.Some? {
      inbounds := [Inbound("api", apiPort.value)] + inbounds;
      rules := [API_RULE] + rules;
      outbounds := outbounds + [Outbound("api", "freedom")];
    }
    r := Ok(Config(inbounds, outbounds, rules, []));
  }

  method OpenPorts(e: Entry) returns (mine: seq<Inbound>, tags: seq<string>)
    ensures mine == EntryInbounds(e) && tags == InboundTags(e)
    ensures tags == [] <==> e.socksPort.None? && e.httpPort.None?
  {
    var tag := EntryTag(e);
    mine, tags := [], [];
    if e.socksPort.Some? {
      mine, tags := mine + [Inbound("socks-" + tag, e.socksPort.value)], tags + ["socks-" + tag];
    }
    if e.httpPort.Some? {
      mine, tags := mine + [Inbound("http-" + tag, e.httpPort.value)], tags + ["http-" + tag];
    }
  }

  lemma InboundTagOf(e: Entry, f: Entry, inbound: string)
    requires inbound in InboundTags(e) && inbound in InboundTags(f)
    ensures EntryTag(e) == EntryTag(f)
  {
    assert EntryTag(e) == ("socks-" + EntryTag(e))[6..] == ("http-" + EntryTag(e))[5..];
    assert EntryTag(f) == ("socks-" + EntryTag(f))[6..] == ("http-" + EntryTag(f))[5..];
    assert ("socks-" + EntryTag(e))[0] == 's' == ("socks-" + EntryTag(f))[0];
    assert ("http-" + EntryTag(e))[0] == 'h' == ("http-" + EntryTag(f))[0];
  }

  lemma NotApiInbound(e: Entry)
    ensures "api" !in InboundTags(e)
  {
    assert ("socks-" + EntryTag(e))[0] == 's' && ("http-" + EntryTag(e))[0] == 'h' && "api"[0] == 'a';
  }

  lemma {:induction false} RulesRoute(entries: seq<Entry>, i: nat, inbound: string)
    requires Accepted(entries) && i < |entries| && inbound in InboundTags(entries[i])
    ensures Route(Rules(entries), inbound) == Some(ToOutbound(EntryTag(entries[i])))
  {
    var n := |entries| - 1;
    RouteAppend(Rules(entries[..n]), [EntryRule(entries[n])], inbound);
    if i < n {
      RulesRoute(entries[..n], i, inbound);
    } else {
      NoRuleFor(entries[..n], entries[n], inbound);
    }
  }

  lemma {:induction false} NoRuleFor(entries: seq<Entry>, e: Entry, inbound: string)
    requires EntryTag(e) !in EntryTags(entries) && inbound in InboundTags(e)
    ensures Route(Rules(entries), inbound) == None
  {
    if entries != [] {
      var n := |entries| - 1;
      TagsStep(entries, n);
      assert entries[..n + 1] == entries;
      NoRuleFor(entries[..n], e, inbound);
      RouteAppend(Rules(entries[..n]), [EntryRule(entries[n])], inbound);
      if inbound in InboundTags(entries[n]) {
        InboundTagOf(entries[n], e, inbound);
      }
    }
  }

  lemma {:induction false} OutboundsFind(entries: seq<Entry>, i: nat)
    requires Accepted(entries) && i < |entries|
    ensures FindOutbound(Outbounds(entries), EntryTag(entries[i])) == Some(EntryOutbound(entries[i]))
  {
    var n := |entries| - 1;
    FindAppend(Outbounds(entries[..n]), [EntryOutbound(entries[n])], EntryTag(entries[i]));
    if i < n {
      OutboundsFind(entries[..n], i);
    } else {
      NoOutboundFor(entries[..n], EntryTag(entries[n]));
    }
  }

  lemma {:induction false} NoOutboundFor(entries: seq<Entry>, tag: string)
    requires tag !in EntryTags(entries)
    ensures FindOutbound(Outbounds(entries), tag) == None
  {
    if entries != [] {
      var n := |entries| - 1;
      TagsStep(entries, n);
      assert entries[..n + 1] == entries;
      NoOutboundFor(entries[..n], tag);
      FindAppend(Outbounds(entries[..n]), [EntryOutbound(entries[n])], tag);
    }
  }

  /** Under first match every inbound of an entry is routed to that entry's outbound tag, and
      the first outbound with this tag is the entry's own. */
  lemma EntryReachesOwnOutbound(entries: seq<Entry>, apiPort: Option<int>, i: nat, inbound: string)
    requires Accepted(entries) && i < |entries| && inbound in InboundTags(entries[i])
    ensures var c := RoutedConfig(entries, apiPort);
      && Route(c.rules, inbound) == Some(ToOutbound(EntryTag(entries[i])))
      && FindOutbound(c.outbounds, EntryTag(entries[i])) == Some(Outbound(EntryTag(entries[i]), entries[i].node))
  {
    var c := RoutedConfig(entries, apiPort);
    RulesRoute(entries, i, inbound);
    NotApiInbound(entries[i]);
    RouteAppend(if apiPort.Some? then [API_RULE] else [], Rules(entries), inbound);
    OutboundsFind(entries, i);
    FindAppend(Outbounds(entries), OwnOutbounds(apiPort), EntryTag(entries[i]));
  }

  /** Xray listens on the ports of the entries and on the API port, each for its own inbound, and on no
      other. */
  lemma ListensExactly(entries: seq<Entry>, apiPort: Option<int>, x: Inbound)
    ensures x in RoutedConfig(entries, apiPort).inbounds
       <==> || (apiPort == Some(x.port) && x.tag == "api")
            || exists e | e in entries ::
                 || (e.socksPort == Some(x.port) && x.tag == "socks-" + Strip(e.tag))
                 || (e.httpPort == Some(x.port) && x.tag == "http-" + Strip(e.tag))
  {
    InboundsExactly(entries, x);
  }

  lemma {:induction false} InboundsExactly(entries: seq<Entry>, x: Inbound)
    ensures x in Inbounds(entries)
       <==> exists e | e in entries ::
              || (e.socksPort == Some(x.port) && x.tag == "socks-" + Strip(e.tag))
              || (e.httpPort == Some(x.port) && x.tag == "http-" + Strip(e.tag))
  {
    if entries != [] {
      var before, last := entries[..|entries| - 1], entries[|entries| - 1];
      InboundsExactly(before, x);
      assert entries == before + [last];
      assert x in EntryInbounds(last)
        <==> || (last.socksPort == Some(x.port) && x.tag == "socks-" + Strip(last.tag))
             || (last.httpPort == Some(x.port) && x.tag == "http-" + Strip(last.tag));
    }
  }

  lemma {:induction false} EntryTagsDistinct(entries: seq<Entry>)
    requires Accepted(entries)
    ensures Tags(Outbounds(entries)) == EntryTags(entries)
    ensures Distinct(EntryTags(entries))
  {
    if entries != [] {
      var n := |entries| - 1;
      EntryTagsDistinct(entries[..n]);
      TagsSnoc(Outbounds(entries[..n]), EntryOutbound(entries[n]));
      TagsStep(entries, n);
      assert entries[..n + 1] == entries;
    }
  }

  lemma JoinedAt(a: seq<string>, b: seq<string>)
    ensures forall i | 0 <= i < |a| :: (a + b)[i] == a[i]
    ensures forall i | 0 <= i < |b| :: (a + b)[|a| + i] == b[i]
  {
  }

  lemma DistinctJoin(a: seq<string>, b: seq<string>)
    requires Distinct(a) && Distinct(b)
    ensures Distinct(a + b) <==> forall i | 0 <= i < |a| :: a[i] !in b
  {
    JoinedAt(a, b);
    if i :| 0 <= i < |a| && a[i] in b {
      var j :| 0 <= j < |b| && b[j] == a[i];
      assert (a + b)[i] == (a + b)[|a| + j];
    } else {
      forall i, j | 0 <= i < j < |a + b| ensures (a + b)[i] != (a + b)[j] {
        if i < |a| <= j { assert b[j - |a|] in b; }
      }
    }
  }

  function Reserved(apiPort: Option<int>): seq<string> {
    ["direct", "block"] + (if apiPort.Some? then ["api"] else [])
  }

  lemma ReservedDistinct(apiPort: Option<int>)
    ensures Distinct(Reserved(apiPort))
  {
    assert "direct"[0] == 'd' && "block"[0] == 'b' && "api"[0] == 'a';
  }

  lemma OwnTags(apiPort: Option<int>)
    ensures Tags(OwnOutbounds(apiPort)) == Reserved(apiPort)
  {
  }

  lemma AllTags(entries: seq<Entry>, apiPort: Option<int>)
    requires Accepted(entries)
    ensures Tags(RoutedConfig(entries, apiPort).outbounds) == EntryTags(entries) + Reserved(apiPort)
  {
    EntryTagsDistinct(entries);
    TagsJoin(Outbounds(entries), OwnOutbounds(apiPort));
    OwnTags(apiPort);
  }

  /** Outbound tags of the whole configuration are distinct exactly when no entry takes a
      reserved tag; the builder itself does not check this. */
  lemma OutboundTagsDistinct(entries: seq<Entry>, apiPort: Option<int>)
    requires Accepted(entries)
    ensures Distinct(Tags(RoutedConfig(entries, apiPort).outbounds))
       <==> forall i | 0 <= i < |entries| :: EntryTag(entries[i]) !in Reserved(apiPort)
  {
    EntryTagsDistinct(entries);
    ReservedDistinct(apiPort);
    DistinctJoin(EntryTags(entries), Reserved(apiPort));
    AllTags(entries, apiPort);
  }

  /** The builder accepts exactly the non-blank, pairwise different tags with a port each. */
  lemma {:induction false} AcceptedIff(entries: seq<Entry>)
    ensures Accepted(entries)
       <==> Distinct(EntryTags(entries))
            && forall i | 0 <= i < |entries| ::
                 EntryTag(entries[i]) != "" && (entries[i].socksPort.Some? || entries[i].httpPort.Some?)
  {
    if entries != [] {
      var n := |entries| - 1;
      AcceptedIff(entries[..n]);
      TagsStep(entries, n);
      assert entries[..n + 1] == entries;
      DistinctSnoc(EntryTags(entries[..n]), EntryTag(entries[n]));
    }
  }

  // ---- the probe shell ------------------------------------------------------------------

  function ProbeTag(i: nat): string { "proxy-" + Decimal(i) }

  /** `ping_live_slots`, with the blackhole placeholder of `build_xray_live_shell_config`. */
  function ProbeSlots(base: int, count: nat): (r: seq<Entry>)
    ensures |r| == count
    ensures forall i | 0 <= i < count :: r[i] == Entry("blackhole", ProbeTag(i), Some(base + i), None)
  {
    seq(count, i requires 0 <= i < count => Entry("blackhole", ProbeTag(i), Some(base + i), None))
  }

  lemma ProbeTagPlain(i: nat)
    ensures Strip(ProbeTag(i)) == ProbeTag(i)
  {
    DecimalRoundTrip(i);
    var t := ProbeTag(i);
    assert t[|t| - 1] == Decimal(i)[|Decimal(i)| - 1];
    StrippedIsFixed(t);
  }

  lemma ProbeTagInjective(i: nat, j: nat)
    requires ProbeTag(i) == ProbeTag(j)
    ensures i == j
  {
    assert Decimal(i) == ProbeTag(i)[6..] && Decimal(j) == ProbeTag(j)[6..];
    DecimalRoundTrip(i);
    DecimalRoundTrip(j);
  }

  /** Probe slot `i` listens on port `base + i` and that inbound reaches outbound `proxy-i`. */
  lemma ProbeSlotReachesOwnOutbound(base: int, count: nat, api: int, i: nat)
    requires i < count
    ensures Accepted(ProbeSlots(base, count))
    ensures var c := RoutedConfig(ProbeSlots(base, count), Some(api));
      && Route(c.rules, "socks-" + ProbeTag(i)) == Some(ToOutbound(ProbeTag(i)))
      && FindOutbound(c.outbounds, ProbeTag(i)) == Some(Outbound(ProbeTag(i), "blackhole"))
  {
    var entries := ProbeSlots(base, count);
    ProbeEntriesAccepted(base, count);
    ProbeTagPlain(i);
    EntryReachesOwnOutbound(entries, Some(api), i, "socks-" + ProbeTag(i));
  }

  lemma ProbeEntriesAccepted(base: int, count: nat)
    ensures Accepted(ProbeSlots(base, count))
  {
    var entries := ProbeSlots(base, count);
    forall i | 0 <= i < count ensures EntryTag(entries[i]) == ProbeTag(i) {
      ProbeTagPlain(i);
    }
    forall i, j | 0 <= i < j < count ensures EntryTags(entries)[i] != EntryTags(entries)[j] {
      if ProbeTag(i) == ProbeTag(j) { ProbeTagInjective(i, j); }
    }
    AcceptedIff(entries);
  }

  // ---- build_xray_slot_balancer_config --------------------------------------------------

  function SlotPair(i: nat, socks: int, http: int): seq<Inbound> {
    [Inbound(SocksInboundTag(i), socks + i), Inbound(HttpInboundTag(i), http + i)]
  }

  function SlotInbounds(n: nat, socks: int, http: int): seq<Inbound> {
    if n == 0 then [] else SlotInbounds(n - 1, socks, http) + SlotPair(n - 1, socks, http)
  }

  function SlotRule(i: nat): Rule {
    Rule([SocksInboundTag(i), HttpInboundTag(i)], ToBalancer(BalancerTag(i)))
  }

  function SlotRules(n: nat): seq<Rule> {
    if n == 0 then [] else SlotRules(n - 1) + [SlotRule(n - 1)]
  }

  function SlotBalancers(n: nat): seq<Balancer> {
    if n == 0 then [] else SlotBalancers(n - 1) + [Balancer(BalancerTag(n - 1), "n-", FALLBACK_TAG)]
  }

  /** Hot outbounds with a usable tag that was not seen before. */
  function HotOutbounds(hot: seq<Outbound>): seq<Outbound> {
    if hot == [] then []
    else
      var kept := HotOutbounds(hot[..|hot| - 1]);
      var o := hot[|hot| - 1];
      var tag := Strip(o.tag);
      if tag == "" || tag == FALLBACK_TAG || tag in Tags(kept) then kept else kept + [Outbound(tag, o.node)]
  }

  /** `o` is the first of the hot outbounds to ask for its tag, which is neither empty nor the
      fallback's. */
  predicate AsksFirst(hot: seq<Outbound>, i: nat, o: Outbound) {
    && i < |hot| && Strip(hot[i].tag) == o.tag && hot[i].node == o.node
    && o.tag != "" && o.tag != FALLBACK_TAG
    && forall j | 0 <= j < i :: Strip(hot[j].tag) != o.tag
  }

  lemma {:induction false} HotHasTag(hot: seq<Outbound>, tag: string)
    ensures tag in Tags(HotOutbounds(hot))
       <==> tag != "" && tag != FALLBACK_TAG && exists j | 0 <= j < |hot| :: Strip(hot[j].tag) == tag
  {
    if hot != [] {
      var n := |hot| - 1;
      HotHasTag(hot[..n], tag);
      assert forall j | 0 <= j < n :: hot[..n][j] == hot[j];
      var kept := HotOutbounds(hot[..n]);
      var last := Outbound(Strip(hot[n].tag), hot[n].node);
      TagsSnoc(kept, last);
      assert tag == last.tag || (tag in Tags(kept) + [last.tag] <==> tag in Tags(kept));
    }
  }

  lemma AsksFirstInit(hot: seq<Outbound>, n: nat, i: nat, o: Outbound)
    requires i < n <= |hot|
    ensures AsksFirst(hot, i, o) <==> AsksFirst(hot[..n], i, o)
  {
    assert forall j | 0 <= j <= i :: hot[..n][j] == hot[j];
  }

  lemma AsksFirstLast(before: seq<Outbound>, last: Outbound, o: Outbound)
    ensures AsksFirst(before + [last], |before|, o)
       <==> && o == Outbound(Strip(last.tag), last.node) && o.tag != "" && o.tag != FALLBACK_TAG
            && o.tag !in Tags(HotOutbounds(before))
  {
    var hot := before + [last];
    HotHasTag(before, o.tag);
    assert hot[|before|] == last && forall j | 0 <= j < |before| :: hot[j] == before[j];
  }

  /** Just the first hot outbound of every usable tag is in the configuration, with its own node. */
  lemma {:induction false} HotIsExact(hot: seq<Outbound>, o: Outbound)
    ensures o in HotOutbounds(hot) <==> exists i :: AsksFirst(hot, i, o)
  {
    if hot != [] {
      var n := |hot| - 1;
      var before := hot[..n];
      HotIsExact(before, o);
      AsksFirstLast(before, hot[n], o);
      assert hot == before + [hot[n]];
      if i: nat :| AsksFirst(before, i, o) { AsksFirstInit(hot, n, i, o); }
      if i: nat :| AsksFirst(hot, i, o) && i < n { AsksFirstInit(hot, n, i, o); }
    }
  }

  lemma {:induction false} HotTagsDistinct(hot: seq<Outbound>)
    ensures Distinct(Tags(HotOutbounds(hot)))
  {
    if hot != [] {
      var n := |hot| - 1;
      HotTagsDistinct(hot[..n]);
      TagsSnoc(HotOutbounds(hot[..n]), Outbound(Strip(hot[n].tag), hot[n].node));
    }
  }

  function SlotConfig(n: nat, socks: int, http: int, api: int, hot: seq<Outbound>, fallback: string): Config {
    Config(
      [Inbound("api", api)] + SlotInbounds(n, socks, http),
      [Outbound(FALLBACK_TAG, fallback)] + HotOutbounds(hot)
        + [Outbound("api", "freedom"), Outbound("direct", "freedom"), Outbound("block", "blackhole")],
      [API_RULE] + SlotRules(n),
      SlotBalancers(n))
  }

  method KeepHot(hot: seq<Outbound>) returns (kept: seq<Outbound>)
    ensures kept == HotOutbounds(hot)
  {
    kept := [];
    var seen := {FALLBACK_TAG};
    for i := 0 to |hot|
      invariant kept == HotOutbounds(hot[..i])
      invariant forall t :: t in seen <==> t == FALLBACK_TAG || t in Tags(kept)
    {
      assert hot[..i + 1][..i] == hot[..i];
      var tag := Strip(hot[i].tag);
      if tag == "" || tag in seen { continue; }
      seen := seen + {tag};
      TagsSnoc(kept, Outbound(tag, hot[i].node));
      kept := kept + [Outbound(tag, hot[i].node)];
    }
    assert hot[..|hot|] == hot;
  }

  method BuildSlotConfig(slots: int, socks: int, http: int, api: int, hot: seq<Outbound>, fallback: string)
    returns (r: Result<Config, string>)
    ensures r.Ok? <==> slots > 0
    ensures r.Ok? ==> r.value == SlotConfig(slots, socks, http, api, hot, fallback)
  {
    if slots <= 0 { return Err("slot_count must be positive"); }
    var kept := KeepHot(hot);
    var inbounds, rules, balancers := [], [], [];
    for i := 0 to slots
      invariant inbounds == SlotInbounds(i, socks, http)
      invariant rules == SlotRules(i) && balancers == SlotBalancers(i)
    {
      inbounds := inbounds + [Inbound(SocksInboundTag(i), socks + i), Inbound(HttpInboundTag(i), http + i)];
      rules := rules + [Rule([SocksInboundTag(i), HttpInboundTag(i)], ToBalancer(BalancerTag(i)))];
      balancers := balancers + [Balancer(BalancerTag(i), "n-", FALLBACK_TAG)];
    }
    r := Ok(Config([Inbound("api", api)] + inbounds,
      [Outbound(FALLBACK_TAG, fallback)] + kept
        + [Outbound("api", "freedom"), Outbound("direct", "freedom"), Outbound("block", "blackhole")],
      [API_RULE] + rules, balancers));
  }

  lemma TagsJoin(a: seq<Outbound>, b: seq<Outbound>)
    ensures Tags(a + b) == Tags(a) + Tags(b)
  {
  }

  lemma TagsSnoc(os: seq<Outbound>, o: Outbound)
    ensures Tags(os + [o]) == Tags(os) + [o.tag]
  {
  }

  lemma SlotRuleMatches(n: nat, i: nat)
    ensures Route([SlotRule(n)], SocksInboundTag(i)) == if i == n then Some(ToBalancer(BalancerTag(n))) else None
    ensures Route([SlotRule(n)], HttpInboundTag(i)) == if i == n then Some(ToBalancer(BalancerTag(n))) else None
  {
    InboundTagsDiffer(i, n);
    InboundTagsDiffer(n, i);
  }

  lemma {:induction false} SlotRulesRoute(n: nat, i: nat)
    ensures Route(SlotRules(n), SocksInboundTag(i)) == if i < n then Some(ToBalancer(BalancerTag(i))) else None
    ensures Route(SlotRules(n), HttpInboundTag(i)) == if i < n then Some(ToBalancer(BalancerTag(i))) else None
  {
    if n > 0 {
      SlotRulesRoute(n - 1, i);
      SlotRuleMatches(n - 1, i);
      RouteAppend(SlotRules(n - 1), [SlotRule(n - 1)], SocksInboundTag(i));
      RouteAppend(SlotRules(n - 1), [SlotRule(n - 1)], HttpInboundTag(i));
    }
  }

  /** Both inbounds of slot `i` reach balancer `i` and no other. */
  lemma SlotReachesOwnBalancer(n: nat, socks: int, http: int, api: int, hot: seq<Outbound>, fallback: string, i: nat)
    requires i < n
    ensures var c := SlotConfig(n, socks, http, api, hot, fallback);
      && Route(c.rules, SocksInboundTag(i)) == Some(ToBalancer(BalancerTag(i)))
      && Route(c.rules, HttpInboundTag(i)) == Some(ToBalancer(BalancerTag(i)))
  {
    SlotRulesRoute(n, i);
    assert SocksInboundTag(i)[0] == 's' && HttpInboundTag(i)[0] == 'h' && "api"[0] == 'a';
    RouteAppend([API_RULE], SlotRules(n), SocksInboundTag(i));
    RouteAppend([API_RULE], SlotRules(n), HttpInboundTag(i));
  }

  /** There is one balancer per slot, no two share a tag, and each falls back to `fallback`,
      which is the blackhole given by the caller and never `direct`. */
  lemma {:induction false} BalancersFallBack(n: nat, i: nat, j: nat)
    requires i < n && j < n
    ensures |SlotBalancers(n)| == n
    ensures SlotBalancers(n)[i] == Balancer(BalancerTag(i), "n-", FALLBACK_TAG)
    ensures SlotBalancers(n)[i].tag == SlotBalancers(n)[j].tag ==> i == j
  {
    BalancerAt(n, i);
    BalancerAt(n, j);
    if BalancerTag(i) == BalancerTag(j) { BalancerTagInjective(i, j); }
  }

  lemma {:induction false} BalancerAt(n: nat, i: nat)
    requires i < n
    ensures |SlotBalancers(n)| == n && SlotBalancers(n)[i] == Balancer(BalancerTag(i), "n-", FALLBACK_TAG)
  {
    BalancerCount(n - 1);
    var before := SlotBalancers(n - 1);
    if i < n - 1 {
      BalancerAt(n - 1, i);
      assert SlotBalancers(n)[i] == before[i];
    } else {
      assert SlotBalancers(n)[|before|] == Balancer(BalancerTag(n - 1), "n-", FALLBACK_TAG);
    }
  }

  lemma {:induction false} BalancerCount(n: nat)
    ensures |SlotBalancers(n)| == n
  {
    if n > 0 { BalancerCount(n - 1); }
  }

  lemma FallbackIsFirst(n: nat, socks: int, http: int, api: int, hot: seq<Outbound>, fallback: string)
    ensures FindOutbound(SlotConfig(n, socks, http, api, hot, fallback).outbounds, FALLBACK_TAG)
         == Some(Outbound(FALLBACK_TAG, fallback))
  {
    var c := SlotConfig(n, socks, http, api, hot, fallback);
    assert c.outbounds[0] == Outbound(FALLBACK_TAG, fallback);
  }

  /** While its balancer has no node to choose, traffic of slot `i` leaves through the outbound
      given as the fallback: the inbounds reach a balancer, there is just one with that tag, and
      its fallback tag names the given outbound even if a hot outbound asked for the same tag. */
  lemma SlotFallsBack(n: nat, socks: int, http: int, api: int, hot: seq<Outbound>, fallback: string, i: nat, tag: string)
    requires i < n && tag in {SocksInboundTag(i), HttpInboundTag(i)}
    ensures var c := SlotConfig(n, socks, http, api, hot, fallback);
      exists b | b in c.balancers ::
        && Route(c.rules, tag) == Some(ToBalancer(b.tag))
        && (forall o | o in c.balancers :: o.tag == b.tag ==> o == b)
        && FindOutbound(c.outbounds, b.fallbackTag) == Some(Outbound(FALLBACK_TAG, fallback))
  {
    var c := SlotConfig(n, socks, http, api, hot, fallback);
    var b := Balancer(BalancerTag(i), "n-", FALLBACK_TAG);
    SlotReachesOwnBalancer(n, socks, http, api, hot, fallback, i);
    FallbackIsFirst(n, socks, http, api, hot, fallback);
    BalancersFallBack(n, i, i);
    assert b == SlotBalancers(n)[i];
    forall o | o in c.balancers && o.tag == b.tag ensures o == b {
      var j :| 0 <= j < n && SlotBalancers(n)[j] == o;
      BalancersFallBack(n, j, i);
    }
  }

  /** The two inbounds of slot `i` listen on the i-th port of either range; there are no others but the
      API's. */
  lemma SlotListensExactly(n: nat, socks: int, http: int, api: int, hot: seq<Outbound>, fallback: string, x: Inbound)
    ensures x in SlotConfig(n, socks, http, api, hot, fallback).inbounds
       <==> || x == Inbound("api", api)
            || (socks <= x.port < socks + n && x.tag == SocksInboundTag(x.port - socks))
            || (http <= x.port < http + n && x.tag == HttpInboundTag(x.port - http))
  {
    SlotInboundsExactly(n, socks, http, x);
  }

  lemma {:induction false} SlotInboundsExactly(n: nat, socks: int, http: int, x: Inbound)
    ensures x in SlotInbounds(n, socks, http)
       <==> || (socks <= x.port < socks + n && x.tag == SocksInboundTag(x.port - socks))
            || (http <= x.port < http + n && x.tag == HttpInboundTag(x.port - http))
  {
    if n > 0 {
      SlotInboundsExactly(n - 1, socks, http, x);
      assert x in SlotPair(n - 1, socks, http)
        <==> || (x.port == socks + n - 1 && x.tag == SocksInboundTag(n - 1))
             || (x.port == http + n - 1 && x.tag == HttpInboundTag(n - 1));
    }
  }

  lemma {:induction false} SlotInboundPorts(n: nat, socks: int, http: int)
    ensures |SlotInbounds(n, socks, http)| == 2 * n
    ensures forall i | 0 <= i < 2 * n :: SlotInbounds(n, socks, http)[i].port == SlotPortList(socks, http, n)[i]
  {
    if n > 0 { SlotInboundPorts(n - 1, socks, http); }
  }
}
