/** Flow tokens: the pool they come from and the cache that gives each variant its own. */
module Tokens {
  import opened Evidence
  import opened Model
  import opened Sequences
  import opened Settings

  /** The values a flow token is drawn from: ephemeral ports, or ICMP identifiers. */
  function FirstToken(protocol: Protocol): nat {
    if protocol.Icmp? then 1 else 49152
  }

  ghost function Pool(protocol: Protocol): set<nat> {
    Elements(Range(FirstToken(protocol), 65535))
  }

  lemma PoolMembers(protocol: Protocol)
    ensures forall t :: t in Pool(protocol) <==> FirstToken(protocol) <= t <= 65535
    ensures |Pool(protocol)| == 65536 - FirstToken(protocol)
  {
    RangeElements(FirstToken(protocol), 65535);
    IntervalCount(Pool(protocol), FirstToken(protocol), 65535);
  }

  /** The tokens left for variants. */
  ghost function FreePool(main: FlowKey): set<nat> {
    Pool(main.protocol) - {main.Token()}
  }

  ghost predicate MainFlowOf(config: TraceConfig, main: FlowKey) {
    && main.protocol == config.protocol && main.variant == 0
    && if config.protocol.Icmp?
       then main == FlowKey(Icmp, 0, 0, main.icmpIdentifier, 0) && 1 <= main.icmpIdentifier <= 65535
       else && main == FlowKey(config.protocol, main.sourcePort, config.destinationPort, 0, 0)
            && (if config.sourcePort.Some? then main.sourcePort == config.sourcePort.value
                else 49152 <= main.sourcePort <= 65535)
  }

  /** The flow of a variant differs from the main flow in its token alone. */
  function VariantKey(main: FlowKey, token: nat, variant: nat): FlowKey {
    if main.protocol.Icmp? then FlowKey(Icmp, 0, 0, token, variant)
    else FlowKey(main.protocol, token, main.destinationPort, 0, variant)
  }

  /** How many tokens every main flow leaves: the pool, less the main token when it may lie there. */
  function TokensLeft(config: TraceConfig): nat {
    if config.protocol.Icmp? then 65534
    else if config.sourcePort.Some? && config.sourcePort.value < 49152 then 16384
    else 16383
  }

  lemma TokensLeftFree(config: TraceConfig, main: FlowKey)
    requires MainFlowOf(config, main)
    ensures TokensLeft(config) <= |FreePool(main)|
  {
    PoolMembers(config.protocol);
    var pool := Pool(config.protocol);
    if main.Token() in pool {
      assert |pool - {main.Token()}| == |pool| - 1;
    } else {
      assert pool - {main.Token()} == pool;
    }
  }

  function VariantsNeeded(config: TraceConfig): nat
    requires config.Valid()
  {
    if config.Required() > config.canaryFlows then config.Required() else config.canaryFlows
  }

  /** The tokens cached so far: one per variant, all different, none the main flow's. */
  ghost predicate Cache(main: FlowKey, variants: map<nat, FlowKey>, used: set<nat>) {
    && (forall v :: v in variants ==>
          v >= 1 && variants[v] == VariantKey(main, variants[v].Token(), v) && variants[v].Token() in FreePool(main))
    && (forall v, w :: v in variants && w in variants && v != w ==> variants[v].Token() != variants[w].Token())
    && used == set v | v in variants :: variants[v].Token()
  }

  lemma CacheGrows(main: FlowKey, variants: map<nat, FlowKey>, used: set<nat>, variant: nat, token: nat)
    requires Cache(main, variants, used) && variant >= 1 && variant !in variants
    requires token in FreePool(main) && token !in used
    ensures Cache(main, variants[variant := VariantKey(main, token, variant)], used + {token})
  {
    var more := variants[variant := VariantKey(main, token, variant)];
    assert VariantKey(main, token, variant).Token() == token;
    forall v | v in variants ensures variants[v].Token() != token {
      assert variants[v].Token() in used;
    }
    assert forall v :: v in variants ==> more[v] == variants[v];
    forall t ensures t in used + {token} <==> exists v :: v in more && more[v].Token() == t {
      if t == token { assert more[variant].Token() == t; }
      if t in used {
        var v :| v in variants && variants[v].Token() == t;
        assert more[v].Token() == t;
      }
    }
  }

  lemma {:induction false} ImageCount(keys: set<nat>, variants: map<nat, FlowKey>, image: set<nat>)
    requires keys <= variants.Keys && image == set v | v in keys :: variants[v].Token()
    ensures |image| <= |keys|
  {
    if keys == {} {
    } else {
      var k :| k in keys;
      var rest := set v | v in keys - {k} :: variants[v].Token();
      ImageCount(keys - {k}, variants, rest);
      assert image == rest + {variants[k].Token()};
    }
  }

  ghost predicate Extends(variants: map<nat, FlowKey>, more: map<nat, FlowKey>) {
    forall v :: v in variants ==> v in more && more[v] == variants[v]
  }

  lemma ExtendsFurther(variants: map<nat, FlowKey>, more: map<nat, FlowKey>, most: map<nat, FlowKey>)
    requires Extends(variants, more) && Extends(more, most)
    ensures Extends(variants, most)
  {
  }

  /** While an uncached variant is needed and the pool is large enough, a token is left for it. */
  lemma TokenLeft(main: FlowKey, variants: map<nat, FlowKey>, used: set<nat>, variant: nat, needed: nat)
    requires Cache(main, variants, used) && 1 <= variant <= needed && variant !in variants
    requires forall v :: v in variants ==> v <= needed
    requires needed <= |FreePool(main)|
    ensures exists token :: token in FreePool(main) && token !in used
  {
    var all := Elements(Range(1, needed));
    RangeElements(1, needed);
    IntervalCount(all, 1, needed);
    SubsetCount(variants.Keys, all - {variant});
    ImageCount(variants.Keys, variants, used);
    if FreePool(main) <= used {
      SubsetCount(FreePool(main), used);
      assert false;
    }
  }

  // ---------- Flows of a series ----------

  function Copies(flow: FlowKey, n: nat): (flows: seq<FlowKey>)
    ensures |flows| == n && forall k :: 0 <= k < n ==> flows[k] == flow
  {
    seq(n, k => flow)
  }

  ghost predicate AllCached(variants: map<nat, FlowKey>, first: nat, n: nat) {
    forall v :: first <= v < first + n ==> v in variants
  }

  function CachedFlows(variants: map<nat, FlowKey>, first: nat, n: nat): (flows: seq<FlowKey>)
    requires AllCached(variants, first, n)
    ensures |flows| == n && forall k :: 0 <= k < n ==> flows[k] == variants[first + k]
  {
    seq(n, k requires 0 <= k < n => variants[first + k])
  }

  lemma CachedFlowsGrow(variants: map<nat, FlowKey>, more: map<nat, FlowKey>, first: nat, n: nat)
    requires AllCached(variants, first, n) && Extends(variants, more) && first + n in more
    ensures AllCached(more, first, n) && AllCached(more, first, n + 1)
    ensures CachedFlows(variants, first, n) == CachedFlows(more, first, n)
    ensures CachedFlows(more, first, n + 1) == CachedFlows(variants, first, n) + [more[first + n]]
  {
  }

  lemma CachedFlowsJoin(variants: map<nat, FlowKey>, more: map<nat, FlowKey>, first: nat, m: nat, n: nat)
    requires AllCached(variants, first, m) && Extends(variants, more) && AllCached(more, first + m, n)
    ensures AllCached(more, first, m + n)
    ensures CachedFlows(more, first, m + n) == CachedFlows(variants, first, m) + CachedFlows(more, first + m, n)
  {
    forall v: nat | first <= v < first + m + n ensures v in more {
      if v < first + m { assert v in variants; }
    }
  }
}
