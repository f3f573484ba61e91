/** Upstream servers, the pool the balancer and the health checker share, and the refresh that
    replaces the pool's contents while keeping the objects of unchanged servers. */
module LbBackend {
  import opened Options

  /** What the control plane announces about a server. */
  datatype Spec = Spec(name: string, url: string, weight: int)

  /** How an address parses: None if it does not, otherwise how the parsed address prints back. */
  type UrlParser = string -> Option<string>

  class Backend {
    const name: string
    const url: string  // as the parsed address prints
    const weight: int
    var alive: bool
    var active: int
    var requests: int
    var errors: int

    /** A server starts alive, and with a weight of at least one. */
    constructor (name: string, url: string, weight: int)
      ensures this.name == name && this.url == url && this.weight == (if weight <= 0 then 1 else weight)
      ensures alive && active == 0 && requests == 0 && errors == 0
    {
      this.name, this.url := name, url;
      this.weight := if weight <= 0 then 1 else weight;
      alive, active, requests, errors := true, 0, 0, 0;
    }

    predicate Matches(spec: Spec) {
      url == spec.url && weight == spec.weight
    }
  }

  /** The backends currently alive, in pool order. */
  function AliveOf(backends: seq<Backend>): seq<Backend>
    reads backends
  {
    if backends == [] then []
    else
      var front, last := AliveOf(backends[..|backends| - 1]), backends[|backends| - 1];
      if last.alive then front + [last] else front
  }

  lemma {:induction false} AliveAre(backends: seq<Backend>)
    ensures forall b :: b in AliveOf(backends) ==> b in backends && b.alive
    ensures forall b :: b in backends && b.alive ==> b in AliveOf(backends)
  {
    if backends == [] {
    } else {
      var front, last := backends[..|backends| - 1], backends[|backends| - 1];
      AliveAre(front);
      assert backends == front + [last];
    }
  }

  /** `positions` picks the live backends out of the pool, each position once and in order. */
  ghost predicate PicksAlive(backends: seq<Backend>, healthy: seq<Backend>, positions: seq<nat>)
    reads backends
  {
    && |positions| == |healthy|
    && (forall i :: 0 <= i < |positions| ==> positions[i] < |backends| && healthy[i] == backends[positions[i]] && healthy[i].alive)
    && (forall i, j :: 0 <= i < j < |positions| ==> positions[i] < positions[j])
    && (forall k :: 0 <= k < |backends| && backends[k].alive ==> k in positions)
  }

  class Pool {
    var backends: seq<Backend>

    constructor (backends: seq<Backend>)
      ensures this.backends == backends
    {
      this.backends := backends;
    }

    /** The live backends, in pool order; `positions` is where they stand in it. */
    method Healthy() returns (healthy: seq<Backend>, ghost positions: seq<nat>)
      ensures healthy == AliveOf(backends)
      ensures forall b :: b in healthy <==> b in backends && b.alive
      ensures PicksAlive(backends, healthy, positions)
    {
      healthy, positions := [], [];
      for i := 0 to |backends|
        invariant healthy == AliveOf(backends[..i]) && PicksAlive(backends[..i], healthy, positions)
      {
        assert backends[..i + 1][..i] == backends[..i];
        if backends[i].alive {
          healthy, positions := healthy + [backends[i]], positions + [i];
          assert positions[|positions| - 1] == i;
        }
      }
      assert backends[..|backends|] == backends;
      AliveAre(backends);
    }
  }

  type Known = map<string, Backend>

  ghost predicate UniqueNames(specs: seq<Spec>) {
    forall i, j :: 0 <= i < j < |specs| ==> specs[i].name != specs[j].name
  }

  /** The spec describes the object known under its name: same address, same weight. */
  predicate Keeps(known: Known, spec: Spec) {
    spec.name in known && known[spec.name].Matches(spec)
  }

  /** The spec ends up in the pool. */
  predicate Accepted(known: Known, spec: Spec, parse: UrlParser) {
    Keeps(known, spec) || parse(spec.url).Some?
  }

  function AcceptedOf(known: Known, specs: seq<Spec>, parse: UrlParser): seq<Spec> {
    if specs == [] then []
    else
      var front, last := AcceptedOf(known, specs[..|specs| - 1], parse), specs[|specs| - 1];
      if Accepted(known, last, parse) then front + [last] else front
  }

  /** `b` is the object for `spec`: the known one if the spec describes it, else one made for it. */
  ghost predicate Serves(known: Known, b: Backend, spec: Spec, parse: UrlParser) {
    if Keeps(known, spec) then b == known[spec.name]
    else && parse(spec.url).Some? && b.name == spec.name && b.url == parse(spec.url).value
         && b.weight == (if spec.weight <= 0 then 1 else spec.weight)
  }

  /** As its constructor leaves it. */
  predicate Unused(b: Backend)
    reads b
  {
    b.alive && b.active == 0 && b.requests == 0 && b.errors == 0
  }

  class ConfigProvider {
    const pool: Pool
    const parse: UrlParser
    var known: Known

    constructor (pool: Pool, parse: UrlParser)
      ensures this.pool == pool && this.parse == parse && known == map[]
    {
      this.pool, this.parse := pool, parse;
      known := map[];
    }

    /** The object for one spec, if it is accepted. */
    method Resolve(spec: Spec) returns (b: Backend?)
      ensures b != null <==> Accepted(known, spec, parse)
      ensures b != null ==> Serves(known, b, spec, parse) && (!Keeps(known, spec) ==> fresh(b) && Unused(b))
    {
      if spec.name in known && known[spec.name].Matches(spec) {
        return known[spec.name];
      }
      var parsed := parse(spec.url);
      if parsed == None {
        return null;
      }
      b := new Backend(spec.name, parsed.value, spec.weight);
    }

    /** Merges an announcement into the pool: afterwards the pool holds one object per accepted spec,
        in order, and `known` finds it by name. Nothing but the pool's list and `known` changes,
        so a kept object keeps its health and its counters. */
    method Refresh(specs: seq<Spec>)
      modifies this`known, pool`backends
      ensures Refreshed(old(known), known, pool.backends, specs, parse)
      ensures forall k :: 0 <= k < |pool.backends| && !Keeps(old(known), AcceptedOf(old(known), specs, parse)[k])
                          ==> var b := pool.backends[k];
                              fresh(b) && b.alive && b.active == 0 && b.requests == 0 && b.errors == 0
    {
      var next, backends := Merge(specs);
      known := next;
      pool.backends := backends;
    }

    /** The next list and its index, built before either is swapped in. */
    method Merge(specs: seq<Spec>) returns (next: Known, backends: seq<Backend>)
      ensures var accepted := AcceptedOf(known, specs, parse);
              && |backends| == |accepted| && Indexes(next, backends, accepted)
              && (forall k :: 0 <= k < |accepted| ==> Serves(known, backends[k], accepted[k], parse))
              && (forall k :: 0 <= k < |accepted| && !Keeps(known, accepted[k]) ==> fresh(backends[k]) && Unused(backends[k]))
    {
      next, backends := map[], [];
      ghost var accepted := [];
      for i := 0 to |specs|
        invariant accepted == AcceptedOf(known, specs[..i], parse)
        invariant |backends| == |accepted|
        invariant forall k :: 0 <= k < |accepted| ==> Serves(known, backends[k], accepted[k], parse)
        invariant forall k :: 0 <= k < |accepted| && !Keeps(known, accepted[k]) ==> fresh(backends[k]) && Unused(backends[k])
        invariant Indexes(next, backends, accepted)
      {
        assert specs[..i + 1][..i] == specs[..i];
        var b := Resolve(specs[i]);
        if b != null {
          IndexesExtend(next, backends, accepted, b, specs[i]);
          next := next[specs[i].name := b];
          backends, accepted := backends + [b], accepted + [specs[i]];
        }
      }
      assert specs[..|specs|] == specs;
    }
  }

  /** `known` has exactly the names of `specs`; with unique names it finds each spec's object. */
  ghost predicate Indexes(known: Known, backends: seq<Backend>, specs: seq<Spec>) {
    && |backends| == |specs|
    && (forall name :: name in known <==> exists k :: 0 <= k < |specs| && specs[k].name == name)
    && (UniqueNames(specs) ==> forall k :: 0 <= k < |specs| ==> known[specs[k].name] == backends[k])
  }

  lemma IndexesExtend(known: Known, backends: seq<Backend>, specs: seq<Spec>, b: Backend, spec: Spec)
    requires Indexes(known, backends, specs)
    ensures Indexes(known[spec.name := b], backends + [b], specs + [spec])
  {
    var all, next := specs + [spec], known[spec.name := b];
    assert forall k :: 0 <= k < |specs| ==> all[k] == specs[k];
    assert all[|specs|] == spec;
    if UniqueNames(all) {
      forall k | 0 <= k < |all| ensures next[all[k].name] == (backends + [b])[k] {
        if k < |specs| {
          assert all[k].name != all[|specs|].name;
        }
      }
    }
  }

  lemma {:induction false} AcceptedAre(known: Known, specs: seq<Spec>, parse: UrlParser)
    ensures forall s :: s in AcceptedOf(known, specs, parse) <==> s in specs && Accepted(known, s, parse)
    ensures UniqueNames(specs) ==> UniqueNames(AcceptedOf(known, specs, parse))
  {
    if specs == [] {
    } else {
      var front, last := specs[..|specs| - 1], specs[|specs| - 1];
      AcceptedAre(known, front, parse);
      assert specs == front + [last];
      if UniqueNames(specs) {
        var kept := AcceptedOf(known, front, parse);
        forall i | 0 <= i < |kept| ensures kept[i].name != last.name {
          assert kept[i] in kept;
          assert kept[i] in front;
        }
      }
    }
  }

  /** An address that prints back as written and a weight of at least one: what an object made for
      the spec will be found to match. */
  predicate Stable(spec: Spec, parse: UrlParser) {
    parse(spec.url) == Some(spec.url) && spec.weight >= 1
  }

  /** What a refresh makes of `known`: the pool's objects and how they are found. */
  ghost predicate Refreshed(known: Known, known': Known, backends: seq<Backend>, specs: seq<Spec>, parse: UrlParser) {
    var accepted := AcceptedOf(known, specs, parse);
    && |backends| == |accepted|
    && (forall k :: 0 <= k < |backends| ==> Serves(known, backends[k], accepted[k], parse))
    && Indexes(known', backends, accepted)
  }

  /** `accepted` is what stands at `positions` of `specs`, in order. */
  ghost predicate Stands(specs: seq<Spec>, accepted: seq<Spec>, positions: seq<nat>) {
    && |positions| == |accepted|
    && (forall k :: 0 <= k < |positions| ==> positions[k] < |specs| && accepted[k] == specs[positions[k]])
    && (forall i, j :: 0 <= i < j < |positions| ==> positions[i] < positions[j])
  }

  lemma {:induction false} AcceptedInOrder(known: Known, specs: seq<Spec>, parse: UrlParser) returns (positions: seq<nat>)
    ensures Stands(specs, AcceptedOf(known, specs, parse), positions)
  {
    if specs == [] {
      positions := [];
    } else {
      var k := |specs| - 1;
      positions := AcceptedInOrder(known, specs[..k], parse);
      StandsStill(specs, AcceptedOf(known, specs[..k], parse), positions);
      if Accepted(known, specs[k], parse) {
        positions := positions + [k];
      }
    }
  }

  lemma StandsStill(specs: seq<Spec>, accepted: seq<Spec>, positions: seq<nat>)
    requires specs != [] && Stands(specs[..|specs| - 1], accepted, positions)
    ensures Stands(specs, accepted, positions) && Stands(specs, accepted + [specs[|specs| - 1]], positions + [|specs| - 1])
  {
    assert forall k :: 0 <= k < |positions| ==> specs[..|specs| - 1][positions[k]] == specs[positions[k]];
  }

  /** The pool after a refresh, spec by spec and in their order: the object known under the spec's name if
      address and weight are still the same, else one made for the spec, if its address parses. */
  lemma RefreshedPool(known: Known, known': Known, backends: seq<Backend>, specs: seq<Spec>, parse: UrlParser) returns (positions: seq<nat>)
    requires Refreshed(known, known', backends, specs, parse)
    ensures |positions| == |backends| && forall i, j :: 0 <= i < j < |positions| ==> positions[i] < positions[j]
    ensures forall k :: 0 <= k < |positions| ==>
              && positions[k] < |specs|
              && var spec, b := specs[positions[k]], backends[k];
              if spec.name in known && known[spec.name].url == spec.url && known[spec.name].weight == spec.weight
              then b == known[spec.name]
              else && parse(spec.url) == Some(b.url) && b.name == spec.name
                   && b.weight == (if spec.weight <= 0 then 1 else spec.weight)
    ensures forall spec :: spec in specs && (parse(spec.url).Some? || (spec.name in known && known[spec.name].url == spec.url && known[spec.name].weight == spec.weight))
                           ==> exists k :: 0 <= k < |positions| && specs[positions[k]] == spec
  {
    AcceptedAre(known, specs, parse);
    positions := AcceptedInOrder(known, specs, parse);
    forall k | 0 <= k < |positions| ensures Serves(known, backends[k], specs[positions[k]], parse) {
      assert Serves(known, backends[k], AcceptedOf(known, specs, parse)[k], parse);
    }
    forall spec | spec in specs && Accepted(known, spec, parse) ensures exists k :: 0 <= k < |positions| && specs[positions[k]] == spec {
      var k :| 0 <= k < |AcceptedOf(known, specs, parse)| && AcceptedOf(known, specs, parse)[k] == spec;
      assert specs[positions[k]] == spec;
    }
  }

  lemma ObjectOf(known: Known, known': Known, backends: seq<Backend>, specs: seq<Spec>, parse: UrlParser, spec: Spec)
    requires Refreshed(known, known', backends, specs, parse) && UniqueNames(specs) && spec in specs && Accepted(known, spec, parse)
    ensures spec.name in known' && known'[spec.name] in backends && Serves(known, known'[spec.name], spec, parse)
  {
    AcceptedAre(known, specs, parse);
    var accepted := AcceptedOf(known, specs, parse);
    var k :| 0 <= k < |accepted| && accepted[k] == spec;
    assert Serves(known, backends[k], accepted[k], parse);
  }

  /** One refresh: a stable spec ends up described by its object, and if it already was, the
      object is the same one as before. */
  lemma RefreshKeeps(known: Known, known': Known, backends: seq<Backend>, specs: seq<Spec>, parse: UrlParser, spec: Spec)
    requires Refreshed(known, known', backends, specs, parse) && UniqueNames(specs) && spec in specs && Stable(spec, parse)
    ensures Keeps(known', spec) && known'[spec.name] in backends
    ensures Keeps(known, spec) ==> known'[spec.name] == known[spec.name]
  {
    ObjectOf(known, known', backends, specs, parse, spec);
  }

  /** A refresh: what was announced, what was known after it, and the pool it left. */
  datatype Outcome = Outcome(specs: seq<Spec>, known: Known, backends: seq<Backend>)

  /** Each refresh starts from what the previous one left. */
  ghost predicate History(known: Known, rs: seq<Outcome>, parse: UrlParser)
    decreases |rs|
  {
    rs == [] || (Refreshed(known, rs[0].known, rs[0].backends, rs[0].specs, parse) && History(rs[0].known, rs[1..], parse))
  }

  /** A stable spec announced in every refresh of a history has one and the same object in every
      pool, so its health and counters survive them all. */
  lemma {:induction false} SameObjectThroughout(known: Known, rs: seq<Outcome>, parse: UrlParser, spec: Spec, k: nat)
    requires History(known, rs, parse) && Keeps(known, spec) && Stable(spec, parse) && k < |rs|
    requires forall i :: 0 <= i < |rs| ==> UniqueNames(rs[i].specs) && spec in rs[i].specs
    ensures known[spec.name] in rs[k].backends
    ensures spec.name in rs[k].known && rs[k].known[spec.name] == known[spec.name]
    decreases |rs|
  {
    RefreshKeeps(known, rs[0].known, rs[0].backends, rs[0].specs, parse, spec);
    if k == 0 {
    } else {
      SameObjectThroughout(rs[0].known, rs[1..], parse, spec, k - 1);
    }
  }

  /** An object made in this refresh is recognised by the next one exactly when its spec is stable;
      otherwise every refresh replaces it and its health and counters start over. */
  lemma NewObjectRecognisedIff(known: Known, known': Known, backends: seq<Backend>, specs: seq<Spec>, parse: UrlParser, spec: Spec)
    requires Refreshed(known, known', backends, specs, parse) && UniqueNames(specs) && spec in specs
    requires parse(spec.url).Some? && !Keeps(known, spec)
    ensures Keeps(known', spec) <==> Stable(spec, parse)
  {
    ObjectOf(known, known', backends, specs, parse, spec);
  }
}
