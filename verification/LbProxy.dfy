/** The proxy's retry loop: what the client sees, and when failing over is bound to work. */
module LbProxy {
  import opened Options
  import opened LbBackend
  import opened LbBalancer
  import opened Listing

  /** What one forward to a backend came to; `Unbuilt` if the outgoing request could not be made. */
  datatype Reply = Answered(status: int) | TimedOut | Unreachable | Unbuilt

  /** What an attempt meets: no healthy backend, or one of the healthy ones and its reply. */
  datatype Round = NoBackend | Tried(backend: nat, reply: Reply)

  /** Methods the proxy may send again. */
  predicate Idempotent(verb: string) {
    verb == "GET" || verb == "HEAD" || verb == "OPTIONS"
  }

  const SERVICE_UNAVAILABLE := 503
  const BAD_GATEWAY := 502
  const GATEWAY_TIMEOUT := 504
  const INTERNAL_SERVER_ERROR := 500

  /** The status offered to the client if this failure is the last word. */
  function FailureStatus(reply: Reply): int {
    match reply
    case TimedOut => GATEWAY_TIMEOUT
    case Unbuilt => INTERNAL_SERVER_ERROR
    case _ => BAD_GATEWAY
  }

  predicate FailedRound(round: Round) {
    round.Tried? && !round.reply.Answered?
  }

  /** The client's side of the exchange: the status of every response head written to it. */
  class Client {
    var heads: seq<int>

    constructor ()
      ensures heads == []
    {
      heads := [];
    }

    method WriteHead(status: int)
      modifies this
      ensures heads == old(heads) + [status]
    {
      heads := heads + [status];
    }
  }

  /** How a request may end: `forwards` attempts reached a backend, `head` went to the client and
      `retries` were counted. */
  ghost predicate EndsWith(verb: string, maxRetries: int, rounds: nat -> Round, forwards: nat, head: int, retries: nat) {
    && (forwards <= 1 || (Idempotent(verb) && forwards <= maxRetries + 1))
    && (forall a :: 0 <= a < forwards - 1 ==> FailedRound(rounds(a)))
    && (|| Relays(maxRetries, rounds, forwards, head, retries)
        || RunsDry(verb, maxRetries, rounds, forwards, head, retries)
        || GivesUp(verb, maxRetries, rounds, forwards, head, retries))
  }

  /** A backend answered and its status was passed on. */
  ghost predicate Relays(maxRetries: int, rounds: nat -> Round, forwards: nat, head: int, retries: nat) {
    && 1 <= forwards <= maxRetries + 1 && rounds(forwards - 1).Tried?
    && rounds(forwards - 1).reply == Answered(head) && retries == forwards - 1
  }

  /** No backend was healthy when one was needed. */
  ghost predicate RunsDry(verb: string, maxRetries: int, rounds: nat -> Round, forwards: nat, head: int, retries: nat) {
    && forwards <= maxRetries && rounds(forwards) == NoBackend && head == SERVICE_UNAVAILABLE && retries == forwards
    && (forwards > 0 ==> FailedRound(rounds(forwards - 1)) && Idempotent(verb))
  }

  /** Every attempt allowed was made and failed; the last failure decides the status. */
  ghost predicate GivesUp(verb: string, maxRetries: int, rounds: nat -> Round, forwards: nat, head: int, retries: nat) {
    if forwards == 0 then maxRetries < 0 && head == BAD_GATEWAY && retries == 0
    else && FailedRound(rounds(forwards - 1)) && head == FailureStatus(rounds(forwards - 1).reply)
         && retries == forwards - 1 && forwards <= maxRetries + 1
         && (!Idempotent(verb) || forwards == maxRetries + 1)
  }

  /** The live backends of the pool and the balancer's counter, as an attempt finds them. */
  datatype Scene = Scene(healthy: seq<Backend>, counter: nat)

  /** What others make of the pool's list and of the counter. */
  datatype Intrusion = Intrusion(backends: seq<Backend>, counter: nat)

  /** What others did just before each attempt, if anything. */
  type Others = seq<Option<Intrusion>>

  function Before(others: Others, a: nat): Option<Intrusion> {
    if a < |others| then others[a] else None
  }

  /** The scene after it: some of those backends are alive. */
  ghost predicate Leaves(intrusion: Intrusion, scene: Scene) {
    scene.counter == intrusion.counter && forall b :: b in scene.healthy ==> b in intrusion.backends
  }

  /** What the backend at an address replies to an attempt. */
  type Replies = (nat, string) -> Reply

  /** The scene after a pick. */
  function NextScene(scene: Scene): Scene {
    scene.(counter := if scene.counter + 1 < COUNTER_RANGE then scene.counter + 1 else 0)
  }

  /** What attempt `a` meets in such a scene. */
  function Meet(scene: Scene, reply: Replies, a: nat): Round {
    var Scene(healthy, counter) := scene;
    if healthy == [] then NoBackend else Tried(counter % |healthy|, reply(a, healthy[counter % |healthy|].url))
  }

  /** Every backend replies the same each time. */
  ghost predicate Steady(reply: Replies) {
    forall a, url :: reply(a, url) == reply(0, url)
  }

  function Positive(x: int): nat {
    if x > 0 then x else 0
  }

  /** How the healthy backends reply, by position. */
  function RepliesOf(healthy: seq<Backend>, reply: Replies): nat -> Reply {
    (i: nat) => if i < |healthy| then reply(0, healthy[i].url) else Unreachable
  }

  class Handler {
    const pool: Pool
    const balancer: RoundRobin
    const maxRetries: int
    var retries: nat

    constructor (pool: Pool, balancer: RoundRobin, maxRetries: int)
      ensures this.pool == pool && this.balancer == balancer && this.maxRetries == maxRetries && retries == 0
    {
      this.pool, this.balancer, this.maxRetries := pool, balancer, maxRetries;
      retries := 0;
    }

    /** Forwards once. Only an answer writes to the client; a failure leaves it untouched. */
    method ProxyOnce(client: Client, reply: Reply) returns (status: int, ok: bool)
      modifies client
      ensures ok == reply.Answered?
      ensures client.heads == if ok then old(client.heads) + [reply.status] else old(client.heads)
      ensures status == match reply
                        case Answered(code) => code
                        case TimedOut => 504
                        case Unreachable => 502
                        case Unbuilt => 500
    {
      match reply
      case Unbuilt => return INTERNAL_SERVER_ERROR, false;
      case TimedOut => return GATEWAY_TIMEOUT, false;
      case Unreachable => return BAD_GATEWAY, false;
      case Answered(code) =>
        client.WriteHead(code);
        return code, true;
    }

    /** The scene an attempt starting now would find. */
    function Now(): Scene
      reads pool, pool.backends, balancer
    {
      Scene(AliveOf(pool.backends), balancer.counter)
    }

    /** What happened in other goroutines since the last attempt. */
    method LetOthersIn(intrusion: Option<Intrusion>)
      modifies pool, balancer
      ensures intrusion == None ==> Now() == old(Now())
      ensures intrusion.Some? ==> Leaves(intrusion.value, Now())
    {
      if intrusion.Some? {
        pool.backends := intrusion.value.backends;
        balancer.counter := intrusion.value.counter;
        AliveAre(pool.backends);
      }
    }

    /** One turn of the retry loop: ask the balancer, forward, and tell what was met. */
    method Attempt(client: Client, others: Option<Intrusion>, reply: Replies, attempt: nat)
      returns (round: Round, status: int, found: Scene)
      requires balancer.counter < COUNTER_RANGE && (others.Some? ==> others.value.counter < COUNTER_RANGE)
      modifies client, pool, balancer
      ensures balancer.counter < COUNTER_RANGE
      ensures if others.Some? then Leaves(others.value, found) else found == old(Now())
      ensures round == Meet(found, reply, attempt) && (round.Tried? ==> Now() == NextScene(found))
      ensures client.heads == if round.Tried? && round.reply.Answered? then old(client.heads) + [round.reply.status] else old(client.heads)
      ensures FailedRound(round) ==> status == FailureStatus(round.reply)
    {
      LetOthersIn(others);
      found := Now();
      var b := PickNext();
      if b == None {
        return NoBackend, SERVICE_UNAVAILABLE, found;
      }
      var answer := reply(attempt, b.value.url);
      var ok;
      status, ok := ProxyOnce(client, answer);
      return Tried(found.counter % |found.healthy|, answer), status, found;
    }

    /** The balancer's pick in the present scene. */
    method PickNext() returns (b: Option<Backend>)
      requires balancer.counter < COUNTER_RANGE
      modifies balancer
      ensures balancer.counter < COUNTER_RANGE
      ensures var scene := old(Now());
              if scene.healthy == [] then b == None && Now() == scene
              else b == Some(scene.healthy[scene.counter % |scene.healthy|]) && Now() == NextScene(scene)
    {
      b := balancer.Next(pool);
    }

    /** Exactly one response head per request; retries are counted one per attempt repeated. `scenes` and
        `met` are what the attempts found and met: each asks the balancer again, on the pool as
        it is then. */
    method ServeHTTP(client: Client, verb: string, others: Others, reply: Replies)
      returns (forwards: nat, head: int, ghost met: seq<Round>, ghost scenes: seq<Scene>)
      requires balancer.counter < COUNTER_RANGE
      requires forall a :: 0 <= a < |others| && others[a].Some? ==> others[a].value.counter < COUNTER_RANGE
      modifies this`retries, client, pool, balancer
      ensures client.heads == old(client.heads) + [head]
      ensures Followed(old(Now()), others, reply, met, scenes)
      ensures Ended(verb, maxRetries, met, forwards, head, retries - old(retries))
    {
      ghost var start := Now();
      var attempts := maxRetries + 1;
      var canRetry := Idempotent(verb);
      var lastStatus := 0;
      met, scenes := [], [];
      var attempt := 0;
      while attempt < attempts
        invariant 0 <= attempt == |met| && (attempt == 0 ==> lastStatus == 0)
        invariant client.heads == old(client.heads) && retries == old(retries) + attempt
        invariant balancer.counter < COUNTER_RANGE && Underway(start, others, reply, verb, maxRetries, met, scenes, Now())
        decreases attempts - attempt
      {
        ghost var scene := Now();
        var round, status, found := Attempt(client, Before(others, attempt), reply, attempt);
        RoundMet(start, others, reply, verb, maxRetries, met, scenes, scene, found, round);
        met, scenes := met + [round], scenes + [found];
        if round == NoBackend {
          client.WriteHead(SERVICE_UNAVAILABLE);
          return attempt, SERVICE_UNAVAILABLE, met, scenes;
        }
        if round.reply.Answered? {
          return attempt + 1, round.reply.status, met, scenes;
        }
        lastStatus := status;
        if !canRetry || attempt == attempts - 1 {
          attempt := attempt + 1;
          break;
        }
        retries := retries + 1;
        attempt := attempt + 1;
      }
      forwards := attempt;
      head := if lastStatus != 0 then lastStatus else BAD_GATEWAY;
      client.WriteHead(head);
    }

    /** A request during which nobody touches the pool or the balancer and every backend replies the
        same each time: it meets the healthy backends in turn, so it fails over to one that answers. */
    method ServeAlone(client: Client, verb: string, reply: Replies) returns (forwards: nat, head: int)
      requires Steady(reply) && Now().healthy != [] && balancer.counter + Positive(maxRetries) + 1 < COUNTER_RANGE
      modifies this`retries, client, pool, balancer
      ensures client.heads == old(client.heads) + [head]
      ensures retries >= old(retries)
      ensures var (healthy, start) := (old(Now()).healthy, old(Now()).counter);
              EndsWith(verb, maxRetries, InTurn(start, |healthy|, RepliesOf(healthy, reply)), forwards, head, retries - old(retries))
      ensures var healthy := old(Now()).healthy;
              var failing := |Failing(|healthy|, RepliesOf(healthy, reply))|;
              verb in {"GET", "HEAD", "OPTIONS"} && failing <= maxRetries && failing < |healthy|
              ==> forwards <= failing + 1 && exists i :: 0 <= i < |healthy| && reply(0, healthy[i].url) == Answered(head)
    {
      ghost var start := Now();
      ghost var met, scenes;
      forwards, head, met, scenes := ServeHTTP(client, verb, [], reply);
      MetInTurn(start, verb, maxRetries, reply, met, scenes, forwards, head, retries - old(retries));
      FailsOver(start, verb, maxRetries, reply, forwards, head, retries - old(retries));
    }
  }

  /** Each attempt met what the balancer made of the scene it found: the one the last pick left behind,
      unless others stepped in. */
  ghost predicate Followed(start: Scene, others: Others, reply: Replies, met: seq<Round>, scenes: seq<Scene>) {
    && |scenes| == |met|
    && (forall a :: 0 <= a < |met| ==> Follows(start, others, reply, met[a], scenes, a))
  }

  ghost predicate Follows(start: Scene, others: Others, reply: Replies, round: Round, scenes: seq<Scene>, a: nat)
    requires a < |scenes|
  {
    round == Meet(scenes[a], reply, a) && Found(others, a, if a == 0 then start else NextScene(scenes[a - 1]), scenes[a])
  }

  ghost predicate Found(others: Others, a: nat, expected: Scene, found: Scene) {
    if Before(others, a).Some? then Leaves(Before(others, a).value, found) else found == expected
  }

  /** The first k rounds failed. */
  ghost predicate AllFailed(met: seq<Round>, k: nat) {
    forall a :: 0 <= a < k && a < |met| ==> FailedRound(met[a])
  }

  /** The request ends with round k, after k attempts that failed. */
  ghost predicate EndsHere(verb: string, maxRetries: int, met: seq<Round>, k: nat, forwards: nat, head: int)
    requires k < |met|
  {
    && AllFailed(met, k) && k <= maxRetries && (k > 0 ==> Idempotent(verb))
    && (|| (met[k] == NoBackend && forwards == k && head == SERVICE_UNAVAILABLE)
        || (met[k].Tried? && met[k].reply == Answered(head) && forwards == k + 1)
        || (&& FailedRound(met[k]) && head == FailureStatus(met[k].reply) && forwards == k + 1
            && (!Idempotent(verb) || k == maxRetries)))
  }

  /** The request ended after meeting `met`, one retry counted for every attempt but the first. */
  ghost predicate Ended(verb: string, maxRetries: int, met: seq<Round>, forwards: nat, head: int, retries: int) {
    if met == [] then maxRetries < 0 && forwards == 0 && head == BAD_GATEWAY && retries == 0
    else retries == |met| - 1 && EndsHere(verb, maxRetries, met, |met| - 1, forwards, head)
  }

  /** What the client sees and what was counted, for every way a request can end: the last round decides the
      status; only GET, HEAD and OPTIONS are ever sent again, and they are until an answer, an empty pool
      or the last allowed attempt. */
  lemma EndingTable(verb: string, maxRetries: int, met: seq<Round>, forwards: nat, head: int, retries: int)
    requires Ended(verb, maxRetries, met, forwards, head, retries)
    ensures met == [] <==> maxRetries < 0
    ensures head == if met == [] then 502
                    else match met[|met| - 1]
                         case NoBackend => 503
                         case Tried(_, Answered(code)) => code
                         case Tried(_, TimedOut) => 504
                         case Tried(_, Unreachable) => 502
                         case Tried(_, Unbuilt) => 500
    ensures forwards > 1 || |met| > 1 ==> verb in {"GET", "HEAD", "OPTIONS"}
    ensures met != [] ==> |met| <= maxRetries + 1 && retries == |met| - 1
    ensures met != [] ==> forwards == if met[|met| - 1] == NoBackend then |met| - 1 else |met|
    ensures met != [] && met[|met| - 1].Tried? && !met[|met| - 1].reply.Answered?
            ==> verb !in {"GET", "HEAD", "OPTIONS"} || |met| == maxRetries + 1
    ensures forall a :: 0 <= a < |met| - 1 ==> met[a].Tried? && !met[a].reply.Answered?
  {
    if met != [] {
      assert EndsHere(verb, maxRetries, met, |met| - 1, forwards, head);
      assert forall a :: 0 <= a < |met| - 1 ==> FailedRound(met[a]);
    }
  }

  /** Ending after what was met is ending on any course that goes that way. */
  lemma EndedEndsWith(verb: string, maxRetries: int, met: seq<Round>, rounds: nat -> Round, forwards: nat, head: int, retries: nat)
    requires Ended(verb, maxRetries, met, forwards, head, retries)
    requires forall a :: 0 <= a < |met| ==> rounds(a) == met[a]
    ensures EndsWith(verb, maxRetries, rounds, forwards, head, retries)
  {
    if met == [] {
      assert GivesUp(verb, maxRetries, rounds, 0, head, 0);
    } else {
      var k := |met| - 1;
      if rounds(k) == NoBackend {
        assert RunsDry(verb, maxRetries, rounds, k, head, k);
      } else if rounds(k).reply.Answered? {
        assert Relays(maxRetries, rounds, k + 1, head, k);
      } else {
        assert GivesUp(verb, maxRetries, rounds, k + 1, head, k);
      }
    }
  }

  /** The request is not over: all attempts so far failed and another may follow, which finds
      `scene` unless others step in just before it. */
  ghost predicate Underway(start: Scene, others: Others, reply: Replies, verb: string, maxRetries: int,
    met: seq<Round>, scenes: seq<Scene>, scene: Scene)
  {
    && AllFailed(met, |met|) && Followed(start, others, reply, met, scenes)
    && (met != [] ==> Idempotent(verb) && |met| <= maxRetries)
    && scene == if met == [] then start else NextScene(scenes[|met| - 1])
  }

  /** What the next round makes of it: an ending, or another attempt to come, which finds `next`. */
  ghost predicate Proceeds(start: Scene, others: Others, reply: Replies, verb: string, maxRetries: int,
    met: seq<Round>, scenes: seq<Scene>, round: Round, found: Scene, next: Scene)
  {
    && Followed(start, others, reply, met + [round], scenes + [found])
    && (round == NoBackend ==> Ended(verb, maxRetries, met + [round], |met|, SERVICE_UNAVAILABLE, |met|))
    && (round.Tried? && round.reply.Answered? ==> Ended(verb, maxRetries, met + [round], |met| + 1, round.reply.status, |met|))
    && (FailedRound(round) && (!Idempotent(verb) || |met| == maxRetries)
        ==> Ended(verb, maxRetries, met + [round], |met| + 1, FailureStatus(round.reply), |met|))
    && (FailedRound(round) && Idempotent(verb) && |met| < maxRetries
        ==> Underway(start, others, reply, verb, maxRetries, met + [round], scenes + [found], next))
  }

  lemma RoundMet(start: Scene, others: Others, reply: Replies, verb: string, maxRetries: int,
      met: seq<Round>, scenes: seq<Scene>, scene: Scene, found: Scene, round: Round)
    requires Underway(start, others, reply, verb, maxRetries, met, scenes, scene) && |met| <= maxRetries
    requires Found(others, |met|, scene, found) && round == Meet(found, reply, |met|)
    ensures Proceeds(start, others, reply, verb, maxRetries, met, scenes, round, found, NextScene(found))
  {
    var met', scenes' := met + [round], scenes + [found];
    forall a | 0 <= a < |met'| ensures Follows(start, others, reply, met'[a], scenes', a) {
      if a < |met| {
        assert Follows(start, others, reply, met[a], scenes, a);
      }
    }
  }

  /** The rules leave no room: at most one way to end is possible for what the attempts meet. */
  lemma EndingUnique(verb: string, maxRetries: int, rounds: nat -> Round,
      k: nat, head: int, retries: nat, k': nat, head': int, retries': nat)
    requires EndsWith(verb, maxRetries, rounds, k, head, retries)
    requires EndsWith(verb, maxRetries, rounds, k', head', retries')
    ensures k == k' && head == head' && retries == retries'
  {
  }

  // ----- failing over

  /** The backend that attempt `a` meets when the counter started at `start`. */
  function Turn(start: nat, n: nat, a: nat): nat
    requires n > 0
  {
    (start + a) % n
  }

  /** Undisturbed round robin over n healthy backends, from counter value `start`: the attempts meet
      the backends in turn, and each backend replies the same way each time. */
  function InTurn(start: nat, n: nat, reply: nat -> Reply): nat -> Round
    requires n > 0
  {
    (a: nat) => Tried(Turn(start, n, a), reply(Turn(start, n, a)))
  }

  function Failing(n: nat, reply: nat -> Reply): set<nat> {
    set i: nat | 0 <= i < n && !reply(i).Answered?
  }

  /** The backends met by the first m attempts. */
  function Met(start: nat, n: nat, m: nat): set<nat>
    requires n > 0
  {
    if m == 0 then {} else Met(start, n, m - 1) + {Turn(start, n, m - 1)}
  }

  /** Every backend met was met by some attempt. */
  lemma {:induction false} MetBy(start: nat, n: nat, m: nat, i: nat) returns (a: nat)
    requires n > 0 && i in Met(start, n, m)
    ensures a < m && Turn(start, n, a) == i
  {
    if i in Met(start, n, m - 1) {
      a := MetBy(start, n, m - 1, i);
    } else {
      a := m - 1;
    }
  }

  /** Two counter values less than n apart name different backends. */
  lemma NoRepeat(x: nat, y: nat, n: nat)
    requires x < y < x + n
    ensures x % n != y % n
  {
    Divided(x, n);
    Divided(y, n);
    if x % n == y % n {
      assert y - x == (y / n - x / n) * n;
      Multiples(y / n - x / n, n);
    }
  }

  /** Fewer than n attempts never meet a backend twice. */
  lemma {:induction false} MetSize(start: nat, n: nat, m: nat)
    requires n > 0 && m <= n
    ensures |Met(start, n, m)| == m
  {
    if m == 0 {
    } else {
      MetSize(start, n, m - 1);
      if Turn(start, n, m - 1) in Met(start, n, m - 1) {
        var a := MetBy(start, n, m - 1, Turn(start, n, m - 1));
        NoRepeat(start + a, start + (m - 1), n);
        assert false;
      }
    }
  }

  /** Among any f+1 attempts in turn, f failing backends and fewer than all of them, one answers. */
  lemma SomeoneAnswers(start: nat, n: nat, reply: nat -> Reply) returns (a: nat)
    requires n > 0 && |Failing(n, reply)| < n
    ensures a <= |Failing(n, reply)| && reply(Turn(start, n, a)).Answered?
  {
    var f := |Failing(n, reply)|;
    MetSize(start, n, f + 1);
    if forall i :: i in Met(start, n, f + 1) ==> !reply(i).Answered? {
      MetWithin(start, n, f + 1);
      SubsetSize(Met(start, n, f + 1), Failing(n, reply));
      assert false;
    }
    var i :| i in Met(start, n, f + 1) && reply(i).Answered?;
    a := MetBy(start, n, f + 1, i);
  }

  lemma {:induction false} MetWithin(start: nat, n: nat, m: nat)
    requires n > 0
    ensures forall i :: i in Met(start, n, m) ==> i < n
  {
    if m == 0 {
    } else {
      MetWithin(start, n, m - 1);
    }
  }

  /** The client gets a backend's answer exactly when an attempt it is entitled to meets one: the
      first for other methods, any of the maxRetries + 1 for a repeatable one. */
  lemma AnsweredIff(verb: string, maxRetries: nat, start: nat, n: nat, reply: nat -> Reply, forwards: nat, head: int, retries: nat)
    requires n > 0 && EndsWith(verb, maxRetries, InTurn(start, n, reply), forwards, head, retries)
    ensures Relays(maxRetries, InTurn(start, n, reply), forwards, head, retries)
            <==> exists a :: 0 <= a <= (if Idempotent(verb) then maxRetries else 0) && reply(Turn(start, n, a)).Answered?
  {
    var rounds := InTurn(start, n, reply);
    if Relays(maxRetries, rounds, forwards, head, retries) {
      assert reply(Turn(start, n, forwards - 1)).Answered?;
    } else {
      assert GivesUp(verb, maxRetries, rounds, forwards, head, retries);
      forall a | 0 <= a <= (if Idempotent(verb) then maxRetries else 0) ensures !reply(Turn(start, n, a)).Answered? {
        assert FailedRound(rounds(a));
      }
    }
  }

  /** Failover by counting: with no more failing backends than retries, and not all failing, a
      repeatable request gets an answer from any counter value. */
  lemma FailoverSucceeds(verb: string, maxRetries: nat, start: nat, n: nat, reply: nat -> Reply, forwards: nat, head: int, retries: nat)
    requires Idempotent(verb) && n > 0 && |Failing(n, reply)| < n && |Failing(n, reply)| <= maxRetries
    requires EndsWith(verb, maxRetries, InTurn(start, n, reply), forwards, head, retries)
    ensures Relays(maxRetries, InTurn(start, n, reply), forwards, head, retries)
    ensures forwards <= |Failing(n, reply)| + 1
  {
    var a := SomeoneAnswers(start, n, reply);
    AnsweredIff(verb, maxRetries, start, n, reply, forwards, head, retries);
    assert forwards > a + 1 ==> FailedRound(InTurn(start, n, reply)(a));
  }

  // ----- a request left alone

  lemma {:induction false} SceneAlone(start: Scene, others: Others, reply: Replies, met: seq<Round>, scenes: seq<Scene>, a: nat)
    requires Followed(start, others, reply, met, scenes) && others == []
    requires a < |scenes| && start.counter + a < COUNTER_RANGE
    ensures scenes[a] == start.(counter := start.counter + a) && met[a] == Meet(scenes[a], reply, a)
  {
    assert Follows(start, others, reply, met[a], scenes, a);
    if a == 0 {
    } else {
      SceneAlone(start, others, reply, met, scenes, a - 1);
    }
  }

  lemma MeetsTurn(start: Scene, a: nat, reply: Replies)
    requires Steady(reply) && start.healthy != []
    ensures Meet(start.(counter := start.counter + a), reply, a)
            == InTurn(start.counter, |start.healthy|, RepliesOf(start.healthy, reply))(a)
  {
    var n := |start.healthy|;
    var i := Turn(start.counter, n, a);
    assert reply(a, start.healthy[i].url) == reply(0, start.healthy[i].url);
    assert RepliesOf(start.healthy, reply)(i) == reply(0, start.healthy[i].url);
  }

  /** Left alone, the attempts meet the healthy backends in turn. */
  lemma MetInTurn(start: Scene, verb: string, maxRetries: int, reply: Replies,
      met: seq<Round>, scenes: seq<Scene>, forwards: nat, head: int, retries: nat)
    requires Steady(reply) && start.healthy != [] && start.counter + Positive(maxRetries) + 1 < COUNTER_RANGE
    requires Followed(start, [], reply, met, scenes) && Ended(verb, maxRetries, met, forwards, head, retries)
    ensures EndsWith(verb, maxRetries, InTurn(start.counter, |start.healthy|, RepliesOf(start.healthy, reply)), forwards, head, retries)
  {
    var n, rounds := |start.healthy|, InTurn(start.counter, |start.healthy|, RepliesOf(start.healthy, reply));
    forall a | 0 <= a < |met| ensures rounds(a) == met[a] {
      SceneAlone(start, [], reply, met, scenes, a);
      MeetsTurn(start, a, reply);
    }
    EndedEndsWith(verb, maxRetries, met, rounds, forwards, head, retries);
  }

  /** The answer the client gets is a healthy backend's. */
  lemma FailsOver(start: Scene, verb: string, maxRetries: int, reply: Replies, forwards: nat, head: int, retries: nat)
    requires start.healthy != []
    requires EndsWith(verb, maxRetries, InTurn(start.counter, |start.healthy|, RepliesOf(start.healthy, reply)), forwards, head, retries)
    ensures var n := |start.healthy|;
            var failing := |Failing(n, RepliesOf(start.healthy, reply))|;
            Idempotent(verb) && failing <= maxRetries && failing < n
            ==> forwards <= failing + 1 && exists i :: 0 <= i < n && reply(0, start.healthy[i].url) == Answered(head)
  {
    var n, replies := |start.healthy|, RepliesOf(start.healthy, reply);
    if Idempotent(verb) && |Failing(n, replies)| <= maxRetries && |Failing(n, replies)| < n {
      FailoverSucceeds(verb, maxRetries, start.counter, n, replies, forwards, head, retries);
      var i := Turn(start.counter, n, forwards - 1);
      assert reply(0, start.healthy[i].url) == Answered(head);
    }
  }
}
