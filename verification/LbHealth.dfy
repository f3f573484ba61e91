/** Health checking with hysteresis: one signed counter per backend name stands for the whole probe
    history. */
module LbHealth {
  import opened Options
  import opened LbBackend

  // ----- what the counter and the flag are meant to say

  /** How many of the latest probes agree with the very last one. */
  function Streak(history: seq<bool>): nat {
    if history == [] then 0
    else RunBack(history, |history| - 1)
  }

  /** The length of the run of equal probes that ends at position i. */
  function RunBack(history: seq<bool>, i: nat): (n: nat)
    requires i < |history|
    ensures 1 <= n <= i + 1
  {
    if i > 0 && history[i - 1] == history[i] then RunBack(history, i - 1) + 1 else 1
  }

  /** RunBack is the longest run: all of it agrees, and what comes before does not. */
  lemma {:induction false} RunBackIsLongest(history: seq<bool>, i: nat)
    requires i < |history|
    ensures forall j :: i - RunBack(history, i) < j <= i ==> history[j] == history[i]
    ensures RunBack(history, i) <= i ==> history[i - RunBack(history, i)] != history[i]
  {
    if i > 0 && history[i - 1] == history[i] {
      RunBackIsLongest(history, i - 1);
    }
  }

  datatype Thresholds = Thresholds(healthy: int, unhealthy: int)

  /** The streak ending at position i is long enough to decide the backend's health. */
  predicate Decides(history: seq<bool>, t: Thresholds, i: nat)
    requires i < |history|
  {
    RunBack(history, i) >= if history[i] then t.healthy else t.unhealthy
  }

  /** Position i holds the latest streak that reached its threshold. */
  ghost predicate Latest(history: seq<bool>, t: Thresholds, i: nat) {
    && i < |history| && Decides(history, t, i)
    && forall j :: i < j < |history| ==> !Decides(history, t, j)
  }

  /** No streak has reached its threshold yet. */
  ghost predicate Undecided(history: seq<bool>, t: Thresholds) {
    forall j :: 0 <= j < |history| ==> !Decides(history, t, j)
  }

  /** `verdict` is the verdict of the latest streak that reached its threshold, or alive if none has. */
  ghost predicate Verdict(history: seq<bool>, t: Thresholds, verdict: bool) {
    || (exists i: nat :: Latest(history, t, i) && verdict == history[i])
    || (verdict && Undecided(history, t))
  }

  /** The streak's length, negative for failures. */
  function Signed(history: seq<bool>): int {
    if history == [] then 0 else if history[|history| - 1] then Streak(history) else 0 - Streak(history)
  }

  // ----- how they are maintained

  function NextCount(count: int, success: bool): int {
    if success then (if count < 0 then 0 else count) + 1 else (if count > 0 then 0 else count) - 1
  }

  function NextAlive(alive: bool, count: int, t: Thresholds): bool {
    if count > 0 && count >= t.healthy then true
    else if count < 0 && -count >= t.unhealthy then false
    else alive
  }

  lemma {:induction false} RunBackInPrefix(history: seq<bool>, probe: bool, i: nat)
    requires i < |history|
    ensures RunBack(history + [probe], i) == RunBack(history, i)
  {
    if i == 0 {
    } else {
      RunBackInPrefix(history, probe, i - 1);
    }
  }

  /** One more probe, and the counter still is the signed streak. */
  lemma CountFollows(history: seq<bool>, probe: bool)
    ensures Signed(history + [probe]) == NextCount(Signed(history), probe)
  {
    var longer := history + [probe];
    if history != [] {
      RunBackInPrefix(history, probe, |history| - 1);
      assert RunBack(longer, |history| - 1) == Streak(history);
    }
  }

  lemma DecidesInPrefix(history: seq<bool>, probe: bool, t: Thresholds)
    ensures forall j :: 0 <= j < |history| ==> (Decides(history + [probe], t, j) <==> Decides(history, t, j))
  {
    forall j | 0 <= j < |history| ensures Decides(history + [probe], t, j) <==> Decides(history, t, j) {
      RunBackInPrefix(history, probe, j);
    }
  }

  /** The flag follows the counter exactly when the newest streak decides. */
  lemma FlagFollowsStreak(history: seq<bool>, probe: bool, t: Thresholds, alive: bool)
    requires t.healthy >= 1 && t.unhealthy >= 1
    ensures NextAlive(alive, NextCount(Signed(history), probe), t)
            == if Decides(history + [probe], t, |history|) then probe else alive
  {
    CountFollows(history, probe);
    assert (history + [probe])[|history|] == probe;
  }

  /** One more probe, and the flag still is the latest verdict. */
  lemma AliveFollows(history: seq<bool>, probe: bool, t: Thresholds, alive: bool)
    requires t.healthy >= 1 && t.unhealthy >= 1 && Verdict(history, t, alive)
    ensures Verdict(history + [probe], t, NextAlive(alive, NextCount(Signed(history), probe), t))
  {
    var longer := history + [probe];
    FlagFollowsStreak(history, probe, t, alive);
    DecidesInPrefix(history, probe, t);
    if Decides(longer, t, |history|) {
      assert Latest(longer, t, |history|) && longer[|history|] == probe;
    } else if !Undecided(history, t) {
      var i: nat :| Latest(history, t, i) && alive == history[i];
      assert Latest(longer, t, i) && longer[i] == history[i];
    }
  }

  /** A history has only one verdict. */
  lemma VerdictUnique(history: seq<bool>, t: Thresholds, a: bool, b: bool)
    requires Verdict(history, t, a) && Verdict(history, t, b)
    ensures a == b
  {
    if !Undecided(history, t) {
      var i: nat :| Latest(history, t, i) && a == history[i];
      var j: nat :| Latest(history, t, j) && b == history[j];
      assert i == j;
    }
  }

  class Checker {
    const thresholds: Thresholds
    var counts: map<string, int>
    ghost var histories: map<string, seq<bool>>

    /** Thresholds below one count as one. */
    constructor (healthy: int, unhealthy: int)
      ensures thresholds == Thresholds(if healthy <= 0 then 1 else healthy, if unhealthy <= 0 then 1 else unhealthy)
      ensures counts == map[] && histories == map[] && Valid()
    {
      thresholds := Thresholds(if healthy <= 0 then 1 else healthy, if unhealthy <= 0 then 1 else unhealthy);
      counts, histories := map[], map[];
    }

    function Count(name: string): int
      reads this
    {
      if name in counts then counts[name] else 0
    }

    ghost function History(name: string): seq<bool>
      reads this
    {
      if name in histories then histories[name] else []
    }

    /** Every counter is the signed streak of its name's probes. */
    ghost predicate Valid()
      reads this
    {
      && thresholds.healthy >= 1 && thresholds.unhealthy >= 1
      && forall name :: Count(name) == Signed(History(name))
    }

    /** A probe succeeded. */
    method RecordSuccess(b: Backend)
      requires Valid()
      modifies this, b`alive
      ensures Valid() && histories == old(histories)[b.name := old(History(b.name)) + [true]]
      ensures b.alive == if Decides(History(b.name), thresholds, |History(b.name)| - 1) then true else old(b.alive)
      ensures old(Verdict(History(b.name), thresholds, b.alive)) ==> Verdict(History(b.name), thresholds, b.alive)
      ensures counts == old(counts)[b.name := Signed(History(b.name))]
    {
      CountFollows(History(b.name), true);
      FlagFollowsStreak(History(b.name), true, thresholds, b.alive);
      if Verdict(History(b.name), thresholds, b.alive) {
        AliveFollows(History(b.name), true, thresholds, b.alive);
      }
      var count := if b.name in counts then counts[b.name] else 0;
      if count < 0 {
        count := 0;
      }
      count := count + 1;
      counts := counts[b.name := count];
      histories := histories[b.name := History(b.name) + [true]];
      if count >= thresholds.healthy {
        b.alive := true;
      }
      forall name ensures Count(name) == Signed(History(name)) {
        assert name != b.name ==> Count(name) == old(Count(name)) && History(name) == old(History(name));
      }
    }

    /** A probe failed. */
    method RecordFailure(b: Backend)
      requires Valid()
      modifies this, b`alive
      ensures Valid() && histories == old(histories)[b.name := old(History(b.name)) + [false]]
      ensures b.alive == if Decides(History(b.name), thresholds, |History(b.name)| - 1) then false else old(b.alive)
      ensures old(Verdict(History(b.name), thresholds, b.alive)) ==> Verdict(History(b.name), thresholds, b.alive)
      ensures counts == old(counts)[b.name := Signed(History(b.name))]
    {
      CountFollows(History(b.name), false);
      FlagFollowsStreak(History(b.name), false, thresholds, b.alive);
      if Verdict(History(b.name), thresholds, b.alive) {
        AliveFollows(History(b.name), false, thresholds, b.alive);
      }
      var count := if b.name in counts then counts[b.name] else 0;
      if count > 0 {
        count := 0;
      }
      count := count - 1;
      counts := counts[b.name := count];
      histories := histories[b.name := History(b.name) + [false]];
      if -count >= thresholds.unhealthy {
        b.alive := false;
      }
      forall name ensures Count(name) == Signed(History(name)) {
        assert name != b.name ==> Count(name) == old(Count(name)) && History(name) == old(History(name));
      }
    }
  }

  // ----- whole histories

  /** The counter and the flag after a history, probe by probe. */
  function Observed(history: seq<bool>, t: Thresholds): (int, bool) {
    if history == [] then (0, true)
    else
      var (count, alive) := Observed(history[..|history| - 1], t);
      var next := NextCount(count, history[|history| - 1]);
      (next, NextAlive(alive, next, t))
  }

  /** For every probe history the counter is the signed length of the current streak and the flag
      the verdict of the latest streak that reached its threshold. */
  lemma {:induction false} HysteresisRefines(history: seq<bool>, t: Thresholds)
    requires t.healthy >= 1 && t.unhealthy >= 1
    ensures Observed(history, t).0 == Signed(history)
    ensures Verdict(history, t, Observed(history, t).1)
  {
    if history == [] {
    } else {
      var front, last := history[..|history| - 1], history[|history| - 1];
      assert history == front + [last];
      HysteresisRefines(front, t);
      CountFollows(front, last);
      AliveFollows(front, last, t, Observed(front, t).1);
    }
  }

  /** What the checker's flag says at any moment is what the probes say: alive exactly when no
      streak has reached its threshold, or the latest one that did was of successes. */
  lemma AliveIff(history: seq<bool>, t: Thresholds)
    requires t.healthy >= 1 && t.unhealthy >= 1
    ensures Observed(history, t).1 <==> Undecided(history, t) || exists i: nat :: Latest(history, t, i) && history[i]
  {
    HysteresisRefines(history, t);
    if exists i: nat :: Latest(history, t, i) && history[i] {
      var i: nat :| Latest(history, t, i) && history[i];
      assert Verdict(history, t, true);
      VerdictUnique(history, t, true, Observed(history, t).1);
    }
  }
}
