/** The scheduler's delays, measured on a 16-bit tick counter that wraps for ever. */
module Scheduler {
  import opened Bytes

  const MAX_COUNT: word := 0xFFFF
  const MAX_DELAY: word := MAX_COUNT - 1

  /** The ticks the code takes to have passed since the counter value `since`. */
  function Elapsed(since: word, tick: word): int {
    if tick >= since then tick - since else (MAX_COUNT - since) + tick
  }

  /** A caller's own counter: the tick at which its delay last ran out. */
  class DelayCounter {
    var value: word

    constructor (tick: word)
      ensures value == tick
    {
      value := tick;
    }
  }

  class Scheduler {
    var tickCounter: word

    /** The timer's interrupt. */
    method Tick()
      modifies this
      ensures tickCounter == (old(tickCounter) + 1) % 0x1_0000
    {
      tickCounter := (tickCounter + 1) % 0x1_0000;
    }

    method HasDelayElapsed(delay: word, delayCounter: DelayCounter) returns (elapsed: bool)
      modifies delayCounter
      ensures elapsed == (Elapsed(old(delayCounter.value), tickCounter) >= delay)
      ensures delayCounter.value == if elapsed then tickCounter else old(delayCounter.value)
    {
      var currentTick := tickCounter;
      var counter := delayCounter.value;
      if currentTick >= counter {
        if currentTick - counter >= delay {
          delayCounter.value := currentTick;
          return true;
        }
      } else {
        if (MAX_COUNT - counter) + currentTick >= delay {
          delayCounter.value := currentTick;
          return true;
        }
      }
      return false;
    }
  }

  // ---- polls in real time -------------------------------------------------------------------

  function Counter(tick: nat): word {
    tick % 0x1_0000
  }

  /** The counter keeps step with the real ticks, over its wraps. */
  lemma CounterTicks(tick: nat)
    ensures Counter(tick + 1) == (Counter(tick) + 1) % 0x1_0000
  {
  }

  /** Polls at real ticks that never skip one. */
  predicate EveryTick(now: nat, polls: seq<nat>)
    decreases |polls|
  {
    polls == [] || (now <= polls[0] <= now + 1 && EveryTick(polls[0], polls[1..]))
  }

  /** The real ticks at which the answer was yes. */
  function Firings(polls: seq<nat>, delay: word, since: word): seq<nat>
    decreases |polls|
  {
    if polls == [] then []
    else if Elapsed(since, Counter(polls[0])) >= delay then [polls[0]] + Firings(polls[1..], delay, Counter(polls[0]))
    else Firings(polls[1..], delay, since)
  }

  /** The counter wraps before a delay that began at this tick is over. */
  predicate WrapsWithin(since: nat, delay: word) {
    delay > 0 && Counter(since) + delay >= 0x1_0000
  }

  /** The tick at which a delay that began at `since` is over: across a wrap the code counts one
      tick too few. */
  function Due(since: nat, delay: word): nat {
    since + delay + (if WrapsWithin(since, delay) then 1 else 0)
  }

  /** The answer turns to yes exactly when the delay is over. */
  lemma YesExactlyWhenDue(since: nat, now: nat, delay: word)
    requires since <= now < since + 0x1_0000 && delay <= MAX_DELAY
    ensures Elapsed(Counter(since), Counter(now)) >= delay <==> now >= Due(since, delay)
  {
    var passed, low := now - since, Counter(since);
    var high := since / 0x1_0000;
    assert since == high * 0x1_0000 + low;
    if low + passed < 0x1_0000 {
      DivModUnique(now, 0x1_0000, high, low + passed);
    } else {
      DivModUnique(now, 0x1_0000, high + 1, low + passed - 0x1_0000);
    }
  }

  /** Successive answers yes are the delay apart, and one tick more exactly across a wrap; only a
      delay of no ticks is answered at every poll, so in the same tick or the next. */
  predicate Spaced(since: nat, firings: seq<nat>, delay: word)
    decreases |firings|
  {
    firings == [] ||
    (&& (if delay > 0 then firings[0] == Due(since, delay) else since <= firings[0] <= since + 1)
     && Spaced(firings[0], firings[1..], delay))
  }

  function LastOf(since: nat, ticks: seq<nat>): nat {
    if ticks == [] then since else ticks[|ticks| - 1]
  }

  lemma {:induction false} FiringsSpaced(since: nat, now: nat, polls: seq<nat>, delay: word)
    requires delay <= MAX_DELAY && EveryTick(now, polls)
    requires since <= now && (now < Due(since, delay) || now == since)
    ensures Spaced(since, Firings(polls, delay, Counter(since)), delay)
    ensures var last := LastOf(since, Firings(polls, delay, Counter(since)));
      LastOf(now, polls) < Due(last, delay) || LastOf(now, polls) == last
    decreases |polls|
  {
    if polls != [] {
      var at := polls[0];
      YesExactlyWhenDue(since, at, delay);
      var fired := Elapsed(Counter(since), Counter(at)) >= delay;
      var from := if fired then at else since;
      FiringsSpaced(from, at, polls[1..], delay);
      assert LastOf(at, polls[1..]) == LastOf(now, polls);
      if fired {
        var later := Firings(polls[1..], delay, Counter(at));
        assert Firings(polls, delay, Counter(since)) == [at] + later;
        assert ([at] + later)[1..] == later && LastOf(since, [at] + later) == LastOf(at, later);
      }
    }
  }

  /** With at least one poll in every tick and a delay no longer than the documented maximum, for
      ever: two answers yes are never less than the delay apart and at most one tick more, and no
      answer is overdue at the end. */
  lemma DelaysKept(start: nat, polls: seq<nat>, delay: word, i: nat)
    requires delay <= MAX_DELAY && EveryTick(start, polls)
    ensures var ticks := [start] + Firings(polls, delay, Counter(start));
      && (i + 1 < |ticks| ==> delay <= ticks[i + 1] - ticks[i] <= delay + 1)
      && (i + 1 < |ticks| && delay > 0 ==> (ticks[i + 1] - ticks[i] == delay + 1 <==> WrapsWithin(ticks[i], delay)))
      && LastOf(start, polls) - ticks[|ticks| - 1] <= delay
  {
    var firings := Firings(polls, delay, Counter(start));
    FiringsSpaced(start, start, polls, delay);
    SpacedAt(start, firings, delay, i);
    assert LastOf(start, firings) == ([start] + firings)[|firings|];
  }

  lemma {:induction false} SpacedAt(since: nat, firings: seq<nat>, delay: word, i: nat)
    requires Spaced(since, firings, delay)
    ensures var ticks := [since] + firings;
      && (i + 1 < |ticks| ==> delay <= ticks[i + 1] - ticks[i] <= delay + 1)
      && (i + 1 < |ticks| && delay > 0 ==> ticks[i + 1] == Due(ticks[i], delay))
    decreases |firings|
  {
    if firings != [] && i > 0 {
      SpacedAt(firings[0], firings[1..], delay, i - 1);
      assert [firings[0]] + firings[1..] == firings;
    }
  }

  /** Some value of the tick counter ends a delay that began at `since`. */
  ghost predicate Ends(since: word, delay: word) {
    exists tick: word :: Elapsed(since, tick) >= delay
  }

  /** The documented maximum is the true one: a delay ends, whatever the tick it began at, exactly
      when it is no longer than that. */
  lemma MaximumDelayIsExact(delay: word)
    ensures (forall since: word :: Ends(since, delay)) <==> delay <= MAX_DELAY
  {
    if delay <= MAX_DELAY {
      forall since: word ensures Ends(since, delay) {
        assert Elapsed(since, if since == 0 then MAX_COUNT else since - 1) >= delay;
      }
    } else {
      assert !Ends(1, delay);
    }
  }
}
