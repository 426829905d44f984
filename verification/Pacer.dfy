/** A monotone clock that others may advance between any two readings. */
module Clocks {
  class Clock {
    var now: int

    constructor (start: int)
      ensures now == start
    {
      now := start;
    }

    /** `Instant::now()`: any amount of time may have passed. */
    method Read() returns (t: int)
      modifies this
      ensures t == now >= old(now)
    {
      t :| t >= now;
      now := t;
    }

    /** `sleep_until`: never wakes early, may wake late. */
    method SleepUntil(t: int)
      modifies this
      ensures now >= old(now) && now >= t
    {
      var woken: int :| woken >= now && woken >= t;
      now := woken;
    }
  }
}

/** The rate pacer in front of the relay. Times are milliseconds. */
module Pacer {
  import opened Clocks

  const PUBLISH_INTERVAL: int := 167
  const PUBLISH_LIMIT_PER_MINUTE: nat := 90
  const MINUTE: int := 60_000

  /** What the rate limits mean for a whole history of publish times. */
  ghost predicate Paced(history: seq<int>) {
    forall i :: 0 < i < |history| ==> PacedAt(history, i)
  }

  /** Entry `i` keeps the interval to the one before it, and a minute to the one 90 before it. */
  ghost predicate PacedAt(history: seq<int>, i: nat)
    requires 0 < i < |history|
  {
    && history[i] >= history[i - 1] + PUBLISH_INTERVAL
    && (i >= PUBLISH_LIMIT_PER_MINUTE ==> history[i] >= history[i - PUBLISH_LIMIT_PER_MINUTE] + MINUTE)
  }

  /** The earliest time at which one more publish keeps the limits; the first waits an interval too. */
  function Earliest(history: seq<int>, created: int): int {
    var n := |history|;
    var afterLast := (if n == 0 then created else history[n - 1]) + 167;
    if n >= 90 && history[n - 90] + 60_000 > afterLast then history[n - 90] + 60_000 else afterLast
  }

  /** So it is: a publish at `t` keeps the limits from then on and not before. */
  lemma EarliestIsExact(history: seq<int>, created: int, t: int)
    requires Paced(history)
    ensures t >= Earliest(history, created)
      <==> Paced(history + [t]) && (history == [] ==> t >= created + 167)
  {
    var h := history + [t];
    assert forall i :: 0 < i < |history| ==> PacedAt(history, i) && h[i] == history[i];
    if Paced(h) && |history| > 0 {
      assert PacedAt(h, |history|);
    }
    forall i | 0 < i < |history| ensures PacedAt(h, i) {
      assert PacedAt(history, i);
    }
    if t >= Earliest(history, created) && |history| > 0 {
      assert PacedAt(h, |history|);
    }
  }

  lemma {:induction false} SpreadByInterval(history: seq<int>, i: nat, j: nat)
    requires Paced(history) && i <= j < |history|
    ensures history[j] >= history[i] + PUBLISH_INTERVAL * (j - i)
    decreases j - i
  {
    if i < j {
      assert PacedAt(history, j);
      SpreadByInterval(history, i, j - 1);
    }
  }

  /** A paced history has at most 90 publishes in any minute-long window. */
  lemma AtMostNinetyPerMinute(history: seq<int>, from: int, i: nat, j: nat)
    requires Paced(history) && i <= j < |history|
    requires from <= history[i] && history[j] < from + 60_000
    ensures j - i + 1 <= 90
  {
    if j - i >= PUBLISH_LIMIT_PER_MINUTE {
      assert PacedAt(history, j);
      SpreadByInterval(history, i, j - PUBLISH_LIMIT_PER_MINUTE);
    }
  }

  /** `kept` is the end of `history`, and whatever is missing from it is a minute old at `now`. */
  ghost predicate KeptAt(history: seq<int>, kept: seq<int>, now: int) {
    && |kept| <= |history|
    && kept == history[|history| - |kept|..]
    && (|kept| < |history| ==> history[|history| - |kept| - 1] + MINUTE <= now)
  }

  /** The pacer's invariant at time `now`, over the whole history of its publish times. */
  ghost predicate Sound(history: seq<int>, kept: seq<int>, nextPublish: int, created: int, now: int) {
    && Paced(history) && KeptAt(history, kept, now)
    && |kept| <= PUBLISH_LIMIT_PER_MINUTE
    && nextPublish == (if history == [] then created else history[|history| - 1]) + PUBLISH_INTERVAL
    && (history != [] ==> history[|history| - 1] <= now)
  }

  lemma SoundLater(history: seq<int>, kept: seq<int>, nextPublish: int, created: int, now: int, later: int)
    requires Sound(history, kept, nextPublish, created, now) && now <= later
    ensures Sound(history, kept, nextPublish, created, later)
  {
  }

  function Pruned(published: seq<int>, now: int): (kept: seq<int>)
    ensures |kept| <= |published|
    ensures |kept| > 0 ==> now - kept[0] < MINUTE
    ensures |kept| == |published| ==> kept == published
  {
    if |published| > 0 && now - published[0] >= MINUTE then Pruned(published[1..], now) else published
  }

  lemma {:induction false} PrunedIsKept(history: seq<int>, kept: seq<int>, now: int)
    requires KeptAt(history, kept, now)
    ensures KeptAt(history, Pruned(kept, now), now)
  {
    if |kept| > 0 && now - kept[0] >= MINUTE {
      PrunedIsKept(history, kept[1..], now);
    }
  }

  /** Pruning keeps the invariant, and keeps of the whole history exactly the publishes of the last minute. */
  lemma PrunedIsSound(history: seq<int>, kept: seq<int>, nextPublish: int, created: int, now: int)
    requires Sound(history, kept, nextPublish, created, now)
    ensures Sound(history, Pruned(kept, now), nextPublish, created, now)
    ensures var left := |history| - |Pruned(kept, now)|;
      && 0 <= left && Pruned(kept, now) == history[left..]
      && forall i :: 0 <= i < |history| ==> (now - history[i] < MINUTE <==> i >= left)
  {
    PrunedIsKept(history, kept, now);
    var left := |history| - |Pruned(kept, now)|;
    assert left < |history| ==> Pruned(kept, now)[0] == history[left];
    forall i | 0 <= i < |history| ensures now - history[i] < MINUTE <==> i >= left {
      if i >= left {
        SpreadByInterval(history, left, i);
      } else {
        SpreadByInterval(history, i, left - 1);
      }
    }
  }

  /** Publishing keeps the limits when the interval has passed and fewer than 90 entries are kept. */
  lemma PublishKeepsPace(history: seq<int>, kept: seq<int>, nextPublish: int, created: int, now: int, t: int)
    requires Sound(history, kept, nextPublish, created, now) && now <= t
    requires |kept| < PUBLISH_LIMIT_PER_MINUTE && nextPublish <= t
    ensures Sound(history + [t], kept + [t], t + PUBLISH_INTERVAL, created, t)
  {
    var n := |history|;
    if n >= PUBLISH_LIMIT_PER_MINUTE {
      SpreadByInterval(history, n - PUBLISH_LIMIT_PER_MINUTE, n - |kept| - 1);
    }
    var h, k := history + [t], kept + [t];
    assert h[|h| - |k|..] == history[n - |kept|..] + [t];
    forall i | 0 < i < |h| ensures PacedAt(h, i) {
      if i < n {
        assert PacedAt(history, i);
      }
    }
  }

  lemma FrontOfKept(history: seq<int>, kept: seq<int>, now: int)
    requires Paced(history) && KeptAt(history, kept, now) && |kept| <= PUBLISH_LIMIT_PER_MINUTE
    ensures |kept| == 90 ==> kept[0] == history[|history| - 90]
    ensures |kept| < 90 <= |history| ==> history[|history| - 90] + MINUTE <= now
  {
    var n := |history|;
    if |kept| < 90 <= n {
      SpreadByInterval(history, n - 90, n - |kept| - 1);
    }
  }

  /** What the pacer waits for, when it has to wait, is the earliest permitted time. */
  lemma AskedIsEarliest(history: seq<int>, kept: seq<int>, nextPublish: int, created: int, now: int)
    requires Sound(history, kept, nextPublish, created, now)
    ensures var asked := if |kept| >= 90 && kept[0] + MINUTE > nextPublish then kept[0] + MINUTE else nextPublish;
      asked > now ==> asked == Earliest(history, created)
  {
    hide Paced;
    FrontOfKept(history, kept, now);
  }

  class ObserverPublishPacer {
    var nextPublish: int
    var published: seq<int>
    ghost var history: seq<int>
    ghost const created: int

    ghost predicate ValidAt(now: int)
      reads this
    {
      Sound(history, published, nextPublish, created, now)
    }

    constructor (clock: Clock)
      modifies clock
      ensures ValidAt(clock.now) && history == [] && created == clock.now >= old(clock.now)
    {
      var t := clock.Read();
      created := t;
      nextPublish := t + PUBLISH_INTERVAL;
      published := [];
      history := [];
    }

    /** Drop the entries that are a minute old. */
    method Prune(now: int)
      modifies this`published
      ensures published == Pruned(old(published), now)
    {
      while |published| > 0 && now - published[0] >= MINUTE
        invariant Pruned(published, now) == Pruned(old(published), now)
        decreases |published|
      {
        published := published[1..];
      }
    }

    /**
     Returns at a permitted publish time, having slept at most once, and then just until the earliest such
     time. The limits hold for the whole history, so they hold in every run.
     */
    method Wait(clock: Clock) returns (ghost sleeps: nat, ghost asked: int)
      requires ValidAt(clock.now)
      modifies this, clock
      ensures ValidAt(clock.now) && sleeps <= 1
      ensures history == old(history) + [clock.now] && clock.now >= old(clock.now)
      ensures sleeps == 1 ==> asked == Earliest(old(history), created)
    {
      hide Sound, Earliest;
      sleeps, asked := 0, 0;
      while true
        invariant ValidAt(clock.now) && history == old(history)
        invariant clock.now >= old(clock.now)
        invariant sleeps <= 1
        invariant sleeps == 1 ==> asked == Earliest(history, created)
        invariant sleeps == 1 ==> nextPublish <= clock.now
        invariant sleeps == 1 && |published| >= PUBLISH_LIMIT_PER_MINUTE ==> published[0] + MINUTE <= clock.now
        decreases 1 - sleeps
      {
        ghost var before := clock.now;
        var now := clock.Read();
        SoundLater(history, published, nextPublish, created, before, now);
        PrunedIsSound(history, published, nextPublish, created, now);
        Prune(now);
        var publishAt := nextPublish;
        if |published| >= PUBLISH_LIMIT_PER_MINUTE && published[0] + MINUTE > publishAt {
          publishAt := published[0] + MINUTE;
        }
        if publishAt > now {
          AskedIsEarliest(history, published, nextPublish, created, now);
          asked := publishAt;
          clock.SleepUntil(publishAt);
          SoundLater(history, published, nextPublish, created, now, clock.now);
          sleeps := sleeps + 1;
        } else {
          var publishedAt := clock.Read();
          PublishKeepsPace(history, published, nextPublish, created, now, publishedAt);
          published := published + [publishedAt];
          nextPublish := publishedAt + PUBLISH_INTERVAL;
          history := history + [publishedAt];
          return;
        }
      }
    }
  }

  /** Any number of waits in a row, with any delays in between. */
  method PublishMany(clock: Clock, count: nat) returns (pacer: ObserverPublishPacer)
    modifies clock
    ensures fresh(pacer) && |pacer.history| == count && Paced(pacer.history)
  {
    pacer := new ObserverPublishPacer(clock);
    for n := 0 to count
      invariant fresh(pacer) && pacer.ValidAt(clock.now) && |pacer.history| == n
    {
      PublishAfterDelay(clock, pacer);
    }
  }

  method PublishAfterDelay(clock: Clock, pacer: ObserverPublishPacer)
    requires pacer.ValidAt(clock.now)
    modifies clock, pacer
    ensures pacer.ValidAt(clock.now) && |pacer.history| == |old(pacer.history)| + 1
  {
    ghost var before := clock.now;
    var now := clock.Read();
    SoundLater(pacer.history, pacer.published, pacer.nextPublish, pacer.created, before, now);
    ghost var sleeps, asked := pacer.Wait(clock);
  }
}
