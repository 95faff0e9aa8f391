/** The fixed-window rate limiter: what any history of `Allow` calls can get past it. */
module RateLimit {

  datatype Window = Window(count: int, start: int)

  datatype Config = Config(limit: int, window: int, maxKeys: int)

  class Limiter {
    const cfg: Config
    var entries: map<string, Window>

    constructor (cfg: Config)
      ensures this.cfg == cfg && entries == map[]
    {
      this.cfg, entries := cfg, map[];
    }

    /** Records an event against `key` at clock reading `now`. */
    method Allow(key: string, now: int) returns (ok: bool)
      modifies this
      ensures entries == After(cfg, old(entries), Event(key, now))
      ensures ok == Admits(cfg, old(entries), Event(key, now))
    {
      if key !in entries || now - entries[key].start >= cfg.window {
        if |entries| >= cfg.maxKeys {
          EvictExpired(now);
        }
        entries := entries[key := Window(1, now)];
        return true;
      }
      var e := entries[key];
      entries := entries[key := e.(count := e.count + 1)];
      return e.count + 1 <= cfg.limit;
    }

    method EvictExpired(now: int)
      modifies this
      ensures entries == Evicted(cfg, old(entries), now)
    {
      var todo := entries.Keys;
      while todo != {}
        invariant todo <= old(entries).Keys
        invariant entries.Keys <= old(entries).Keys
        invariant forall k :: k in entries ==> entries[k] == old(entries)[k]
        invariant forall k :: k in old(entries) ==>
                    (k in entries <==> k in todo || now - old(entries)[k].start < cfg.window)
      {
        var k :| k in todo;
        todo := todo - {k};
        if now - entries[k].start >= cfg.window {
          entries := entries - {k};
        }
      }
      assert entries == Live(cfg, old(entries), now);
      if |entries| >= cfg.maxKeys {
        entries := map[];
      }
    }
  }

  // ----- one call

  datatype Event = Event(key: string, now: int)

  type Entries = map<string, Window>

  function Live(cfg: Config, m: Entries, now: int): Entries {
    map k | k in m && now - m[k].start < cfg.window :: m[k]
  }

  function Evicted(cfg: Config, m: Entries, now: int): Entries {
    if |Live(cfg, m, now)| >= cfg.maxKeys then map[] else Live(cfg, m, now)
  }

  /** The event opens a new window for its key. */
  predicate Opens(cfg: Config, m: Entries, e: Event) {
    e.key !in m || e.now - m[e.key].start >= cfg.window
  }

  /** The event finds the map full of live windows, and all of them are dropped. */
  predicate Drops(cfg: Config, m: Entries, e: Event) {
    Opens(cfg, m, e) && |m| >= cfg.maxKeys && |Live(cfg, m, e.now)| >= cfg.maxKeys
  }

  predicate Admits(cfg: Config, m: Entries, e: Event) {
    Opens(cfg, m, e) || m[e.key].count + 1 <= cfg.limit
  }

  function After(cfg: Config, m: Entries, e: Event): Entries {
    if Opens(cfg, m, e) then
      (if |m| >= cfg.maxKeys then Evicted(cfg, m, e.now) else m)[e.key := Window(1, e.now)]
    else
      m[e.key := Window(m[e.key].count + 1, m[e.key].start)]
  }

  // ----- histories

  /** The map after a history of calls on a new limiter. */
  function Run(cfg: Config, h: seq<Event>): Entries {
    if h == [] then map[] else After(cfg, Run(cfg, h[..|h| - 1]), h[|h| - 1])
  }

  predicate ClockNeverGoesBack(h: seq<Event>) {
    forall i, j :: 0 <= i < j < |h| ==> h[i].now <= h[j].now
  }

  /** Events of `key` admitted in the half-open interval [from, to). */
  function Admitted(cfg: Config, h: seq<Event>, key: string, from: int, to: int): nat {
    if h == [] then 0
    else
      var front, e := h[..|h| - 1], h[|h| - 1];
      Admitted(cfg, front, key, from, to) +
      if e.key == key && from <= e.now < to && Admits(cfg, Run(cfg, front), e) then 1 else 0
  }

  /** Full-map drops in the half-open interval [from, to). */
  function Dropped(cfg: Config, h: seq<Event>, from: int, to: int): nat {
    if h == [] then 0
    else
      var front, e := h[..|h| - 1], h[|h| - 1];
      Dropped(cfg, front, from, to) + if from <= e.now < to && Drops(cfg, Run(cfg, front), e) then 1 else 0
  }

  predicate Sensible(cfg: Config) {
    cfg.limit >= 1 && cfg.maxKeys >= 1
  }

  function AtMost(x: int, y: int): int {
    if x <= y then x else y
  }

  lemma {:induction false} LiveIsSmaller(cfg: Config, m: Entries, now: int)
    ensures |Live(cfg, m, now)| <= |m|
    ensures (exists k :: k in m && now - m[k].start >= cfg.window) ==> |Live(cfg, m, now)| < |m|
  {
    var dead := set k | k in m && now - m[k].start >= cfg.window;
    assert m.Keys == Live(cfg, m, now).Keys + dead;
    assert Live(cfg, m, now).Keys * dead == {};
    if k :| k in m && now - m[k].start >= cfg.window { assert k in dead; }
  }

  /** The map never holds more than `maxKeys` entries. */
  lemma {:induction false} MapIsBounded(cfg: Config, h: seq<Event>)
    requires cfg.maxKeys >= 1
    ensures |Run(cfg, h)| <= cfg.maxKeys
  {
    if h != [] {
      var front, e := h[..|h| - 1], h[|h| - 1];
      MapIsBounded(cfg, front);
      var m := Run(cfg, front);
      LiveIsSmaller(cfg, m, e.now);
      if Opens(cfg, m, e) {
        var base := if |m| >= cfg.maxKeys then Evicted(cfg, m, e.now) else m;
        assert base[e.key := Window(1, e.now)].Keys == base.Keys + {e.key};
      } else {
        assert After(cfg, m, e).Keys == m.Keys;
      }
    }
  }

  /** The bookkeeping behind the bound, for the interval of one window from `from`:
      what one key was admitted so far, by the window it holds now. */
  ghost predicate Accounted(cfg: Config, m: Entries, key: string, from: int, admitted: nat, dropped: nat) {
    if key !in m then admitted < cfg.limit * (1 + dropped)
    else
      && m[key].count >= 1
      && (m[key].start < from ==> admitted < AtMost(m[key].count, cfg.limit))
      && (m[key].start >= from ==>
            admitted < cfg.limit * (1 + dropped) + AtMost(m[key].count, cfg.limit))
  }

  lemma {:induction false} NothingBefore(cfg: Config, h: seq<Event>, key: string, from: int, to: int)
    requires ClockNeverGoesBack(h) && h != [] && h[|h| - 1].now < from
    ensures Admitted(cfg, h, key, from, to) == Dropped(cfg, h, from, to) == 0
  {
    var front := h[..|h| - 1];
    if front != [] { NothingBefore(cfg, front, key, from, to); }
  }

  /** Only times up to the last event occur as window starts. */
  lemma {:induction false} StartsArePast(cfg: Config, h: seq<Event>, k: string)
    requires ClockNeverGoesBack(h) && k in Run(cfg, h)
    ensures h != [] && Run(cfg, h)[k].start <= h[|h| - 1].now && Run(cfg, h)[k].count >= 1
  {
    var front, e := h[..|h| - 1], h[|h| - 1];
    if k in Run(cfg, front) { StartsArePast(cfg, front, k); }
  }

  lemma {:induction false} AccountedAlongRun(cfg: Config, h: seq<Event>, key: string, from: int)
    requires Sensible(cfg) && ClockNeverGoesBack(h)
    requires h != [] ==> h[|h| - 1].now < from + cfg.window
    ensures var to := from + cfg.window;
      Accounted(cfg, Run(cfg, h), key, from, Admitted(cfg, h, key, from, to), Dropped(cfg, h, from, to))
  {
    if h != [] {
      var to := from + cfg.window;
      var front, e := h[..|h| - 1], h[|h| - 1];
      AccountedAlongRun(cfg, front, key, from);
      if e.now < from {
        NothingBefore(cfg, h, key, from, to);
        if key in Run(cfg, h) { StartsArePast(cfg, h, key); }
      } else {
        AccountedStep(cfg, Run(cfg, front), e, key, from,
                      Admitted(cfg, front, key, from, to), Dropped(cfg, front, from, to));
      }
    }
  }

  lemma AccountedStep(cfg: Config, m: Entries, e: Event, key: string, from: int, admitted: nat, dropped: nat)
    requires Sensible(cfg) && from <= e.now < from + cfg.window
    requires Accounted(cfg, m, key, from, admitted, dropped)
    ensures Accounted(cfg, After(cfg, m, e), key, from,
      admitted + if e.key == key && Admits(cfg, m, e) then 1 else 0,
      dropped + if Drops(cfg, m, e) then 1 else 0)
  {
    var d' := dropped + if Drops(cfg, m, e) then 1 else 0;
    assert cfg.limit * (1 + d') == cfg.limit * (1 + dropped) + if Drops(cfg, m, e) then cfg.limit else 0;
    assert cfg.limit * (1 + dropped) >= cfg.limit by { MulAtLeast(cfg.limit, 1 + dropped); }
  }

  lemma MulAtLeast(x: int, n: int)
    requires x >= 0 && n >= 1
    ensures x * n >= x
  {
  }

  lemma {:induction false} NothingAfter(cfg: Config, h: seq<Event>, n: nat, key: string, from: int, to: int)
    requires n <= |h| && forall i :: n <= i < |h| ==> h[i].now >= to
    ensures Admitted(cfg, h, key, from, to) == Admitted(cfg, h[..n], key, from, to)
    ensures Dropped(cfg, h, from, to) == Dropped(cfg, h[..n], from, to)
    decreases |h|
  {
    if n < |h| {
      NothingAfter(cfg, h[..|h| - 1], n, key, from, to);
      assert h[..|h| - 1][..n] == h[..n];
    } else {
      assert h[..n] == h;
    }
  }

  /** Over every history: any interval one window long admits less than twice the limit of
      one key, and the limit once more for each full-map drop inside it. */
  lemma LessThanTwiceTheLimit(cfg: Config, h: seq<Event>, key: string, from: int)
    requires Sensible(cfg) && ClockNeverGoesBack(h)
    ensures var to := from + cfg.window;
      Admitted(cfg, h, key, from, to) < 2 * cfg.limit + cfg.limit * Dropped(cfg, h, from, to)
  {
    var to := from + cfg.window;
    var n := CutAt(h, to);
    var past := h[..n];
    NothingAfter(cfg, h, n, key, from, to);
    AccountedAlongRun(cfg, past, key, from);
    AccountedBound(cfg, Run(cfg, past), key, from, Admitted(cfg, past, key, from, to), Dropped(cfg, past, from, to));
  }

  /** How much of a history lies before `to`. */
  lemma {:induction false} CutAt(h: seq<Event>, to: int) returns (n: nat)
    requires ClockNeverGoesBack(h)
    ensures n <= |h| && ClockNeverGoesBack(h[..n]) && (n > 0 ==> h[n - 1].now < to)
    ensures forall i :: n <= i < |h| ==> h[i].now >= to
  {
    n := |h|;
    while n > 0 && h[n - 1].now >= to
      invariant 0 <= n <= |h|
      invariant forall i :: n <= i < |h| ==> h[i].now >= to
    {
      n := n - 1;
    }
  }

  lemma AccountedBound(cfg: Config, m: Entries, key: string, from: int, admitted: nat, dropped: nat)
    requires Sensible(cfg) && Accounted(cfg, m, key, from, admitted, dropped)
    ensures admitted < 2 * cfg.limit + cfg.limit * dropped
  {
    assert cfg.limit * (1 + dropped) == cfg.limit + cfg.limit * dropped;
    MulAtLeast(cfg.limit, 1 + dropped);
  }

  lemma OneMore(cfg: Config, h: seq<Event>, e: Event, key: string, from: int, to: int)
    ensures Run(cfg, h + [e]) == After(cfg, Run(cfg, h), e)
    ensures Admitted(cfg, h + [e], key, from, to) == Admitted(cfg, h, key, from, to) +
      if e.key == key && from <= e.now < to && Admits(cfg, Run(cfg, h), e) then 1 else 0
  {
    assert (h + [e])[..|h|] == h;
  }

  ghost predicate EndsBy(h: seq<Event>, now: int) {
    ClockNeverGoesBack(h) && forall i :: 0 <= i < |h| ==> h[i].now <= now
  }

  /** `n` more events of a key whose window is open and has room are all admitted. */
  lemma {:induction false} BurstInsideWindow(cfg: Config, h: seq<Event>, e: Event, n: nat, from: int, to: int)
    returns (g: seq<Event>)
    requires EndsBy(h, e.now) && from <= e.now < to
    requires e.key in Run(cfg, h) && e.now - Run(cfg, h)[e.key].start < cfg.window
    requires Run(cfg, h)[e.key].count + n <= cfg.limit
    ensures EndsBy(g, e.now)
    ensures e.key in Run(cfg, g) && Run(cfg, g)[e.key].start == Run(cfg, h)[e.key].start
    ensures Run(cfg, g)[e.key].count == Run(cfg, h)[e.key].count + n
    ensures Admitted(cfg, g, e.key, from, to) == Admitted(cfg, h, e.key, from, to) + n
  {
    if n == 0 {
      g := h;
    } else {
      var f := BurstInsideWindow(cfg, h, e, n - 1, from, to);
      OneMore(cfg, f, e, e.key, from, to);
      g := f + [e];
    }
  }

  /** A window opened at 0 and filled at its very end. */
  lemma FilledLate(cfg: Config, key: string) returns (h: seq<Event>)
    requires Sensible(cfg) && cfg.window >= 2
    ensures var w := cfg.window;
      && EndsBy(h, w - 1) && key in Run(cfg, h) && Run(cfg, h)[key].start == 0
      && Admitted(cfg, h, key, w - 1, w - 1 + w) == cfg.limit - 1
  {
    var w := cfg.window;
    OneMore(cfg, [], Event(key, 0), key, w - 1, w - 1 + w);
    h := BurstInsideWindow(cfg, [] + [Event(key, 0)], Event(key, w - 1), cfg.limit - 1, w - 1, w - 1 + w);
  }

  /** The bound is reached: one key can be admitted one less than twice the limit. */
  lemma BoundIsReached(cfg: Config, key: string) returns (h: seq<Event>, from: int)
    requires Sensible(cfg) && cfg.window >= 2
    ensures ClockNeverGoesBack(h)
    ensures Admitted(cfg, h, key, from, from + cfg.window) == 2 * cfg.limit - 1
  {
    var w := cfg.window;
    from := w - 1;
    h := FilledLate(cfg, key);
    OneMore(cfg, h, Event(key, w), key, from, from + w);
    h := BurstInsideWindow(cfg, h + [Event(key, w)], Event(key, w), cfg.limit - 1, from, from + w);
  }

  // ----- the other direction: nobody under the limit is refused

  ghost predicate LimitUsedSince(cfg: Config, h: seq<Event>, e: Event, from: int) {
    Admitted(cfg, h, e.key, from, e.now + 1) >= cfg.limit
  }

  lemma {:induction false} LiveWindowCounts(cfg: Config, h: seq<Event>, key: string, to: int)
    requires Sensible(cfg) && ClockNeverGoesBack(h) && key in Run(cfg, h)
    requires h[|h| - 1].now < to
    ensures var w := Run(cfg, h)[key];
      Admitted(cfg, h, key, w.start, to) >= AtMost(w.count, cfg.limit)
    decreases |h|
  {
    var front, e := h[..|h| - 1], h[|h| - 1];
    var m := Run(cfg, front);
    if e.key != key || !Opens(cfg, m, e) {
      assert key in m && m[key].start == Run(cfg, h)[key].start;
      StartsArePast(cfg, front, key);
      LiveWindowCounts(cfg, front, key, to);
    }
  }

  /** An event is refused only when the full limit of its key was admitted within the
      last window before it. */
  lemma RefusedOnlyAtLimit(cfg: Config, h: seq<Event>, e: Event)
    requires Sensible(cfg) && ClockNeverGoesBack(h + [e])
    requires !Admits(cfg, Run(cfg, h), e)
    ensures exists from :: e.now - cfg.window < from <= e.now && LimitUsedSince(cfg, h, e, from)
  {
    var w := Run(cfg, h)[e.key];
    assert ClockNeverGoesBack(h) by {
      forall i, j | 0 <= i < j < |h| ensures h[i].now <= h[j].now {
        assert (h + [e])[i].now <= (h + [e])[j].now;
      }
    }
    StartsArePast(cfg, h, e.key);
    assert (h + [e])[|h| - 1].now <= (h + [e])[|h|].now;
    LiveWindowCounts(cfg, h, e.key, e.now + 1);
    assert LimitUsedSince(cfg, h, e, w.start);
  }
}
