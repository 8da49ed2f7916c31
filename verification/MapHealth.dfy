/**
 Messages and health of a map item (TickProc in tnmMap.c; TnmMapCreateMsg and MsgDeleteProc
 in tnmMapEvent.c). Health is in thousandths of a percent, times in seconds;
 the weighted mean of a tick is computed exactly and truncated.
 */
module MapHealth {
  import opened CNumbers

  const FULL := 100000

  datatype Msg = Msg(time: int, health: int)

  // ----- One tick, without the early exit -----

  predicate Recent(m: Msg, now: int, timeout: int) {
    now - m.time <= timeout
  }

  // v is 0 or the health of a recent message.
  ghost predicate Occurs(msgs: seq<Msg>, now: int, timeout: int, v: int) {
    v == 0 || exists m :: m in msgs && now - m.time <= timeout && m.health == v
  }

  /** lo and hi are the extremes of 0 and the recent messages. */
  ghost predicate Extremes(msgs: seq<Msg>, now: int, timeout: int, lo: int, hi: int) {
    && lo <= 0 <= hi && Occurs(msgs, now, timeout, lo) && Occurs(msgs, now, timeout, hi)
    && forall m :: m in msgs && now - m.time <= timeout ==> lo <= m.health <= hi
  }

  // h is half of v, rounded towards 0.
  predicate IsHalf(v: int, h: int) {
    if v >= 0 then 2 * h <= v <= 2 * h + 1 else 2 * h - 1 <= v <= 2 * h
  }

  /** What the extremes make of the score: nothing lowers it but a negative message, and a positive one
      makes up for half of the difference. It never leaves 0 to 100000. */
  ghost predicate IsScore(lo: int, hi: int, s: int) {
    && 0 <= s <= 100000
    && (lo == 0 ==> s == 100000)
    && (lo < 0 && hi == 0 ==> s == if lo < -100000 then 0 else 100000 + lo)
    && (lo < 0 && hi > 0 ==>
          forall v, h :: v == lo + hi && IsHalf(v, h) ==>
            s == if h > 0 then 100000 else if h < -100000 then 0 else 100000 + h)
  }

  function Score(min: int, max: int): (s: int)
    ensures min <= 0 <= max ==> IsScore(min, max, s)
  {
    var s := FULL + (if min >= 0 then max else if max <= 0 then min else TruncDiv(max + min, 2));
    if s > FULL then FULL else if s < 0 then 0 else s
  }

  function NextHealth(health: int, score: int): int {
    (6 * score + 4 * health) / 10
  }

  predicate InRange(h: int) {
    0 <= h <= FULL
  }

  // ----- The message list -----

  ghost predicate NewestFirst(msgs: seq<Msg>) {
    forall i, j :: 0 <= i < j < |msgs| ==> msgs[i].time >= msgs[j].time
  }

  class ItemHealth {
    var msgs: seq<Msg>
    var health: int

    constructor ()
      ensures msgs == [] && health == FULL && Valid(0)
    {
      msgs, health := [], FULL;
    }

    // No message is newer than now.
    ghost predicate Valid(now: int)
      reads this
    {
      NewestFirst(msgs) && InRange(health) && forall m :: m in msgs ==> m.time <= now
    }

    method CreateMsg(now: int, h: int, ghost before: int)
      requires Valid(before) && before <= now
      modifies this
      ensures Valid(now) && msgs == [Msg(now, h)] + old(msgs) && health == old(health)
    {
      msgs := [Msg(now, h)] + msgs;
    }

    method DeleteMsg(i: nat, ghost now: int)
      requires Valid(now) && i < |msgs|
      modifies this
      ensures Valid(now) && msgs == old(msgs)[..i] + old(msgs)[i + 1..] && health == old(health)
    {
      msgs := msgs[..i] + msgs[i + 1..];
    }

    method RecentHealth(now: int, timeout: int) returns (min: int, max: int)
      requires NewestFirst(msgs)
      ensures Extremes(msgs, now, timeout, min, max)
    {
      min, max := 0, 0;
      var i := 0;
      while i < |msgs|
        invariant 0 <= i <= |msgs| && Extremes(msgs[..i], now, timeout, min, max)
      {
        if now - msgs[i].time > timeout {
          assert forall j :: i <= j < |msgs| ==> !Recent(msgs[j], now, timeout);
          MoreOld(msgs, i, now, timeout, min, max);
          return;
        }
        ghost var lo, hi := min, max;
        if msgs[i].health > max { max := msgs[i].health; }
        if msgs[i].health < min { min := msgs[i].health; }
        OneMore(msgs, i, now, timeout, lo, hi);
        i := i + 1;
      }
      assert msgs[..i] == msgs;
    }

    /** The early exit at the first old message changes nothing: lo and hi are the extremes over the
        whole list, s is the score they make, and the new health is six parts of it and four of the
        old one, rounded down. */
    method Tick(now: int, timeout: int) returns (ghost lo: int, ghost hi: int, ghost s: int)
      requires Valid(now)
      modifies this`health
      ensures Extremes(msgs, now, timeout, lo, hi) && IsScore(lo, hi, s)
      ensures 10 * health <= 6 * s + 4 * old(health) < 10 * health + 10
      ensures health == NextHealth(old(health), s) && Valid(now)
    {
      var min, max := RecentHealth(now, timeout);
      lo, hi, s := min, max, Score(min, max);
      var score := FULL;
      if min >= 0 {
        score := score + max;
      } else if max <= 0 {
        score := score + min;
      } else {
        score := score + TruncDiv(max + min, 2);
      }
      if score > FULL { score := FULL; }
      if score < 0 { score := 0; }
      health := (6 * score + 4 * health) / 10;
    }
  }

  // Messages that are not recent do not matter.
  lemma MoreOld(msgs: seq<Msg>, i: nat, now: int, timeout: int, lo: int, hi: int)
    requires i <= |msgs| && Extremes(msgs[..i], now, timeout, lo, hi)
    requires forall j :: i <= j < |msgs| ==> !Recent(msgs[j], now, timeout)
    ensures Extremes(msgs, now, timeout, lo, hi)
  {
    assert forall m :: m in msgs[..i] ==> m in msgs;
    forall m | m in msgs && Recent(m, now, timeout) ensures m in msgs[..i] {
      var j :| 0 <= j < |msgs| && msgs[j] == m;
      assert msgs[..i][j] == m;
    }
  }

  lemma OneMore(msgs: seq<Msg>, i: nat, now: int, timeout: int, lo: int, hi: int)
    requires i < |msgs| && Extremes(msgs[..i], now, timeout, lo, hi) && Recent(msgs[i], now, timeout)
    ensures Extremes(msgs[..i + 1], now, timeout, Min(lo, msgs[i].health), Max(hi, msgs[i].health))
  {
    assert msgs[..i + 1] == msgs[..i] + [msgs[i]];
    assert msgs[i] in msgs[..i + 1] && forall m :: m in msgs[..i] ==> m in msgs[..i + 1];
  }

  function Min(a: int, b: int): int { if a < b then a else b }
  function Max(a: int, b: int): int { if a > b then a else b }

  // ----- Bounds -----

  /** A tick moves the health towards the score and never past it: health that starts between 0 and
      100000 stays there, since every score does. */
  lemma TickBetween(health: int, min: int, max: int)
    ensures InRange(Score(min, max))
    ensures var next := NextHealth(health, Score(min, max));
            Min(health, Score(min, max)) <= next <= Max(health, Score(min, max))
  {
    var s := Score(min, max);
    var next := (6 * s + 4 * health) / 10;
    assert 10 * next <= 6 * s + 4 * health < 10 * next + 10;
  }

  // ----- Recovery -----

  function Quiet(health: int, n: nat): int
    decreases n
  {
    if n == 0 then health else Quiet(NextHealth(health, FULL), n - 1)
  }

  /** A tick without recent messages never lowers the health, and shrinks its deficit to four tenths,
      rounded up: strictly, until the deficit is at most 1. */
  lemma QuietTick(health: int)
    requires InRange(health)
    ensures var next := NextHealth(health, FULL);
            && InRange(next) && health <= next
            && 4 * (FULL - health) <= 10 * (FULL - next) < 4 * (FULL - health) + 10
            && (FULL - health > 1 ==> FULL - next < FULL - health)
  {
  }

  lemma {:induction false} QuietMonotone(a: int, b: int, n: nat)
    requires a <= b
    ensures Quiet(a, n) <= Quiet(b, n)
    decreases n
  {
    if n > 0 { QuietMonotone(NextHealth(a, FULL), NextHealth(b, FULL), n - 1); }
  }

  lemma QuietStays(health: int, n: nat)
    requires health == FULL || health == FULL - 1
    ensures Quiet(health, n) == health
    decreases n
  {
    if n > 0 { QuietStays(NextHealth(health, FULL), n - 1); }
  }

  /** Thirteen quiet ticks bring every item back to within 1 of full health, and from the bottom
      no fewer do. */
  lemma RecoversInThirteen(health: int)
    requires InRange(health)
    ensures FULL - 1 <= Quiet(health, 13) <= FULL
    ensures Quiet(0, 12) < FULL - 1
  {
    var path := [0, 60000, 84000, 93600, 97440, 98976, 99590, 99836, 99934, 99973, 99989, 99995, 99998, 99999];
    QuietAlong(path, 12);
    QuietAlong(path, 13);
    QuietMonotone(0, health, 13);
    QuietMonotone(health, FULL, 13);
    QuietStays(FULL, 13);
  }

  lemma {:induction false} QuietAlong(path: seq<int>, n: nat)
    requires n < |path| && forall k :: 0 <= k < |path| - 1 ==> path[k + 1] == NextHealth(path[k], FULL)
    ensures Quiet(path[0], n) == path[n]
    decreases n
  {
    if n > 0 { QuietAlong(path[1..], n - 1); }
  }
}
