/**
 * The game's rules as pure functions: what an upgrade costs, when a tap or
 * a daily claim is refused, what each accepted action does to a user's row,
 * and the facts these rules promise over many calls: at most ten accepted
 * taps per second, at most one daily reward per UTC date, and the coin
 * totals the ledger keeps.
 */
module Rules {
  import opened Wrappers
  import opened Models

  function Pow2(n: nat): (r: nat)
    ensures r >= 1
  {
    if n == 0 then 1 else 2 * Pow2(n - 1)
  }

  /** app.py:94: the price of the next tap-power level, `100 * 2 ** (tap_power - 1)`. */
  function UpgradeCost(tapPower: int): (c: int)
    requires tapPower >= 1
    ensures c >= 100
  {
    100 * Pow2(tapPower - 1)
  }

  /** Each level costs twice the one before, starting at 100. */
  lemma UpgradeCostDoubles(tapPower: int)
    requires tapPower >= 1
    ensures UpgradeCost(1) == 100
    ensures UpgradeCost(tapPower + 1) == 2 * UpgradeCost(tapPower)
  {
  }

  /** What buying `n` levels in a row, starting at power `tapPower`, costs. */
  function CostOfUpgrades(tapPower: int, n: nat): int
    requires tapPower >= 1
    decreases n
  {
    if n == 0 then 0 else UpgradeCost(tapPower) + CostOfUpgrades(tapPower + 1, n - 1)
  }

  /** Buying `n` levels from `tapPower` costs `(2^n - 1)` times the next level's price. */
  lemma {:induction false} CostOfUpgradesClosedForm(tapPower: int, n: nat)
    requires tapPower >= 1
    ensures CostOfUpgrades(tapPower, n) == UpgradeCost(tapPower) * (Pow2(n) - 1)
    decreases n
  {
    if n > 0 {
      CostOfUpgradesClosedForm(tapPower + 1, n - 1);
      UpgradeCostDoubles(tapPower);
      var c := UpgradeCost(tapPower);
      calc {
        CostOfUpgrades(tapPower, n);
        c + UpgradeCost(tapPower + 1) * (Pow2(n - 1) - 1);
        c + 2 * c * (Pow2(n - 1) - 1);
        c * (2 * Pow2(n - 1) - 1);
        c * (Pow2(n) - 1);
      }
    }
  }

  /** The least time between two accepted taps: 0.1 s, in microseconds. */
  const TAP_INTERVAL: int := 100_000
  const MICROS_PER_SECOND: int := 1_000_000
  const MICROS_PER_DAY: int := 86_400_000_000

  /**
   * app.py:63: the previous tap was less than 0.1 s ago. `total_seconds()`
   * is the microsecond count divided by 10^6, and that quotient is below the
   * double nearest 0.1 exactly when the count is below 100000.
   */
  predicate TapRateLimited(lastTap: Option<Time>, now: Time)
  {
    lastTap.Some? && now - lastTap.value < TAP_INTERVAL
  }

  /** The UTC calendar date of a time, as a day number: `datetime.date()`. */
  function UtcDate(t: Time): int
  {
    t / MICROS_PER_DAY
  }

  /** app.py:138-141: a reward was already claimed on today's UTC date. */
  predicate ClaimedToday(lastClaim: Option<Time>, now: Time)
  {
    lastClaim.Some? && UtcDate(lastClaim.value) == UtcDate(now)
  }

  /** `telegram_id[:8]`: the referral code a referred user is given. */
  function CodeFor(telegramId: string): (code: string)
    ensures |code| <= 8 && code <= telegramId
    ensures |telegramId| >= 8 ==> |code| == 8
    ensures |telegramId| < 8 ==> code == telegramId
  {
    if |telegramId| <= 8 then telegramId else telegramId[..8]
  }

  /** app.py:71-72: an accepted tap. */
  function Tapped(u: User, now: Time): User
  {
    u.(coins := u.coins + u.tapPower, lastTap := Some(now))
  }

  /** app.py:100-111: an accepted upgrade. */
  function Upgraded(u: User): User
    requires u.tapPower >= 1
  {
    u.(coins := u.coins - UpgradeCost(u.tapPower), tapPower := u.tapPower + 1)
  }

  /** app.py:144-145: an accepted daily claim. */
  function Claimed(u: User, now: Time): User
  {
    u.(coins := u.coins + DAILY_REWARD, lastDailyClaim := Some(now))
  }

  function Credited(u: User, amount: int): User
  {
    u.(coins := u.coins + amount)
  }

  /** app.py:231: the balance after a withdrawal request. */
  function Emptied(u: User): User
  {
    u.(coins := 0)
  }

  /** app.py:172-178, 190: the user a referral creates, holding the bonus. */
  function Referred(telegramId: string, username: Option<string>, photoUrl: Option<string>, referrer: UserId, now: Time): User
  {
    NewUser(telegramId, username, photoUrl, Some(CodeFor(telegramId)), Some(referrer), now).(coins := REFERRAL_BONUS)
  }

  // ---- Coin totals ----

  function TotalCoins(users: seq<User>): int
  {
    if users == [] then 0 else TotalCoins(users[..|users| - 1]) + users[|users| - 1].coins
  }

  function TotalWithdrawn(withdrawals: seq<Withdrawal>): int
  {
    if withdrawals == [] then 0
    else TotalWithdrawn(withdrawals[..|withdrawals| - 1]) + withdrawals[|withdrawals| - 1].amount
  }

  /** Replacing one row changes the total by the change in that row's balance. */
  lemma {:induction false} TotalCoinsUpdate(users: seq<User>, i: nat, u: User)
    requires i < |users|
    ensures TotalCoins(users[i := u]) == TotalCoins(users) - users[i].coins + u.coins
  {
    var n := |users| - 1;
    if i < n {
      assert users[i := u][..n] == users[..n][i := u];
      TotalCoinsUpdate(users[..n], i, u);
    } else {
      assert users[i := u][..n] == users[..n];
    }
  }

  lemma TotalCoinsAppend(users: seq<User>, u: User)
    ensures TotalCoins(users + [u]) == TotalCoins(users) + u.coins
  {
  }

  lemma TotalWithdrawnAppend(withdrawals: seq<Withdrawal>, w: Withdrawal)
    ensures TotalWithdrawn(withdrawals + [w]) == TotalWithdrawn(withdrawals) + w.amount
  {
  }

  /** With no negative balance, the total is not negative. */
  lemma {:induction false} TotalCoinsNonNegative(users: seq<User>)
    requires forall i :: 0 <= i < |users| ==> users[i].coins >= 0
    ensures TotalCoins(users) >= 0
  {
    if users != [] {
      TotalCoinsNonNegative(users[..|users| - 1]);
    }
  }

  // ---- Runs of taps ----

  /** The times of the accepted taps, in order, when a user last tapping at `last` taps at each of `times`. */
  function AcceptedTaps(last: Option<Time>, times: seq<Time>): seq<Time>
    decreases |times|
  {
    if times == [] then []
    else if TapRateLimited(last, times[0]) then AcceptedTaps(last, times[1..])
    else [times[0]] + AcceptedTaps(Some(times[0]), times[1..])
  }

  /** The user after tapping at each of `times`, a refused tap changing nothing. */
  function TapAll(u: User, times: seq<Time>): User
    decreases |times|
  {
    if times == [] then u
    else if TapRateLimited(u.lastTap, times[0]) then TapAll(u, times[1..])
    else TapAll(Tapped(u, times[0]), times[1..])
  }

  /** A run of taps earns the tap power once per accepted tap, and never changes the tap power. */
  lemma {:induction false} TapAllEarns(u: User, times: seq<Time>)
    ensures TapAll(u, times).tapPower == u.tapPower
    ensures TapAll(u, times).coins == u.coins + |AcceptedTaps(u.lastTap, times)| * u.tapPower
    decreases |times|
  {
    if times != [] {
      if TapRateLimited(u.lastTap, times[0]) {
        TapAllEarns(u, times[1..]);
      } else {
        var v := Tapped(u, times[0]);
        TapAllEarns(v, times[1..]);
        var n := |AcceptedTaps(v.lastTap, times[1..])|;
        assert |AcceptedTaps(u.lastTap, times)| == n + 1;
        assert u.coins + u.tapPower + n * u.tapPower == u.coins + (n + 1) * u.tapPower;
      }
    }
  }

  ghost predicate Spaced(acc: seq<Time>)
  {
    forall i :: 0 <= i < |acc| - 1 ==> acc[i + 1] - acc[i] >= TAP_INTERVAL
  }

  /** Accepted taps are at least 0.1 s apart, after the previous one, and drawn from the taps made. */
  lemma {:induction false} AcceptedTapsSpaced(last: Option<Time>, times: seq<Time>)
    ensures Spaced(AcceptedTaps(last, times))
    ensures forall k :: 0 <= k < |AcceptedTaps(last, times)| ==> AcceptedTaps(last, times)[k] in times
    ensures last.Some? && |AcceptedTaps(last, times)| > 0 ==> AcceptedTaps(last, times)[0] - last.value >= TAP_INTERVAL
    decreases |times|
  {
    if times != [] {
      if TapRateLimited(last, times[0]) {
        AcceptedTapsSpaced(last, times[1..]);
      } else {
        AcceptedTapsSpaced(Some(times[0]), times[1..]);
      }
    }
  }

  /** Spaced times span at least one interval per gap. */
  lemma {:induction false} SpacedSpan(acc: seq<Time>)
    requires Spaced(acc) && |acc| > 0
    ensures acc[|acc| - 1] - acc[0] >= (|acc| - 1) * TAP_INTERVAL
  {
    if |acc| > 1 {
      SpacedSpan(acc[..|acc| - 1]);
    }
  }

  /** app.py:61: whatever the client sends, at most ten taps are accepted within any one second. */
  lemma AtMostTenTapsPerSecond(last: Option<Time>, times: seq<Time>, start: Time)
    requires forall k :: 0 <= k < |times| ==> start <= times[k] < start + MICROS_PER_SECOND
    ensures |AcceptedTaps(last, times)| <= 10
  {
    var acc := AcceptedTaps(last, times);
    AcceptedTapsSpaced(last, times);
    if |acc| > 0 {
      SpacedSpan(acc);
      assert acc[0] in times && acc[|acc| - 1] in times;
    }
  }

  /** So one second of tapping earns at most ten times the tap power. */
  lemma CoinsPerSecondBounded(u: User, times: seq<Time>, start: Time)
    requires u.tapPower >= 0
    requires forall k :: 0 <= k < |times| ==> start <= times[k] < start + MICROS_PER_SECOND
    ensures TapAll(u, times).coins <= u.coins + 10 * u.tapPower
  {
    TapAllEarns(u, times);
    AtMostTenTapsPerSecond(u.lastTap, times, start);
    ScaleAtMostTen(|AcceptedTaps(u.lastTap, times)|, u.tapPower);
  }

  lemma ScaleAtMostTen(n: nat, p: int)
    requires n <= 10 && p >= 0
    ensures n * p <= 10 * p
  {
  }

  // ---- Runs of daily claims ----

  /** The times of the accepted claims, in order, when a user last claiming at `last` claims at each of `times`. */
  function AcceptedClaims(last: Option<Time>, times: seq<Time>): seq<Time>
    decreases |times|
  {
    if times == [] then []
    else if ClaimedToday(last, times[0]) then AcceptedClaims(last, times[1..])
    else [times[0]] + AcceptedClaims(Some(times[0]), times[1..])
  }

  ghost predicate NonDecreasing(times: seq<Time>)
  {
    forall i, j :: 0 <= i < j < |times| ==> times[i] <= times[j]
  }

  lemma UtcDateMonotone(a: Time, b: Time)
    requires a <= b
    ensures UtcDate(a) <= UtcDate(b)
  {
  }

  /**
   * As the clock moves forward, every accepted claim falls on a later UTC
   * date than the previous one: at most one reward per date.
   */
  lemma {:induction false} ClaimDatesIncrease(last: Option<Time>, times: seq<Time>)
    requires NonDecreasing(times)
    requires last.Some? ==> forall k :: 0 <= k < |times| ==> last.value <= times[k]
    ensures forall i, j :: 0 <= i < j < |AcceptedClaims(last, times)|
              ==> UtcDate(AcceptedClaims(last, times)[i]) < UtcDate(AcceptedClaims(last, times)[j])
    ensures forall k :: last.Some? && 0 <= k < |AcceptedClaims(last, times)|
              ==> UtcDate(last.value) < UtcDate(AcceptedClaims(last, times)[k])
    decreases |times|
  {
    if times != [] {
      var t, rest := times[0], times[1..];
      assert forall k :: 0 <= k < |rest| ==> rest[k] == times[k + 1];
      assert NonDecreasing(rest);
      if ClaimedToday(last, t) {
        ClaimDatesIncrease(last, rest);
        assert AcceptedClaims(last, times) == AcceptedClaims(last, rest);
      } else {
        assert forall k :: 0 <= k < |rest| ==> t <= rest[k];
        ClaimDatesIncrease(Some(t), rest);
        var acc := AcceptedClaims(Some(t), rest);
        assert forall k :: 0 <= k < |acc| ==> UtcDate(t) < UtcDate(acc[k]);
        assert forall i, j :: 0 <= i < j < |acc| ==> UtcDate(acc[i]) < UtcDate(acc[j]);
        var all := [t] + acc;
        assert AcceptedClaims(last, times) == all;
        forall i, j | 0 <= i < j < |all|
          ensures UtcDate(all[i]) < UtcDate(all[j])
        {
          assert all[j] == acc[j - 1];
          if i > 0 {
            assert all[i] == acc[i - 1];
          }
        }
        if last.Some? {
          assert last.value <= times[0];
          UtcDateMonotone(last.value, t);
          forall k | 0 <= k < |all|
            ensures UtcDate(last.value) < UtcDate(all[k])
          {
            if k > 0 {
              assert all[k] == acc[k - 1];
            }
          }
        }
      }
    }
  }

  /** The user after claiming at each of `times`, a refused claim changing nothing. */
  function ClaimAll(u: User, times: seq<Time>): User
    decreases |times|
  {
    if times == [] then u
    else if ClaimedToday(u.lastDailyClaim, times[0]) then ClaimAll(u, times[1..])
    else ClaimAll(Claimed(u, times[0]), times[1..])
  }

  /** A run of claims pays the daily reward once per accepted claim. */
  lemma {:induction false} ClaimAllEarns(u: User, times: seq<Time>)
    ensures ClaimAll(u, times).coins == u.coins + |AcceptedClaims(u.lastDailyClaim, times)| * DAILY_REWARD
    decreases |times|
  {
    if times != [] {
      if ClaimedToday(u.lastDailyClaim, times[0]) {
        ClaimAllEarns(u, times[1..]);
      } else {
        ClaimAllEarns(Claimed(u, times[0]), times[1..]);
      }
    }
  }

  /** A claim a full day or more after the previous one is always accepted. */
  lemma ClaimAfterADayAccepted(last: Time, now: Time)
    requires now - last >= MICROS_PER_DAY
    ensures !ClaimedToday(Some(last), now)
  {
  }

  /** The window is the calendar date, not 24 hours: two claims a microsecond apart across midnight both pay. */
  lemma ClaimsAcrossMidnight()
    ensures AcceptedClaims(None, [MICROS_PER_DAY - 1, MICROS_PER_DAY]) == [MICROS_PER_DAY - 1, MICROS_PER_DAY]
  {
    var ts := [MICROS_PER_DAY - 1, MICROS_PER_DAY];
    assert UtcDate(MICROS_PER_DAY - 1) == 0 && UtcDate(MICROS_PER_DAY) == 1;
    assert ts[1..] == [MICROS_PER_DAY];
    assert [MICROS_PER_DAY][1..] == [];
    assert AcceptedClaims(Some(MICROS_PER_DAY), []) == [];
    assert AcceptedClaims(Some(MICROS_PER_DAY - 1), [MICROS_PER_DAY]) == [MICROS_PER_DAY];
  }
}
