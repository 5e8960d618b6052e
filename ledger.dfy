/**
 * The ledger: the five tables as fields of a store, and the write handlers
 * of app.py as methods on it, each after the caller has been authenticated
 * and looked up. A refused request returns its error and leaves every
 * table as it was; an accepted one commits all of its changes together.
 */
module Ledger {
  import opened Wrappers
  import opened Models
  import opened Rules
  import opened Queries

  /** Why a handler refused, after authentication (HTTP 400 or 429, or a failed commit). */
  datatype LedgerError =
    | TapTooFast              // app.py:64, 429
    | NotEnoughCoins          // app.py:97
    | AlreadyClaimedToday     // app.py:141
    | InvalidReferralCode     // app.py:169
    | BelowWithdrawalMinimum  // app.py:219
    | IntegrityError          // the commit breaks a unique or NOT NULL constraint and is rolled back

  /** Row invariants the handlers keep: no negative balance, tap power at least 1, a referrer is an earlier row, codes fit `String(10)`. */
  ghost predicate RowValid(users: seq<User>, i: nat)
    requires i < |users|
  {
    var u := users[i];
    && u.coins >= 0
    && u.tapPower >= 1
    && (u.referrerId.Some? ==> u.referrerId.value < i)
    && (u.referralCode.Some? ==> |u.referralCode.value| <= 10)
  }

  ghost predicate UsersValid(users: seq<User>)
  {
    && (forall i :: 0 <= i < |users| ==> RowValid(users, i))
    && UniqueTelegramIds(users)
    && UniqueReferralCodes(users)
  }

  /**
   * Each referral row names an earlier referrer and a referred user who
   * records that referrer, and no user is referred twice.
   */
  ghost predicate ReferralsValid(users: seq<User>, referrals: seq<Referral>)
  {
    && (forall k :: 0 <= k < |referrals| ==>
          && referrals[k].referrerId < referrals[k].referredId < |users|
          && users[referrals[k].referredId].referrerId == Some(referrals[k].referrerId))
    && (forall k, l :: 0 <= k < l < |referrals| ==> referrals[k].referredId < referrals[l].referredId)
  }

  /** Each withdrawal is a pending request of at least the minimum by an existing user. */
  ghost predicate WithdrawalsValid(users: seq<User>, withdrawals: seq<Withdrawal>)
  {
    forall k :: 0 <= k < |withdrawals| ==>
      && withdrawals[k].userId < |users|
      && withdrawals[k].status == PENDING
      && withdrawals[k].amount >= WITHDRAWAL_MIN
  }

  ghost predicate TapsValid(users: seq<User>, taps: seq<Tap>)
  {
    forall k :: 0 <= k < |taps| ==> taps[k].userId < |users|
  }

  /** Each upgrade paid the price of the level below it, and the user holds at least that level now. */
  ghost predicate UpgradesValid(users: seq<User>, upgrades: seq<Upgrade>)
  {
    forall k :: 0 <= k < |upgrades| ==>
      && upgrades[k].userId < |users|
      && 2 <= upgrades[k].newPowerLevel <= users[upgrades[k].userId].tapPower
      && upgrades[k].cost == UpgradeCost(upgrades[k].newPowerLevel - 1)
  }

  /** `after` extends `before`, keeping each row's referrer and never lowering a tap power. */
  ghost predicate Grows(before: seq<User>, after: seq<User>)
  {
    && |before| <= |after|
    && forall i :: 0 <= i < |before| ==>
         after[i].referrerId == before[i].referrerId && after[i].tapPower >= before[i].tapPower
  }

  /** The record tables stay valid as the users table grows. */
  lemma GrowsKeepsRecords(
    before: seq<User>, after: seq<User>, referrals: seq<Referral>,
    withdrawals: seq<Withdrawal>, taps: seq<Tap>, upgrades: seq<Upgrade>)
    requires Grows(before, after)
    requires ReferralsValid(before, referrals) && WithdrawalsValid(before, withdrawals)
    requires TapsValid(before, taps) && UpgradesValid(before, upgrades)
    ensures ReferralsValid(after, referrals) && WithdrawalsValid(after, withdrawals)
    ensures TapsValid(after, taps) && UpgradesValid(after, upgrades)
  {
  }

  /** A pending request of at least the minimum by an existing user keeps the withdrawals table valid. */
  lemma WithdrawalsAppend(users: seq<User>, withdrawals: seq<Withdrawal>, w: Withdrawal)
    requires WithdrawalsValid(users, withdrawals)
    requires w.userId < |users| && w.status == PENDING && w.amount >= WITHDRAWAL_MIN
    ensures WithdrawalsValid(users, withdrawals + [w])
  {
  }

  /** Emptying a balance into a pending request keeps every table valid, and moves the coins into the withdrawn total. */
  lemma WithdrawKeepsValid(
    users: seq<User>, referrals: seq<Referral>, withdrawals: seq<Withdrawal>,
    taps: seq<Tap>, upgrades: seq<Upgrade>, id: nat, w: Withdrawal)
    requires UsersValid(users) && ReferralsValid(users, referrals) && WithdrawalsValid(users, withdrawals)
    requires TapsValid(users, taps) && UpgradesValid(users, upgrades)
    requires id < |users| && w.userId == id && w.status == PENDING
    requires w.amount == users[id].coins && w.amount >= WITHDRAWAL_MIN
    ensures var after := users[id := Emptied(users[id])];
            && UsersValid(after) && ReferralsValid(after, referrals) && WithdrawalsValid(after, withdrawals + [w])
            && TapsValid(after, taps) && UpgradesValid(after, upgrades)
            && TotalCoins(after) + TotalWithdrawn(withdrawals + [w]) == TotalCoins(users) + TotalWithdrawn(withdrawals)
  {
    var v := Emptied(users[id]);
    var after := users[id := v];
    assert RowValid(users, id);
    UpdateKeepsUsersValid(users, id, v);
    TotalCoinsUpdate(users, id, v);
    TotalWithdrawnAppend(withdrawals, w);
    GrowsKeepsRecords(users, after, referrals, withdrawals, taps, upgrades);
    WithdrawalsAppend(after, withdrawals, w);
  }

  /** Changing one row's balance, tap power or timestamps keeps the users table valid. */
  lemma UpdateKeepsUsersValid(users: seq<User>, i: nat, u: User)
    requires UsersValid(users) && i < |users|
    requires u.telegramId == users[i].telegramId && u.referralCode == users[i].referralCode
    requires u.referrerId == users[i].referrerId
    requires u.coins >= 0 && u.tapPower >= 1
    ensures UsersValid(users[i := u])
  {
    var s := users[i := u];
    assert forall j :: 0 <= j < |users| ==> s[j].telegramId == users[j].telegramId && s[j].referralCode == users[j].referralCode;
    forall j | 0 <= j < |s|
      ensures RowValid(s, j)
    {
      assert RowValid(users, j);
    }
  }

  /** A referred user joining keeps the users table and the referral table valid, and adds the two bonuses to the total. */
  lemma JoinKeepsValid(users: seq<User>, referrals: seq<Referral>, referrer: UserId, joined: User, now: Time)
    requires UsersValid(users) && ReferralsValid(users, referrals)
    requires referrer < |users| && Insertable(users, joined)
    requires joined.referrerId == Some(referrer) && joined.coins == REFERRAL_BONUS && joined.tapPower >= 1
    requires joined.referralCode.Some? ==> |joined.referralCode.value| <= 10
    ensures var after := users[referrer := Credited(users[referrer], REFERRAL_BONUS)] + [joined];
            && UsersValid(after)
            && Grows(users, after)
            && ReferralsValid(after, referrals + [NewReferral(referrer, |users|, now)])
            && TotalCoins(after) == TotalCoins(users) + 2 * REFERRAL_BONUS
  {
    var credited := Credited(users[referrer], REFERRAL_BONUS);
    assert RowValid(users, referrer);
    UpdateKeepsUsersValid(users, referrer, credited);
    var mid := users[referrer := credited];
    assert Insertable(mid, joined) by {
      assert forall j :: 0 <= j < |users| ==> mid[j].telegramId == users[j].telegramId && mid[j].referralCode == users[j].referralCode;
    }
    InsertKeepsUnique(mid, joined);
    var after := mid + [joined];
    forall j | 0 <= j < |after|
      ensures RowValid(after, j)
    {
      if j < |mid| {
        assert RowValid(mid, j);
        assert after[j] == mid[j];
      }
    }
    TotalCoinsUpdate(users, referrer, credited);
    TotalCoinsAppend(mid, joined);
    var refs := referrals + [NewReferral(referrer, |users|, now)];
    forall k | 0 <= k < |refs|
      ensures refs[k].referrerId < refs[k].referredId < |after|
      ensures after[refs[k].referredId].referrerId == Some(refs[k].referrerId)
    {
      if k < |referrals| {
        assert refs[k] == referrals[k];
      }
    }
  }

  /**
   * A referral signup keeps every table valid, adds the two bonuses to the
   * total, and raises exactly the referrer's referral count, by one.
   */
  lemma ReferralKeepsValid(
    users: seq<User>, referrals: seq<Referral>, withdrawals: seq<Withdrawal>,
    taps: seq<Tap>, upgrades: seq<Upgrade>, referrer: UserId, joined: User, now: Time)
    requires UsersValid(users) && ReferralsValid(users, referrals) && WithdrawalsValid(users, withdrawals)
    requires TapsValid(users, taps) && UpgradesValid(users, upgrades)
    requires referrer < |users| && Insertable(users, joined)
    requires joined.referrerId == Some(referrer) && joined.coins == REFERRAL_BONUS && joined.tapPower >= 1
    requires joined.referralCode.Some? ==> |joined.referralCode.value| <= 10
    ensures var after := users[referrer := Credited(users[referrer], REFERRAL_BONUS)] + [joined];
            var refs := referrals + [NewReferral(referrer, |users|, now)];
            && UsersValid(after) && ReferralsValid(after, refs) && WithdrawalsValid(after, withdrawals)
            && TapsValid(after, taps) && UpgradesValid(after, upgrades)
            && TotalCoins(after) == TotalCoins(users) + 2 * REFERRAL_BONUS
            && (forall id :: ReferralCount(refs, id) == ReferralCount(referrals, id) + (if id == referrer then 1 else 0))
  {
    var after := users[referrer := Credited(users[referrer], REFERRAL_BONUS)] + [joined];
    var record := NewReferral(referrer, |users|, now);
    JoinKeepsValid(users, referrals, referrer, joined, now);
    GrowsKeepsRecords(users, after, referrals, withdrawals, taps, upgrades);
    forall id
      ensures ReferralCount(referrals + [record], id) == ReferralCount(referrals, id) + (if id == referrer then 1 else 0)
    {
      ReferralCountAppend(referrals, record, id);
    }
  }

  class Store {
    var users: seq<User>
    var referrals: seq<Referral>
    var withdrawals: seq<Withdrawal>
    var taps: seq<Tap>
    var upgrades: seq<Upgrade>

    ghost predicate Valid()
      reads this
    {
      && UsersValid(users)
      && ReferralsValid(users, referrals)
      && WithdrawalsValid(users, withdrawals)
      && TapsValid(users, taps)
      && UpgradesValid(users, upgrades)
    }

    /** A store holding the given users and no recorded activity. */
    constructor (seed: seq<User>)
      requires UsersValid(seed)
      ensures Valid()
      ensures users == seed && referrals == [] && withdrawals == [] && taps == [] && upgrades == []
    {
      users := seed;
      referrals := [];
      withdrawals := [];
      taps := [];
      upgrades := [];
    }

    /** app.py:61-75: a tap, refused when the previous one was less than 0.1 s ago; returns the new balance. */
    method HandleTap(id: UserId, now: Time) returns (r: Result<int, LedgerError>)
      requires Valid() && id < |users|
      modifies this
      ensures Valid()
      ensures r.Err? <==> TapRateLimited(old(users[id].lastTap), now)
      ensures r.Err? ==> r.error == TapTooFast && unchanged(this)
      ensures r.Ok? ==> users == old(users)[id := Tapped(old(users[id]), now)]
      ensures r.Ok? ==> users[id].coins == old(users[id].coins) + old(users[id].tapPower) && r.value == users[id].coins
      ensures r.Ok? ==> taps == old(taps) + [Tap(id, now)]
      ensures r.Ok? ==> TotalCoins(users) == TotalCoins(old(users)) + old(users[id].tapPower)
      ensures referrals == old(referrals) && withdrawals == old(withdrawals) && upgrades == old(upgrades)
    {
      var u := users[id];
      if TapRateLimited(u.lastTap, now) {
        return Err(TapTooFast);
      }
      var v := Tapped(u, now);
      assert RowValid(users, id);
      UpdateKeepsUsersValid(users, id, v);
      TotalCoinsUpdate(users, id, v);
      GrowsKeepsRecords(users, users[id := v], referrals, withdrawals, taps, upgrades);
      users := users[id := v];
      taps := taps + [Tap(id, now)];
      r := Ok(v.coins);
    }

    /**
     * app.py:93-117: buys the next tap-power level at `UpgradeCost`, refused
     * when the balance is short; returns the new tap power and balance.
     */
    method HandleUpgrade(id: UserId, now: Time) returns (r: Result<(int, int), LedgerError>)
      requires Valid() && id < |users|
      modifies this
      ensures Valid()
      ensures old(users[id].tapPower) >= 1
      ensures r.Err? <==> old(users[id].coins) < UpgradeCost(old(users[id].tapPower))
      ensures r.Err? ==> r.error == NotEnoughCoins && unchanged(this)
      ensures r.Ok? ==> users == old(users)[id := Upgraded(old(users[id]))]
      ensures r.Ok? ==> var cost := UpgradeCost(old(users[id].tapPower));
                        && users[id].tapPower == old(users[id].tapPower) + 1
                        && users[id].coins == old(users[id].coins) - cost
                        && r.value == (users[id].tapPower, users[id].coins)
                        && upgrades == old(upgrades) + [Upgrade(id, users[id].tapPower, cost, now)]
                        && TotalCoins(users) == TotalCoins(old(users)) - cost
      ensures referrals == old(referrals) && withdrawals == old(withdrawals) && taps == old(taps)
    {
      var u := users[id];
      assert RowValid(users, id);
      var cost := UpgradeCost(u.tapPower);
      if u.coins < cost {
        return Err(NotEnoughCoins);
      }
      var v := Upgraded(u);
      UpdateKeepsUsersValid(users, id, v);
      TotalCoinsUpdate(users, id, v);
      GrowsKeepsRecords(users, users[id := v], referrals, withdrawals, taps, upgrades);
      users := users[id := v];
      upgrades := upgrades + [Upgrade(id, v.tapPower, cost, now)];
      r := Ok((v.tapPower, v.coins));
    }

    /**
     * app.py:135-151: the daily reward, refused when the last claim fell on
     * today's UTC date; returns the new balance and claim time.
     */
    method ClaimDailyReward(id: UserId, now: Time) returns (r: Result<(int, Time), LedgerError>)
      requires Valid() && id < |users|
      modifies this
      ensures Valid()
      ensures r.Err? <==> ClaimedToday(old(users[id].lastDailyClaim), now)
      ensures r.Err? ==> r.error == AlreadyClaimedToday && unchanged(this)
      ensures r.Ok? ==> users == old(users)[id := Claimed(old(users[id]), now)]
      ensures r.Ok? ==> users[id].coins == old(users[id].coins) + DAILY_REWARD && r.value == (users[id].coins, now)
      ensures r.Ok? ==> TotalCoins(users) == TotalCoins(old(users)) + DAILY_REWARD
      ensures referrals == old(referrals) && withdrawals == old(withdrawals)
      ensures taps == old(taps) && upgrades == old(upgrades)
    {
      var u := users[id];
      if ClaimedToday(u.lastDailyClaim, now) {
        return Err(AlreadyClaimedToday);
      }
      var v := Claimed(u, now);
      assert RowValid(users, id);
      UpdateKeepsUsersValid(users, id, v);
      TotalCoinsUpdate(users, id, v);
      GrowsKeepsRecords(users, users[id := v], referrals, withdrawals, taps, upgrades);
      users := users[id := v];
      r := Ok((v.coins, now));
    }

    /**
     * app.py:166-197 (with the new user's balance and id as the database
     * gives them, see `ReferralAsWritten`): a new user joins with a
     * referral code. Refused when no user holds the code, or at the commit
     * when the Telegram id or the code `telegram_id[:8]` is taken. Otherwise
     * the new user is stored holding the bonus, the referrer earns the bonus,
     * and one referral row links the two; returns the new user's balance.
     */
    method HandleReferral(
      telegramId: string, username: Option<string>, photoUrl: Option<string>,
      code: Option<string>, now: Time) returns (r: Result<int, LedgerError>)
      requires Valid()
      modifies this
      ensures Valid()
      ensures r.Err? ==> unchanged(this)
      ensures FindByReferralCode(old(users), code).None? <==> r == Err(InvalidReferralCode)
      ensures FindByReferralCode(old(users), code).Some?
              && !Insertable(old(users), Referred(telegramId, username, photoUrl, FindByReferralCode(old(users), code).value, now))
              <==> r == Err(IntegrityError)
      ensures r.Ok? <==>
                FindByReferralCode(old(users), code).Some?
                && Insertable(old(users), Referred(telegramId, username, photoUrl, FindByReferralCode(old(users), code).value, now))
      ensures r.Ok? ==>
                var referrer := FindByReferralCode(old(users), code).value;
                && users == old(users)[referrer := Credited(old(users[referrer]), REFERRAL_BONUS)]
                            + [Referred(telegramId, username, photoUrl, referrer, now)]
                && referrals == old(referrals) + [NewReferral(referrer, |old(users)|, now)]
                && r.value == REFERRAL_BONUS
                && TotalCoins(users) == TotalCoins(old(users)) + 2 * REFERRAL_BONUS
                && (forall id :: ReferralCount(referrals, id)
                                 == ReferralCount(old(referrals), id) + (if id == referrer then 1 else 0))
      ensures withdrawals == old(withdrawals) && taps == old(taps) && upgrades == old(upgrades)
    {
      var found := FindByReferralCode(users, code);
      if found.None? {
        return Err(InvalidReferralCode);
      }
      var referrer := found.value;
      var joined := Referred(telegramId, username, photoUrl, referrer, now);
      if !Insertable(users, joined) {
        return Err(IntegrityError);
      }
      var after := users[referrer := Credited(users[referrer], REFERRAL_BONUS)] + [joined];
      var record := NewReferral(referrer, |users|, now);
      ReferralKeepsValid(users, referrals, withdrawals, taps, upgrades, referrer, joined, now);
      users := after;
      referrals := referrals + [record];
      r := Ok(joined.coins);
    }

    /**
     * app.py:217-237: requests the payout of the whole balance, refused below
     * `WITHDRAWAL_MIN`. The method and address are not checked: a missing one
     * breaks the NOT NULL columns and the commit fails. Returns the new
     * balance, zero.
     */
    method HandleWithdrawal(id: UserId, payoutMethod: Option<string>, address: Option<string>, now: Time)
      returns (r: Result<int, LedgerError>)
      requires Valid() && id < |users|
      modifies this
      ensures Valid()
      ensures r.Err? ==> unchanged(this)
      ensures r == Err(BelowWithdrawalMinimum) <==> old(users[id].coins) < WITHDRAWAL_MIN
      ensures r == Err(IntegrityError) <==>
                old(users[id].coins) >= WITHDRAWAL_MIN && (payoutMethod.None? || address.None?)
      ensures r.Ok? <==> old(users[id].coins) >= WITHDRAWAL_MIN && payoutMethod.Some? && address.Some?
      ensures r.Ok? ==>
                && users == old(users)[id := Emptied(old(users[id]))]
                && withdrawals == old(withdrawals)
                                  + [NewWithdrawal(id, payoutMethod.value, address.value, old(users[id].coins), now)]
                && r.value == 0
                && TotalCoins(users) + TotalWithdrawn(withdrawals) == TotalCoins(old(users)) + TotalWithdrawn(old(withdrawals))
      ensures referrals == old(referrals) && taps == old(taps) && upgrades == old(upgrades)
    {
      var u := users[id];
      if u.coins < WITHDRAWAL_MIN {
        return Err(BelowWithdrawalMinimum);
      }
      if payoutMethod.None? || address.None? {
        return Err(IntegrityError);
      }
      var v := Emptied(u);
      var w := NewWithdrawal(id, payoutMethod.value, address.value, u.coins, now);
      WithdrawKeepsValid(users, referrals, withdrawals, taps, upgrades, id, w);
      users := users[id := v];
      withdrawals := withdrawals + [w];
      r := Ok(v.coins);
    }
  }

  /** In a valid store every balance is non-negative, and so is the total. */
  lemma ValidTotalNonNegative(users: seq<User>)
    requires UsersValid(users)
    ensures TotalCoins(users) >= 0
  {
    forall i | 0 <= i < |users|
      ensures users[i].coins >= 0
    {
      assert RowValid(users, i);
    }
    TotalCoinsNonNegative(users);
  }

  /** Every referral row's referrer has at least that referral counted. */
  lemma ReferrerCounted(users: seq<User>, referrals: seq<Referral>, k: nat)
    requires ReferralsValid(users, referrals) && k < |referrals|
    ensures ReferralCount(referrals, referrals[k].referrerId) >= 1
  {
    var id := referrals[k].referrerId;
    ReferralCountIsRowCount(referrals, id);
    assert k in ReferralRows(referrals, id);
  }
}
