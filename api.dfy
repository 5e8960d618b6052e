/**
 * The POST endpoints of app.py: each checks the init data, parses the
 * caller's identity from it, looks the caller up, and then hands over to
 * the ledger. Nothing reaches the ledger unless the payload verifies.
 */
module Api {
  import opened Wrappers
  import opened Models
  import opened InitData
  import opened Identity
  import opened Rules
  import opened Ledger
  import Queries

  /** The bot token from the environment, and the library calls the handlers rely on. */
  datatype Config = Config(botToken: string, crypto: Crypto, decodeUser: string -> Option<UserData>)

  /** Why an endpoint failed. */
  datatype ApiError =
    | InvalidTelegramData             // 401
    | IdentityFailure(IdentityError)  // an exception while parsing the identity: 500
    | UserNotFound                    // 404
    | Rejected(LedgerError)           // the ledger refused, or the commit failed

  /** Lines 159-164: the identity of a verified payload. */
  function Claimant(initData: string, cfg: Config): (r: Result<TelegramUser, ApiError>)
    ensures r.Ok? ==> Authentic(initData, cfg.botToken, cfg.crypto)
    ensures r.Ok? ==> ResolveUser(initData, cfg.decodeUser) == Ok(r.value)
    ensures r == Err(InvalidTelegramData) <==> !Authentic(initData, cfg.botToken, cfg.crypto)
  {
    if !Authentic(initData, cfg.botToken, cfg.crypto) then Err(InvalidTelegramData)
    else
      match ResolveUser(initData, cfg.decodeUser)
      case Err(e) => Err(IdentityFailure(e))
      case Ok(who) => Ok(who)
  }

  /** Lines 50-59: the stored user a verified payload speaks for. */
  function Caller(users: seq<User>, initData: string, cfg: Config): (r: Result<UserId, ApiError>)
    ensures r.Ok? ==> r.value < |users|
    ensures r.Ok? ==> Claimant(initData, cfg).Ok? && users[r.value].telegramId == Claimant(initData, cfg).value.telegramId
    ensures r == Err(InvalidTelegramData) <==> !Authentic(initData, cfg.botToken, cfg.crypto)
    ensures r == Err(UserNotFound) <==>
              Claimant(initData, cfg).Ok?
              && forall j :: 0 <= j < |users| ==> users[j].telegramId != Claimant(initData, cfg).value.telegramId
  {
    match Claimant(initData, cfg)
    case Err(e) => Err(e)
    case Ok(who) =>
      match Queries.FindByTelegramId(users, who.telegramId)
      case None => Err(UserNotFound)
      case Some(i) => Ok(i)
  }

  /** With unique Telegram ids, a verified payload speaks for exactly the row holding its id. */
  lemma CallerIsTheUser(users: seq<User>, initData: string, cfg: Config, i: nat)
    requires UniqueTelegramIds(users) && i < |users|
    requires Claimant(initData, cfg).Ok? && Claimant(initData, cfg).value.telegramId == users[i].telegramId
    ensures Caller(users, initData, cfg) == Ok(i)
  {
    Queries.FindByTelegramIdUnique(users, i);
  }

  /** A payload with no `hash` field never gets past the check. */
  lemma UnsignedPayloadRefused(users: seq<User>, initData: string, cfg: Config)
    requires forall i :: 0 <= i < |Tokens(initData)| ==>
               ParseToken(Tokens(initData)[i]).None? || ParseToken(Tokens(initData)[i]).value.0 != "hash"
    ensures Caller(users, initData, cfg) == Err(InvalidTelegramData)
    ensures Claimant(initData, cfg) == Err(InvalidTelegramData)
  {
    RejectsWithoutHash(Tokens(initData), cfg.botToken, cfg.crypto);
  }

  /** The check and the parse, as each handler runs them. */
  method Identify(initData: string, cfg: Config) returns (r: Result<TelegramUser, ApiError>)
    ensures r == Claimant(initData, cfg)
  {
    var ok := VerifyTelegramData(initData, cfg.botToken, cfg.crypto);
    if !ok {
      return Err(InvalidTelegramData);
    }
    match ResolveUser(initData, cfg.decodeUser)
    case Err(e) =>
      r := Err(IdentityFailure(e));
    case Ok(who) =>
      r := Ok(who);
  }

  /** The check, the parse and the lookup. */
  method Authenticate(users: seq<User>, initData: string, cfg: Config) returns (r: Result<UserId, ApiError>)
    ensures r == Caller(users, initData, cfg)
  {
    var who := Identify(initData, cfg);
    if who.Err? {
      return Err(who.error);
    }
    var found := Queries.FindByTelegramId(users, who.value.telegramId);
    r := if found.None? then Err(UserNotFound) else Ok(found.value);
  }

  function Lift<T>(r: Result<T, LedgerError>): Result<T, ApiError>
  {
    match r
    case Ok(v) => Ok(v)
    case Err(e) => Err(Rejected(e))
  }

  /** `POST /api/tap`. */
  method TapEndpoint(store: Store, initData: string, cfg: Config, now: Time) returns (r: Result<int, ApiError>)
    requires store.Valid()
    modifies store
    ensures store.Valid()
    ensures Caller(old(store.users), initData, cfg).Err? ==>
              r == Err(Caller(old(store.users), initData, cfg).error) && unchanged(store)
    ensures Caller(old(store.users), initData, cfg).Ok? ==>
              var id := Caller(old(store.users), initData, cfg).value;
              && (r.Ok? <==> !TapRateLimited(old(store.users[id].lastTap), now))
              && (r.Ok? ==> store.users == old(store.users)[id := Tapped(old(store.users[id]), now)]
                            && store.taps == old(store.taps) + [Tap(id, now)]
                            && r.value == store.users[id].coins)
              && (r.Err? ==> r == Err(Rejected(TapTooFast)) && unchanged(store))
    ensures store.referrals == old(store.referrals) && store.withdrawals == old(store.withdrawals)
    ensures store.upgrades == old(store.upgrades)
  {
    var caller := Authenticate(store.users, initData, cfg);
    if caller.Err? {
      return Err(caller.error);
    }
    var res := store.HandleTap(caller.value, now);
    r := Lift(res);
  }

  /** `POST /api/upgrade`. */
  method UpgradeEndpoint(store: Store, initData: string, cfg: Config, now: Time) returns (r: Result<(int, int), ApiError>)
    requires store.Valid()
    modifies store
    ensures store.Valid()
    ensures Caller(old(store.users), initData, cfg).Err? ==>
              r == Err(Caller(old(store.users), initData, cfg).error) && unchanged(store)
    ensures Caller(old(store.users), initData, cfg).Ok? ==>
              var id := Caller(old(store.users), initData, cfg).value;
              && old(store.users[id].tapPower) >= 1
              && (r.Ok? <==> old(store.users[id].coins) >= UpgradeCost(old(store.users[id].tapPower)))
              && (r.Ok? ==> store.users == old(store.users)[id := Upgraded(old(store.users[id]))]
                            && store.upgrades == old(store.upgrades)
                               + [Upgrade(id, store.users[id].tapPower, UpgradeCost(old(store.users[id].tapPower)), now)]
                            && r.value == (store.users[id].tapPower, store.users[id].coins))
              && (r.Err? ==> r == Err(Rejected(NotEnoughCoins)) && unchanged(store))
    ensures store.referrals == old(store.referrals) && store.withdrawals == old(store.withdrawals)
    ensures store.taps == old(store.taps)
  {
    var caller := Authenticate(store.users, initData, cfg);
    if caller.Err? {
      return Err(caller.error);
    }
    var res := store.HandleUpgrade(caller.value, now);
    r := Lift(res);
  }

  /** `POST /api/daily`. */
  method DailyEndpoint(store: Store, initData: string, cfg: Config, now: Time) returns (r: Result<(int, Time), ApiError>)
    requires store.Valid()
    modifies store
    ensures store.Valid()
    ensures Caller(old(store.users), initData, cfg).Err? ==>
              r == Err(Caller(old(store.users), initData, cfg).error) && unchanged(store)
    ensures Caller(old(store.users), initData, cfg).Ok? ==>
              var id := Caller(old(store.users), initData, cfg).value;
              && (r.Ok? <==> !ClaimedToday(old(store.users[id].lastDailyClaim), now))
              && (r.Ok? ==> store.users == old(store.users)[id := Claimed(old(store.users[id]), now)]
                            && r.value == (store.users[id].coins, now))
              && (r.Err? ==> r == Err(Rejected(AlreadyClaimedToday)) && unchanged(store))
    ensures store.referrals == old(store.referrals) && store.withdrawals == old(store.withdrawals)
    ensures store.taps == old(store.taps) && store.upgrades == old(store.upgrades)
  {
    var caller := Authenticate(store.users, initData, cfg);
    if caller.Err? {
      return Err(caller.error);
    }
    var res := store.ClaimDailyReward(caller.value, now);
    r := Lift(res);
  }

  /** `POST /api/referral`: the caller joins; there is no lookup of the caller first. */
  method ReferralEndpoint(store: Store, initData: string, code: Option<string>, cfg: Config, now: Time)
    returns (r: Result<int, ApiError>)
    requires store.Valid()
    modifies store
    ensures store.Valid()
    ensures Claimant(initData, cfg).Err? ==> r == Err(Claimant(initData, cfg).error) && unchanged(store)
    ensures r.Err? ==> unchanged(store)
    ensures r.Ok? ==> Claimant(initData, cfg).Ok? && Queries.FindByReferralCode(old(store.users), code).Some?
    ensures Claimant(initData, cfg).Ok? && Queries.FindByReferralCode(old(store.users), code).None? ==>
              r == Err(Rejected(InvalidReferralCode))
    ensures Claimant(initData, cfg).Ok? ==>
              var who := Claimant(initData, cfg).value;
              var found := Queries.FindByReferralCode(old(store.users), code);
              && (r == Err(Rejected(InvalidReferralCode)) <==> found.None?)
              && (r == Err(Rejected(IntegrityError)) <==>
                    found.Some? && !Insertable(old(store.users), Referred(who.telegramId, who.username, who.photoUrl, found.value, now)))
              && (r.Ok? <==>
                    found.Some? && Insertable(old(store.users), Referred(who.telegramId, who.username, who.photoUrl, found.value, now)))
    ensures r.Ok? && Claimant(initData, cfg).Ok? && Queries.FindByReferralCode(old(store.users), code).Some? ==>
              var who := Claimant(initData, cfg).value;
              var referrer := Queries.FindByReferralCode(old(store.users), code).value;
              && store.users == old(store.users)[referrer := Credited(old(store.users[referrer]), REFERRAL_BONUS)]
                                + [Referred(who.telegramId, who.username, who.photoUrl, referrer, now)]
              && store.referrals == old(store.referrals) + [NewReferral(referrer, |old(store.users)|, now)]
              && r.value == REFERRAL_BONUS
    ensures store.withdrawals == old(store.withdrawals) && store.taps == old(store.taps)
    ensures store.upgrades == old(store.upgrades)
  {
    var who := Identify(initData, cfg);
    if who.Err? {
      return Err(who.error);
    }
    var res := store.HandleReferral(who.value.telegramId, who.value.username, who.value.photoUrl, code, now);
    r := Lift(res);
  }

  /** `POST /api/withdraw`. */
  method WithdrawEndpoint(
    store: Store, initData: string, payoutMethod: Option<string>, address: Option<string>, cfg: Config, now: Time)
    returns (r: Result<int, ApiError>)
    requires store.Valid()
    modifies store
    ensures store.Valid()
    ensures r.Err? ==> unchanged(store)
    ensures Caller(old(store.users), initData, cfg).Err? ==> r == Err(Caller(old(store.users), initData, cfg).error)
    ensures r.Ok? ==> payoutMethod.Some? && address.Some?
    ensures Caller(old(store.users), initData, cfg).Ok? ==>
              var id := Caller(old(store.users), initData, cfg).value;
              && (r == Err(Rejected(BelowWithdrawalMinimum)) <==> old(store.users[id].coins) < WITHDRAWAL_MIN)
              && (r == Err(Rejected(IntegrityError)) <==>
                    old(store.users[id].coins) >= WITHDRAWAL_MIN && (payoutMethod.None? || address.None?))
              && (r.Ok? <==> old(store.users[id].coins) >= WITHDRAWAL_MIN && payoutMethod.Some? && address.Some?)
              && (r.Ok? && payoutMethod.Some? && address.Some? ==>
                    && store.users == old(store.users)[id := Emptied(old(store.users[id]))]
                    && store.withdrawals == old(store.withdrawals)
                       + [NewWithdrawal(id, payoutMethod.value, address.value, old(store.users[id].coins), now)]
                    && r.value == 0)
    ensures store.referrals == old(store.referrals) && store.taps == old(store.taps)
    ensures store.upgrades == old(store.upgrades)
  {
    var caller := Authenticate(store.users, initData, cfg);
    if caller.Err? {
      return Err(caller.error);
    }
    var res := store.HandleWithdrawal(caller.value, payoutMethod, address, now);
    r := Lift(res);
  }
}
