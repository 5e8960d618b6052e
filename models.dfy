/**
 * The database rows of the game (models.py) as values, with their column
 * defaults and the table-level constraints the database enforces.
 *
 * A row id is the row's position in its table, and timestamps are integer
 * microseconds since the epoch, UTC. A nullable column is an `Option`; a
 * NOT NULL column is a plain value.
 */
module Models {
  import opened Wrappers

  /** config.py: the economy's constants. */
  const DAILY_REWARD: int := 1000
  const REFERRAL_BONUS: int := 500
  const WITHDRAWAL_MIN: int := 50000

  /** The status a withdrawal request starts in. */
  const PENDING: string := "Pending"

  type UserId = nat
  type Time = int

  datatype User = User(
    telegramId: string,
    username: Option<string>,
    avatarUrl: Option<string>,
    coins: int,
    tapPower: int,
    referralCode: Option<string>,
    referrerId: Option<UserId>,
    lastDailyClaim: Option<Time>,
    lastTap: Option<Time>,
    joinedAt: Time)

  datatype Referral = Referral(referrerId: UserId, referredId: UserId, createdAt: Time, rewarded: bool)

  datatype Withdrawal = Withdrawal(
    userId: UserId, payoutMethod: string, address: string, amount: int, status: string, requestedAt: Time)

  datatype Tap = Tap(userId: UserId, timestamp: Time)

  datatype Upgrade = Upgrade(userId: UserId, newPowerLevel: int, cost: int, purchasedAt: Time)

  /** A `User` built with the given columns; the others take their defaults when it is inserted at `now`. */
  function NewUser(
    telegramId: string, username: Option<string>, avatarUrl: Option<string>,
    referralCode: Option<string>, referrerId: Option<UserId>, now: Time): (u: User)
    ensures u.coins == 0 && u.tapPower == 1
    ensures u.lastDailyClaim.None? && u.lastTap.None? && u.joinedAt == now
    ensures u.telegramId == telegramId && u.referralCode == referralCode && u.referrerId == referrerId
  {
    User(telegramId, username, avatarUrl, 0, 1, referralCode, referrerId, None, None, now)
  }

  /** A `Referral` row; `rewarded` defaults to false. */
  function NewReferral(referrerId: UserId, referredId: UserId, now: Time): (r: Referral)
    ensures !r.rewarded
  {
    Referral(referrerId, referredId, now, false)
  }

  /** A `Withdrawal` row; `status` defaults to `Pending`. */
  function NewWithdrawal(userId: UserId, payoutMethod: string, address: string, amount: int, now: Time): (w: Withdrawal)
    ensures w.status == PENDING
  {
    Withdrawal(userId, payoutMethod, address, amount, PENDING, now)
  }

  /** models.py:6: `telegram_id` is unique. */
  ghost predicate UniqueTelegramIds(users: seq<User>)
  {
    forall i, j :: 0 <= i < j < |users| ==> users[i].telegramId != users[j].telegramId
  }

  /** models.py:11: `referral_code` is unique among the rows that have one (NULLs may repeat). */
  ghost predicate UniqueReferralCodes(users: seq<User>)
  {
    forall i, j :: 0 <= i < j < |users| && users[i].referralCode.Some? ==> users[i].referralCode != users[j].referralCode
  }

  /** Whether a new row would keep both unique constraints: otherwise the commit raises IntegrityError. */
  predicate Insertable(users: seq<User>, u: User)
  {
    && (forall i :: 0 <= i < |users| ==> users[i].telegramId != u.telegramId)
    && (u.referralCode.Some? ==> forall i :: 0 <= i < |users| ==> users[i].referralCode != u.referralCode)
  }

  /** Appending an insertable row keeps both unique constraints. */
  lemma InsertKeepsUnique(users: seq<User>, u: User)
    requires UniqueTelegramIds(users) && UniqueReferralCodes(users)
    requires Insertable(users, u)
    ensures UniqueTelegramIds(users + [u]) && UniqueReferralCodes(users + [u])
  {
  }
}
