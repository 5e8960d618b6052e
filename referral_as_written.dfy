/**
 * The referral handler (app.py:166-197) exactly as written, beside the
 * behaviour the ledger models.
 *
 * `User(...)` at app.py:172 only builds an object: its `id` and the columns
 * left to their defaults (models.py:5, 9) are filled in when the session
 * flushes the INSERT, and nothing flushes before line 190. So line 184
 * reads `new_user.id` as `None`, and line 190 evaluates `None + 500`,
 * which raises `TypeError`: the request fails and nothing is committed.
 * The attributes the handler reads are a parameter here, so the same
 * definition also shows what the handler does once they hold their stored
 * values.
 */
module ReferralAsWritten {
  import opened Wrappers
  import opened Models
  import opened Rules
  import Queries

  /** The `id` and `coins` attributes of the new `User` object as the handler reads them. */
  datatype PendingUser = PendingUser(id: Option<UserId>, coins: Option<int>)

  /** Why the handler as written did not commit. */
  datatype Failure =
    | InvalidReferralCode  // line 169: 400
    | NoneCoins            // line 190: `None += int` raises TypeError
    | DuplicateUser        // commit: `telegram_id` or `referral_code` already taken
    | NullReferredId       // commit: `referral.referred_id` is NOT NULL (models.py:26)

  /** The attributes of an object that has been added but not flushed. */
  function Unflushed(): PendingUser
  {
    PendingUser(None, None)
  }

  /** The attributes a flush of the INSERT would give the new row: the next id, and the `coins` default. */
  function Flushed(users: seq<User>): PendingUser
  {
    PendingUser(Some(|users|), Some(0))
  }

  /** app.py:166-197 as written, reading the new user's attributes from `pending`. */
  function AsWritten(
    users: seq<User>, referrals: seq<Referral>, telegramId: string, username: Option<string>,
    photoUrl: Option<string>, code: Option<string>, now: Time, pending: PendingUser)
    : Result<(seq<User>, seq<Referral>, int), Failure>
  {
    match Queries.FindByReferralCode(users, code)
    case None => Err(InvalidReferralCode)
    case Some(referrer) =>
      var referredId := pending.id;
      match pending.coins
      case None => Err(NoneCoins)
      case Some(c) =>
        var joined := NewUser(telegramId, username, photoUrl, Some(CodeFor(telegramId)), Some(referrer), now)
                        .(coins := c + REFERRAL_BONUS);
        if !Insertable(users, joined) then Err(DuplicateUser)
        else if referredId.None? then Err(NullReferredId)
        else
          Ok((users[referrer := Credited(users[referrer], REFERRAL_BONUS)] + [joined],
              referrals + [NewReferral(referrer, referredId.value, now)],
              joined.coins))
  }

  /** As written, no referral ever commits: with a valid code the handler raises at line 190. */
  lemma AsWrittenNeverCommits(
    users: seq<User>, referrals: seq<Referral>, telegramId: string, username: Option<string>,
    photoUrl: Option<string>, code: Option<string>, now: Time)
    ensures AsWritten(users, referrals, telegramId, username, photoUrl, code, now, Unflushed()).Err?
    ensures Queries.FindByReferralCode(users, code).Some? ==>
              AsWritten(users, referrals, telegramId, username, photoUrl, code, now, Unflushed()) == Err(NoneCoins)
  {
  }

  /**
   * With the attributes a flush gives, the handler as written does what
   * `Ledger.Store.HandleReferral` does: the same refusals, and on success
   * the same tables and the same returned balance.
   */
  lemma FlushedMatchesLedger(
    users: seq<User>, referrals: seq<Referral>, telegramId: string, username: Option<string>,
    photoUrl: Option<string>, code: Option<string>, now: Time)
    ensures var r := AsWritten(users, referrals, telegramId, username, photoUrl, code, now, Flushed(users));
            match Queries.FindByReferralCode(users, code)
            case None => r == Err(InvalidReferralCode)
            case Some(referrer) =>
              var joined := Referred(telegramId, username, photoUrl, referrer, now);
              if !Insertable(users, joined) then r == Err(DuplicateUser)
              else r == Ok((users[referrer := Credited(users[referrer], REFERRAL_BONUS)] + [joined],
                            referrals + [NewReferral(referrer, |users|, now)],
                            REFERRAL_BONUS))
  {
  }
}
