/**
 * The read side of the ledger: the `filter_by(...).first()` lookups the
 * handlers use, the referral count, the profile endpoint and the
 * leaderboard (app.py:239-268).
 */
module Queries {
  import opened Wrappers
  import opened Models

  /** The lowest row id whose user satisfies `p`, as `.first()` returns it, or `None`. */
  function FirstWhere(users: seq<User>, p: User -> bool): (r: Option<UserId>)
    ensures r.Some? ==> r.value < |users| && p(users[r.value])
    ensures r.Some? ==> forall j :: 0 <= j < r.value ==> !p(users[j])
    ensures r.None? <==> forall j :: 0 <= j < |users| ==> !p(users[j])
  {
    if users == [] then None
    else if p(users[0]) then Some(0)
    else
      match FirstWhere(users[1..], p)
      case None => None
      case Some(i) => Some(i + 1)
  }

  /** `User.query.filter_by(telegram_id=telegramId).first()`. */
  function FindByTelegramId(users: seq<User>, telegramId: string): (r: Option<UserId>)
    ensures r.Some? ==> r.value < |users| && users[r.value].telegramId == telegramId
    ensures r.None? <==> forall j :: 0 <= j < |users| ==> users[j].telegramId != telegramId
  {
    FirstWhere(users, (u: User) => u.telegramId == telegramId)
  }

  /**
   * `User.query.filter_by(referral_code=code).first()`. A missing code
   * (`None`) filters `IS NULL` and matches the first user without one.
   */
  function FindByReferralCode(users: seq<User>, code: Option<string>): (r: Option<UserId>)
    ensures r.Some? ==> r.value < |users| && users[r.value].referralCode == code
    ensures r.Some? ==> forall j :: 0 <= j < r.value ==> users[j].referralCode != code
    ensures r.None? <==> forall j :: 0 <= j < |users| ==> users[j].referralCode != code
  {
    FirstWhere(users, (u: User) => u.referralCode == code)
  }

  /** Under the unique constraint on `telegram_id`, the lookup finds exactly the row holding the id. */
  lemma FindByTelegramIdUnique(users: seq<User>, i: nat)
    requires UniqueTelegramIds(users) && i < |users|
    ensures FindByTelegramId(users, users[i].telegramId) == Some(i)
  {
  }

  /** Under the unique constraint on `referral_code`, a present code finds exactly the row holding it. */
  lemma FindByReferralCodeUnique(users: seq<User>, i: nat)
    requires UniqueReferralCodes(users) && i < |users| && users[i].referralCode.Some?
    ensures FindByReferralCode(users, users[i].referralCode) == Some(i)
  {
  }

  /** `Referral.query.filter_by(referrer_id=id).count()`. */
  function ReferralCount(referrals: seq<Referral>, id: UserId): (n: nat)
    ensures n <= |referrals|
  {
    if referrals == [] then 0
    else
      ReferralCount(referrals[..|referrals| - 1], id)
        + (if referrals[|referrals| - 1].referrerId == id then 1 else 0)
  }

  /** The positions of the referral rows naming `id` as referrer. */
  ghost function ReferralRows(referrals: seq<Referral>, id: UserId): set<nat>
  {
    set k | 0 <= k < |referrals| && referrals[k].referrerId == id
  }

  /** The count is the number of referral rows whose referrer is `id`. */
  lemma {:induction false} ReferralCountIsRowCount(referrals: seq<Referral>, id: UserId)
    ensures ReferralCount(referrals, id) == |ReferralRows(referrals, id)|
  {
    if referrals != [] {
      var n := |referrals| - 1;
      var prefix := referrals[..n];
      ReferralCountIsRowCount(prefix, id);
      var before := ReferralRows(prefix, id);
      assert n !in before;
      if referrals[n].referrerId == id {
        assert ReferralRows(referrals, id) == before + {n};
      } else {
        assert ReferralRows(referrals, id) == before;
      }
    }
  }

  /** Recording a referral raises the referrer's count by one and leaves everyone else's alone. */
  lemma ReferralCountAppend(referrals: seq<Referral>, r: Referral, id: UserId)
    ensures ReferralCount(referrals + [r], id)
         == ReferralCount(referrals, id) + (if r.referrerId == id then 1 else 0)
  {
  }

  /** What `GET /api/user/<telegram_id>` reports. */
  datatype Profile = Profile(
    username: Option<string>,
    avatarUrl: Option<string>,
    coins: int,
    tapPower: int,
    referralCount: nat,
    joinedAt: Time,
    lastDailyClaim: Option<Time>)

  datatype QueryError = NotFound

  function ProfileOf(u: User, referralCount: nat): Profile
  {
    Profile(u.username, u.avatarUrl, u.coins, u.tapPower, referralCount, u.joinedAt, u.lastDailyClaim)
  }

  /** The profile of the user with the given Telegram id, with the number of users they referred. */
  function GetUser(users: seq<User>, referrals: seq<Referral>, telegramId: string): (r: Result<Profile, QueryError>)
    ensures r.Err? <==> forall j :: 0 <= j < |users| ==> users[j].telegramId != telegramId
    ensures r.Ok? ==> exists i :: 0 <= i < |users| && users[i].telegramId == telegramId
                             && r.value == ProfileOf(users[i], ReferralCount(referrals, i))
  {
    match FindByTelegramId(users, telegramId)
    case None => Err(NotFound)
    case Some(i) => Ok(ProfileOf(users[i], ReferralCount(referrals, i)))
  }

  /** With unique Telegram ids, the profile of a stored user reports that user's row and referral count. */
  lemma GetUserOfStored(users: seq<User>, referrals: seq<Referral>, i: nat)
    requires UniqueTelegramIds(users) && i < |users|
    ensures GetUser(users, referrals, users[i].telegramId) == Ok(ProfileOf(users[i], ReferralCount(referrals, i)))
  {
  }

  /** One row of `GET /api/leaderboard`. */
  datatype LeaderboardEntry = LeaderboardEntry(username: Option<string>, coins: int, tapPower: int)

  const LEADERBOARD_SIZE: nat := 100

  function EntryOf(u: User): LeaderboardEntry
  {
    LeaderboardEntry(u.username, u.coins, u.tapPower)
  }

  ghost predicate DescendingByCoins(s: seq<User>)
  {
    forall i, j :: 0 <= i < j < |s| ==> s[i].coins >= s[j].coins
  }

  ghost predicate AllAtMost(c: int, s: seq<User>)
  {
    forall k :: 0 <= k < |s| ==> s[k].coins <= c
  }

  /** A bound on every user's coins survives reordering. */
  lemma AtMostPermutation(c: int, a: seq<User>, b: seq<User>)
    requires multiset(a) == multiset(b) && AllAtMost(c, b)
    ensures AllAtMost(c, a)
  {
    forall k | 0 <= k < |a|
      ensures a[k].coins <= c
    {
      assert a[k] in multiset(b);
    }
  }

  /** A user with at least the coins of everyone in a descending list can go in front. */
  lemma ConsDescending(u: User, s: seq<User>)
    requires DescendingByCoins(s) && AllAtMost(u.coins, s)
    ensures DescendingByCoins([u] + s)
  {
    forall i, j | 0 <= i < j < |[u] + s|
      ensures ([u] + s)[i].coins >= ([u] + s)[j].coins
    {
      assert ([u] + s)[j] == s[j - 1];
      if i > 0 { assert ([u] + s)[i] == s[i - 1]; }
    }
  }

  /** The tail of a descending list is descending, and its head has the most coins. */
  lemma DescendingTail(s: seq<User>)
    requires DescendingByCoins(s) && s != []
    ensures DescendingByCoins(s[1..]) && AllAtMost(s[0].coins, s)
  {
    forall i, j | 0 <= i < j < |s[1..]|
      ensures s[1..][i].coins >= s[1..][j].coins
    {
      assert s[1..][i] == s[i + 1] && s[1..][j] == s[j + 1];
    }
  }

  /** The recursive step of `InsertByCoins`: the head stays in front of the tail with `u` inserted. */
  lemma InsertBehindHead(u: User, s: seq<User>, rest: seq<User>)
    requires s != [] && DescendingByCoins(s) && u.coins < s[0].coins
    requires DescendingByCoins(rest) && multiset(rest) == multiset(s[1..]) + multiset{u}
    ensures DescendingByCoins([s[0]] + rest)
    ensures multiset([s[0]] + rest) == multiset(s) + multiset{u}
  {
    DescendingTail(s);
    assert s == [s[0]] + s[1..];
    assert AllAtMost(s[0].coins, rest) by {
      assert AllAtMost(s[0].coins, s[1..] + [u]);
      AtMostPermutation(s[0].coins, rest, s[1..] + [u]);
    }
    ConsDescending(s[0], rest);
  }

  /** Places `u` before the first user with no more coins. */
  function InsertByCoins(u: User, s: seq<User>): (r: seq<User>)
    requires DescendingByCoins(s)
    ensures DescendingByCoins(r)
    ensures multiset(r) == multiset(s) + multiset{u}
  {
    if s == [] then [u]
    else if s[0].coins <= u.coins then
      DescendingTail(s);
      ConsDescending(u, s);
      [u] + s
    else
      DescendingTail(s);
      var rest := InsertByCoins(u, s[1..]);
      InsertBehindHead(u, s, rest);
      [s[0]] + rest
  }

  /** `order_by(User.coins.desc())`: every user once, richest first. */
  function RankByCoins(users: seq<User>): (r: seq<User>)
    ensures DescendingByCoins(r)
    ensures multiset(r) == multiset(users)
  {
    if users == [] then []
    else
      assert users == [users[0]] + users[1..];
      InsertByCoins(users[0], RankByCoins(users[1..]))
  }

  function Min(a: nat, b: nat): nat
  {
    if a <= b then a else b
  }

  /** `GET /api/leaderboard`: the 100 richest users, richest first, as username, coins and tap power. */
  function Leaderboard(users: seq<User>): (board: seq<LeaderboardEntry>)
    ensures |board| == Min(LEADERBOARD_SIZE, |users|)
    ensures forall i, j :: 0 <= i < j < |board| ==> board[i].coins >= board[j].coins
  {
    var ranked := RankByCoins(users);
    assert |multiset(ranked)| == |multiset(users)|;
    var top := ranked[..Min(LEADERBOARD_SIZE, |ranked|)];
    seq(|top|, k requires 0 <= k < |top| => EntryOf(top[k]))
  }

  /** No user of `rest` has more coins than any user of `top` when `top + rest` is ranked. */
  lemma RankedSplit(top: seq<User>, rest: seq<User>)
    requires DescendingByCoins(top + rest)
    ensures forall k, u :: 0 <= k < |top| && u in multiset(rest) ==> u.coins <= top[k].coins
  {
    forall k, u | 0 <= k < |top| && u in multiset(rest)
      ensures u.coins <= top[k].coins
    {
      var j :| 0 <= j < |rest| && rest[j] == u;
      assert (top + rest)[|top| + j] == u;
      assert (top + rest)[k] == top[k];
    }
  }

  /**
   * The board lists some of the users, each as often as they occur, and no
   * user left off it has more coins than any user on it.
   */
  lemma LeaderboardIsTop(users: seq<User>)
    ensures var board := Leaderboard(users);
            var top := RankByCoins(users)[..|board|];
            && multiset(top) <= multiset(users)
            && (forall k :: 0 <= k < |board| ==> board[k] == EntryOf(top[k]))
            && (forall k, u :: 0 <= k < |board| && u in multiset(users) - multiset(top) ==> u.coins <= board[k].coins)
  {
    var board := Leaderboard(users);
    var ranked := RankByCoins(users);
    assert |multiset(ranked)| == |multiset(users)|;
    var n := |board|;
    var top, rest := ranked[..n], ranked[n..];
    assert multiset(users) == multiset(top) + multiset(rest) by {
      assert ranked == top + rest;
    }
    assert forall k :: 0 <= k < n ==> board[k] == EntryOf(top[k]);
    assert forall k, u: User :: 0 <= k < n && u in multiset(rest) ==> u.coins <= top[k].coins by {
      assert ranked == top + rest;
      RankedSplit(top, rest);
    }
  }
}
