/**
 * The identity parse every authenticated handler repeats after the check:
 * `{pair.split('=')[0]: pair.split('=')[1] for pair in init_data.split('&')}`,
 * then `json.loads` of the `user` entry and `str(user_data['id'])`.
 *
 * Unlike the verifier it works on the payload as received (no quote
 * normalisation) and splits each token at EVERY `=`: a value is cut at
 * its second `=`, and a token without `=` raises. JSON decoding is an
 * abstract partial function.
 */
module Identity {
  import opened Wrappers
  import opened Strings
  import opened InitData

  /** What decoding the `user` field yields: its `id` (as `str` renders it), `username` and `photo_url`. */
  datatype UserData = UserData(id: Option<string>, username: Option<string>, photoUrl: Option<string>)

  /** The exceptions the parse can raise. */
  datatype IdentityError =
    | TokenWithoutEquals   // `pair.split('=')[1]` on a token without `=`: IndexError
    | NoUserField          // `json.loads(None)`: TypeError
    | UserNotDecodable     // `json.loads` rejects the text
    | NoUserId             // `user_data['id']`: KeyError

  /** The resolved caller: `telegram_id`, and the profile fields the referral handler stores. */
  datatype TelegramUser = TelegramUser(telegramId: string, username: Option<string>, photoUrl: Option<string>)

  /** The handlers' dict comprehension over the tokens. */
  function HandlerDict(tokens: seq<string>): Result<Dict, IdentityError>
  {
    if tokens == [] then Ok([])
    else
      match HandlerDict(tokens[..|tokens| - 1])
      case Err(e) => Err(e)
      case Ok(d) =>
        var parts := Split(tokens[|tokens| - 1], '=');
        if |parts| < 2 then Err(TokenWithoutEquals) else Ok(Put(d, parts[0], parts[1]))
  }

  /** From the (possibly missing) `user` text to the caller's identity. */
  function FromUserField(raw: Option<string>, decodeUser: string -> Option<UserData>): Result<TelegramUser, IdentityError>
  {
    match raw
    case None => Err(NoUserField)
    case Some(text) =>
      match decodeUser(text)
      case None => Err(UserNotDecodable)
      case Some(u) =>
        if u.id.None? then Err(NoUserId) else Ok(TelegramUser(u.id.value, u.username, u.photoUrl))
  }

  /** Lines 53-55: the identity a handler acts for. */
  function ResolveUser(initData: string, decodeUser: string -> Option<UserData>): Result<TelegramUser, IdentityError>
  {
    match HandlerDict(Split(initData, '&'))
    case Err(e) => Err(e)
    case Ok(d) => FromUserField(Get(d, "user"), decodeUser)
  }

  /** The text before the first `=` of a value, which is all that survives `split('=')[1]`. */
  function Truncated(v: Option<string>): Option<string>
  {
    match v
    case None => None
    case Some(s) => Some(Split(s, '=')[0])
  }

  /** For a token with a `=`: its first piece is the key and its second the value cut at its next `=`. */
  lemma PiecesOfToken(token: string)
    requires '=' in token
    ensures |Split(token, '=')| >= 2
    ensures Split(token, '=')[0] == ParseToken(token).value.0
    ensures Split(token, '=')[1] == Split(ParseToken(token).value.1, '=')[0]
  {
    SplitAtFirst(token, '=');
  }

  /** Some token lacks a `=` exactly when one of the first ones or the last one does. */
  lemma TokenWithoutEqualsSplit(prefix: seq<string>, t: string)
    ensures (exists i :: 0 <= i < |prefix + [t]| && '=' !in (prefix + [t])[i])
        <==> (exists i :: 0 <= i < |prefix| && '=' !in prefix[i]) || '=' !in t
  {
    var tokens := prefix + [t];
    if i :| 0 <= i < |tokens| && '=' !in tokens[i] {
      if i < |prefix| { assert prefix[i] == tokens[i]; }
    }
    if i :| 0 <= i < |prefix| && '=' !in prefix[i] {
      assert prefix[i] == tokens[i];
    }
    assert tokens[|prefix|] == t;
  }

  /** The comprehension raises exactly when some token has no `=`. */
  lemma {:induction false} HandlerDictFailsIff(tokens: seq<string>)
    ensures HandlerDict(tokens).Err? <==> exists i :: 0 <= i < |tokens| && '=' !in tokens[i]
    ensures HandlerDict(tokens).Err? ==> HandlerDict(tokens).error == TokenWithoutEquals
  {
    if tokens != [] {
      var n := |tokens| - 1;
      var prefix := tokens[..n];
      HandlerDictFailsIff(prefix);
      assert tokens == prefix + [tokens[n]];
      TokenWithoutEqualsSplit(prefix, tokens[n]);
      SplitSingleIff(tokens[n], '=');
      if '=' in tokens[n] {
        PiecesOfToken(tokens[n]);
      }
    }
  }

  /**
   * When it succeeds, each key holds the value of the last token with that
   * key, cut at its second `=`: the verifier's value, truncated.
   */
  lemma {:induction false} HandlerDictTruncates(tokens: seq<string>, k: string)
    requires HandlerDict(tokens).Ok?
    ensures Get(HandlerDict(tokens).value, k) == Truncated(LastValue(tokens, k))
  {
    if tokens != [] {
      var n := |tokens| - 1;
      HandlerDictTruncates(tokens[..n], k);
      SplitSingleIff(tokens[n], '=');
      PiecesOfToken(tokens[n]);
    }
  }

  /** On payloads whose every token has exactly one `=`, both parses build the same dict. */
  lemma {:induction false} HandlerDictAgreesWithVerifier(tokens: seq<string>)
    requires forall i :: 0 <= i < |tokens| ==> |Split(tokens[i], '=')| == 2
    ensures HandlerDict(tokens) == Ok(DataDict(tokens))
  {
    if tokens != [] {
      var n := |tokens| - 1;
      assert forall i :: 0 <= i < n ==> tokens[..n][i] == tokens[i];
      HandlerDictAgreesWithVerifier(tokens[..n]);
      var t := tokens[n];
      SplitSingleIff(t, '=');
      PiecesOfToken(t);
      var v := ParseToken(t).value.1;
      SplitAtFirst(t, '=');
      assert Split(v, '=') == [Split(t, '=')[1]];
      SplitSingleIff(v, '=');
      SplitAbsent(v, '=');
    }
  }

  /** The user's identity is decoded from the truncated `user` value. */
  lemma ResolveUserDecodesTruncated(initData: string, decodeUser: string -> Option<UserData>)
    requires HandlerDict(Split(initData, '&')).Ok?
    ensures ResolveUser(initData, decodeUser)
         == FromUserField(Truncated(LastValue(Split(initData, '&'), "user")), decodeUser)
  {
    HandlerDictTruncates(Split(initData, '&'), "user");
  }

  /** A verified `user` value holding a `=` reaches the decoder cut short. */
  lemma UserValueCutAtEquals()
    ensures LastValue(["user=a=b"], "user") == Some("a=b")
    ensures HandlerDict(["user=a=b"]) == Ok([("user", "a")])
  {
    var t := "user=a=b";
    assert t[4] == '=';
    assert "user=a=b"[..4] == "user";
    assert IndexOf(t, '=') == 4;
    assert ParseToken(t) == Some(("user", "a=b"));
    assert ["user=a=b"][..0] == [];
    PiecesOfToken(t);
    assert "a=b"[1] == '=';
    assert IndexOf("a=b", '=') == 1;
    SplitAtFirst("a=b", '=');
    assert Split("a=b", '=')[0] == "a";
  }
}
