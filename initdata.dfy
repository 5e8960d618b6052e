/**
 * The Telegram Web App init-data check (`verify_telegram_data`).
 *
 * The payload is `key=value` tokens joined by `&`. Every `'` is first
 * turned into `"`; each token that holds a `=` is split at its first `=`
 * into a dict in which a later key overwrites an earlier one; the last
 * `hash` value is remembered; every other entry is rendered `key=value`,
 * the rendered strings are sorted and joined with newlines, and the result
 * must carry the HMAC-SHA-256 hex digest, keyed by SHA-256 of the bot
 * token, that the payload names as its hash.
 *
 * SHA-256, HMAC, hex rendering and UTF-8 encoding are not modelled: they
 * are the abstract functions of a `Crypto` value.
 */
module InitData {
  import opened Wrappers
  import opened Strings
  import opened Lists
  import LexSort

  /** `str.encode()`, `hashlib.sha256(..).digest()` and `hmac.new(key, msg, sha256).hexdigest()`. */
  datatype Crypto = Crypto(
    utf8: string -> seq<bv8>,
    sha256: seq<bv8> -> seq<bv8>,
    hmacSha256Hex: (seq<bv8>, seq<bv8>) -> string)

  // ---------------------------------------------------------------------
  // A Python dict from str to str, as its items in insertion order.
  // ---------------------------------------------------------------------

  type Dict = seq<(string, string)>

  ghost predicate KeysDistinct(d: Dict)
  {
    forall i, j :: 0 <= i < j < |d| ==> d[i].0 != d[j].0
  }

  /** No key contains the character `c`. */
  ghost predicate KeysFree(d: Dict, c: char)
  {
    forall i :: 0 <= i < |d| ==> c !in d[i].0
  }

  /** `d.get(k)`. */
  function Get(d: Dict, k: string): (r: Option<string>)
    ensures r.None? <==> forall i :: 0 <= i < |d| ==> d[i].0 != k
    ensures r.Some? ==> (k, r.value) in d
  {
    if d == [] then None
    else if d[0].0 == k then Some(d[0].1)
    else Get(d[1..], k)
  }

  /** `d[k] = v`: a present key keeps its place and takes the new value; a new key goes last. */
  function Put(d: Dict, k: string, v: string): (r: Dict)
    ensures Get(r, k) == Some(v)
    ensures forall k' :: k' != k ==> Get(r, k') == Get(d, k')
    ensures Get(d, k).None? ==> r == d + [(k, v)]
  {
    if d == [] then [(k, v)]
    else if d[0].0 == k then [(k, v)] + d[1..]
    else [d[0]] + Put(d[1..], k, v)
  }

  /** `d[k] = v` adds no key but `k`. */
  lemma {:induction false} PutKeysFrom(d: Dict, k: string, v: string)
    ensures forall i :: 0 <= i < |Put(d, k, v)| ==> Put(d, k, v)[i].0 == k || Get(d, Put(d, k, v)[i].0).Some?
  {
  }

  /** A dict with distinct keys stays so below an item whose key it lacks. */
  lemma ConsDistinct(x: (string, string), d: Dict)
    requires KeysDistinct(d)
    requires forall j :: 0 <= j < |d| ==> d[j].0 != x.0
    ensures KeysDistinct([x] + d)
  {
  }

  /** The tail of a dict with distinct keys has distinct keys, none of them the head's. */
  lemma TailDistinct(d: Dict)
    requires d != [] && KeysDistinct(d)
    ensures KeysDistinct(d[1..])
    ensures Get(d[1..], d[0].0).None?
  {
  }

  /** `d[k] = v` keeps the keys distinct. */
  lemma {:induction false} PutKeysDistinct(d: Dict, k: string, v: string)
    requires KeysDistinct(d)
    ensures KeysDistinct(Put(d, k, v))
  {
    if d == [] {
    } else if d[0].0 == k {
      TailDistinct(d);
      ConsDistinct((k, v), d[1..]);
    } else {
      var r' := Put(d[1..], k, v);
      TailDistinct(d);
      PutKeysDistinct(d[1..], k, v);
      PutKeysFrom(d[1..], k, v);
      assert forall j :: 0 <= j < |r'| ==> r'[j].0 != d[0].0;
      ConsDistinct(d[0], r');
    }
  }

  /** In a dict, `d.get(k) == v` exactly when the item `(k, v)` is present. */
  lemma GetIffIn(d: Dict, k: string, v: string)
    requires KeysDistinct(d)
    ensures Get(d, k) == Some(v) <==> (k, v) in d
  {
  }

  // ---------------------------------------------------------------------
  // The loop of lines 25-30.
  // ---------------------------------------------------------------------

  /** A token with a `=`, split at its first `=`; a token without one is skipped. */
  function ParseToken(token: string): (r: Option<(string, string)>)
    ensures r.Some? <==> '=' in token
    ensures r.Some? ==> token == r.value.0 + "=" + r.value.1 && '=' !in r.value.0
  {
    if '=' in token then Some(SplitOnce(token, '=')) else None
  }

  /** `data_dict` after the loop has visited `tokens`. */
  function DataDict(tokens: seq<string>): (d: Dict)
    ensures KeysDistinct(d) && KeysFree(d, '=')
  {
    if tokens == [] then []
    else
      var d := DataDict(tokens[..|tokens| - 1]);
      match ParseToken(tokens[|tokens| - 1])
      case None => d
      case Some(kv) =>
        PutKeysFrom(d, kv.0, kv.1);
        PutKeysDistinct(d, kv.0, kv.1);
        Put(d, kv.0, kv.1)
  }

  /** The value of the last token whose key is `k` (`hash_str` when `k` is `hash`). */
  function LastValue(tokens: seq<string>, k: string): Option<string>
  {
    if tokens == [] then None
    else
      var p := ParseToken(tokens[|tokens| - 1]);
      if p.Some? && p.value.0 == k then Some(p.value.1)
      else LastValue(tokens[..|tokens| - 1], k)
  }

  /** The items of every token that holds a `=`, in token order, duplicates kept. */
  function Entries(tokens: seq<string>): Dict
  {
    FilterMap(ParseToken, tokens)
  }

  // ---------------------------------------------------------------------
  // Lines 35-42.
  // ---------------------------------------------------------------------

  /** One item of `data_pairs`: every entry but `hash`, as `key=value`. */
  function RenderPair(kv: (string, string)): Option<string>
  {
    if kv.0 == "hash" then None else Some(kv.0 + "=" + kv.1)
  }

  /** `data_pairs` before sorting. */
  function DataPairs(d: Dict): seq<string>
  {
    FilterMap(RenderPair, d)
  }

  /** `data_check_string`. */
  function CheckString(tokens: seq<string>): string
  {
    Join(SortLex(DataPairs(DataDict(tokens))), "\n")
  }

  /** `computed_hash` for a given check string. */
  function Signature(botToken: string, checkString: string, crypto: Crypto): string
  {
    crypto.hmacSha256Hex(crypto.sha256(crypto.utf8(botToken)), crypto.utf8(checkString))
  }

  /** The verdict on the tokens of a payload. */
  predicate Accepts(tokens: seq<string>, botToken: string, crypto: Crypto)
  {
    var h := LastValue(tokens, "hash");
    h.Some? && h.value != "" && Signature(botToken, CheckString(tokens), crypto) == h.value
  }

  /** The tokens of a payload: quotes normalised, then split on `&`. */
  function Tokens(data: string): seq<string>
  {
    Split(ReplaceChar(data, '\'', '"'), '&')
  }

  predicate Authentic(data: string, botToken: string, crypto: Crypto)
  {
    Accepts(Tokens(data), botToken, crypto)
  }

  /** `verify_telegram_data(data)`, with the bot token and the primitives as parameters. */
  method VerifyTelegramData(data: string, botToken: string, crypto: Crypto) returns (ok: bool)
    ensures ok == Authentic(data, botToken, crypto)
  {
    var text := ReplaceChar(data, '\'', '"');
    var hashStr: Option<string> := None;
    var pairs := Split(text, '&');
    var dataDict: Dict := [];
    for i := 0 to |pairs|
      invariant dataDict == DataDict(pairs[..i])
      invariant hashStr == LastValue(pairs[..i], "hash")
    {
      var pair := pairs[i];
      assert pairs[..i + 1][..i] == pairs[..i];
      if '=' in pair {
        var kv := SplitOnce(pair, '=');
        var key, value := kv.0, kv.1;
        dataDict := Put(dataDict, key, value);
        if key == "hash" {
          hashStr := Some(value);
        }
      }
    }
    assert pairs[..|pairs|] == pairs;
    if hashStr.None? || hashStr.value == "" {
      return false;
    }
    var dataPairs := DataPairs(dataDict);
    var a := new string[|dataPairs|](k requires 0 <= k < |dataPairs| => dataPairs[k]);
    assert a[..] == dataPairs;
    LexSort.SortInPlace(a);
    var dataCheckString := Join(a[..], "\n");
    var secretKey := crypto.sha256(crypto.utf8(botToken));
    var computedHash := crypto.hmacSha256Hex(secretKey, crypto.utf8(dataCheckString));
    ok := computedHash == hashStr.value;
  }

  // ---------------------------------------------------------------------
  // What the check means.
  // ---------------------------------------------------------------------

  /** The dict holds, for every key, the value of the last token with that key. */
  lemma {:induction false} DataDictIsLastValue(tokens: seq<string>, k: string)
    ensures Get(DataDict(tokens), k) == LastValue(tokens, k)
  {
    if tokens != [] {
      DataDictIsLastValue(tokens[..|tokens| - 1], k);
    }
  }

  /** `LastValue` finds nothing exactly when no token has the key. */
  lemma {:induction false} LastValueAbsent(tokens: seq<string>, k: string)
    ensures LastValue(tokens, k).None?
        <==> forall i :: 0 <= i < |tokens| ==> ParseToken(tokens[i]).None? || ParseToken(tokens[i]).value.0 != k
  {
    if tokens != [] {
      var n := |tokens| - 1;
      LastValueAbsent(tokens[..n], k);
      assert forall i :: 0 <= i < n ==> tokens[..n][i] == tokens[i];
    }
  }

  /** The value found is the one carried by the last token that has the key. */
  lemma {:induction false} LastValueIsLastToken(tokens: seq<string>, i: nat, k: string)
    requires i < |tokens|
    requires ParseToken(tokens[i]).Some? && ParseToken(tokens[i]).value.0 == k
    requires forall j :: i < j < |tokens| ==> ParseToken(tokens[j]).None? || ParseToken(tokens[j]).value.0 != k
    ensures LastValue(tokens, k) == Some(ParseToken(tokens[i]).value.1)
    decreases |tokens|
  {
    var n := |tokens| - 1;
    if i < n {
      assert tokens[..n][i] == tokens[i];
      assert forall j :: i < j < n ==> tokens[..n][j] == tokens[j];
      LastValueIsLastToken(tokens[..n], i, k);
    }
  }

  /** Without a token whose key is `hash`, verification fails. */
  lemma RejectsWithoutHash(tokens: seq<string>, botToken: string, crypto: Crypto)
    requires forall i :: 0 <= i < |tokens| ==> ParseToken(tokens[i]).None? || ParseToken(tokens[i]).value.0 != "hash"
    ensures !Accepts(tokens, botToken, crypto)
  {
    LastValueAbsent(tokens, "hash");
  }

  /** Otherwise the verdict is exactly: that last hash is non-empty and is the signature of the check string. */
  lemma AcceptsIff(tokens: seq<string>, i: nat, botToken: string, crypto: Crypto)
    requires i < |tokens|
    requires ParseToken(tokens[i]).Some? && ParseToken(tokens[i]).value.0 == "hash"
    requires forall j :: i < j < |tokens| ==> ParseToken(tokens[j]).None? || ParseToken(tokens[j]).value.0 != "hash"
    ensures var h := ParseToken(tokens[i]).value.1;
            Accepts(tokens, botToken, crypto) <==> h != "" && Signature(botToken, CheckString(tokens), crypto) == h
  {
    LastValueIsLastToken(tokens, i, "hash");
  }

  /** A string is in `data_pairs` exactly when some non-hash item renders to it. */
  lemma {:induction false} InDataPairs(d: Dict, x: string)
    ensures x in DataPairs(d) <==> exists i :: 0 <= i < |d| && RenderPair(d[i]) == Some(x)
  {
    if d != [] {
      InDataPairs(d[1..], x);
      assert forall i :: 0 < i < |d| ==> d[1..][i - 1] == d[i];
    }
  }

  /** `key=value` with `=`-free keys determines the key and the value. */
  lemma RenderInjective(k1: string, v1: string, k2: string, v2: string)
    requires '=' !in k1 && '=' !in k2
    requires k1 + "=" + v1 == k2 + "=" + v2
    ensures k1 == k2 && v1 == v2
  {
    var s := k1 + "=" + v1;
    assert s[|k1|] == '=';
    assert s[|k2|] == '=';
    if |k1| < |k2| {
      assert false;
    } else if |k2| < |k1| {
      assert false;
    }
    assert k1 == s[..|k1|] == k2;
    assert v1 == s[|k1| + 1..] == v2;
  }

  /**
   * The check string is the sorted newline-join of `key=value` for exactly the
   * non-hash keys and their last values.
   */
  lemma CheckStringItems(tokens: seq<string>, k: string, v: string)
    requires '=' !in k && k != "hash"
    ensures CheckString(tokens) == Join(SortLex(DataPairs(DataDict(tokens))), "\n")
    ensures Sorted(SortLex(DataPairs(DataDict(tokens))))
    ensures (k + "=" + v) in SortLex(DataPairs(DataDict(tokens))) <==> LastValue(tokens, k) == Some(v)
  {
    var d := DataDict(tokens);
    var x := k + "=" + v;
    assert x in SortLex(DataPairs(d)) <==> x in DataPairs(d) by {
      assert x in multiset(SortLex(DataPairs(d))) <==> x in multiset(DataPairs(d));
    }
    InDataPairs(d, x);
    DataDictIsLastValue(tokens, k);
    GetIffIn(d, k, v);
    if x in DataPairs(d) {
      var i :| 0 <= i < |d| && RenderPair(d[i]) == Some(x);
      RenderInjective(d[i].0, d[i].1, k, v);
      assert d[i] == (k, v);
    }
  }

  /** Every item of the check string is `key=value` for some non-hash key of the dict. */
  lemma CheckStringItemShape(tokens: seq<string>, x: string)
    requires x in SortLex(DataPairs(DataDict(tokens)))
    ensures exists k, v :: k != "hash" && '=' !in k && x == k + "=" + v && LastValue(tokens, k) == Some(v)
  {
    var d := DataDict(tokens);
    assert x in multiset(SortLex(DataPairs(d)));
    InDataPairs(d, x);
    var i :| 0 <= i < |d| && RenderPair(d[i]) == Some(x);
    var k, v := d[i].0, d[i].1;
    GetIffIn(d, k, v);
    DataDictIsLastValue(tokens, k);
    assert k != "hash" && '=' !in k && x == k + "=" + v && LastValue(tokens, k) == Some(v);
  }

  /** The code sorts whole `key=value` strings, not keys: key `a!` sorts before key `a`. */
  lemma SortsRenderedStringsNotKeys()
    ensures Le("a", "a!") && !Le("a!", "a")
    ensures SortLex(["a=1", "a!=2"]) == ["a!=2", "a=1"]
  {
  }

  // ---------------------------------------------------------------------
  // The hash entry is not signed: at most one hash value verifies.
  // ---------------------------------------------------------------------

  /** Setting the `hash` entry does not change `data_pairs`. */
  lemma {:induction false} DataPairsIgnoreHash(d: Dict, h: string)
    ensures DataPairs(Put(d, "hash", h)) == DataPairs(d)
  {
    if d != [] && d[0].0 != "hash" {
      DataPairsIgnoreHash(d[1..], h);
      assert Put(d, "hash", h)[0] == d[0] && Put(d, "hash", h)[1..] == Put(d[1..], "hash", h);
    } else if d != [] {
      assert Put(d, "hash", h)[1..] == d[1..];
    } else {
      assert Put(d, "hash", h) == [("hash", h)];
      assert [("hash", h)][1..] == [];
    }
  }

  lemma HashTokenParses(h: string)
    ensures ParseToken("hash=" + h) == Some(("hash", h))
  {
    var t := "hash=" + h;
    assert t[4] == '=';
    var kv := SplitOnce(t, '=');
    assert '=' !in "hash";
    assert t == "hash" + "=" + h;
    RenderInjective(kv.0, kv.1, "hash", h);
    assert ParseToken(t) == Some(kv);
  }

  /** For the same other tokens, no two different hash values both verify. */
  lemma HashDeterminedByRest(tokens: seq<string>, h1: string, h2: string, botToken: string, crypto: Crypto)
    requires Accepts(tokens + ["hash=" + h1], botToken, crypto)
    requires Accepts(tokens + ["hash=" + h2], botToken, crypto)
    ensures h1 == h2
  {
    var t1, t2 := tokens + ["hash=" + h1], tokens + ["hash=" + h2];
    HashTokenParses(h1);
    HashTokenParses(h2);
    assert t1[..|t1| - 1] == tokens && t2[..|t2| - 1] == tokens;
    assert LastValue(t1, "hash") == Some(h1) && LastValue(t2, "hash") == Some(h2);
    assert DataDict(t1) == Put(DataDict(tokens), "hash", h1);
    assert DataDict(t2) == Put(DataDict(tokens), "hash", h2);
    DataPairsIgnoreHash(DataDict(tokens), h1);
    DataPairsIgnoreHash(DataDict(tokens), h2);
    assert CheckString(t1) == CheckString(t2);
  }

  /** Appending `&hash=h` to a payload appends one token. */
  lemma TokensWithHash(data: string, h: string)
    requires '&' !in h && '\'' !in h
    ensures Tokens(data + "&hash=" + h) == Tokens(data) + ["hash=" + h]
  {
    var r := ReplaceChar(data, '\'', '"');
    var tail := "hash=" + h;
    assert '\'' !in tail;
    assert data + "&hash=" + h == data + ("&" + tail);
    ReplaceConcat(data, "&" + tail, '\'', '"');
    ReplaceAbsent("&" + tail, '\'', '"');
    assert r + "&" + tail == r + ['&'] + tail;
    assert ReplaceChar(data + "&hash=" + h, '\'', '"') == r + ['&'] + tail;
    SplitConcat(r, tail, '&');
    SplitAbsent(tail, '&');
    assert Split(r + ['&'] + tail, '&') == Split(r, '&') + [tail];
  }

  /** Changing only the hash at the end of a verified payload makes it fail. */
  lemma TamperedHashRejected(data: string, h1: string, h2: string, botToken: string, crypto: Crypto)
    requires '&' !in h1 && '&' !in h2 && '\'' !in h1 && '\'' !in h2
    requires Authentic(data + "&hash=" + h1, botToken, crypto)
    requires h2 != h1
    ensures !Authentic(data + "&hash=" + h2, botToken, crypto)
  {
    TokensWithHash(data, h1);
    TokensWithHash(data, h2);
    if Authentic(data + "&hash=" + h2, botToken, crypto) {
      HashDeterminedByRest(Tokens(data), h1, h2, botToken, crypto);
    }
  }

  // ---------------------------------------------------------------------
  // The check string does not depend on the order of the tokens.
  // ---------------------------------------------------------------------

  /** When no two tokens share a key, the dict is just the tokens' items in order. */
  lemma {:induction false} DataDictOfDistinct(tokens: seq<string>)
    requires KeysDistinct(Entries(tokens))
    ensures DataDict(tokens) == Entries(tokens)
  {
    if tokens != [] {
      var n := |tokens| - 1;
      var prefix, last := tokens[..n], tokens[n];
      assert tokens == prefix + [last];
      FilterMapConcat(ParseToken, prefix, [last]);
      assert Entries(tokens) == Entries(prefix) + Entries([last]);
      assert KeysDistinct(Entries(prefix)) by {
        assert forall i :: 0 <= i < |Entries(prefix)| ==> Entries(prefix)[i] == Entries(tokens)[i];
      }
      DataDictOfDistinct(prefix);
      if ParseToken(last).Some? {
        var kv := ParseToken(last).value;
        assert Entries([last]) == [kv];
        var m := |Entries(prefix)|;
        assert Entries(tokens)[m] == kv;
        assert Get(Entries(prefix), kv.0).None? by {
          forall i | 0 <= i < m ensures Entries(prefix)[i].0 != kv.0 {
            assert Entries(prefix)[i] == Entries(tokens)[i];
          }
        }
      } else {
        assert Entries([last]) == [];
      }
    }
  }

  /** Without repeated elements, a permutation has no repeated elements either. */
  lemma {:induction false} DistinctCountsAtMostOne(d: Dict, x: (string, string))
    requires KeysDistinct(d)
    ensures multiset(d)[x] <= 1
  {
    if d != [] {
      assert d == [d[0]] + d[1..];
      assert KeysDistinct(d[1..]) by {
        assert forall i :: 0 <= i < |d| - 1 ==> d[1..][i] == d[i + 1];
      }
      DistinctCountsAtMostOne(d[1..], x);
      if d[0] == x {
        assert x !in d[1..] by {
          forall i | 0 <= i < |d| - 1 ensures d[1..][i] != x {
            assert d[1..][i] == d[i + 1];
          }
        }
      }
    }
  }

  lemma TwiceCountsTwo(s: Dict, i: nat, j: nat)
    requires i < j < |s| && s[i] == s[j]
    ensures multiset(s)[s[i]] >= 2
  {
    assert s == s[..j] + s[j..];
    assert s[i] in s[..j] by { assert s[..j][i] == s[i]; }
    assert s[j] in s[j..] by { assert s[j..][0] == s[j]; }
  }

  lemma DistinctPermutation(d1: Dict, d2: Dict)
    requires multiset(d1) == multiset(d2)
    requires KeysDistinct(d1)
    ensures KeysDistinct(d2)
  {
    forall i, j | 0 <= i < j < |d2| ensures d2[i].0 != d2[j].0 {
      if d2[i] == d2[j] {
        TwiceCountsTwo(d2, i, j);
        DistinctCountsAtMostOne(d1, d2[i]);
      } else {
        assert d2[i] in multiset(d1) && d2[j] in multiset(d1);
        var p :| 0 <= p < |d1| && d1[p] == d2[i];
        var q :| 0 <= q < |d1| && d1[q] == d2[j];
        assert p != q;
      }
    }
  }

  /** Two dicts holding the same items answer every lookup alike. */
  lemma GetPermutation(d1: Dict, d2: Dict, k: string)
    requires multiset(d1) == multiset(d2)
    requires KeysDistinct(d1) && KeysDistinct(d2)
    ensures Get(d1, k) == Get(d2, k)
  {
    if Get(d1, k).Some? {
      GetIffIn(d1, k, Get(d1, k).value);
      GetIffIn(d2, k, Get(d1, k).value);
      assert (k, Get(d1, k).value) in multiset(d2);
    } else if Get(d2, k).Some? {
      GetIffIn(d2, k, Get(d2, k).value);
      GetIffIn(d1, k, Get(d2, k).value);
      assert (k, Get(d2, k).value) in multiset(d1);
    }
  }

  /**
   * Reordering tokens whose keys are pairwise distinct changes neither the
   * check string nor the hash found, hence not the verdict.
   */
  lemma CheckStringPermutation(t1: seq<string>, t2: seq<string>, botToken: string, crypto: Crypto)
    requires multiset(t1) == multiset(t2)
    requires KeysDistinct(Entries(t1))
    ensures CheckString(t1) == CheckString(t2)
    ensures LastValue(t1, "hash") == LastValue(t2, "hash")
    ensures Accepts(t1, botToken, crypto) == Accepts(t2, botToken, crypto)
  {
    FilterMapPermutation(ParseToken, t1, t2);
    DistinctPermutation(Entries(t1), Entries(t2));
    DataDictOfDistinct(t1);
    DataDictOfDistinct(t2);
    FilterMapPermutation(RenderPair, Entries(t1), Entries(t2));
    SortLexPermutation(DataPairs(Entries(t1)), DataPairs(Entries(t2)));
    GetPermutation(Entries(t1), Entries(t2), "hash");
    DataDictIsLastValue(t1, "hash");
    DataDictIsLastValue(t2, "hash");
  }

  /** One pair after the quote replacement of app.py:20. */
  function Requoted(t: string): Option<string>
  {
    Some(ReplaceChar(t, '\'', '"'))
  }

  /** Requoting a list of pairs requotes each pair and keeps their number. */
  lemma {:induction false} RequotePieces(t: seq<string>)
    ensures |FilterMap(Requoted, t)| == |t|
    ensures forall i :: 0 <= i < |t| ==> FilterMap(Requoted, t)[i] == ReplaceChar(t[i], '\'', '"')
    decreases |t|
  {
    if t != [] {
      RequotePieces(t[1..]);
    }
  }

  /** Replacing quotes in a join of pairs is joining the requoted pairs. */
  lemma {:induction false} ReplaceJoin(t: seq<string>)
    ensures ReplaceChar(Join(t, "&"), '\'', '"') == Join(FilterMap(Requoted, t), "&")
    decreases |t|
  {
    RequotePieces(t);
    if |t| == 1 {
      assert FilterMap(Requoted, t) == [ReplaceChar(t[0], '\'', '"')];
    } else if |t| > 1 {
      var q := FilterMap(Requoted, t);
      ReplaceJoin(t[1..]);
      ReplaceConcat(t[0] + "&", Join(t[1..], "&"), '\'', '"');
      ReplaceConcat(t[0], "&", '\'', '"');
      assert ReplaceChar("&", '\'', '"') == "&";
      assert q[1..] == FilterMap(Requoted, t[1..]);
    }
  }

  /** Requoting a pair brings in no `&`. */
  lemma RequoteKeepsAmpersandFree(t: string)
    requires '&' !in t
    ensures '&' !in ReplaceChar(t, '\'', '"')
  {
    var r := ReplaceChar(t, '\'', '"');
    assert forall k :: 0 <= k < |r| ==> r[k] != '&';
  }

  /** The tokens of a join of `&`-free pairs are the pairs, requoted. */
  lemma TokensOfJoin(t: seq<string>)
    requires |t| >= 1
    requires forall i :: 0 <= i < |t| ==> '&' !in t[i]
    ensures Tokens(Join(t, "&")) == FilterMap(Requoted, t)
  {
    var q := FilterMap(Requoted, t);
    ReplaceJoin(t);
    RequotePieces(t);
    forall i | 0 <= i < |q|
      ensures '&' !in q[i]
    {
      RequoteKeepsAmpersandFree(t[i]);
    }
    SplitJoin(q, '&');
  }

  /**
   * The same for whole payloads: reordering the `&`-separated pairs keeps
   * the verdict, whenever the keys the verifier sees are distinct.
   */
  lemma ReorderKeepsVerdict(t1: seq<string>, t2: seq<string>, botToken: string, crypto: Crypto)
    requires multiset(t1) == multiset(t2)
    requires forall i :: 0 <= i < |t1| ==> '&' !in t1[i]
    requires KeysDistinct(Entries(Tokens(Join(t1, "&"))))
    ensures Authentic(Join(t1, "&"), botToken, crypto) == Authentic(Join(t2, "&"), botToken, crypto)
  {
    if t1 == [] {
      assert t2 == [] by { assert |multiset(t2)| == 0; }
    } else {
      assert forall i :: 0 <= i < |t2| ==> '&' !in t2[i] by {
        forall i | 0 <= i < |t2| ensures '&' !in t2[i] {
          assert t2[i] in multiset(t1);
        }
      }
      assert t2 != [] by { assert t1[0] in multiset(t2); }
      TokensOfJoin(t1);
      TokensOfJoin(t2);
      FilterMapPermutation(Requoted, t1, t2);
      CheckStringPermutation(FilterMap(Requoted, t1), FilterMap(Requoted, t2), botToken, crypto);
    }
  }
}
