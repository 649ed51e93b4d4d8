/** Bot accounts and the tokens signed with their keys. */
module Accounts {
  import opened Results
  import opened Uuids
  import opened Text

  /** The host name of a `cts_url` is never empty. */
  type Host = s: string | s != "" witness "h"

  datatype Account = Account(id: Uuid, host: Host, secretKey: string)

  ghost predicate IsFirst(accounts: seq<Account>, id: Uuid, account: Account)
  {
    exists i | 0 <= i < |accounts| ::
      accounts[i] == account && account.id == id && forall j | 0 <= j < i :: accounts[j].id != id
  }

  /** `get_bot_account`: the first account with this id. */
  function FindAccount(accounts: seq<Account>, id: Uuid): (r: Option<Account>)
    ensures r.Some? ==> IsFirst(accounts, id, r.value) && r.value in accounts && r.value.id == id
    ensures r.None? <==> forall a | a in accounts :: a.id != id
  {
    if accounts == [] then
      None
    else if accounts[0].id == id then
      Some(accounts[0])
    else
      var r := FindAccount(accounts[1..], id);
      assert forall a | a in accounts :: a == accounts[0] || a in accounts[1..];
      assert r.Some? ==> IsFirst(accounts, id, r.value) by {
        if r.Some? {
          var i :| 0 <= i < |accounts[1..]| && accounts[1..][i] == r.value
            && forall j | 0 <= j < i :: accounts[1..][j].id != id;
          assert accounts[i + 1] == r.value;
          assert forall j | 0 < j < i + 1 :: accounts[j] == accounts[1..][j - 1];
        }
      }
      r
  }

  /**
   A JSON value in the payload of a token. The host language also reads infinities and the number that
   is none.
   */
  datatype Claim =
    | Null
    | Flag(flag: bool)
    | Number(number: real)
    | Infinite
    | NotANumber
    | Text(text: string)
    | List(items: seq<Claim>)
    | Object(members: map<string, Claim>)

  type Claims = map<string, Claim>

  /** The claims of `build_botx_jwt_v2`. */
  function ClaimsV2(account: Account, issuedAt: int, tokenId: string): Claims
  {
    map[
      "iss" := Text(Str(account.id)),
      "aud" := Text(account.host),
      "exp" := Number((issuedAt + 60) as real),
      "nbf" := Number(issuedAt as real),
      "jti" := Text(tokenId),
      "iat" := Number(issuedAt as real),
      "version" := Number(2.0)
    ]
  }

  /** The claims one by one, and no others. */
  lemma {:induction false} ClaimsOfToken(account: Account, issuedAt: int, tokenId: string)
    ensures var claims := ClaimsV2(account, issuedAt, tokenId);
      && claims.Keys == {"iss", "aud", "exp", "nbf", "jti", "iat", "version"}
      && claims["iss"] == Text(Str(account.id)) && claims["aud"] == Text(account.host)
      && claims["exp"] == Number((issuedAt + 60) as real)
      && claims["nbf"] == Number(issuedAt as real) && claims["iat"] == Number(issuedAt as real)
      && claims["jti"] == Text(tokenId) && claims["version"] == Number(2.0)
  {
    hide Str;
  }

  /** What checking a signature comes to; a key the library does not work with makes it raise an exception. */
  datatype SignatureCheck = Good | Bad | KeyRefused

  /**
   The libraries the code calls: `encode(claims, key)` signs, `read(token)` gives the claims of a
   token that can be decoded at all, `check(token, key)` checks the signature, `numeral` is `int(text)`
   and `parseId` is `UUID(text)`.
   */
  datatype Library = Library(
    encode: (Claims, string) -> string,
    read: string -> Option<Claims>,
    check: (string, string) -> SignatureCheck,
    numeral: string -> Option<int>,
    parseId: string -> Option<Uuid>)
  {
    /** Signing these claims gives one word that gives the claims back and is good under the same key. */
    predicate Signs(claims: Claims, key: string)
    {
      var token := encode(claims, key);
      token != "" && NoSpace(token) && read(token) == Some(claims) && check(token, key) == Good
    }

    /** A printed identifier is read back. */
    ghost predicate ReadsIds()
    {
      forall id: Uuid :: parseId(Str(id)) == Some(id)
    }
  }

  /** Both can be had, for any claims and any key, of a library that accepts no other key. */
  lemma {:induction false} SomeLibrarySigns(claims: Claims, key: string) returns (lib: Library)
    ensures lib.Signs(claims, key) && lib.ReadsIds()
    ensures forall other :: other != key ==> lib.check(lib.encode(claims, key), other) == Bad
  {
    lib := Library(
      (_, _) => "t", t => if t == "t" then Some(claims) else None, (_, k) => if k == key then Good else Bad,
      _ => None, text => Parse(text));
    assert NoSpace("t");
    forall id: Uuid ensures Parse(Str(id)) == Some(id) {
      ParseStr(id);
    }
  }

  /** `BotAccountsStorage.build_jwt_v2`. */
  function BuildJwtV2(lib: Library, accounts: seq<Account>, id: Uuid, issuedAt: int, tokenId: string): Option<string>
  {
    match FindAccount(accounts, id)
    case None => None
    case Some(account) => Some(lib.encode(ClaimsV2(account, issuedAt, tokenId), account.secretKey))
  }
}
