/** `verify_request`: who may call the bot, and which account is meant. */
module RequestVerification {
  import opened Results
  import opened Sequences
  import opened Uuids
  import opened Text
  import opened Commands
  import opened Accounts

  /**
   `Unverified` is `UnverifiedRequestError`; the other cases are exceptions of other kinds. `NoLastWord`
   is the failed index on a blank header, `MalformedAudienceId` whatever `UUID(...)` raises on the
   audience, `UnhashableIssuer` the failed look-up of a list or a dictionary in a set, `RefusedKey` what
   the JWT library raises on a key it does not work with, and `UnreadableTime` what `int(...)` raises
   inside the library on a time claim that is neither number nor text.
   */
  datatype VerifyError =
    | HeadersNotProvided
    | Unverified
    | UnknownBotAccount(id: Uuid)
    | NoLastWord
    | MalformedAudienceId
    | UnhashableIssuer
    | RefusedKey
    | UnreadableTime

  const LEEWAY := 1

  type Headers = map<string, string>

  function ClaimOf(claims: Claims, name: string): Claim
  {
    if name in claims then claims[name] else Null
  }

  /** `_is_v2_payload`. */
  predicate IsV2Payload(lib: Library, claims: Claims)
  {
    || ClaimOf(claims, "version") == Number(2.0)
    || (&& ClaimOf(claims, "aud").Text?
        && ClaimOf(claims, "iss").Text?
        && lib.parseId(ClaimOf(claims, "iss").text).Some?)
  }

  // ----- The claims of a signed token -----

  /** `int(x)` of a number: the fraction is cut off. */
  function Truncate(x: real): (n: int)
    ensures if 0.0 <= x then n as real <= x < n as real + 1.0 else n as real - 1.0 < x <= n as real
  {
    if 0.0 <= x then x.Floor else -(-x).Floor
  }

  /** `int(claim)`: a whole number, a `ValueError`, or an exception of another kind. */
  datatype Whole = Whole(value: int) | NoWhole | Unreadable

  function ReadWhole(lib: Library, claim: Claim): Whole
  {
    match claim
    case Flag(flag) => Whole(if flag then 1 else 0)
    case Number(number) => Whole(Truncate(number))
    case Text(text) => (match lib.numeral(text) case None => NoWhole case Some(n) => Whole(n))
    case NotANumber => NoWhole
    case _ => Unreadable
  }

  /** A step of the validation lets the claims pass, raises `InvalidTokenError`, or another exception. */
  datatype Verdict = Passes | Fails | Raises
  {
    function Then(next: Verdict): Verdict
    {
      if Passes? then next else this
    }
  }

  function CheckTime(lib: Library, claims: Claims, name: string, fits: int -> bool): Verdict
  {
    if name !in claims then
      Passes
    else
      match ReadWhole(lib, claims[name])
      case Whole(second) => if fits(second) then Passes else Fails
      case NoWhole => Fails
      case Unreadable => Raises
  }

  function CheckText(claims: Claims, name: string): Verdict
  {
    if name in claims && !claims[name].Text? then Fails else Passes
  }

  /** The claims, in the order in which the library checks them, with one second of leeway. */
  function CheckClaims(lib: Library, claims: Claims, now: real): Verdict
  {
    CheckTime(lib, claims, "iat", second => second as real <= now + LEEWAY as real)
    .Then(CheckTime(lib, claims, "nbf", second => second as real <= now + LEEWAY as real))
    .Then(CheckTime(lib, claims, "exp", second => now - LEEWAY as real < second as real))
    .Then(CheckText(claims, "sub"))
    .Then(CheckText(claims, "jti"))
  }

  /** `jwt.decode` with a key: how it fails, if it does. Issuer and audience are left to the callers. */
  function DecodeError(lib: Library, token: string, key: string, claims: Claims, now: real): Option<VerifyError>
  {
    match lib.check(token, key)
    case KeyRefused => Some(RefusedKey)
    case Bad => Some(Unverified)
    case Good =>
      match CheckClaims(lib, claims, now)
      case Passes => None
      case Fails => Some(Unverified)
      case Raises => Some(UnreadableTime)
  }

  /** `_verify_request_v2`. An unknown bot is not reported as an unverified request. */
  function VerifyV2(lib: Library, token: string, claims: Claims, accounts: seq<Account>, now: real)
    : Result<Account, VerifyError>
  {
    match ClaimOf(claims, "iss")
    case Text(issuer) =>
      (match lib.parseId(issuer)
       case None => Failure(Unverified)
       case Some(id) =>
         match FindAccount(accounts, id)
         case None => Failure(UnknownBotAccount(id))
         case Some(account) =>
           if ClaimOf(claims, "aud") != Text(account.host) then Failure(Unverified)
           else
             match DecodeError(lib, token, account.secretKey, claims, now)
             case Some(error) => Failure(error)
             case None => if issuer != Str(account.id) then Failure(Unverified) else Success(account))
    case _ => Failure(Unverified)
  }

  /** `_verify_request_v1`. */
  function VerifyV1(
    lib: Library, token: string, claims: Claims, accounts: seq<Account>, trustedIssuers: set<string>, now: real)
    : Result<Account, VerifyError>
  {
    var audience := ClaimOf(claims, "aud");
    if !audience.List? || |audience.items| != 1 then
      Failure(Unverified)
    else
      match if audience.items[0].Text? then lib.parseId(audience.items[0].text) else None
      case None => Failure(MalformedAudienceId)
      case Some(id) =>
        match FindAccount(accounts, id)
        case None => Failure(Unverified)
        case Some(account) =>
          match DecodeError(lib, token, account.secretKey, claims, now)
          case Some(error) => Failure(error)
          case None =>
            match ClaimOf(claims, "iss")
            case Text(issuer) =>
              if issuer == account.host || issuer in trustedIssuers then Success(account) else Failure(Unverified)
            case List(_) => Failure(if trustedIssuers == {} then Unverified else UnhashableIssuer)
            case Object(_) => Failure(if trustedIssuers == {} then Unverified else UnhashableIssuer)
            case _ => Failure(Unverified)
  }

  /** `verify_request`; without trusted issuers the set is empty. */
  function VerifyRequest(
    lib: Library, headers: Option<Headers>, accounts: seq<Account>, trustedIssuers: set<string>, now: real)
    : Result<Account, VerifyError>
  {
    if headers.None? then
      Failure(HeadersNotProvided)
    else if "authorization" !in headers.value || headers.value["authorization"] == "" then
      Failure(Unverified)
    else
      var words := Split(headers.value["authorization"]);
      if words == [] then
        Failure(NoLastWord)
      else
        var token := words[|words| - 1];
        match lib.read(token)
        case None => Failure(Unverified)
        case Some(claims) =>
          if IsV2Payload(lib, claims) then VerifyV2(lib, token, claims, accounts, now)
          else VerifyV1(lib, token, claims, accounts, trustedIssuers, now)
  }

  // ----- Signing and verifying agree -----

  lemma {:induction false} BearerWords(token: string)
    requires token != "" && NoSpace(token)
    ensures Split("Bearer " + token) == ["Bearer", token]
  {
    Regroup("Bearer", " ", token);
    assert "Bearer" + " " == "Bearer ";
    SplitWord("Bearer", " " + token);
    hide Split;
    SplitSpace(" ", token);
    assert token + "" == token;
    SplitWord(token, "");
  }

  /**
   A header with a token built by `build_jwt_v2` at second `issuedAt` is accepted, for that very
   account, exactly from one second before until 61 seconds after; at other times it is unverified.
   */
  lemma {:induction false} SignedRequestIsVerified(
    lib: Library, accounts: seq<Account>, id: Uuid, issuedAt: int, tokenId: string,
    trustedIssuers: set<string>, now: real)
    requires FindAccount(accounts, id).Some?
    requires
      var account := FindAccount(accounts, id).value;
      lib.Signs(ClaimsV2(account, issuedAt, tokenId), account.secretKey)
    requires lib.parseId(Str(id)) == Some(id)
    ensures BuildJwtV2(lib, accounts, id, issuedAt, tokenId).Some?
    ensures
      var token := BuildJwtV2(lib, accounts, id, issuedAt, tokenId).value;
      VerifyRequest(lib, Some(map["authorization" := "Bearer " + token]), accounts, trustedIssuers, now)
      == if (issuedAt - 1) as real <= now < (issuedAt + 61) as real then Success(FindAccount(accounts, id).value)
         else Failure(Unverified)
  {
    hide NoSpace, Split, FindAccount, Str, CheckClaims;
    var account := FindAccount(accounts, id).value;
    assert account.id == id;
    var claims := ClaimsV2(account, issuedAt, tokenId);
    var token := lib.encode(claims, account.secretKey);
    BearerWords(token);
    assert ClaimOf(claims, "iss") == Text(Str(id)) && ClaimOf(claims, "aud") == Text(account.host);
    BuiltClaimsFit(lib, account, issuedAt, tokenId, now);
  }

  lemma {:induction false} BuiltClaimsFit(lib: Library, account: Account, issuedAt: int, tokenId: string, now: real)
    ensures CheckClaims(lib, ClaimsV2(account, issuedAt, tokenId), now)
         == if (issuedAt - 1) as real <= now < (issuedAt + 61) as real then Passes else Fails
  {
    var claims := ClaimsV2(account, issuedAt, tokenId);
    assert claims["iat"] == claims["nbf"] == Number(issuedAt as real);
    assert claims["exp"] == Number((issuedAt + 60) as real);
    assert CheckText(claims, "sub") == CheckText(claims, "jti") == Passes;
    WholeIsKept(issuedAt);
    WholeIsKept(issuedAt + 60);
    hide ClaimsV2, CheckText, Truncate, Str;
  }

  lemma {:induction false} WholeIsKept(n: int)
    ensures Truncate(n as real) == n
  {
  }

  /** There are libraries for which this holds, whatever the account and the arguments. */
  lemma {:induction false} SignedRequestsExist(
    accounts: seq<Account>, id: Uuid, issuedAt: int, tokenId: string, trustedIssuers: set<string>, now: real)
    returns (lib: Library, headers: Headers)
    requires FindAccount(accounts, id).Some?
    requires (issuedAt - 1) as real <= now < (issuedAt + 61) as real
    ensures VerifyRequest(lib, Some(headers), accounts, trustedIssuers, now) == Success(FindAccount(accounts, id).value)
  {
    hide VerifyRequest, FindAccount, Str, ClaimsV2;
    var account := FindAccount(accounts, id).value;
    lib := SomeLibrarySigns(ClaimsV2(account, issuedAt, tokenId), account.secretKey);
    SignedRequestIsVerified(lib, accounts, id, issuedAt, tokenId, trustedIssuers, now);
    headers := map["authorization" := "Bearer " + BuildJwtV2(lib, accounts, id, issuedAt, tokenId).value];
  }

  // ----- What acceptance means -----

  /** The claim, if it is there, stands for a second that is not later than this. */
  predicate NotAfter(lib: Library, claims: Claims, name: string, latest: real)
  {
    name in claims ==>
      ReadWhole(lib, claims[name]).Whole? && ReadWhole(lib, claims[name]).value as real <= latest
  }

  /** The claims are as sections 4.1.2 to 4.1.7 of RFC 7519 ask for, with one second of leeway. */
  predicate ClaimsAreValid(lib: Library, claims: Claims, now: real)
  {
    && NotAfter(lib, claims, "iat", now + LEEWAY as real)
    && NotAfter(lib, claims, "nbf", now + LEEWAY as real)
    && ("exp" in claims ==>
          ReadWhole(lib, claims["exp"]).Whole? && now < (ReadWhole(lib, claims["exp"]).value + LEEWAY) as real)
    && ("sub" in claims ==> claims["sub"].Text?)
    && ("jti" in claims ==> claims["jti"].Text?)
  }

  /** `int(...)` of the claim raises something that the library does not turn into an `InvalidTokenError`. */
  predicate IsUnreadable(claims: Claims, name: string)
  {
    && name in claims
    && (claims[name].Null? || claims[name].List? || claims[name].Object? || claims[name].Infinite?)
  }

  /** The first time claim that is not in order is an unreadable one. */
  predicate HasUnreadableTime(lib: Library, claims: Claims, now: real)
  {
    || IsUnreadable(claims, "iat")
    || (NotAfter(lib, claims, "iat", now + LEEWAY as real)
        && (|| IsUnreadable(claims, "nbf")
            || (NotAfter(lib, claims, "nbf", now + LEEWAY as real) && IsUnreadable(claims, "exp"))))
  }

  /** Which claims can stand for a whole number, and for which. */
  lemma {:induction false} WholesOfClaims(lib: Library, claim: Claim, n: int)
    ensures ReadWhole(lib, claim) == Whole(n) <==>
      match claim
      case Number(x) => if 0.0 <= x then n as real <= x < n as real + 1.0 else n as real - 1.0 < x <= n as real
      case Flag(true) => n == 1
      case Flag(false) => n == 0
      case Text(text) => lib.numeral(text) == Some(n)
      case _ => false
    ensures ReadWhole(lib, claim).Unreadable? <==> claim.Null? || claim.List? || claim.Object? || claim.Infinite?
  {
    if claim.Number? {
      OnlyTruncation(claim.number, n);
    }
    hide Truncate;
  }

  lemma {:induction false} OnlyTruncation(x: real, n: int)
    ensures Truncate(x) == n <==>
      if 0.0 <= x then n as real <= x < n as real + 1.0 else n as real - 1.0 < x <= n as real
  {
    var m := Truncate(x);
    if m != n {
      assert m + 1 <= n || n + 1 <= m;
    }
  }

  lemma {:induction false} ClaimVerdicts(lib: Library, claims: Claims, now: real)
    ensures CheckClaims(lib, claims, now) == Passes <==> ClaimsAreValid(lib, claims, now)
    ensures CheckClaims(lib, claims, now) == Raises <==> HasUnreadableTime(lib, claims, now)
  {
    hide Truncate;
  }

  lemma {:induction false} DecodeErrors(lib: Library, token: string, key: string, claims: Claims, now: real)
    ensures var e := DecodeError(lib, token, key, claims, now);
      && (e == None <==> lib.check(token, key) == Good && ClaimsAreValid(lib, claims, now))
      && (e == Some(RefusedKey) <==> lib.check(token, key) == KeyRefused)
      && (e == Some(UnreadableTime) <==> lib.check(token, key) == Good && HasUnreadableTime(lib, claims, now))
      && (e.Some? ==> e.value in {RefusedKey, UnreadableTime, Unverified})
  {
    hide CheckClaims, ClaimsAreValid, HasUnreadableTime;
    ClaimVerdicts(lib, claims, now);
  }

  // ----- What a token says -----

  predicate Says(claims: Claims, name: string, value: Claim)
  {
    name in claims && claims[name] == value
  }

  /** The id the issuer is read as. */
  function IssuerId(lib: Library, claims: Claims): Option<Uuid>
  {
    if "iss" in claims && claims["iss"].Text? then lib.parseId(claims["iss"].text) else None
  }

  /** The audience is one text. */
  predicate HasTextAudience(claims: Claims)
  {
    "aud" in claims && claims["aud"].Text?
  }

  /** The audience is a list of one element, which need not be a text. */
  predicate HasOneAudience(claims: Claims)
  {
    "aud" in claims && claims["aud"].List? && |claims["aud"].items| == 1
  }

  /** The id that element is read as. */
  function AudienceId(lib: Library, claims: Claims): Option<Uuid>
  {
    if HasOneAudience(claims) && claims["aud"].items[0].Text? then lib.parseId(claims["aud"].items[0].text) else None
  }

  /**
   The token of an accepted request: good under the key, its claims in order, and either with the id of the
   account as issuer and its host as audience, whatever version it says it has, or, if it does not say that it
   has version 2, with the id as only audience and the host or a trusted issuer as issuer.
   */
  ghost predicate Vouches(
    lib: Library, token: string, claims: Claims, account: Account, trustedIssuers: set<string>, now: real)
  {
    && lib.read(token) == Some(claims)
    && lib.check(token, account.secretKey) == Good
    && ClaimsAreValid(lib, claims, now)
    && (|| (Says(claims, "iss", Text(Str(account.id))) && Says(claims, "aud", Text(account.host)))
        || (&& !Says(claims, "version", Number(2.0))
            && AudienceId(lib, claims) == Some(account.id)
            && "iss" in claims && claims["iss"].Text?
            && (claims["iss"].text == account.host || claims["iss"].text in trustedIssuers)))
  }

  /**
   A request is accepted for an account exactly if that account is the first with its id and the last
   word of the header vouches for it.
   */
  lemma {:induction false} AcceptedIffVouchedFor(
    lib: Library, headers: Option<Headers>, accounts: seq<Account>, trustedIssuers: set<string>, now: real,
    account: Account)
    requires lib.ReadsIds()
    ensures VerifyRequest(lib, headers, accounts, trustedIssuers, now) == Success(account) <==>
      && headers.Some? && "authorization" in headers.value
      && var words := Split(headers.value["authorization"]);
      && words != []
      && FindAccount(accounts, account.id) == Some(account)
      && var token := words[|words| - 1];
      && lib.read(token).Some? && Vouches(lib, token, lib.read(token).value, account, trustedIssuers, now)
  {
    hide NoSpace, Split, FindAccount, Str, CheckClaims, ClaimsAreValid, Vouches, VerifyV1, VerifyV2, IsV2Payload;
    SplitOfNothing();
    if headers.Some? && "authorization" in headers.value && Split(headers.value["authorization"]) != [] {
      var words := Split(headers.value["authorization"]);
      var token := words[|words| - 1];
      if lib.read(token).Some? {
        var claims := lib.read(token).value;
        AcceptedTokenVouches(lib, token, claims, accounts, trustedIssuers, now, account);
      }
    }
  }

  lemma {:induction false} SplitOfNothing()
    ensures Split("") == []
  {
  }

  lemma {:induction false} AcceptedTokenVouches(
    lib: Library, token: string, claims: Claims, accounts: seq<Account>, trustedIssuers: set<string>, now: real,
    account: Account)
    requires lib.ReadsIds() && lib.read(token) == Some(claims)
    ensures (if IsV2Payload(lib, claims) then VerifyV2(lib, token, claims, accounts, now)
             else VerifyV1(lib, token, claims, accounts, trustedIssuers, now)) == Success(account)
       <==>
         && FindAccount(accounts, account.id) == Some(account)
         && Vouches(lib, token, claims, account, trustedIssuers, now)
  {
    hide NoSpace, Split, FindAccount, Str, DecodeError, ClaimsAreValid, HasUnreadableTime;
    if FindAccount(accounts, account.id).Some? {
      DecodeErrors(lib, token, FindAccount(accounts, account.id).value.secretKey, claims, now);
    }
  }

  lemma {:induction false} HeaderWithToken(token: string)
    requires token != "" && NoSpace(token)
    ensures var words := Split("Bearer " + token); words != [] && words[|words| - 1] == token
  {
    hide Split, NoSpace;
    BearerWords(token);
  }

  /**
   A token with the id of an account as issuer and its host as audience is accepted for that account if it is
   good under its key and its claims are in order, whether it says anything of its version or not.
   */
  lemma {:induction false} VersionNeedNotBeSaid(
    lib: Library, token: string, accounts: seq<Account>, account: Account, trustedIssuers: set<string>, now: real)
    requires lib.ReadsIds() && token != "" && NoSpace(token)
    requires lib.read(token).Some? && lib.check(token, account.secretKey) == Good
    requires ClaimsAreValid(lib, lib.read(token).value, now)
    requires Says(lib.read(token).value, "iss", Text(Str(account.id)))
    requires Says(lib.read(token).value, "aud", Text(account.host))
    requires FindAccount(accounts, account.id) == Some(account)
    ensures VerifyRequest(lib, Some(map["authorization" := "Bearer " + token]), accounts, trustedIssuers, now)
         == Success(account)
  {
    hide VerifyRequest, FindAccount, Split, NoSpace, Str, ClaimsAreValid;
    HeaderWithToken(token);
    AcceptedIffVouchedFor(
      lib, Some(map["authorization" := "Bearer " + token]), accounts, trustedIssuers, now, account);
  }

  /** A token that says version 2 is never accepted with a list as audience. */
  lemma {:induction false} Version2NeedsTextAudience(
    lib: Library, token: string, accounts: seq<Account>, trustedIssuers: set<string>, now: real)
    requires lib.ReadsIds() && token != "" && NoSpace(token)
    requires lib.read(token).Some? && Says(lib.read(token).value, "version", Number(2.0))
    requires !HasTextAudience(lib.read(token).value)
    ensures
      VerifyRequest(lib, Some(map["authorization" := "Bearer " + token]), accounts, trustedIssuers, now).Failure?
  {
    hide VerifyRequest, FindAccount, Split, NoSpace, Str, ClaimsAreValid;
    HeaderWithToken(token);
    var r := VerifyRequest(lib, Some(map["authorization" := "Bearer " + token]), accounts, trustedIssuers, now);
    if r.Success? {
      AcceptedIffVouchedFor(
        lib, Some(map["authorization" := "Bearer " + token]), accounts, trustedIssuers, now, r.value);
    }
  }

  // ----- What rejection means -----

  /** The last word of the header, and the claims it can be decoded to. */
  datatype Presented = Presented(token: string, claims: Claims)

  function Presents(lib: Library, headers: Headers): Option<Presented>
  {
    if "authorization" !in headers then
      None
    else
      var words := Split(headers["authorization"]);
      if words == [] || lib.read(words[|words| - 1]).None? then None
      else Some(Presented(words[|words| - 1], lib.read(words[|words| - 1]).value))
  }

  /** The header has no last word. */
  predicate IsBlank(headers: Headers)
  {
    "authorization" in headers && headers["authorization"] != "" && AllSpace(headers["authorization"])
  }

  /** The token says version 2 or has a text as audience, and its issuer is this id, which no account has. */
  predicate NamesUnknownBot(lib: Library, claims: Claims, accounts: seq<Account>, id: Uuid)
  {
    && (Says(claims, "version", Number(2.0)) || HasTextAudience(claims))
    && IssuerId(lib, claims) == Some(id)
    && forall a | a in accounts :: a.id != id
  }

  /** The token does not say version 2 and the one element of its audience is no id. */
  predicate NamesNoId(lib: Library, claims: Claims)
  {
    !Says(claims, "version", Number(2.0)) && HasOneAudience(claims) && AudienceId(lib, claims).None?
  }

  /**
   The account whose key the signature is checked with: with a text as audience the one the issuer names, if
   that text is its host; otherwise the one the only audience names, unless the token says version 2.
   */
  function Concerned(lib: Library, claims: Claims, accounts: seq<Account>): Option<Account>
  {
    var id := if HasTextAudience(claims) then IssuerId(lib, claims) else AudienceId(lib, claims);
    var account := if id.None? then None else FindAccount(accounts, id.value);
    if account.None? then None
    else if HasTextAudience(claims) && !Says(claims, "aud", Text(account.value.host)) then None
    else if !HasTextAudience(claims) && Says(claims, "version", Number(2.0)) then None
    else account
  }

  /** What checking the signature comes to, if it comes to that. */
  predicate SignatureIs(lib: Library, p: Presented, accounts: seq<Account>, outcome: SignatureCheck)
  {
    var account := Concerned(lib, p.claims, accounts);
    account.Some? && lib.check(p.token, account.value.secretKey) == outcome
  }

  /**
   The token is good for the account its only audience names, but its issuer is a value that cannot be
   looked up in a set.
   */
  predicate HasUnhashableIssuer(
    lib: Library, p: Presented, accounts: seq<Account>, trustedIssuers: set<string>, now: real)
  {
    && HasOneAudience(p.claims)
    && SignatureIs(lib, p, accounts, Good)
    && ClaimsAreValid(lib, p.claims, now)
    && "iss" in p.claims && (p.claims["iss"].List? || p.claims["iss"].Object?)
    && trustedIssuers != {}
  }

  /** Each exception other than `UnverifiedRequestError`, and exactly the requests that raise it. */
  lemma {:induction false} OtherWaysOut(
    lib: Library, headers: Headers, accounts: seq<Account>, trustedIssuers: set<string>, now: real)
    ensures VerifyRequest(lib, None, accounts, trustedIssuers, now) == Failure(HeadersNotProvided)
    ensures var r, p := VerifyRequest(lib, Some(headers), accounts, trustedIssuers, now), Presents(lib, headers);
      && r != Failure(HeadersNotProvided)
      && (r == Failure(NoLastWord) <==> IsBlank(headers))
      && (forall id :: r == Failure(UnknownBotAccount(id)) <==>
            p.Some? && NamesUnknownBot(lib, p.value.claims, accounts, id))
      && (r == Failure(MalformedAudienceId) <==> p.Some? && NamesNoId(lib, p.value.claims))
      && (r == Failure(RefusedKey) <==> p.Some? && SignatureIs(lib, p.value, accounts, KeyRefused))
      && (r == Failure(UnreadableTime) <==>
            p.Some? && SignatureIs(lib, p.value, accounts, Good) && HasUnreadableTime(lib, p.value.claims, now))
      && (r == Failure(UnhashableIssuer) <==>
            p.Some? && HasUnhashableIssuer(lib, p.value, accounts, trustedIssuers, now))
  {
    hide NoSpace, Split, Str, DecodeError, ClaimsAreValid, HasUnreadableTime, AllSpace, FindAccount;
    SplitOfNothing();
    if "authorization" in headers {
      NoWords(headers["authorization"]);
    }
    var p := Presents(lib, headers);
    if p.Some? && Concerned(lib, p.value.claims, accounts).Some? {
      DecodeErrors(lib, p.value.token, Concerned(lib, p.value.claims, accounts).value.secretKey, p.value.claims, now);
    }
  }

  /** The request is in none of the families of `OtherWaysOut`. */
  ghost predicate IsOrdinary(
    lib: Library, headers: Headers, accounts: seq<Account>, trustedIssuers: set<string>, now: real)
  {
    && !IsBlank(headers)
    && var p := Presents(lib, headers);
    p.Some? ==>
      && !(exists id :: NamesUnknownBot(lib, p.value.claims, accounts, id))
      && !NamesNoId(lib, p.value.claims)
      && !SignatureIs(lib, p.value, accounts, KeyRefused)
      && !(SignatureIs(lib, p.value, accounts, Good) && HasUnreadableTime(lib, p.value.claims, now))
      && !HasUnhashableIssuer(lib, p.value, accounts, trustedIssuers, now)
  }

  /**
   A rejected request is reported as unverified, as documented, exactly if its header is not blank
   and its token names no unknown bot, no audience that is no id and no issuer that is no plain value, is
   not checked with a key the library refuses, and has no unreadable time.
   */
  lemma {:induction false} RejectedAsUnverified(
    lib: Library, headers: Headers, accounts: seq<Account>, trustedIssuers: set<string>, now: real)
    requires VerifyRequest(lib, Some(headers), accounts, trustedIssuers, now).Failure?
    ensures VerifyRequest(lib, Some(headers), accounts, trustedIssuers, now) == Failure(Unverified)
       <==> IsOrdinary(lib, headers, accounts, trustedIssuers, now)
  {
    hide Presents, IsBlank, NamesUnknownBot, NamesNoId, SignatureIs, HasUnreadableTime, HasUnhashableIssuer;
    hide VerifyRequest;
    OtherWaysOut(lib, headers, accounts, trustedIssuers, now);
    var r := VerifyRequest(lib, Some(headers), accounts, trustedIssuers, now);
    if r.error.UnknownBotAccount? {
      assert r == Failure(UnknownBotAccount(r.error.id));
    }
  }
}
