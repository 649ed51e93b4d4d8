/** Who is asked for a token, and when: the authorization headers of a run of calls. */
module TokenCache {
  import opened Results
  import opened Uuids
  import opened Accounts

  datatype AuthVersion = V1 | V2

  datatype AuthError = UnknownBotAccountError | FetchError

  type Tokens = map<Uuid, string>

  type Headers = map<string, string>

  /** `BotAccountsStorage`. */
  class BotAccountsStorage {
    const accounts: seq<Account>
    const authVersion: AuthVersion
    var authTokens: Tokens

    constructor (accounts: seq<Account>, authVersion: AuthVersion)
      ensures this.accounts == accounts && this.authVersion == authVersion && authTokens == map[]
    {
      this.accounts, this.authVersion, authTokens := accounts, authVersion, map[];
    }

    /** `get_bot_account`: the search ends at the first account with the id. */
    method GetBotAccount(botId: Uuid) returns (account: Option<Account>)
      ensures account == FindAccount(accounts, botId)
    {
      for i := 0 to |accounts|
        invariant FindAccount(accounts[i..], botId) == FindAccount(accounts, botId)
      {
        assert accounts[i..][1..] == accounts[i + 1..];
        if accounts[i].id == botId {
          return Some(accounts[i]);
        }
      }
      account := None;
    }

    method SetToken(botId: Uuid, token: string)
      modifies this`authTokens
      ensures authTokens == old(authTokens)[botId := token]
    {
      authTokens := authTokens[botId := token];
    }

    method GetTokenOrNone(botId: Uuid) returns (token: Option<string>)
      ensures token == Cached(authTokens, botId)
    {
      token := Cached(authTokens, botId);
    }
  }

  function Cached(tokens: Tokens, botId: Uuid): Option<string>
  {
    if botId in tokens then Some(tokens[botId]) else None
  }

  /** One call of an authorised method: the bot, and what `get_token` gives or raises should it be called. */
  datatype Call = Call(botId: Uuid, server: Result<string, AuthError>)

  /** Whether the server was asked, and the token that went into the header. */
  datatype Outcome = Outcome(asked: bool, token: Result<string, AuthError>)

  /** What one V1 call does with the cache. */
  function Perform(tokens: Tokens, call: Call): (Tokens, Outcome)
  {
    if call.botId in tokens then
      (tokens, Outcome(false, Success(tokens[call.botId])))
    else
      match call.server
      case Success(token) => (tokens[call.botId := token], Outcome(true, call.server))
      case Failure(_) => (tokens, Outcome(true, call.server))
  }

  /** `AuthorizedBotXMethod`, as far as its headers go. */
  class AuthorizedBotXMethod {
    const storage: BotAccountsStorage
    const botId: Uuid
    var legacyAuthWarned: bool

    constructor (botId: Uuid, storage: BotAccountsStorage)
      ensures this.botId == botId && this.storage == storage && !legacyAuthWarned
    {
      this.botId, this.storage, legacyAuthWarned := botId, storage, false;
    }

    /**
     `_add_authorization_headers`. `lib`, `now` and `tokenId` are what a V2 token is built with;
     `server` is what `get_token` returns or raises if it is called.
     */
    method AddAuthorizationHeaders(
      headers: Headers, lib: Library, now: int, tokenId: string, server: Result<string, AuthError>)
      returns (r: Result<Headers, AuthError>, asked: bool)
      modifies this`legacyAuthWarned, storage`authTokens
      ensures storage.authVersion == V2 ==>
        && storage.authTokens == old(storage.authTokens) && !asked && legacyAuthWarned == old(legacyAuthWarned)
        && r == match BuildJwtV2(lib, storage.accounts, botId, now, tokenId)
                case None => Failure(UnknownBotAccountError)
                case Some(token) => Success(headers["Authorization" := "Bearer " + token])
      ensures storage.authVersion == V1 ==>
        var (tokens, outcome) := Perform(old(storage.authTokens), Call(botId, server));
        && storage.authTokens == tokens && asked == outcome.asked && legacyAuthWarned
        && r == match outcome.token
                case Failure(e) => Failure(e)
                case Success(token) => Success(headers["Authorization" := "Bearer " + token])
    {
      asked := false;
      var token;
      if storage.authVersion == V2 {
        var built := BuildJwtV2(lib, storage.accounts, botId, now, tokenId);
        if built.None? {
          return Failure(UnknownBotAccountError), asked;
        }
        token := built.value;
      } else {
        if !legacyAuthWarned {
          legacyAuthWarned := true;
        }
        var tokenOrNone := storage.GetTokenOrNone(botId);
        if tokenOrNone.None? {
          asked := true;
          if server.Failure? {
            return Failure(server.error), asked;
          }
          token := server.value;
          storage.SetToken(botId, token);
        } else {
          token := tokenOrNone.value;
        }
      }
      r := Success(headers["Authorization" := "Bearer " + token]);
    }
  }

  // ----- Whole runs -----

  function CacheAfter(tokens: Tokens, calls: seq<Call>): Tokens
    decreases |calls|
  {
    if calls == [] then tokens else CacheAfter(Perform(tokens, calls[0]).0, calls[1..])
  }

  function Outcomes(tokens: Tokens, calls: seq<Call>): (r: seq<Outcome>)
    ensures |r| == |calls|
    decreases |calls|
  {
    if calls == [] then []
    else [Perform(tokens, calls[0]).1] + Outcomes(Perform(tokens, calls[0]).0, calls[1..])
  }

  /** The first token the server would have given for this bot: no cache is mentioned here. */
  function FirstToken(calls: seq<Call>, botId: Uuid): Option<string>
  {
    if calls == [] then None
    else if calls[0].botId == botId && calls[0].server.Success? then Some(calls[0].server.value)
    else FirstToken(calls[1..], botId)
  }

  function OrElse(a: Option<string>, b: Option<string>): Option<string>
  {
    if a.Some? then a else b
  }

  lemma {:induction false} CacheHoldsFirstToken(tokens: Tokens, calls: seq<Call>, botId: Uuid)
    ensures Cached(CacheAfter(tokens, calls), botId) == OrElse(Cached(tokens, botId), FirstToken(calls, botId))
    decreases |calls|
  {
    if calls == [] {
    } else {
      CacheHoldsFirstToken(Perform(tokens, calls[0]).0, calls[1..], botId);
    }
  }

  /** The call number `i` finds the cache that the calls before it left. */
  lemma {:induction false} OutcomeAt(tokens: Tokens, calls: seq<Call>, i: nat)
    requires i < |calls|
    ensures Outcomes(tokens, calls)[i] == Perform(CacheAfter(tokens, calls[..i]), calls[i]).1
    decreases |calls|
  {
    if i == 0 {
    } else {
      OutcomeAt(Perform(tokens, calls[0]).0, calls[1..], i - 1);
      assert calls[..i][1..] == calls[1..][..i - 1];
    }
  }

  lemma {:induction false} FirstTokenAppend(calls: seq<Call>, call: Call, botId: Uuid)
    ensures FirstToken(calls + [call], botId)
         == OrElse(FirstToken(calls, botId),
                   if call.botId == botId && call.server.Success? then Some(call.server.value) else None)
  {
    if calls == [] {
      assert [call][1..] == [];
      assert [] + [call] == [call];
    } else {
      assert (calls + [call])[1..] == calls[1..] + [call];
      FirstTokenAppend(calls[1..], call, botId);
    }
  }

  /**
   In every run from an empty cache: a call asks the server exactly if no earlier call of its bot
   brought a token, and its header carries the first token its bot was ever given; if there is none
   yet, the call fails as the server did.
   */
  lemma {:induction false} HeadersOfARun(calls: seq<Call>, i: nat)
    requires i < |calls|
    ensures var outcome, botId := Outcomes(map[], calls)[i], calls[i].botId;
      && (outcome.asked <==> FirstToken(calls[..i], botId).None?)
      && outcome.token == match FirstToken(calls[..i + 1], botId)
                          case Some(token) => Success(token)
                          case None => calls[i].server
  {
    OutcomeAt(map[], calls, i);
    CacheHoldsFirstToken(map[], calls[..i], calls[i].botId);
    FirstTokenAppend(calls[..i], calls[i], calls[i].botId);
    assert calls[..i + 1] == calls[..i] + [calls[i]];
  }

  lemma {:induction false} FirstTokenGrows(calls: seq<Call>, i: nat, j: nat, botId: Uuid)
    requires i <= j <= |calls|
    requires FirstToken(calls[..i], botId).Some?
    ensures FirstToken(calls[..j], botId) == FirstToken(calls[..i], botId)
    decreases j
  {
    if i == j {
    } else {
      FirstTokenGrows(calls, i, j - 1, botId);
      FirstTokenAppend(calls[..j - 1], calls[j - 1], botId);
      assert calls[..j] == calls[..j - 1] + [calls[j - 1]];
    }
  }

  /** A bot is given a token at most once, and all its later headers carry that token. */
  lemma {:induction false} OneTokenPerBot(calls: seq<Call>, i: nat, j: nat)
    requires i < j < |calls| && calls[i].botId == calls[j].botId
    requires Outcomes(map[], calls)[i].token.Success?
    ensures !Outcomes(map[], calls)[j].asked
    ensures Outcomes(map[], calls)[j].token == Outcomes(map[], calls)[i].token
  {
    var botId := calls[i].botId;
    HeadersOfARun(calls, i);
    HeadersOfARun(calls, j);
    CallsOfTheRun(calls, i);
    FirstTokenGrows(calls, i + 1, j, botId);
    FirstTokenGrows(calls, i + 1, j + 1, botId);
  }

  lemma {:induction false} CallsOfTheRun(calls: seq<Call>, i: nat)
    requires i < |calls|
    ensures FirstToken(calls[..i + 1], calls[i].botId)
         == OrElse(FirstToken(calls[..i], calls[i].botId),
                   if calls[i].server.Success? then Some(calls[i].server.value) else None)
  {
    assert calls[..i + 1] == calls[..i] + [calls[i]];
    FirstTokenAppend(calls[..i], calls[i], calls[i].botId);
  }

  /** After a failed call the bot's next call asks again: a failure is never remembered. */
  lemma {:induction false} FailureIsRetried(calls: seq<Call>, i: nat, j: nat)
    requires i < j < |calls| && calls[i].botId == calls[j].botId
    requires forall k | i < k < j :: calls[k].botId != calls[j].botId
    requires Outcomes(map[], calls)[i].token.Failure?
    ensures Outcomes(map[], calls)[i].asked && Outcomes(map[], calls)[j].asked
  {
    HeadersOfARun(calls, i);
    HeadersOfARun(calls, j);
    CallsOfTheRun(calls, i);
    NoTokenBetween(calls, i + 1, j, calls[j].botId);
  }

  lemma {:induction false} NoTokenBetween(calls: seq<Call>, i: nat, j: nat, botId: Uuid)
    requires i <= j <= |calls|
    requires forall k | i <= k < j :: calls[k].botId != botId
    ensures FirstToken(calls[..j], botId) == FirstToken(calls[..i], botId)
    decreases j
  {
    if i == j {
    } else {
      NoTokenBetween(calls, i, j - 1, botId);
      FirstTokenAppend(calls[..j - 1], calls[j - 1], botId);
      assert calls[..j] == calls[..j - 1] + [calls[j - 1]];
    }
  }

  // ----- Bots do not affect each other -----

  function CallsOf(calls: seq<Call>, botId: Uuid): seq<Call>
  {
    if calls == [] then []
    else (if calls[0].botId == botId then [calls[0]] else []) + CallsOf(calls[1..], botId)
  }

  function OutcomesOf(calls: seq<Call>, outcomes: seq<Outcome>, botId: Uuid): seq<Outcome>
    requires |calls| == |outcomes|
  {
    if calls == [] then []
    else (if calls[0].botId == botId then [outcomes[0]] else []) + OutcomesOf(calls[1..], outcomes[1..], botId)
  }

  /** What a bot's calls experience in a run is what they experience when they are made alone. */
  lemma {:induction false} BotsAreIndependent(tokens: Tokens, alone: Tokens, calls: seq<Call>, botId: Uuid)
    requires Cached(tokens, botId) == Cached(alone, botId)
    ensures OutcomesOf(calls, Outcomes(tokens, calls), botId) == Outcomes(alone, CallsOf(calls, botId))
    decreases |calls|
  {
    if calls == [] {
    } else {
      var call := calls[0];
      var next := Perform(tokens, call).0;
      assert Outcomes(tokens, calls)[1..] == Outcomes(next, calls[1..]);
      if call.botId == botId {
        var nextAlone := Perform(alone, call).0;
        BotsAreIndependent(next, nextAlone, calls[1..], botId);
        assert ([call] + CallsOf(calls[1..], botId))[1..] == CallsOf(calls[1..], botId);
      } else {
        BotsAreIndependent(next, alone, calls[1..], botId);
        assert CallsOf(calls, botId) == CallsOf(calls[1..], botId);
        assert OutcomesOf(calls, Outcomes(tokens, calls), botId)
            == OutcomesOf(calls[1..], Outcomes(next, calls[1..]), botId);
      }
    }
  }

  // ----- The run, call by call -----

  /** The headers a call ends up with. */
  function HeadersFor(token: Result<string, AuthError>): Result<Headers, AuthError>
  {
    match token
    case Failure(e) => Failure(e)
    case Success(text) => Success(map["Authorization" := "Bearer " + text])
  }

  /** Every API call makes its own method object; what they share is the storage. */
  method PerformRun(storage: BotAccountsStorage, calls: seq<Call>, lib: Library)
    returns (answers: seq<Result<Headers, AuthError>>, asked: seq<bool>)
    requires storage.authVersion == V1 && storage.authTokens == map[]
    modifies storage`authTokens
    ensures |answers| == |asked| == |calls|
    ensures forall i | 0 <= i < |calls| ::
      && (asked[i] <==> FirstToken(calls[..i], calls[i].botId).None?)
      && answers[i] == match FirstToken(calls[..i + 1], calls[i].botId)
                       case Some(token) => HeadersFor(Success(token))
                       case None => HeadersFor(calls[i].server)
    ensures forall botId :: Cached(storage.authTokens, botId) == FirstToken(calls, botId)
  {
    answers, asked := [], [];
    for n := 0 to |calls|
      invariant |answers| == |asked| == n
      invariant storage.authTokens == CacheAfter(map[], calls[..n])
      invariant forall i | 0 <= i < n ::
        asked[i] == Outcomes(map[], calls)[i].asked && answers[i] == HeadersFor(Outcomes(map[], calls)[i].token)
    {
      var call := calls[n];
      var m := new AuthorizedBotXMethod(call.botId, storage);
      var answer, ask := m.AddAuthorizationHeaders(map[], lib, 0, "", call.server);
      answers, asked := answers + [answer], asked + [ask];
      OutcomeAt(map[], calls, n);
      CacheAfterAppend(map[], calls[..n], call);
      assert calls[..n + 1] == calls[..n] + [call];
    }
    assert calls[..|calls|] == calls;
    forall i | 0 <= i < |calls|
      ensures asked[i] <==> FirstToken(calls[..i], calls[i].botId).None?
      ensures answers[i] == match FirstToken(calls[..i + 1], calls[i].botId)
                            case Some(token) => HeadersFor(Success(token))
                            case None => HeadersFor(calls[i].server)
    {
      HeadersOfARun(calls, i);
    }
    forall botId ensures Cached(storage.authTokens, botId) == FirstToken(calls, botId) {
      CacheHoldsFirstToken(map[], calls, botId);
    }
  }

  lemma {:induction false} CacheAfterAppend(tokens: Tokens, calls: seq<Call>, call: Call)
    ensures CacheAfter(tokens, calls + [call]) == Perform(CacheAfter(tokens, calls), call).0
    decreases |calls|
  {
    if calls == [] {
      assert [] + [call] == [call] && [call][1..] == [];
    } else {
      assert (calls + [call])[1..] == calls[1..] + [call];
      CacheAfterAppend(Perform(tokens, calls[0]).0, calls[1..], call);
    }
  }
}
