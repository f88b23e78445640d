/** Renewing a session that two authorities can vouch for. */
module Auth {
  import opened Wrappers
  import opened Strings

  const REFRESH_SKEW_SECONDS := 60
  const MAX_CLOCK := 0xFFFF_FFFF_FFFF_FFFF
  const MAX_ACCESS_TOKEN_BYTES := 16 * 1024

  /** Seconds since the epoch, as clocks and answers have them. */
  type Seconds = n: nat | n <= MAX_CLOCK

  function SaturatingAdd(a: nat, b: nat): Seconds {
    if a + b > MAX_CLOCK then MAX_CLOCK else a + b
  }

  datatype TokenPair = TokenPair(
    accessToken: string, refreshToken: Option<string>, expiresAt: Seconds, refreshExpiresAt: Option<Seconds>)
  {
    predicate UsableAt(now: Seconds) {
      accessToken != "" && expiresAt > now
    }

    predicate NeedsRefreshAt(now: Seconds) {
      expiresAt <= SaturatingAdd(now, REFRESH_SKEW_SECONDS)
    }
  }

  predicate Usable(pair: Option<TokenPair>, now: Seconds) {
    pair.Some? && pair.value.UsableAt(now)
  }

  datatype SharedResponse = SharedResponse(pair: TokenPair, userId: Option<string>, roles: seq<string>)

  datatype SupabaseResponse = SupabaseResponse(
    accessToken: Option<string>, refreshToken: Option<string>,
    expiresAt: Option<Seconds>, expiresIn: Option<Seconds>)

  /** The servers, and the clock, which stands still during a call. */
  datatype Client = Client(
    now: Seconds,
    sharedRefresh: string -> Result<SharedResponse>,
    supabaseRefresh: string -> Result<SupabaseResponse>,
    sharedExchange: string -> Result<SharedResponse>)

  predicate InvalidToken(token: string) {
    token == "" || Utf8Length(token) > MAX_ACCESS_TOKEN_BYTES
  }

  /** A token that cannot be one, or no word on when it expires. */
  predicate Malformed(response: SupabaseResponse) {
    && response.accessToken.Some?
    && (InvalidToken(response.accessToken.value) || (response.expiresAt.None? && response.expiresIn.None?))
  }

  /** `Ok(None)`: the answer holds no session.  An expiry that is only given as a span counts from now. */
  function SupabasePair(response: SupabaseResponse, now: Seconds): (r: Result<Option<TokenPair>>)
    ensures r == Ok(None) <==> response.accessToken.None?
    ensures r.Err? <==> Malformed(response)
    ensures r.Ok? && r.value.Some? ==>
      var pair := r.value.value;
      && Some(pair.accessToken) == response.accessToken && pair.accessToken != ""
      && pair.refreshToken == response.refreshToken && pair.refreshExpiresAt.None?
      && (response.expiresAt.Some? ==> pair.expiresAt == response.expiresAt.value)
      && (response.expiresAt.None? && now < MAX_CLOCK ==>
            response.expiresIn.Some? && (pair.UsableAt(now) <==> response.expiresIn.value > 0))
  {
    if response.accessToken.None? then Ok(None)
    else if InvalidToken(response.accessToken.value) then Err
    else
      var expiry :=
        if response.expiresAt.Some? then response.expiresAt
        else if response.expiresIn.Some? then Some(SaturatingAdd(now, response.expiresIn.value))
        else None;
      if expiry.None? then Err
      else Ok(Some(TokenPair(response.accessToken.value, response.refreshToken, expiry.value, None)))
  }

  // ---------- What the servers make of a session ----------

  predicate Due(pair: Option<TokenPair>, now: Seconds, force: bool) {
    pair.Some? && (force || pair.value.NeedsRefreshAt(now))
  }

  /** Whether a pair is to be renewed, and has what that takes. */
  predicate Renewable(pair: Option<TokenPair>, now: Seconds, force: bool) {
    Due(pair, now, force) && pair.value.refreshToken.Some?
  }

  function SharedResponseTo(client: Client, pair: Option<TokenPair>, force: bool): Result<SharedResponse> {
    if Renewable(pair, client.now, force) then client.sharedRefresh(pair.value.refreshToken.value) else Err
  }

  function SharedAnswer(client: Client, pair: Option<TokenPair>, force: bool): Option<TokenPair> {
    match SharedResponseTo(client, pair, force)
    case Ok(response) => Some(response.pair)
    case Err => None
  }

  predicate SupabaseAnswers(client: Client, pair: Option<TokenPair>) {
    pair.Some? && pair.value.refreshToken.Some? && client.supabaseRefresh(pair.value.refreshToken.value).Ok?
  }

  function SupabaseAnswer(client: Client, pair: Option<TokenPair>, force: bool): Option<TokenPair> {
    if !Renewable(pair, client.now, force) then None
    else match client.supabaseRefresh(pair.value.refreshToken.value)
      case Ok(response) =>
        (match SupabasePair(response, client.now) case Ok(answer) => answer case Err => None)
      case Err => None
  }

  /** An authority vouches for the session if its answer is good, or, without one, what there was. */
  predicate Vouches(answer: Option<TokenPair>, pair: Option<TokenPair>, now: Seconds) {
    if answer.Some? then answer.value.UsableAt(now) else Usable(pair, now)
  }

  predicate Available(client: Client, shared: Option<TokenPair>, supabase: Option<TokenPair>, force: bool) {
    || Vouches(SharedAnswer(client, shared, force), shared, client.now)
    || Vouches(SupabaseAnswer(client, supabase, force), supabase, client.now)
  }

  predicate Expired(pair: Option<TokenPair>, now: Seconds) {
    pair.Some? && pair.value.expiresAt <= now
  }

  class AuthSession {
    var provider: string
    var email: Option<string>
    var sharedUserId: Option<string>
    var roles: seq<string>
    var shared: Option<TokenPair>
    var supabase: Option<TokenPair>
    var registryRead: Option<TokenPair>

    constructor (provider: string, email: Option<string>, shared: Option<TokenPair>, supabase: Option<TokenPair>)
      ensures this.provider == provider && this.email == email && this.shared == shared
      ensures this.supabase == supabase && sharedUserId == None && roles == [] && registryRead == None
    {
      this.provider, this.email, this.shared, this.supabase := provider, email, shared, supabase;
      sharedUserId, roles, registryRead := None, [], None;
    }

    /** The shared authority comes first. */
    function Bearer(now: Seconds): (token: Option<string>)
      reads this
      ensures token.Some? <==> Usable(shared, now) || Usable(supabase, now)
      ensures token.Some? ==> token.value != ""
      ensures shared.Some? && shared.value.accessToken != "" && shared.value.expiresAt > now ==>
        token == Some(shared.value.accessToken)
      ensures shared.None? || shared.value.accessToken == "" || shared.value.expiresAt <= now ==>
        token == if supabase.Some? && supabase.value.accessToken != "" && supabase.value.expiresAt > now
          then Some(supabase.value.accessToken) else None
    {
      if Usable(shared, now) then Some(shared.value.accessToken)
      else if Usable(supabase, now) then Some(supabase.value.accessToken)
      else None
    }

    predicate Adopted(response: SharedResponse)
      reads this
    {
      shared == Some(response.pair) && sharedUserId == response.userId && roles == response.roles
    }

    /** The other authority's living token was exchanged for this pair. */
    predicate Exchanged(client: Client)
      reads this
    {
      && supabase.Some? && supabase.value.accessToken != "" && supabase.value.expiresAt > client.now && shared.Some?
      && client.sharedExchange(supabase.value.accessToken) == Ok(SharedResponse(shared.value, sharedUserId, roles))
    }

    method Adopt(response: SharedResponse)
      modifies this`shared, this`sharedUserId, this`roles
      ensures Adopted(response)
    {
      shared, sharedUserId, roles := Some(response.pair), response.userId, response.roles;
    }

    /** An answer replaces the pair; without one, a pair that is due goes if it cannot be used any more. */
    method RefreshShared(client: Client, force: bool)
      modifies this`shared, this`sharedUserId, this`roles
      ensures match SharedResponseTo(client, old(shared), force)
              case Ok(response) => Adopted(response)
              case Err =>
                && sharedUserId == old(sharedUserId) && roles == old(roles)
                && shared == if Due(old(shared), client.now, force) && !Usable(old(shared), client.now)
                             then None else old(shared)
    {
      if shared.None? || !(force || shared.value.NeedsRefreshAt(client.now)) {
        return;
      }
      if shared.value.refreshToken.Some? {
        var response := client.sharedRefresh(shared.value.refreshToken.value);
        if response.Ok? {
          Adopt(response.value);
          return;
        }
      }
      if !shared.value.UsableAt(client.now) {
        shared := None;
      }
    }

    /** Here an answer without a session leaves even an unusable pair in place. */
    method RefreshSupabase(client: Client, force: bool)
      modifies this`supabase
      ensures supabase ==
        if SupabaseAnswer(client, old(supabase), force).Some? then SupabaseAnswer(client, old(supabase), force)
        else if Due(old(supabase), client.now, force) && !Usable(old(supabase), client.now)
                && !SupabaseAnswers(client, old(supabase)) then None
        else old(supabase)
    {
      if supabase.None? || !(force || supabase.value.NeedsRefreshAt(client.now)) {
        return;
      }
      if supabase.value.refreshToken.None? {
        if !supabase.value.UsableAt(client.now) {
          supabase := None;
        }
        return;
      }
      var response := client.supabaseRefresh(supabase.value.refreshToken.value);
      if response.Err? {
        if !supabase.value.UsableAt(client.now) {
          supabase := None;
        }
        return;
      }
      var pair := SupabasePair(response.value, client.now);
      if pair.Ok? && pair.value.Some? {
        supabase := pair.value;
      }
    }

    /**
     Renews what is due. The call succeeds exactly when one of the authorities vouches for the
     session at the end, a usable pair is lost only to an answer that replaces it, and the read
     delegation is left alone.
     */
    method RefreshSession(client: Client, force: bool) returns (r: Result<()>)
      modifies this
      ensures force && old(shared).Some? && old(shared).value.refreshToken.Some? ==>
        match client.sharedRefresh(old(shared).value.refreshToken.value) {
          case Ok(response) =>
            shared == Some(response.pair) && sharedUserId == response.userId && roles == response.roles
          case Err => true
        }
      ensures provider == old(provider) && email == old(email) && registryRead == old(registryRead)
      ensures r.Ok? <==> Bearer(client.now).Some?
      ensures r.Ok? <==> Available(client, old(shared), old(supabase), force)
      ensures Usable(old(shared), client.now) && SharedAnswer(client, old(shared), force).None? ==>
        shared == old(shared) && sharedUserId == old(sharedUserId) && roles == old(roles)
      ensures Usable(old(supabase), client.now) && SupabaseAnswer(client, old(supabase), force).None? ==>
        supabase == old(supabase)
      ensures SharedResponseTo(client, old(shared), force).Ok? ==>
        Adopted(SharedResponseTo(client, old(shared), force).value)
      ensures SupabaseAnswer(client, old(supabase), force).Some? ==>
        supabase == SupabaseAnswer(client, old(supabase), force)
      ensures Expired(old(shared), client.now) && SharedAnswer(client, old(shared), force).None? && shared.Some? ==>
        Exchanged(client)
      ensures shared == None && Usable(supabase, client.now) ==>
        client.sharedExchange(supabase.value.accessToken).Err?
      ensures shared != None && shared != old(shared) && SharedAnswer(client, old(shared), force).None? ==>
        && Usable(supabase, client.now)
        && client.sharedExchange(supabase.value.accessToken).Ok?
        && Adopted(client.sharedExchange(supabase.value.accessToken).value)
    {
      RefreshShared(client, force);
      RefreshSupabase(client, force);
      if shared.None? && Usable(supabase, client.now) {
        var response := client.sharedExchange(supabase.value.accessToken);
        if response.Ok? {
          Adopt(response.value);
        }
      }
      r := if Bearer(client.now).Some? then Ok(()) else Err;
    }
  }

  // ---------- What follows ----------

  /** Whom a renewal asks: a pair that is forced or has no more than a minute left, if it has a refresh token. */
  lemma RenewalAsks(client: Client, pair: TokenPair, force: bool)
    ensures SharedResponseTo(client, Some(pair), force) ==
      if (force || pair.expiresAt <= client.now + 60) && pair.refreshToken.Some?
      then client.sharedRefresh(pair.refreshToken.value) else Err
    ensures SharedResponseTo(client, None, force) == Err && SupabaseAnswer(client, None, force) == None
    ensures (force || pair.expiresAt <= client.now + 60) && pair.refreshToken.Some? ==>
      SupabaseAnswer(client, Some(pair), force) ==
        match client.supabaseRefresh(pair.refreshToken.value) {
          case Ok(response) => Session(response, client.now)
          case Err => None
        }
    ensures !force && pair.expiresAt > client.now + 60 ==> SupabaseAnswer(client, Some(pair), force) == None
  {
  }

  /** The session that an answer of the provider gives, if its token is sane and it says when it expires. */
  function Session(response: SupabaseResponse, now: Seconds): Option<TokenPair> {
    match response
    case SupabaseResponse(Some(token), refresh, expires, span) =>
      if token == "" || Utf8Length(token) > 16384 then None
      else if expires.Some? then Some(TokenPair(token, refresh, expires.value, None))
      else if span.None? then None
      else if now + span.value <= 0xFFFF_FFFF_FFFF_FFFF then Some(TokenPair(token, refresh, now + span.value, None))
      else Some(TokenPair(token, refresh, 0xFFFF_FFFF_FFFF_FFFF, None))
    case _ => None
  }

  /** A session is available exactly if an authority answers with a good pair or leaves a good one alone. */
  lemma AvailableExactly(client: Client, shared: Option<TokenPair>, supabase: Option<TokenPair>, force: bool)
    ensures Available(client, shared, supabase, force) <==>
      || Good(if SharedAnswer(client, shared, force).Some? then SharedAnswer(client, shared, force)
              else shared, client.now)
      || Good(if SupabaseAnswer(client, supabase, force).Some? then SupabaseAnswer(client, supabase, force)
              else supabase, client.now)
  {
  }

  predicate Good(pair: Option<TokenPair>, now: Seconds) {
    match pair
    case Some(TokenPair(token, _, expires, _)) => |token| > 0 && now < expires
    case None => false
  }

  /** Servers that only hand out pairs that can be used. */
  ghost predicate Honest(client: Client, shared: Option<TokenPair>, supabase: Option<TokenPair>, force: bool) {
    && (SharedAnswer(client, shared, force).Some? ==> Usable(SharedAnswer(client, shared, force), client.now))
    && (SupabaseAnswer(client, supabase, force).Some? ==> Usable(SupabaseAnswer(client, supabase, force), client.now))
  }

  /** With honest servers a session that was good stays good, however they fail. */
  lemma StaysAvailable(client: Client, shared: Option<TokenPair>, supabase: Option<TokenPair>, force: bool)
    requires Honest(client, shared, supabase, force)
    ensures Available(client, shared, supabase, force) <==>
      || Usable(shared, client.now) || Usable(supabase, client.now)
      || SharedAnswer(client, shared, force).Some? || SupabaseAnswer(client, supabase, force).Some?
  {
  }

  /** One that is not honest can take a good session away: its expired answer is stored all the same. */
  lemma ExpiredAnswerEndsSession()
    ensures exists client: Client, pair: TokenPair ::
      Usable(Some(pair), client.now) && !Available(client, Some(pair), None, false)
  {
    var pair := TokenPair("a", Some("r"), 101, None);
    var expired := SharedResponse(TokenPair("b", None, 100, None), None, []);
    var client := Client(100, _ => Ok(expired), _ => Err, _ => Err);
    assert Renewable(Some(pair), client.now, false);
    assert SharedAnswer(client, Some(pair), false) == Some(expired.pair);
    assert Usable(Some(pair), client.now) && !Available(client, Some(pair), None, false);
  }
}
