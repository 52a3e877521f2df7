/** The client's session: tokens in a mutable map, at most one refresh per request, against any server. */
module ApiSession {
  import opened Text
  import opened Sequences

  const ACCESS := "api_access_token"
  const REFRESH := "_api_refresh_token"
  const SESSION := "api_session_id"
  const EMAIL := "api_authenticated_email"
  const ORGANIZATION := "api_organization_id"
  const SESSION_KEYS := {ACCESS, REFRESH, SESSION, EMAIL, ORGANIZATION}

  /** Protected results whose names do not start with one of the protected prefixes. */
  const UTILITY_KEYS := {
    "budget_report_payload", "budget_report_error", "cashflow_report_payload", "cashflow_report_error",
    "fx_sync_payload", "fx_sync_error", "market_sync_payload", "market_sync_error", "scenario_plan_preview"
  }

  const MAX_TOKEN := 4096
  const MAX_SESSION_ID := 64

  datatype Value = Text(text: string) | Number(n: int) | Opaque

  type Store = map<string, Value>

  datatype TokenPair = TokenPair(access: string, refresh: string, tokenType: string, session: string)

  // ---------------------------------------------------------------- what the server sends

  /** A protected request: it raises or has a status. */
  datatype Answer = Raised | Status(code: int)

  /** The refresh post. */
  datatype Reply = Unreachable | Answered(code: int, body: Body)

  datatype Body = NotJson | NotMapping | Fields(access: Option<Value>, refresh: Option<Value>,
                                                tokenType: Option<Value>, session: Option<Value>)

  predicate TextUpTo(v: Option<Value>, limit: nat) {
    v.Some? && v.value.Text? && Strip(v.value.text) != "" && |v.value.text| <= limit
  }

  function ParsePair(b: Body): Option<TokenPair> {
    if !b.Fields? then None
    else if !TextUpTo(b.access, MAX_TOKEN) || !TextUpTo(b.refresh, MAX_TOKEN) then None
    else if b.tokenType.None? || !b.tokenType.value.Text? || LowerAscii(b.tokenType.value.text) != "bearer" then None
    else if !TextUpTo(b.session, MAX_SESSION_ID) then None
    else Some(TokenPair(Strip(b.access.value.text), Strip(b.refresh.value.text), "bearer", Strip(b.session.value.text)))
  }

  predicate Acceptable(p: TokenPair) {
    && Strip(p.access) != "" && |p.access| <= MAX_TOKEN
    && Strip(p.refresh) != "" && |p.refresh| <= MAX_TOKEN
    && LowerAscii(p.tokenType) == "bearer"
    && Strip(p.session) != "" && |p.session| <= MAX_SESSION_ID
  }

  // ---------------------------------------------------------------- the store

  /** The stored credentials are text where they are present. */
  predicate Typed(s: Store) {
    && (ACCESS in s ==> s[ACCESS].Text?)
    && (REFRESH in s ==> s[REFRESH].Text?)
  }

  function TextOf(s: Store, key: string): string {
    if key in s && s[key].Text? then s[key].text else ""
  }

  predicate Protected(key: string) {
    key in UTILITY_KEYS || StartsWith(key, "close_") || StartsWith(key, "provider_governance_")
  }

  function ClearProtected(s: Store): Store {
    map key | key in s && !Protected(key) :: s[key]
  }

  function ClearSession(s: Store): Store {
    ClearProtected(s) - SESSION_KEYS
  }

  function StoreSession(s: Store, p: TokenPair, email: string, organization: int): Option<Store> {
    if !Acceptable(p) then None
    else
      Some(ClearProtected(s)[ACCESS := Text(p.access)][REFRESH := Text(p.refresh)][SESSION := Text(p.session)]
             [EMAIL := Text(LowerAscii(Strip(email)))][ORGANIZATION := Number(organization)])
  }

  function ReplaceRotated(s: Store, p: TokenPair): Option<Store> {
    if !Acceptable(p) || SESSION !in s || s[SESSION] != Text(p.session) then None
    else Some(ClearProtected(s)[ACCESS := Text(p.access)][REFRESH := Text(p.refresh)][SESSION := Text(p.session)])
  }

  /** The refresh token that would be posted. */
  function Postable(s: Store): Option<string> {
    var token := Strip(TextOf(s, REFRESH));
    if token == "" || |token| > MAX_TOKEN then None else Some(token)
  }

  datatype Outcome = Propagated | Completed(code: int) | SignInAgain

  /** The bearer token a protected request carries; empty text is no header at all. */
  function Bearer(s: Store): string {
    Strip(TextOf(s, ACCESS))
  }

  /**
   * A request's effect: the store, the outcome, the refresh tokens posted and the bearer tokens sent with the
   * protected requests.
   */
  datatype Effect = Effect(store: Store, outcome: Outcome, posted: seq<string>, sent: seq<string>)

  function Rotation(s: Store, reply: Reply): Option<TokenPair> {
    if Postable(s).None? || reply.Unreachable? || reply.code >= 400 then None else ParsePair(reply.body)
  }

  function SignedOut(s: Store, posted: seq<string>, sent: seq<string>): Effect {
    Effect(ClearSession(s), SignInAgain, posted, sent)
  }

  /** The one retry, after the tokens were replaced. */
  function Retried(s: Store, posted: seq<string>, sent: seq<string>, retry: Answer): Effect {
    if retry.Raised? then Effect(s, Propagated, posted, sent)
    else if retry.code == 401 then SignedOut(s, posted, sent)
    else Effect(s, Completed(retry.code), posted, sent)
  }

  /** What follows a 401. */
  function Refused(s: Store, reply: Reply, retry: Answer): Effect {
    var posted := if Postable(s).Some? then [Postable(s).value] else [];
    var pair := Rotation(s, reply);
    var replaced := if pair.Some? then ReplaceRotated(s, pair.value) else None;
    if replaced.Some?
    then Retried(replaced.value, posted, [Bearer(s), Bearer(replaced.value)], retry)
    else SignedOut(s, posted, [Bearer(s)])
  }

  function RequestEffect(s: Store, first: Answer, reply: Reply, retry: Answer): Effect {
    if first.Raised? then Effect(s, Propagated, [], [Bearer(s)])
    else if first.code != 401 then Effect(s, Completed(first.code), [], [Bearer(s)])
    else Refused(s, reply, retry)
  }

  /** The mutable session state; the server's answers are inputs, so every server is covered. */
  class Session {
    var state: Store

    constructor (state: Store)
      ensures this.state == state
    {
      this.state := state;
    }

    method ClearProtectedUtilityState()
      modifies this
      ensures state == ClearProtected(old(state))
    {
      var keys := UTILITY_KEYS;
      keys := keys + set key | key in state && StartsWith(key, "close_");
      keys := keys + set key | key in state && StartsWith(key, "provider_governance_");
      state := state - keys;
    }

    method ClearApiSession()
      modifies this
      ensures state == ClearSession(old(state))
    {
      ClearProtectedUtilityState();
      state := state - SESSION_KEYS;
    }

    /** False stands for the ValueError. */
    method StoreApiSession(p: TokenPair, email: string, organization: int) returns (ok: bool)
      modifies this
      ensures var stored := StoreSession(old(state), p, email, organization);
              ok == stored.Some? && state == if ok then stored.value else old(state)
    {
      if !Acceptable(p) {
        return false;
      }
      ClearProtectedUtilityState();
      state := state[ACCESS := Text(p.access)];
      state := state[REFRESH := Text(p.refresh)];
      state := state[SESSION := Text(p.session)];
      state := state[EMAIL := Text(LowerAscii(Strip(email)))];
      state := state[ORGANIZATION := Number(organization)];
      return true;
    }

    method ReplaceRotatedApiSession(p: TokenPair) returns (ok: bool)
      modifies this
      ensures var replaced := ReplaceRotated(old(state), p);
              ok == replaced.Some? && state == if ok then replaced.value else old(state)
    {
      if !Acceptable(p) {
        return false;
      }
      if SESSION !in state || state[SESSION] != Text(p.session) {
        return false;
      }
      ClearProtectedUtilityState();
      state := state[ACCESS := Text(p.access)][REFRESH := Text(p.refresh)][SESSION := Text(p.session)];
      return true;
    }

    method RequestWithOneRefresh(first: Answer, reply: Reply, retry: Answer)
      returns (outcome: Outcome, posted: seq<string>, sent: seq<string>)
      requires Typed(state)
      modifies this
      ensures Effect(state, outcome, posted, sent) == RequestEffect(old(state), first, reply, retry)
    {
      posted, sent := [], [Bearer(state)];
      if first.Raised? {
        return Propagated, posted, sent;
      }
      if first.code != 401 {
        return Completed(first.code), posted, sent;
      }
      var pair := None;
      var token := Postable(state);
      if token.Some? {
        posted := [token.value];
        if reply.Answered? && reply.code < 400 {
          pair := ParsePair(reply.body);
        }
      }
      if pair.None? {
        ClearApiSession();
        return SignInAgain, posted, sent;
      }
      var replaced := ReplaceRotatedApiSession(pair.value);
      if !replaced {
        ClearApiSession();
        return SignInAgain, posted, sent;
      }
      sent := [sent[0], Bearer(state)];
      if retry.Raised? {
        return Propagated, posted, sent;
      }
      if retry.code == 401 {
        ClearApiSession();
        return SignInAgain, posted, sent;
      }
      return Completed(retry.code), posted, sent;
    }
  }

  // ---------------------------------------------------------------- runs

  datatype Event =
    | Login(pair: TokenPair, email: string, organization: int)
    | Logout
    | Request(first: Answer, reply: Reply, retry: Answer)

  /** A store with what happened so far: refresh tokens posted, refresh tokens issued, and the pair last stored. */
  datatype World = World(store: Store, posted: seq<string>, issued: seq<string>, origin: Option<TokenPair>)

  function Step(w: World, e: Event): World {
    match e
    case Login(pair, email, organization) =>
      var stored := StoreSession(w.store, pair, email, organization);
      if stored.None? then w
      else World(stored.value, w.posted, w.issued + [Strip(pair.refresh)], Some(pair))
    case Logout => w.(store := ClearSession(w.store))
    case Request(first, reply, retry) =>
      var effect := RequestEffect(w.store, first, reply, retry);
      var pair := if first == Status(401) then Rotation(w.store, reply) else None;
      World(effect.store, w.posted + effect.posted,
            if pair.Some? then w.issued + [pair.value.refresh] else w.issued,
            if pair.Some? then pair else w.origin)
  }

  function Run(w: World, events: seq<Event>): World
    decreases |events|
  {
    if events == [] then w else Run(Step(w, events[0]), events[1..])
  }

  /** Signed out: none of the three credentials is stored. */
  predicate Absent(s: Store) {
    ACCESS !in s && REFRESH !in s && SESSION !in s
  }

  /** All three credentials are those of one pair. */
  predicate From(s: Store, p: TokenPair) {
    && ACCESS in s && s[ACCESS] == Text(p.access)
    && REFRESH in s && s[REFRESH] == Text(p.refresh)
    && SESSION in s && s[SESSION] == Text(p.session)
  }

  ghost predicate Coherent(w: World) {
    Absent(w.store) || (w.origin.Some? && From(w.store, w.origin.value))
  }

  /** A refresh token that can still be posted was issued and has not been posted. */
  ghost predicate Unspent(w: World) {
    && (forall t | t in w.posted :: t in w.issued)
    && Distinct(w.posted)
    && (REFRESH in w.store ==>
      Strip(TextOf(w.store, REFRESH)) in w.issued && Strip(TextOf(w.store, REFRESH)) !in w.posted)
  }

  lemma ProtectedStarts(key: string)
    requires Protected(key)
    ensures key != "" && key[0] in {'b', 'c', 'f', 'm', 's', 'p'}
  {
  }

  lemma KeysAreNotProtected()
    ensures !Protected(ACCESS) && !Protected(REFRESH) && !Protected(SESSION) && !Protected(EMAIL) &&
              !Protected(ORGANIZATION)
  {
    forall key | key in SESSION_KEYS ensures !Protected(key) {
      assert key[0] in {'a', '_'};
      if Protected(key) {
        ProtectedStarts(key);
      }
    }
  }

  lemma KeysAreApart()
    ensures ACCESS !in {REFRESH, SESSION, EMAIL, ORGANIZATION} && REFRESH !in {SESSION, EMAIL, ORGANIZATION}
    ensures SESSION !in {EMAIL, ORGANIZATION} && EMAIL != ORGANIZATION
  {
    assert ACCESS[4..6] == "ac" && SESSION[4..6] == "se" && EMAIL[4..6] == "au" && ORGANIZATION[4..6] == "or";
    assert REFRESH[0] == '_';
  }

  /** A parsed pair is trimmed, so storing it cannot fail on its own account. */
  lemma ParsedIsAcceptable(b: Body)
    requires ParsePair(b).Some?
    ensures Acceptable(ParsePair(b).value)
    ensures Strip(ParsePair(b).value.access) == ParsePair(b).value.access != ""
    ensures Strip(ParsePair(b).value.refresh) == ParsePair(b).value.refresh
  {
    StripTrims(b.access.value.text);
    StripTrims(b.refresh.value.text);
    StripTrims(b.session.value.text);
    StripIdempotent(b.access.value.text);
    StripIdempotent(b.refresh.value.text);
    StripIdempotent(b.session.value.text);
  }

  lemma ClearedIsAbsent(s: Store)
    ensures Absent(ClearSession(s))
  {
  }

  lemma StoredIsFrom(s: Store, p: TokenPair, email: string, organization: int)
    requires StoreSession(s, p, email, organization).Some?
    ensures From(StoreSession(s, p, email, organization).value, p)
  {
    KeysAreApart();
  }

  lemma ReplacedIsFrom(s: Store, p: TokenPair)
    requires ReplaceRotated(s, p).Some?
    ensures From(ReplaceRotated(s, p).value, p)
    ensures s[SESSION] == ReplaceRotated(s, p).value[SESSION]
  {
    KeysAreApart();
  }

  /** After a 401, an answer that rotates and one that does not. */
  lemma RefusedCases(s: Store, reply: Reply, retry: Answer)
    ensures var effect := RequestEffect(s, Status(401), reply, retry);
            && effect.posted == (if Postable(s).Some? then [Postable(s).value] else [])
            && (Absent(effect.store) || (Rotation(s, reply).Some? && From(effect.store, Rotation(s, reply).value)))
  {
    ClearedIsAbsent(s);
    if Rotation(s, reply).Some? {
      var replaced := ReplaceRotated(s, Rotation(s, reply).value);
      if replaced.Some? {
        ReplacedIsFrom(s, Rotation(s, reply).value);
        ClearedIsAbsent(replaced.value);
      }
    }
  }

  /** What a request does to the credentials: nothing, removal, or replacement by the rotated pair. */
  lemma RequestCases(s: Store, first: Answer, reply: Reply, retry: Answer)
    ensures var effect := RequestEffect(s, first, reply, retry);
            if first != Status(401) then effect.store == s && effect.posted == []
            else
              && effect.posted == (if Postable(s).Some? then [Postable(s).value] else [])
              && (Absent(effect.store) ||
                  (Rotation(s, reply).Some? && effect.posted != [] && From(effect.store, Rotation(s, reply).value)))
  {
    if first == Status(401) {
      RefusedCases(s, reply, retry);
    }
  }

  /** A retry happens only after a rotation, and carries the access token that rotation brought. */
  lemma RetryCarriesNewToken(s: Store, first: Answer, reply: Reply, retry: Answer)
    ensures var effect := RequestEffect(s, first, reply, retry);
            && 1 <= |effect.sent| <= 2 && effect.sent[0] == Bearer(s)
            && (|effect.sent| == 2 ==>
                 && first == Status(401) && effect.posted != [] && Rotation(s, reply).Some?
                 && effect.sent[1] == Rotation(s, reply).value.access != "")
  {
    if Rotation(s, reply).Some? {
      ParsedIsAcceptable(reply.body);
      if ReplaceRotated(s, Rotation(s, reply).value).Some? {
        ReplacedIsFrom(s, Rotation(s, reply).value);
      }
    }
  }

  // ---------------------------------------------------------------- one request

  /** The answer to the last protected request made: the retry's if there was one. */
  function LastAnswer(sent: seq<string>, first: Answer, retry: Answer): Answer {
    if |sent| == 2 then retry else first
  }

  /**
   * The outcome is what the last protected request made says, and a refusal there ends the session. A second request
   * is made exactly after a refusal that a rotation of the stored session answers.
   */
  lemma OutcomeIs(s: Store, first: Answer, reply: Reply, retry: Answer)
    ensures var effect := RequestEffect(s, first, reply, retry);
            var last := LastAnswer(effect.sent, first, retry);
            && 1 <= |effect.sent| <= 2
            && (effect.outcome == Propagated <==> last == Raised)
            && (forall c :: effect.outcome == Completed(c) <==> last == Status(c) && c != 401)
            && (effect.outcome == SignInAgain <==> last == Status(401))
            && (effect.outcome == SignInAgain ==> forall key | key in SESSION_KEYS :: key !in effect.store)
            && (effect.outcome == SignInAgain ==> forall key | key in effect.store :: !Protected(key))
    ensures var token := Strip(TextOf(s, REFRESH));
            |RequestEffect(s, first, reply, retry).sent| == 2 <==>
              && first == Status(401)
              && 1 <= |token| <= MAX_TOKEN
              && reply.Answered? && reply.code < 400
              && ParsePair(reply.body).Some?
              && SESSION in s && s[SESSION] == Text(ParsePair(reply.body).value.session)
  {
    if reply.Answered? && ParsePair(reply.body).Some? {
      ParsedIsAcceptable(reply.body);
    }
  }

  /** The first request carries the stored access token; a refusal posts the stored refresh token, if it may. */
  lemma TokensUsed(s: Store, first: Answer, reply: Reply, retry: Answer)
    ensures var effect := RequestEffect(s, first, reply, retry);
            var token := Strip(TextOf(s, REFRESH));
            && |effect.sent| > 0 && effect.sent[0] == Strip(TextOf(s, ACCESS))
            && effect.posted == if first == Status(401) && 1 <= |token| <= MAX_TOKEN then [token] else []
  {
  }

  /** Unless the user has to sign in again, the store stays as it is or takes on the rotated pair. */
  lemma StoreAfter(s: Store, first: Answer, reply: Reply, retry: Answer)
    requires RequestEffect(s, first, reply, retry).outcome != SignInAgain
    ensures var effect := RequestEffect(s, first, reply, retry);
            if |effect.sent| == 1 then effect.store == s
            else
              && reply.Answered? && ParsePair(reply.body).Some?
              && From(effect.store, ParsePair(reply.body).value)
              && (forall key | key !in {ACCESS, REFRESH, SESSION} ::
                    (key in effect.store <==> key in s && !Protected(key)) &&
                    (key in effect.store ==> effect.store[key] == s[key]))
  {
    if first == Status(401) {
      ParsedIsAcceptable(reply.body);
      ReplacedIsFrom(s, ParsePair(reply.body).value);
    }
  }

  function AsBody(p: TokenPair): Body {
    Fields(Some(Text(p.access)), Some(Text(p.refresh)), Some(Text(p.tokenType)), Some(Text(p.session)))
  }

  /** A body that says an acceptable pair is parsed as that pair, trimmed. */
  lemma PairIsParsed(p: TokenPair)
    ensures ParsePair(AsBody(p)) ==
              if Acceptable(p)
              then Some(TokenPair(Strip(p.access), Strip(p.refresh), "bearer", Strip(p.session)))
              else None
  {
  }

  /** A body without one of the fields, or with one that is not text, gives no pair. */
  lemma PairNeedsText(b: Body)
    ensures ParsePair(b).Some? ==> exists p :: b == AsBody(p) && Acceptable(p)
  {
    if ParsePair(b).Some? {
      var p := TokenPair(b.access.value.text, b.refresh.value.text, b.tokenType.value.text, b.session.value.text);
      assert b == AsBody(p) && Acceptable(p);
    }
  }

  /** A sign-in keeps what is neither protected nor the session's own. */
  lemma StoreSets(s: Store, p: TokenPair, email: string, organization: int)
    requires Acceptable(p)
    ensures var stored := StoreSession(s, p, email, organization);
            && stored.Some? && From(stored.value, p)
            && EMAIL in stored.value && stored.value[EMAIL] == Text(LowerAscii(Strip(email)))
            && ORGANIZATION in stored.value && stored.value[ORGANIZATION] == Number(organization)
            && (forall key | key !in SESSION_KEYS ::
                  (key in stored.value <==> key in s && !Protected(key)) &&
                  (key in stored.value ==> stored.value[key] == s[key]))
  {
    KeysAreApart();
  }

  const CLOSE_KEYS := {
    "close_periods", "close_cycles", "close_selected_period_id", "close_selected_cycle_id", "close_cycle_payload",
    "close_readiness", "close_reconciliations", "close_variances", "close_approvals", "close_checklist",
    "close_evidence_preview", "close_evidence_result", "close_confirmation", "close_error"
  }

  const GOVERNANCE_KEYS := {
    "provider_governance_catalog", "provider_governance_confirmation", "provider_governance_conflict",
    "provider_governance_error"
  }

  /** The listed keys that a prefix stands for are protected by it. */
  lemma ListedKeysAreProtected()
    ensures forall key | key in UTILITY_KEYS + CLOSE_KEYS + GOVERNANCE_KEYS :: Protected(key)
  {
    forall key | key in CLOSE_KEYS ensures StartsWith(key, "close_") {
    }
    forall key | key in GOVERNANCE_KEYS ensures StartsWith(key, "provider_governance_") {
    }
  }

  lemma DistinctAppend(s: seq<string>, t: string)
    ensures Distinct(s + [t]) <==> Distinct(s) && t !in s
  {
    var all := s + [t];
    if Distinct(all) {
      forall i, j | 0 <= i < j < |s| ensures s[i] != s[j] {
        assert all[i] != all[j];
      }
      forall i | 0 <= i < |s| ensures s[i] != t {
        assert all[i] != all[|s|];
      }
    }
  }

  lemma RequestKeeps(w: World, first: Answer, reply: Reply, retry: Answer)
    requires Unspent(w) && Coherent(w)
    requires Distinct(Step(w, Request(first, reply, retry)).issued)
    ensures Unspent(Step(w, Request(first, reply, retry))) && Coherent(Step(w, Request(first, reply, retry)))
  {
    var next := Step(w, Request(first, reply, retry));
    RequestCases(w.store, first, reply, retry);
    if first == Status(401) {
      if Postable(w.store).Some? {
        DistinctAppend(w.posted, Postable(w.store).value);
      }
      if Rotation(w.store, reply).Some? {
        var pair := Rotation(w.store, reply).value;
        ParsedIsAcceptable(reply.body);
        DistinctAppend(w.issued, pair.refresh);
      }
    }
  }

  lemma LoginKeeps(w: World, pair: TokenPair, email: string, organization: int)
    requires Unspent(w) && Coherent(w)
    requires Distinct(Step(w, Login(pair, email, organization)).issued)
    ensures Unspent(Step(w, Login(pair, email, organization))) && Coherent(Step(w, Login(pair, email, organization)))
  {
    if StoreSession(w.store, pair, email, organization).Some? {
      StoredIsFrom(w.store, pair, email, organization);
      DistinctAppend(w.issued, Strip(pair.refresh));
    }
  }

  lemma StepKeeps(w: World, e: Event)
    requires Unspent(w) && Coherent(w) && Distinct(Step(w, e).issued)
    ensures Unspent(Step(w, e)) && Coherent(Step(w, e))
  {
    match e {
      case Login(pair, email, organization) => LoginKeeps(w, pair, email, organization);
      case Logout => ClearedIsAbsent(w.store);
      case Request(first, reply, retry) => RequestKeeps(w, first, reply, retry);
    }
  }

  lemma {:induction false} IssuedGrows(w: World, events: seq<Event>)
    ensures w.issued <= Run(w, events).issued
    decreases |events|
  {
    if events != [] {
      IssuedGrows(Step(w, events[0]), events[1..]);
    }
  }

  lemma {:induction false} RunKeeps(w: World, events: seq<Event>)
    requires Unspent(w) && Coherent(w) && Distinct(Run(w, events).issued)
    ensures Unspent(Run(w, events)) && Coherent(Run(w, events))
    decreases |events|
  {
    if events != [] {
      var next := Step(w, events[0]);
      IssuedGrows(next, events[1..]);
      forall i, j | 0 <= i < j < |next.issued| ensures next.issued[i] != next.issued[j] {
        assert Run(w, events).issued[i] != Run(w, events).issued[j];
      }
      StepKeeps(w, events[0]);
      RunKeeps(next, events[1..]);
    }
  }

  function Start(s: Store): World {
    World(s, [], [], None)
  }

  /** Against a server that never issues one refresh token twice, the client never posts one twice. */
  lemma RefreshTokensUsedOnce(s: Store, events: seq<Event>)
    requires Absent(s) && Distinct(Run(Start(s), events).issued)
    ensures Distinct(Run(Start(s), events).posted)
    ensures forall t | t in Run(Start(s), events).posted :: t in Run(Start(s), events).issued
  {
    RunKeeps(Start(s), events);
  }

  // ---------------------------------------------------------------- how fresh the server must be

  /** The tokens a step of the run brings in. */
  function IssuedBy(w: World, e: Event): seq<string> {
    var issued := Step(w, e).issued;
    if |w.issued| <= |issued| then issued[|w.issued|..] else []
  }

  /** The server never issues a refresh token the client has already posted. */
  ghost predicate NeverIssuesSpent(w: World, events: seq<Event>)
    decreases |events|
  {
    events == [] ||
    ((forall t | t in IssuedBy(w, events[0]) :: t !in Step(w, events[0]).posted)
     && NeverIssuesSpent(Step(w, events[0]), events[1..]))
  }

  /** Nothing was posted twice, and what could be posted next was not posted yet. */
  ghost predicate NextIsUnspent(w: World) {
    Distinct(w.posted) && (Postable(w.store).Some? ==> Postable(w.store).value !in w.posted)
  }

  lemma AbsentIsNotPostable(s: Store)
    requires Absent(s)
    ensures Postable(s) == None
  {
    StripFixed("");
  }

  lemma PostableFrom(s: Store, p: TokenPair)
    requires From(s, p)
    ensures Postable(s).Some? ==> Postable(s) == Some(Strip(p.refresh))
  {
  }

  lemma RefusedKeepsUnspent(w: World, reply: Reply, retry: Answer)
    requires NextIsUnspent(w)
    requires forall t | t in IssuedBy(w, Request(Status(401), reply, retry)) ::
               t !in Step(w, Request(Status(401), reply, retry)).posted
    ensures NextIsUnspent(Step(w, Request(Status(401), reply, retry)))
  {
    var e := Request(Status(401), reply, retry);
    var next := Step(w, e);
    RequestCases(w.store, Status(401), reply, retry);
    if Postable(w.store).Some? {
      DistinctAppend(w.posted, Postable(w.store).value);
    } else {
      assert w.posted + [] == w.posted;
    }
    if Absent(next.store) {
      AbsentIsNotPostable(next.store);
    } else {
      var pair := Rotation(w.store, reply).value;
      ParsedIsAcceptable(reply.body);
      PostableFrom(next.store, pair);
      assert IssuedBy(w, e) == [pair.refresh];
      assert pair.refresh in IssuedBy(w, e);
    }
  }

  lemma StepKeepsUnspent(w: World, e: Event)
    requires NextIsUnspent(w) && forall t | t in IssuedBy(w, e) :: t !in Step(w, e).posted
    ensures NextIsUnspent(Step(w, e))
  {
    match e {
      case Login(pair, email, organization) =>
        if StoreSession(w.store, pair, email, organization).Some? {
          StoredIsFrom(w.store, pair, email, organization);
          PostableFrom(Step(w, e).store, pair);
          assert IssuedBy(w, e) == [Strip(pair.refresh)];
          assert Strip(pair.refresh) in IssuedBy(w, e);
        }
      case Logout =>
        ClearedIsAbsent(w.store);
        AbsentIsNotPostable(Step(w, e).store);
      case Request(first, reply, retry) =>
        if first == Status(401) {
          RefusedKeepsUnspent(w, reply, retry);
        } else {
          RequestCases(w.store, first, reply, retry);
          assert w.posted + [] == w.posted;
        }
    }
  }

  lemma {:induction false} RunKeepsUnspent(w: World, events: seq<Event>)
    requires NextIsUnspent(w) && NeverIssuesSpent(w, events)
    ensures NextIsUnspent(Run(w, events))
    decreases |events|
  {
    if events != [] {
      StepKeepsUnspent(w, events[0]);
      RunKeepsUnspent(Step(w, events[0]), events[1..]);
    }
  }

  /** It is enough that the server never issues a token that was already posted. */
  lemma UnspentIssuesSuffice(s: Store, events: seq<Event>)
    requires Absent(s) && NeverIssuesSpent(Start(s), events)
    ensures Distinct(Run(Start(s), events).posted)
  {
    AbsentIsNotPostable(s);
    RunKeepsUnspent(Start(s), events);
  }

  /** The next refused request posts a token for the second time if and only if the stored one is spent. */
  lemma PostedAgainIffSpentIsStored(w: World, reply: Reply, retry: Answer)
    requires Distinct(w.posted)
    ensures !Distinct(Step(w, Request(Status(401), reply, retry)).posted) <==>
              Postable(w.store).Some? && Postable(w.store).value in w.posted
  {
    RequestCases(w.store, Status(401), reply, retry);
    if Postable(w.store).Some? {
      DistinctAppend(w.posted, Postable(w.store).value);
    } else {
      assert w.posted + [] == w.posted;
    }
  }

  predicate TrimmedPair(p: TokenPair) {
    Acceptable(p) && Strip(p.access) == p.access && Strip(p.refresh) == p.refresh && Strip(p.session) == p.session
  }

  /** A server that answers a refresh with this pair. */
  function Answering(p: TokenPair): Reply {
    Answered(200, Fields(Some(Text(p.access)), Some(Text(p.refresh)), Some(Text("bearer")), Some(Text(p.session))))
  }

  lemma AnsweredPairIsStored(w: World, p: TokenPair, q: TokenPair)
    requires TrimmedPair(p) && TrimmedPair(q) && From(w.store, p) && q.session == p.session
    ensures var next := Step(w, Request(Status(401), Answering(q), Status(200)));
            From(next.store, q) && next.posted == w.posted + [p.refresh]
  {
    var pair := TokenPair(q.access, q.refresh, "bearer", q.session);
    assert LowerAscii("bearer") == "bearer";
    assert ParsePair(Answering(q).body) == Some(pair);
    ReplacedIsFrom(w.store, pair);
  }

  /**
   * The freshness is needed: whatever happened before, a server that rotates to a token already posted, the one
   * just posted included, gets it posted again at the next refusal, whatever it answers then.
   */
  lemma ReissuedTokenIsPostedAgain(w: World, p: TokenPair, q: TokenPair, reply: Reply, retry: Answer)
    requires TrimmedPair(p) && TrimmedPair(q) && From(w.store, p) && q.session == p.session
    requires q.refresh in w.posted + [p.refresh]
    ensures var next := Step(w, Request(Status(401), Answering(q), Status(200)));
            !Distinct(Step(next, Request(Status(401), reply, retry)).posted)
  {
    var next := Step(w, Request(Status(401), Answering(q), Status(200)));
    AnsweredPairIsStored(w, p, q);
    assert Postable(next.store) == Some(q.refresh);
    RequestCases(next.store, Status(401), reply, retry);
    DistinctAppend(next.posted, q.refresh);
  }

  /**
   * At every moment the credentials are all absent or all from one pair the server sent; no freshness is needed for
   * that.
   */
  lemma {:induction false} CredentialsFromOnePair(w: World, events: seq<Event>)
    requires Coherent(w)
    ensures Coherent(Run(w, events))
    decreases |events|
  {
    if events != [] {
      var e := events[0];
      match e {
        case Login(pair, email, organization) =>
          if StoreSession(w.store, pair, email, organization).Some? {
            StoredIsFrom(w.store, pair, email, organization);
          }
        case Logout => ClearedIsAbsent(w.store);
        case Request(first, reply, retry) => RequestCases(w.store, first, reply, retry);
      }
      CredentialsFromOnePair(Step(w, e), events[1..]);
    }
  }

  predicate SameAt(before: Store, after: Store, key: string) {
    (key in before <==> key in after) && (key in before ==> after[key] == before[key])
  }

  lemma ReplacedKeepsIdentity(s: Store, p: TokenPair)
    requires ReplaceRotated(s, p).Some?
    ensures forall key | key in {SESSION, EMAIL, ORGANIZATION} :: SameAt(s, ReplaceRotated(s, p).value, key)
  {
    KeysAreApart();
    KeysAreNotProtected();
  }

  /** Whoever is still signed in after a request is in the same session, under the same name and organisation. */
  lemma RotationKeepsSession(s: Store, first: Answer, reply: Reply, retry: Answer)
    requires SESSION in RequestEffect(s, first, reply, retry).store
    ensures forall key | key in {SESSION, EMAIL, ORGANIZATION} ::
              SameAt(s, RequestEffect(s, first, reply, retry).store, key)
  {
    if first == Status(401) {
      var pair := Rotation(s, reply);
      var replaced := if pair.Some? then ReplaceRotated(s, pair.value) else None;
      ClearedIsAbsent(s);
      if replaced.Some? {
        ReplacedKeepsIdentity(s, pair.value);
        ClearedIsAbsent(replaced.value);
      }
    }
  }

  /** State that is neither a credential nor a protected result survives every run unchanged. */
  lemma {:induction false} OtherStateSurvives(w: World, events: seq<Event>, key: string)
    requires key !in SESSION_KEYS && !Protected(key)
    ensures key in Run(w, events).store <==> key in w.store
    ensures key in w.store ==> Run(w, events).store[key] == w.store[key]
    decreases |events|
  {
    if events != [] {
      OtherStateSurvives(Step(w, events[0]), events[1..], key);
    }
  }
}
