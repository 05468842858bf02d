/**
 The sign-in state machine. Refreshes, credential reads, callbacks and logouts
 overlap freely; what runs between two awaits is one step.
 */
module AuthStates {
  import opened Text

  datatype AuthState = Initializing | LoggedOut | ActiveSession | AttemptingSession | InactiveSession

  datatype StateChange = StateChange(state: AuthState, previousState: AuthState)

  /** The parsed content of stored credentials; the organization may be unknown, personal or named. */
  datatype Content = Content(clientToken: string, sessionId: string, organizationId: Option<Option<string>>)

  /** A session token and the credentials object it was requested with. */
  datatype Token<C> = Token(jwt: string, fetchedFor: C)

  /** The service's fields; `C` is the identity of a credentials object. */
  datatype Fields<C> = Fields(
    state: AuthState,
    credentials: Option<C>,
    token: Option<Token<C>>,
    firstAttempt: bool,
    events: seq<StateChange>)

  /** A refresh waiting for its token: what it captured when it began. */
  datatype Refresh<C> = Refresh(previousState: AuthState, credentials: C)

  function Start<C>(): Fields<C> {
    Fields(Initializing, None, None, false, [])
  }

  function ChangeState<C>(f: Fields<C>, state: AuthState): Fields<C> {
    f.(state := state, events := f.events + [StateChange(state, f.state)])
  }

  function ToLoggedOut<C>(f: Fields<C>): Fields<C> {
    ChangeState(f.(credentials := None, token := None), LoggedOut)
  }

  function ToAttempting<C>(f: Fields<C>, credentials: C): Fields<C> {
    ChangeState(f.(credentials := Some(credentials), token := None, firstAttempt := true), AttemptingSession)
  }

  function ToInactive<C>(f: Fields<C>): Fields<C> {
    ChangeState(f.(token := None), InactiveSession)
  }

  /** The end of `handleCredentialsChange`: `loaded` is a new object, or nothing is stored. */
  function CredentialsLoaded<C>(f: Fields<C>, content: C -> Content, loaded: Option<C>): Fields<C> {
    match loaded
    case Some(c) => if f.credentials.None? || content(f.credentials.value) != content(c) then ToAttempting(f, c) else f
    case None => if f.state != LoggedOut then ToLoggedOut(f) else f
  }

  function RefreshSucceeded<C(==)>(f: Fields<C>, r: Refresh<C>, jwt: string): Fields<C> {
    if f.credentials != Some(r.credentials) then f
    else
      var g := f.(token := Some(Token(jwt, r.credentials)));
      if r.previousState != ActiveSession then ChangeState(g, ActiveSession) else g.(state := ActiveSession)
  }

  function RefreshFailed<C>(f: Fields<C>, invalidClientToken: bool): Fields<C> {
    if !invalidClientToken && f.firstAttempt && f.state == AttemptingSession
    then ToInactive(f.(firstAttempt := false))
    else f
  }

  /** The failure path of `handleCallback`. */
  function CallbackFailed<C>(f: Fields<C>): Fields<C> {
    if f.credentials.None? then ChangeState(f, LoggedOut) else f
  }

  /** `logout` once the stored credentials are gone. */
  function StorageCleared<C>(f: Fields<C>): Fields<C> {
    if f.state != LoggedOut then ToLoggedOut(f) else f
  }

  // -------------------------------------------------------------- invariant

  /** Each event starts where the one before it ended. */
  predicate IsChain(events: seq<StateChange>, from: AuthState, to: AuthState) {
    if events == [] then from == to
    else events[|events| - 1].state == to && IsChain(events[..|events| - 1], from, events[|events| - 1].previousState)
  }

  predicate Good<C(==)>(f: Fields<C>) {
    && (f.token.Some? <==> f.state == ActiveSession)
    && (f.token.Some? ==> f.credentials == Some(f.token.value.fetchedFor))
    && (f.credentials.None? <==> f.state == Initializing || f.state == LoggedOut)
    && (f.state == InactiveSession ==> !f.firstAttempt) && (f.state == AttemptingSession ==> f.firstAttempt)
    && IsChain(f.events, Initializing, f.state)
  }

  /** A refresh begun in an active session finds it active if its credentials are still the current ones. */
  predicate UpToDate<C(==)>(f: Fields<C>, r: Refresh<C>) {
    f.credentials == Some(r.credentials) && r.previousState == ActiveSession ==> f.state == ActiveSession
  }

  /** How far a session got; within one credentials epoch this never goes back. */
  function Rank(state: AuthState): nat {
    match state
    case AttemptingSession => 0
    case InactiveSession => 1
    case ActiveSession => 2
    case _ => 3
  }

  lemma ChainGrows(events: seq<StateChange>, from: AuthState, mid: AuthState, to: AuthState)
    requires IsChain(events, from, mid)
    ensures IsChain(events + [StateChange(to, mid)], from, to)
  {
    assert (events + [StateChange(to, mid)])[..|events|] == events;
  }

  lemma ChangeStateKeepsChain<C>(f: Fields<C>, state: AuthState)
    requires IsChain(f.events, Initializing, f.state)
    ensures IsChain(ChangeState(f, state).events, Initializing, state)
  {
    ChainGrows(f.events, Initializing, f.state, state);
  }

  // ------------------------------------------------------------------ steps

  /** What happens next; `loaded` in a read is the object just parsed. */
  datatype Event<C> =
    | ReadCredentials(loaded: Option<C>)
    | TokenArrived(refresh: Refresh<C>, jwt: string)
    | RefreshError(refresh: Refresh<C>, invalidClientToken: bool)
    | CallbackError
    | LogoutCleared

  function Handle<C(==)>(f: Fields<C>, content: C -> Content, e: Event<C>): Fields<C> {
    match e
    case ReadCredentials(loaded) => CredentialsLoaded(f, content, loaded)
    case TokenArrived(r, jwt) => RefreshSucceeded(f, r, jwt)
    case RefreshError(_, invalid) => RefreshFailed(f, invalid)
    case CallbackError => CallbackFailed(f)
    case LogoutCleared => StorageCleared(f)
  }

  lemma HandleKeepsGood<C>(f: Fields<C>, content: C -> Content, e: Event<C>)
    requires Good(f)
    requires e.TokenArrived? ==> UpToDate(f, e.refresh)
    ensures Good(Handle(f, content, e))
  {
    ChangeStateKeepsChain(f, ActiveSession);
    ChangeStateKeepsChain(f, LoggedOut);
    ChangeStateKeepsChain(f, AttemptingSession);
    ChangeStateKeepsChain(f, InactiveSession);
  }

  /** A step within a credentials epoch only moves the session forward, and never out of an active one. */
  lemma HandleAdvances<C>(f: Fields<C>, content: C -> Content, e: Event<C>)
    requires Good(f)
    requires e.TokenArrived? ==> UpToDate(f, e.refresh)
    requires e.ReadCredentials? ==> e.loaded != f.credentials || e.loaded.None?
    ensures var g := Handle(f, content, e);
            f.credentials.Some? && g.credentials == f.credentials ==>
              Rank(g.state) >= Rank(f.state) && (g.events != f.events ==> Rank(g.state) > Rank(f.state) || f.state == ActiveSession)
  {
  }

  lemma HandleKeepsUpToDate<C>(f: Fields<C>, content: C -> Content, e: Event<C>, r: Refresh<C>)
    requires Good(f) && UpToDate(f, r)
    requires e.TokenArrived? ==> UpToDate(f, e.refresh)
    requires e.ReadCredentials? ==> e.loaded != Some(r.credentials)
    ensures UpToDate(Handle(f, content, e), r)
  {
  }

  // ------------------------------------------------------------- whole runs

  /** A credentials object: its identity and its content. */
  datatype Credentials = Credentials(id: nat, content: Content)

  function ContentOf(c: Credentials): Content {
    c.content
  }

  datatype World = World(fields: Fields<Credentials>, inFlight: multiset<Refresh<Credentials>>, parsed: nat)

  datatype Choice =
    | BeginRefresh
    | Read(stored: Option<Content>)
    | Succeed(refresh: Refresh<Credentials>, jwt: string)
    | Fail(refresh: Refresh<Credentials>, invalidClientToken: bool)
    | FailCallback
    | ClearStorage

  /** Every successful read parses a new object. */
  function EventOf(w: World, choice: Choice): Option<Event<Credentials>> {
    match choice
    case BeginRefresh => None
    case Read(None) => Some(ReadCredentials(None))
    case Read(Some(content)) => Some(ReadCredentials(Some(Credentials(w.parsed, content))))
    case Succeed(r, jwt) => Some(TokenArrived(r, jwt))
    case Fail(r, invalid) => Some(RefreshError(r, invalid))
    case FailCallback => Some(CallbackError)
    case ClearStorage => Some(LogoutCleared)
  }

  predicate Enabled(w: World, choice: Choice) {
    (choice.Succeed? || choice.Fail? ==> choice.refresh in w.inFlight)
  }

  function Step(w: World, choice: Choice): World {
    match EventOf(w, choice)
    case None =>
      if w.fields.credentials.None? then w
      else w.(inFlight := w.inFlight + multiset{Refresh(w.fields.state, w.fields.credentials.value)})
    case Some(e) =>
      World(Handle(w.fields, ContentOf, e),
            if choice.Succeed? || choice.Fail? then w.inFlight - multiset{choice.refresh} else w.inFlight,
            w.parsed + 1)
  }

  ghost predicate IsRun(worlds: seq<World>, choices: seq<Choice>) {
    && |worlds| == |choices| + 1
    && worlds[0] == World(Start(), multiset{}, 0)
    && forall i: nat | i < |choices| :: Follows(worlds, choices, i)
  }

  predicate Follows(worlds: seq<World>, choices: seq<Choice>, i: nat)
    requires i < |choices| && |worlds| == |choices| + 1
  {
    Enabled(worlds[i], choices[i]) && worlds[i + 1] == Step(worlds[i], choices[i])
  }

  ghost predicate Inv(w: World) {
    && Good(w.fields)
    && (w.fields.credentials.Some? ==> w.fields.credentials.value.id < w.parsed)
    && forall r | r in w.inFlight :: UpToDate(w.fields, r) && r.credentials.id < w.parsed
  }

  lemma StepKeepsInv(w: World, choice: Choice)
    requires Inv(w) && Enabled(w, choice)
    ensures Inv(Step(w, choice))
  {
    var e := EventOf(w, choice);
    var w' := Step(w, choice);
    if e.Some? {
      HandleKeepsGood(w.fields, ContentOf, e.value);
      forall r | r in w'.inFlight ensures UpToDate(w'.fields, r) && r.credentials.id < w'.parsed {
        assert r in w.inFlight;
        HandleKeepsUpToDate(w.fields, ContentOf, e.value, r);
      }
    }
  }

  lemma {:induction false} RunKeepsInv(worlds: seq<World>, choices: seq<Choice>, k: nat)
    requires IsRun(worlds, choices) && k <= |choices|
    ensures Inv(worlds[k])
  {
    if k > 0 {
      RunKeepsInv(worlds, choices, k - 1);
      assert Follows(worlds, choices, k - 1);
      StepKeepsInv(worlds[k - 1], choices[k - 1]);
    }
  }

  /**
   At every moment of every run a session token is held exactly while the
   session is active, and it was fetched for the current credentials object;
   there are no credentials exactly before initialization and when logged out;
   and the events emitted so far lead from the first state to the current one.
   */
  lemma TokensBelongToTheSession(worlds: seq<World>, choices: seq<Choice>, k: nat)
    requires IsRun(worlds, choices) && k <= |choices|
    ensures var f := worlds[k].fields;
            && (f.token.Some? <==> f.state == ActiveSession)
            && (f.token.Some? ==> f.credentials == Some(f.token.value.fetchedFor))
            && (f.credentials.None? <==> f.state == Initializing || f.state == LoggedOut)
            && IsChain(f.events, Initializing, f.state)
  {
    RunKeepsInv(worlds, choices, k);
  }

  /** From `f` to `g` the state is announced as a change, and nothing else is. */
  predicate Announced(f: Fields<Credentials>, g: Fields<Credentials>) {
    g.events == f.events + [StateChange(g.state, f.state)]
  }

  /** In every run a logout leaves no session behind, and announces it unless there was none. */
  lemma LogoutEndsTheSession(worlds: seq<World>, choices: seq<Choice>, k: nat)
    requires IsRun(worlds, choices) && k < |choices| && choices[k].ClearStorage?
    ensures var (f, g) := (worlds[k].fields, worlds[k + 1].fields);
            && g.state == LoggedOut && g.credentials.None? && g.token.None?
            && (if f.state == LoggedOut then g.events == f.events else Announced(f, g))
  {
    RunKeepsInv(worlds, choices, k);
    assert Follows(worlds, choices, k);
  }

  /** So does a read of the secret store that finds nothing. */
  lemma NothingStoredEndsTheSession(worlds: seq<World>, choices: seq<Choice>, k: nat)
    requires IsRun(worlds, choices) && k < |choices| && choices[k] == Read(None)
    ensures var (f, g) := (worlds[k].fields, worlds[k + 1].fields);
            && g.state == LoggedOut && g.credentials.None? && g.token.None?
            && (if f.state == LoggedOut then g.events == f.events else Announced(f, g))
  {
    RunKeepsInv(worlds, choices, k);
    assert Follows(worlds, choices, k);
  }

  /** Stored credentials that differ from the current ones take over; the same ones change nothing. */
  lemma NewCredentialsTakeOver(worlds: seq<World>, choices: seq<Choice>, k: nat, content: Content)
    requires IsRun(worlds, choices) && k < |choices| && choices[k] == Read(Some(content))
    ensures var (f, g) := (worlds[k].fields, worlds[k + 1].fields);
            if f.credentials.Some? && f.credentials.value.content == content then g == f
            else g.state == AttemptingSession && g.token.None? && g.firstAttempt && Announced(f, g)
                 && g.credentials.Some? && g.credentials.value.content == content && g.credentials != f.credentials
  {
    RunKeepsInv(worlds, choices, k);
    assert Follows(worlds, choices, k);
  }

  /** A token for the current credentials makes the session active with that token. */
  lemma TokenActivates(worlds: seq<World>, choices: seq<Choice>, k: nat)
    requires IsRun(worlds, choices) && k < |choices| && choices[k].Succeed?
    requires worlds[k].fields.credentials == Some(choices[k].refresh.credentials)
    ensures var (f, g) := (worlds[k].fields, worlds[k + 1].fields);
            && g.state == ActiveSession && g.credentials == f.credentials
            && g.token == Some(Token(choices[k].jwt, choices[k].refresh.credentials))
            && (if choices[k].refresh.previousState == ActiveSession then g.events == f.events else Announced(f, g))
  {
    RunKeepsInv(worlds, choices, k);
    assert Follows(worlds, choices, k);
  }

  /** A failed refresh ends the attempt; in every other state, and when the client token is invalid, it changes nothing. */
  lemma FailedAttemptIsInactive(worlds: seq<World>, choices: seq<Choice>, k: nat)
    requires IsRun(worlds, choices) && k < |choices| && choices[k].Fail?
    ensures var (f, g) := (worlds[k].fields, worlds[k + 1].fields);
            if f.state == AttemptingSession && !choices[k].invalidClientToken
            then g.state == InactiveSession && g.token.None? && g.credentials == f.credentials && Announced(f, g)
            else g == f
  {
    RunKeepsInv(worlds, choices, k);
    assert Follows(worlds, choices, k);
  }

  /** A failed callback logs out where there is no session, and leaves a session alone. */
  lemma FailedCallbackKeepsTheSession(worlds: seq<World>, choices: seq<Choice>, k: nat)
    requires IsRun(worlds, choices) && k < |choices| && choices[k].FailCallback?
    ensures var (f, g) := (worlds[k].fields, worlds[k + 1].fields);
            if f.credentials.Some? then g == f
            else g.state == LoggedOut && g.credentials.None? && g.token.None? && Announced(f, g)
  {
    RunKeepsInv(worlds, choices, k);
    assert Follows(worlds, choices, k);
  }

  /** A refresh captures the state and the credentials it begins with, and changes neither. */
  lemma RefreshCaptures(worlds: seq<World>, choices: seq<Choice>, k: nat)
    requires IsRun(worlds, choices) && k < |choices| && choices[k].BeginRefresh?
    ensures var (w, w') := (worlds[k], worlds[k + 1]);
            && w'.fields == w.fields
            && w'.inFlight == if w.fields.credentials.None? then w.inFlight
                              else w.inFlight + multiset{Refresh(w.fields.state, w.fields.credentials.value)}
  {
    assert Follows(worlds, choices, k);
  }

  /** The assignment that emits no event leaves the state as it is. */
  lemma SilentAssignmentIsNoOp(worlds: seq<World>, choices: seq<Choice>, k: nat)
    requires IsRun(worlds, choices) && k < |choices| && choices[k].Succeed?
    requires worlds[k].fields.credentials == Some(choices[k].refresh.credentials)
    requires choices[k].refresh.previousState == ActiveSession
    ensures worlds[k].fields.state == ActiveSession == worlds[k + 1].fields.state
    ensures worlds[k + 1].fields.events == worlds[k].fields.events
  {
    RunKeepsInv(worlds, choices, k);
    assert Follows(worlds, choices, k);
  }

  /** Credentials objects are not reused: once another one is current, an old one never is again. */
  lemma {:induction false} EpochIsAnInterval(worlds: seq<World>, choices: seq<Choice>, i: nat, j: nat, k: nat)
    requires IsRun(worlds, choices) && i <= j <= k <= |choices|
    requires worlds[i].fields.credentials.Some? && worlds[k].fields.credentials == worlds[i].fields.credentials
    ensures worlds[j].fields.credentials == worlds[i].fields.credentials
  {
    if j < k {
      StepBack(worlds, choices, i, k - 1);
      EpochIsAnInterval(worlds, choices, i, j, k - 1);
    }
  }

  lemma {:induction false} StepBack(worlds: seq<World>, choices: seq<Choice>, i: nat, k: nat)
    requires IsRun(worlds, choices) && i <= k < |choices|
    requires worlds[i].fields.credentials.Some? && worlds[k + 1].fields.credentials == worlds[i].fields.credentials
    ensures worlds[k].fields.credentials == worlds[i].fields.credentials
  {
    RunKeepsInv(worlds, choices, i);
    ParsedGrows(worlds, choices, i, k);
    assert Follows(worlds, choices, k);
  }

  lemma {:induction false} ParsedGrows(worlds: seq<World>, choices: seq<Choice>, i: nat, k: nat)
    requires IsRun(worlds, choices) && i <= k <= |choices|
    ensures worlds[i].parsed <= worlds[k].parsed
  {
    if i < k {
      ParsedGrows(worlds, choices, i, k - 1);
      assert Follows(worlds, choices, k - 1);
    }
  }

  lemma HandleTakesCredentials(f: Fields<Credentials>, e: Event<Credentials>)
    ensures var now := Handle(f, ContentOf, e).credentials;
            now == f.credentials || now.None? || (e.ReadCredentials? && now == e.loaded)
  {
  }

  /** A step that changes the credentials takes a new object, or none. */
  lemma StepTakesNewCredentials(w: World, choice: Choice)
    ensures var now := Step(w, choice).fields.credentials;
            now == w.fields.credentials || now.None? || now.value.id == w.parsed
  {
    var e := EventOf(w, choice);
    if e.Some? {
      HandleTakesCredentials(w.fields, e.value);
    }
  }

  /** Credentials that were parsed before and are not current stay away. */
  lemma {:induction false} GoneStaysGone(worlds: seq<World>, choices: seq<Choice>, c: Credentials, j: nat, k: nat)
    requires IsRun(worlds, choices) && j <= k <= |choices|
    requires c.id < worlds[j].parsed && worlds[j].fields.credentials != Some(c)
    ensures worlds[k].fields.credentials != Some(c)
  {
    if j < k {
      GoneStaysGone(worlds, choices, c, j, k - 1);
      ParsedGrows(worlds, choices, j, k - 1);
      assert Follows(worlds, choices, k - 1);
      StepTakesNewCredentials(worlds[k - 1], choices[k - 1]);
    }
  }

  /**
   Once the session a refresh in flight was started for has ended or been
   replaced, its token changes nothing, whenever it arrives and whatever
   happened in between: a finished session is never revived.
   */
  lemma LateTokenIsDropped(worlds: seq<World>, choices: seq<Choice>, j: nat, k: nat)
    requires IsRun(worlds, choices) && j <= k < |choices| && choices[k].Succeed?
    requires choices[k].refresh in worlds[j].inFlight
    requires worlds[j].fields.credentials != Some(choices[k].refresh.credentials)
    ensures worlds[k + 1].fields == worlds[k].fields
  {
    RunKeepsInv(worlds, choices, j);
    GoneStaysGone(worlds, choices, choices[k].refresh.credentials, j, k);
    assert Follows(worlds, choices, k);
  }

  /** The same for any refresh whose credentials were current at `i` and gone at `j`. */
  lemma EndedSessionIsNotRevived(worlds: seq<World>, choices: seq<Choice>, i: nat, j: nat, k: nat)
    requires IsRun(worlds, choices) && i <= j <= k < |choices| && choices[k].Succeed?
    requires worlds[i].fields.credentials == Some(choices[k].refresh.credentials)
    requires worlds[j].fields.credentials != worlds[i].fields.credentials
    ensures worlds[k + 1].fields == worlds[k].fields
  {
    if worlds[k].fields.credentials == worlds[i].fields.credentials {
      EpochIsAnInterval(worlds, choices, i, j, k);
    }
    assert Follows(worlds, choices, k);
  }

  /**
   Within one credentials epoch the session only moves from attempting over
   inactive to active: an active session stays active until the epoch ends.
   */
  lemma {:induction false} EpochAdvances(worlds: seq<World>, choices: seq<Choice>, i: nat, k: nat)
    requires IsRun(worlds, choices) && i <= k <= |choices|
    requires worlds[i].fields.credentials.Some? && worlds[k].fields.credentials == worlds[i].fields.credentials
    ensures Rank(worlds[i].fields.state) <= Rank(worlds[k].fields.state) <= 2
  {
    RunKeepsInv(worlds, choices, k);
    if i < k {
      StepBack(worlds, choices, i, k - 1);
      EpochAdvances(worlds, choices, i, k - 1);
      StepAdvances(worlds, choices, k - 1);
    }
  }

  lemma StepAdvances(worlds: seq<World>, choices: seq<Choice>, k: nat)
    requires IsRun(worlds, choices) && k < |choices|
    requires worlds[k].fields.credentials.Some? && worlds[k + 1].fields.credentials == worlds[k].fields.credentials
    ensures var f, g := worlds[k].fields, worlds[k + 1].fields;
            Rank(g.state) >= Rank(f.state) && (g.events != f.events ==> Rank(g.state) > Rank(f.state) || f.state == ActiveSession)
  {
    RunKeepsInv(worlds, choices, k);
    var w, e := worlds[k], EventOf(worlds[k], choices[k]);
    assert Follows(worlds, choices, k);
    if e.Some? {
      HandleAdvances(w.fields, ContentOf, e.value);
    }
  }

  /** The k-th step enters the inactive state. */
  predicate EntersInactive(worlds: seq<World>, k: nat)
    requires k + 1 < |worlds|
  {
    worlds[k].fields.events != worlds[k + 1].fields.events && worlds[k + 1].fields.state == InactiveSession
  }

  /** Within one credentials epoch the inactive state is entered at most once. */
  lemma InactiveOnce(worlds: seq<World>, choices: seq<Choice>, i: nat, k: nat)
    requires IsRun(worlds, choices) && i < k < |choices|
    requires EntersInactive(worlds, i) && EntersInactive(worlds, k)
    ensures worlds[i + 1].fields.credentials != worlds[k + 1].fields.credentials
  {
    if worlds[i + 1].fields.credentials == worlds[k + 1].fields.credentials {
      RunKeepsInv(worlds, choices, i + 1);
      StepBack(worlds, choices, i + 1, k);
      EpochAdvances(worlds, choices, i + 1, k);
      StepAdvances(worlds, choices, k);
    }
  }
}

/** The service object itself. */
module WebAuth {
  import opened Text
  import opened AuthStates

  /** What `loadCredentials` parses: compared by reference. */
  class AuthCredentials {
    const content: Content

    constructor (content: Content)
      ensures this.content == content
    {
      this.content := content;
    }
  }

  function ContentOfObject(c: AuthCredentials): Content {
    c.content
  }

  class WebAuthService {
    var state: AuthState
    var credentials: AuthCredentials?
    var sessionToken: Option<string>
    var isFirstRefreshAttempt: bool
    ghost var tokenFor: AuthCredentials?
    ghost var events: seq<StateChange>
    ghost var inFlight: set<Refresh<AuthCredentials>>

    ghost function Now(): Fields<AuthCredentials>
      reads this
    {
      Fields(state,
             if credentials == null then None else Some(credentials),
             if sessionToken.None? || tokenFor == null then None else Some(Token(sessionToken.value, tokenFor)),
             isFirstRefreshAttempt, events)
    }

    ghost predicate Valid()
      reads this
    {
      && (sessionToken.Some? <==> tokenFor != null)
      && Good(Now())
      && forall r | r in inFlight :: UpToDate(Now(), r)
    }

    constructor ()
      ensures Valid() && Now() == Start() && inFlight == {}
    {
      state, credentials, sessionToken, isFirstRefreshAttempt := Initializing, null, None, false;
      tokenFor, events, inFlight := null, [], {};
    }

    method ChangeState(newState: AuthState)
      modifies this`state, this`events
      ensures Now() == AuthStates.ChangeState(old(Now()), newState)
      ensures state == newState && events == old(events) + [StateChange(newState, old(state))]
    {
      var previousState := state;
      state := newState;
      events := events + [StateChange(newState, previousState)];
    }

    method TransitionToLoggedOut()
      modifies this`state, this`events, this`credentials, this`sessionToken, this`tokenFor
      ensures Now() == ToLoggedOut(old(Now())) && sessionToken.None? && tokenFor == null
      ensures state == LoggedOut && credentials == null && events == old(events) + [StateChange(LoggedOut, old(state))]
    {
      credentials := null;
      sessionToken, tokenFor := None, null;
      ChangeState(LoggedOut);
    }

    method TransitionToAttemptingSession(c: AuthCredentials)
      modifies this`state, this`events, this`credentials, this`sessionToken, this`tokenFor, this`isFirstRefreshAttempt
      ensures Now() == ToAttempting(old(Now()), c) && sessionToken.None? && tokenFor == null
      ensures state == AttemptingSession && credentials == c && isFirstRefreshAttempt
      ensures events == old(events) + [StateChange(AttemptingSession, old(state))]
    {
      credentials := c;
      sessionToken, tokenFor := None, null;
      isFirstRefreshAttempt := true;
      ChangeState(AttemptingSession);
    }

    method TransitionToInactiveSession()
      modifies this`state, this`events, this`sessionToken, this`tokenFor
      ensures Now() == ToInactive(old(Now())) && sessionToken.None? && tokenFor == null
      ensures state == InactiveSession && events == old(events) + [StateChange(InactiveSession, old(state))]
    {
      sessionToken, tokenFor := None, null;
      ChangeState(InactiveSession);
    }

    /** `handleCredentialsChange` after its read of the secret store. */
    method HandleCredentialsChange(stored: Option<Content>)
      requires Valid()
      modifies this
      ensures Valid() && inFlight == old(inFlight)
      ensures stored.None? ==> Now() == CredentialsLoaded(old(Now()), ContentOfObject, None)
      ensures stored.Some? ==>
                exists c: AuthCredentials :: fresh(c) && c.content == stored.value
                                             && Now() == CredentialsLoaded(old(Now()), ContentOfObject, Some(c))
      ensures stored.None? ==> state == LoggedOut && credentials == null && sessionToken.None?
      ensures stored.Some? && old(credentials) != null && old(credentials).content == stored.value ==> Now() == old(Now())
      ensures stored.Some? && (old(credentials) == null || old(credentials).content != stored.value) ==>
                && state == AttemptingSession && credentials != null && fresh(credentials) && credentials.content == stored.value
                && sessionToken.None? && isFirstRefreshAttempt
    {
      ghost var f := Now();
      match stored {
        case Some(content) =>
          var loaded := new AuthCredentials(content);
          HandleKeepsGood(f, ContentOfObject, ReadCredentials(Some(loaded)));
          if credentials == null || credentials.content != loaded.content {
            TransitionToAttemptingSession(loaded);
          }
          assert Now() == CredentialsLoaded(f, ContentOfObject, Some(loaded));
          forall r | r in inFlight ensures UpToDate(Now(), r) {
            HandleKeepsUpToDate(f, ContentOfObject, ReadCredentials(Some(loaded)), r);
          }
        case None =>
          HandleKeepsGood(f, ContentOfObject, ReadCredentials(None));
          if state != LoggedOut {
            TransitionToLoggedOut();
          }
      }
    }

    /** `refreshSession` up to its request: what it captured, or nothing without credentials. */
    method BeginRefresh() returns (r: Option<Refresh<AuthCredentials>>)
      requires Valid()
      modifies this`inFlight
      ensures Valid()
      ensures credentials == null ==> r.None? && inFlight == old(inFlight)
      ensures credentials != null ==> r.Some? && r.value.previousState == state && r.value.credentials == credentials && inFlight == old(inFlight) + {r.value}
    {
      if credentials == null {
        return None;
      }
      r := Some(Refresh(state, credentials));
      inFlight := inFlight + {r.value};
    }

    /** `refreshSession` when the token arrives. */
    method OnToken(r: Refresh<AuthCredentials>, jwt: string)
      requires Valid() && r in inFlight
      modifies this`state, this`events, this`sessionToken, this`tokenFor
      ensures Valid() && Now() == RefreshSucceeded(old(Now()), r, jwt)
      ensures if credentials == r.credentials then state == ActiveSession && sessionToken == Some(jwt) && tokenFor == credentials
              else Now() == old(Now())
    {
      ghost var f := Now();
      HandleKeepsGood(f, ContentOfObject, TokenArrived(r, jwt));
      if credentials != r.credentials {
        return;
      }
      sessionToken, tokenFor := Some(jwt), r.credentials;
      if r.previousState != ActiveSession {
        ChangeState(ActiveSession);
      } else {
        state := ActiveSession;
      }
    }

    /** `refreshSession` when its request fails. */
    method OnRefreshError(r: Refresh<AuthCredentials>, invalidClientToken: bool)
      requires Valid() && r in inFlight
      modifies this`state, this`events, this`sessionToken, this`tokenFor, this`isFirstRefreshAttempt
      ensures Valid() && Now() == RefreshFailed(old(Now()), invalidClientToken)
      ensures if old(state) == AttemptingSession && !invalidClientToken then state == InactiveSession && sessionToken.None?
              else Now() == old(Now())
    {
      ghost var f := Now();
      HandleKeepsGood(f, ContentOfObject, RefreshError(r, invalidClientToken));
      if !invalidClientToken && isFirstRefreshAttempt && state == AttemptingSession {
        isFirstRefreshAttempt := false;
        TransitionToInactiveSession();
      }
    }

    /** The failure path of `handleCallback`. */
    method OnCallbackError()
      requires Valid()
      modifies this`state, this`events
      ensures Valid() && Now() == CallbackFailed(old(Now()))
      ensures if credentials == null then state == LoggedOut && sessionToken.None? else Now() == old(Now())
    {
      HandleKeepsGood(Now(), ContentOfObject, CallbackError);
      if credentials == null {
        ChangeState(LoggedOut);
      }
    }

    /** `logout` after the stored credentials are deleted. */
    method OnStorageCleared()
      requires Valid()
      modifies this`state, this`events, this`credentials, this`sessionToken, this`tokenFor
      ensures Valid() && Now() == StorageCleared(old(Now()))
      ensures state == LoggedOut && credentials == null && sessionToken.None?
      ensures events == old(events) + if old(state) == LoggedOut then [] else [StateChange(LoggedOut, old(state))]
    {
      HandleKeepsGood(Now(), ContentOfObject, LogoutCleared);
      if state != LoggedOut {
        TransitionToLoggedOut();
      }
    }

    /** The token to send: the one of the active session, fetched for its credentials. */
    method GetSessionToken() returns (token: Option<string>)
      requires Valid()
      ensures token.Some? ==> state == ActiveSession && token == sessionToken && credentials != null && tokenFor == credentials
      ensures state == ActiveSession && sessionToken != Some("") ==> token.Some?
    {
      if state == ActiveSession && sessionToken.Some? && sessionToken.value != "" {
        return sessionToken;
      }
      return None;
    }
  }
}
