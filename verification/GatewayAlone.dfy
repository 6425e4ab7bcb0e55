/** A call of the credential protocol with nothing else running, against scripts
of clock readings, auth server replies and gateway answers (src/auth.rs,
src/client.rs): what it comes to, as a function of those. */
module GatewayAlone {
  import opened Bytes
  import opened TokenStore
  import opened GatewayProtocol
  import opened GatewayRuns

  /** What the outside will supply, in order. Past its end the clock stands
  still, auth servers fail and gateways cannot be reached. */
  datatype Env = Env(clock: seq<int>, frozen: int, refreshes: seq<Option<Outcome>>, answers: seq<Answer>)

  function Tail<T>(script: seq<T>): seq<T> {
    if script == [] then [] else script[1..]
  }

  function Reading(env: Env): int {
    if env.clock == [] then env.frozen else env.clock[0]
  }

  function Granted(env: Env): Option<Outcome> {
    if env.refreshes == [] then None else env.refreshes[0]
  }

  function AnswerAt(answers: seq<Answer>, i: nat): Answer {
    if i < |answers| then answers[i] else TransportError
  }

  function Ticked(env: Env): Env {
    env.(clock := Tail(env.clock))
  }

  function Renewed(env: Env): Env {
    env.(refreshes := Tail(env.refreshes))
  }

  function Heard(env: Env): Env {
    env.(answers := Tail(env.answers))
  }

  function Supply(env: Env): Input {
    Input(Reading(env), Granted(env), AnswerAt(env.answers, 0))
  }

  /** Whether a call looks at the clock for its stored token. */
  predicate Looks(stored: Option<string>, avoid: Option<string>) {
    stored.Some? && stored != avoid
  }

  /** What a step uses up. */
  function Spend(cfg: Config, s: Shared, call: Call, env: Env): Env {
    match call.place
    case AtCache => if cfg.pinned.None? && s.token.Some? then Ticked(env) else env
    case Choosing(url, avoid) => if Looks(Text(TokenAt(s.store, url)), avoid) then Ticked(env) else env
    case Refreshing(_) => Renewed(env)
    case Sending(_) => Heard(env)
    case _ => env
  }

  /** A call run to its end by the steps of the protocol. */
  function Complete(cfg: Config, s: Shared, call: Call, env: Env): (Shared, Call, Env)
    requires Safe(cfg, call)
    decreases StepsLeft(call)
  {
    if call.place.Finished? then (s, call, env)
    else
      StepIsSafe(cfg, s, call, Supply(env));
      StepProgresses(cfg, s, call, Supply(env));
      var (s1, c1) := Step(cfg, s, call, Supply(env));
      Complete(cfg, s1, c1, Spend(cfg, s, call, env))
  }

  lemma StartIsSafe(cfg: Config)
    ensures Safe(cfg, START)
  {
  }

  /** A call from its start. */
  function Called(cfg: Config, s: Shared, env: Env): (Shared, Call, Env) {
    StartIsSafe(cfg);
    Complete(cfg, s, START, env)
  }

  lemma OneStep(cfg: Config, s: Shared, call: Call, env: Env)
    requires Safe(cfg, call) && !call.place.Finished?
    ensures var (s1, c1) := Step(cfg, s, call, Supply(env));
      Safe(cfg, c1) && Complete(cfg, s, call, env) == Complete(cfg, s1, c1, Spend(cfg, s, call, env))
  {
    StepIsSafe(cfg, s, call, Supply(env));
    hide Step, Safe, Spend;
  }

  // ----- the same in larger strides, as the client's functions take them

  function Cached(cfg: Config, s: Shared, env: Env): (Option<Credential>, Shared, Env) {
    if cfg.pinned.Some? then (Some(Credential(cfg.pinned.value, Pinned)), s, env)
    else if s.token.None? then (None, s, env)
    else if IsFresh(cfg.expires, s.token.value, Reading(env))
    then (Some(Credential(s.token.value, Unexpired(Reading(env)))), s, Ticked(env))
    else (None, s.(token := None), Ticked(env))
  }

  /** The stored token will do. */
  predicate Usable(cfg: Config, s: Shared, url: string, avoid: Option<string>, now: int) {
    var stored := Text(TokenAt(s.store, url));
    Looks(stored, avoid) && IsFresh(cfg.expires, stored.value, now)
  }

  function Looked(s: Shared, url: string, avoid: Option<string>, env: Env): Env {
    if Looks(Text(TokenAt(s.store, url)), avoid) then Ticked(env) else env
  }

  function Resolved(cfg: Config, s: Shared, env: Env, url: string, avoid: Option<string>)
    : (Option<Credential>, Shared, Env)
  {
    var stored, after := Text(TokenAt(s.store, url)), Looked(s, url, avoid, env);
    if Usable(cfg, s, url, avoid, Reading(env)) then
      (Some(Credential(stored.value, Unexpired(Reading(env)))), s.(token := stored), after)
    else if CookiesAt(s.store, url) == map[] then (None, s, after)
    else
      match Granted(after)
      case None => (None, s, Renewed(after))
      case Some(o) =>
        (Some(Credential(o.accessToken, Fetched)),
         s.(token := Some(o.accessToken), store := Refreshed(s.store, url, o)), Renewed(after))
  }

  function Current(cfg: Config, s: Shared, env: Env): (Option<Credential>, Shared, Env) {
    var (r, s1, env1) := Cached(cfg, s, env);
    if r.Some? || cfg.pinned.Some? || s1.authUrl.None? then (r, s1, env1)
    else Resolved(cfg, s1, env1, s1.authUrl.value, None)
  }

  function KnowingServer(cfg: Config, s: Shared, url: string): Shared {
    s.(authUrl := Some(url),
       store := if s.authUrl == Some(url) || cfg.pinned.Some? then s.store else Learned(s.store, cfg.boxHost, url))
  }

  function TokenOf(c: Option<Credential>): Option<string> {
    if c.Some? then Some(c.value.token) else None
  }

  /** A call that has had one answer. */
  function Sent(first: Option<Credential>, answer: Answer): Call {
    Call(if answer.TransportError? then Finished(Broken)
         else if DenialOf(answer).None? then Finished(Ok(answer.status, answer.body))
         else Learning(DenialOf(answer).value), false, [first], [answer])
  }

  /** The rest of a call whose first send was denied. */
  function AfterDenial(cfg: Config, s: Shared, env: Env, first: Option<Credential>, answer: Answer)
    : (Shared, Call, Env)
    requires DenialOf(answer).Some?
  {
    var url := DenialOf(answer).value;
    var s1 := KnowingServer(cfg, s, url);
    var denied := Finished(Denied(answer.status, url, first.Some?));
    if answer.status != 401 || cfg.pinned.Some? then (s1, Call(denied, false, [first], [answer]), env)
    else
      var (r, s2, env2) := Resolved(cfg, s1, env, url, TokenOf(first));
      if r.None? then (s2, Call(denied, true, [first], [answer]), env2)
      else
        var last := AnswerAt(env2.answers, 0);
        var reply := if last.TransportError? then Broken
                     else if DenialOf(last).None? then Ok(last.status, last.body)
                     else Denied(last.status, DenialOf(last).value, true);
        (s2, Call(Finished(reply), true, [first, r], [answer, last]), Heard(env2))
  }

  /** A whole call. */
  function Whole(cfg: Config, s: Shared, env: Env): (Shared, Call, Env) {
    var (first, s1, env1) := Current(cfg, s, env);
    var answer := AnswerAt(env1.answers, 0);
    if DenialOf(answer).None? then (s1, Sent(first, answer), Heard(env1))
    else AfterDenial(cfg, s1, Heard(env1), first, answer)
  }

  // ----- the strides are the steps

  lemma CachedCompletes(cfg: Config, s: Shared, env: Env)
    requires Safe(cfg, START)
    ensures var (r, s1, env1) := Cached(cfg, s, env);
      var next := START.(place := if r.Some? then Sending(r) else AtLookup);
      Safe(cfg, next) && Complete(cfg, s, START, env) == Complete(cfg, s1, next, env1)
  {
    OneStep(cfg, s, START, env);
    hide Safe, Complete, IsFresh;
  }

  lemma LookupCompletes(cfg: Config, s: Shared, env: Env)
    requires Safe(cfg, START.(place := AtLookup))
    ensures var next := START.(place := if s.authUrl.None? then Sending(None) else Choosing(s.authUrl.value, None));
      Safe(cfg, next) && Complete(cfg, s, START.(place := AtLookup), env) == Complete(cfg, s, next, env)
  {
    OneStep(cfg, s, START.(place := AtLookup), env);
    hide Safe, Complete;
  }

  /** What a call goes on as when a credential is resolved, or not. */
  function WithCredential(call: Call, r: Option<Credential>): Call {
    if r.Some? then call.(place := Sending(r)) else GiveUp(call)
  }

  lemma ResolvedCompletes(cfg: Config, s: Shared, call: Call, env: Env)
    requires Safe(cfg, call) && call.place.Choosing?
    ensures var (r, s1, env1) := Resolved(cfg, s, env, call.place.url, call.place.avoid);
      && Safe(cfg, WithCredential(call, r))
      && Complete(cfg, s, call, env) == Complete(cfg, s1, WithCredential(call, r), env1)
  {
    var url, avoid := call.place.url, call.place.avoid;
    var stored, env1 := Text(TokenAt(s.store, url)), Looked(s, url, avoid, env);
    OneStep(cfg, s, call, env);
    hide Safe, Complete, IsFresh, TokenAt, CookiesAt, Refreshed;
    if Usable(cfg, s, url, avoid, Reading(env)) {
      CachingCompletes(cfg, s, call, Credential(stored.value, Unexpired(Reading(env))), env1);
    } else if CookiesAt(s.store, url) != map[] {
      RefreshCompletes(cfg, s, call, url, env1);
    }
  }

  lemma CachingCompletes(cfg: Config, s: Shared, call: Call, c: Credential, env: Env)
    requires Safe(cfg, call.(place := Caching(c)))
    ensures Safe(cfg, call.(place := Sending(Some(c))))
    ensures Complete(cfg, s, call.(place := Caching(c)), env)
         == Complete(cfg, s.(token := Some(c.token)), call.(place := Sending(Some(c))), env)
  {
    OneStep(cfg, s, call.(place := Caching(c)), env);
    hide Safe, Complete;
  }

  lemma RefreshCompletes(cfg: Config, s: Shared, call: Call, url: string, env: Env)
    requires Safe(cfg, call.(place := Refreshing(url)))
    ensures match Granted(env)
      case None =>
        Safe(cfg, GiveUp(call))
        && Complete(cfg, s, call.(place := Refreshing(url)), env) == Complete(cfg, s, GiveUp(call), Renewed(env))
      case Some(o) =>
        var c := Credential(o.accessToken, Fetched);
        Safe(cfg, call.(place := Sending(Some(c))))
        && Complete(cfg, s, call.(place := Refreshing(url)), env)
           == Complete(cfg, s.(token := Some(o.accessToken), store := Refreshed(s.store, url, o)),
                       call.(place := Sending(Some(c))), Renewed(env))
  {
    var asking := call.(place := Refreshing(url));
    OneStep(cfg, s, asking, env);
    hide Safe, Complete, Refreshed;
    PlaceForgotten(cfg, call, asking.place, url);
    if Granted(env).Some? {
      var o := Granted(env).value;
      SavingCompletes(cfg, s, call, url, o, Renewed(env));
    }
  }

  lemma SavingCompletes(cfg: Config, s: Shared, call: Call, url: string, o: Outcome, env: Env)
    requires Safe(cfg, call.(place := Loading(url, o)))
    ensures var c := Credential(o.accessToken, Fetched);
      && Safe(cfg, call.(place := Sending(Some(c))))
      && Complete(cfg, s, call.(place := Loading(url, o)), env)
         == Complete(cfg, s.(token := Some(o.accessToken), store := Refreshed(s.store, url, o)),
                     call.(place := Sending(Some(c))), env)
  {
    var c, saved := Credential(o.accessToken, Fetched), s.(store := Refreshed(s.store, url, o));
    OneStep(cfg, s, call.(place := Loading(url, o)), env);
    OneStep(cfg, s, call.(place := Merging(url, o, s.store)), env);
    hide Safe, Complete, Refreshed;
    CachingCompletes(cfg, saved, call, c, env);
  }

  lemma PlaceForgotten(cfg: Config, call: Call, place: Place, url: string)
    ensures GiveUp(call.(place := place)) == GiveUp(call)
    ensures AfterLearning(cfg, call.(place := place), url) == AfterLearning(cfg, call, url)
  {
  }

  lemma LearningCompletes(cfg: Config, s: Shared, call: Call, env: Env)
    requires Safe(cfg, call) && call.place.Learning?
    ensures var url := call.place.url;
      && Safe(cfg, AfterLearning(cfg, call, url))
      && Complete(cfg, s, call, env) == Complete(cfg, KnowingServer(cfg, s, url), AfterLearning(cfg, call, url), env)
  {
    var url := call.place.url;
    OneStep(cfg, s, call, env);
    hide Safe, Complete, Learned, AfterLearning;
    if s.authUrl != Some(url) && cfg.pinned.None? {
      var known := s.(authUrl := Some(url));
      SavingServerCompletes(cfg, known, call, url, env);
    }
  }

  lemma SavingServerCompletes(cfg: Config, s: Shared, call: Call, url: string, env: Env)
    requires Safe(cfg, call.(place := LearnLoading(url)))
    ensures Safe(cfg, AfterLearning(cfg, call, url))
    ensures Complete(cfg, s, call.(place := LearnLoading(url)), env)
         == Complete(cfg, s.(store := Learned(s.store, cfg.boxHost, url)), AfterLearning(cfg, call, url), env)
  {
    var saving := call.(place := LearnSaving(url, s.store));
    OneStep(cfg, s, call.(place := LearnLoading(url)), env);
    OneStep(cfg, s, saving, env);
    hide Safe, Complete, Learned;
    PlaceForgotten(cfg, call, saving.place, url);
    hide AfterLearning;
  }

  lemma CurrentCompletes(cfg: Config, s: Shared, env: Env)
    requires Safe(cfg, START)
    ensures var (r, s1, env1) := Current(cfg, s, env);
      && Safe(cfg, START.(place := Sending(r)))
      && Complete(cfg, s, START, env) == Complete(cfg, s1, START.(place := Sending(r)), env1)
  {
    hide Safe, Complete, Resolved;
    CachedCompletes(cfg, s, env);
    var (r, s1, env1) := Cached(cfg, s, env);
    if r.None? {
      LookupCompletes(cfg, s1, env1);
      if s1.authUrl.Some? {
        var call := START.(place := Choosing(s1.authUrl.value, None));
        ResolvedCompletes(cfg, s1, call, env1);
        var (found, s2, env2) := Resolved(cfg, s1, env1, s1.authUrl.value, None);
        assert WithCredential(call, found) == START.(place := Sending(found));
        assert Current(cfg, s, env) == (found, s2, env2);
      }
    }
  }

  lemma FirstSendCompletes(cfg: Config, s: Shared, first: Option<Credential>, env: Env)
    requires Safe(cfg, START.(place := Sending(first)))
    ensures var answer := AnswerAt(env.answers, 0);
      && Safe(cfg, Sent(first, answer))
      && Complete(cfg, s, START.(place := Sending(first)), env) == Complete(cfg, s, Sent(first, answer), Heard(env))
  {
    OneStep(cfg, s, START.(place := Sending(first)), env);
    assert [] + [first] == [first] && [] + [AnswerAt(env.answers, 0)] == [AnswerAt(env.answers, 0)];
    hide Safe, Complete;
  }

  lemma LastSendCompletes(cfg: Config, s: Shared, call: Call, env: Env)
    requires Safe(cfg, call) && call.place.Sending? && call.retry && |call.sends| == |call.answers| == 1
    ensures var last := AnswerAt(env.answers, 0);
      var reply := if last.TransportError? then Broken
                   else if DenialOf(last).None? then Ok(last.status, last.body)
                   else Denied(last.status, DenialOf(last).value, true);
      Complete(cfg, s, call, env)
      == (s, Call(Finished(reply), true, [call.sends[0], call.place.attached], [call.answers[0], last]), Heard(env))
  {
    OneStep(cfg, s, call, env);
    var last := AnswerAt(env.answers, 0);
    assert call.sends + [call.place.attached] == [call.sends[0], call.place.attached];
    assert call.answers + [last] == [call.answers[0], last];
    hide Safe;
  }

  lemma DenialCompletes(cfg: Config, s: Shared, env: Env, first: Option<Credential>, answer: Answer)
    requires DenialOf(answer).Some? && Safe(cfg, Sent(first, answer))
    ensures Complete(cfg, s, Sent(first, answer), env) == AfterDenial(cfg, s, env, first, answer)
  {
    hide Safe, Resolved, Learned;
    var url, call := DenialOf(answer).value, Sent(first, answer);
    LearningCompletes(cfg, s, call, env);
    var s1, next := KnowingServer(cfg, s, url), AfterLearning(cfg, call, url);
    if answer.status == 401 && cfg.pinned.None? {
      hide Complete;
      RetryCompletes(cfg, s1, next, env, first, answer, url);
    }
  }

  lemma RetryCompletes(cfg: Config, s: Shared, call: Call, env: Env, first: Option<Credential>, answer: Answer,
                       url: string)
    requires Safe(cfg, call) && DenialOf(answer) == Some(url) && answer.status == 401
    requires call == Call(Choosing(url, TokenOf(first)), true, [first], [answer])
    ensures var (r, s2, env2) := Resolved(cfg, s, env, url, TokenOf(first));
      var denied := Call(Finished(Denied(401, url, first.Some?)), true, [first], [answer]);
      Complete(cfg, s, call, env) ==
        if r.None? then (s2, denied, env2)
        else
          var last := AnswerAt(env2.answers, 0);
          var reply := if last.TransportError? then Broken
                       else if DenialOf(last).None? then Ok(last.status, last.body)
                       else Denied(last.status, DenialOf(last).value, true);
          (s2, Call(Finished(reply), true, [first, r], [answer, last]), Heard(env2))
  {
    hide Resolved;
    ResolvedCompletes(cfg, s, call, env);
    var (r, s2, env2) := Resolved(cfg, s, env, url, TokenOf(first));
    if r.Some? {
      hide Safe, Complete;
      LastSendCompletes(cfg, s2, call.(place := Sending(r)), env2);
    } else {
      hide Safe;
    }
  }

  /** Main result: a whole call, in the strides of the client's functions, is the
  protocol's run of it, step for step and item for item of the scripts. */
  lemma WholeIsComplete(cfg: Config, s: Shared, env: Env)
    ensures Whole(cfg, s, env) == Called(cfg, s, env)
  {
    StartIsSafe(cfg);
    hide Safe, Current, AfterDenial;
    CurrentCompletes(cfg, s, env);
    var (first, s1, env1) := Current(cfg, s, env);
    var answer := AnswerAt(env1.answers, 0);
    FirstSendCompletes(cfg, s1, first, env1);
    if DenialOf(answer).Some? {
      hide Complete;
      DenialCompletes(cfg, s1, Heard(env1), first, answer);
    }
  }

  // ----- what a whole call sends and returns

  lemma ResolvingKeepsAnswers(cfg: Config, s: Shared, env: Env, url: string, avoid: Option<string>)
    ensures Resolved(cfg, s, env, url, avoid).2.answers == env.answers
  {
  }

  lemma ChoosingKeepsAnswers(cfg: Config, s: Shared, env: Env)
    ensures Current(cfg, s, env).2.answers == env.answers
  {
    var (_, s1, env1) := Cached(cfg, s, env);
    if s1.authUrl.Some? {
      ResolvingKeepsAnswers(cfg, s1, env1, s1.authUrl.value, None);
    }
    hide Resolved;
  }

  /** Choosing a credential has nothing to do with what gateways will answer. */
  lemma ResolvingIgnoresAnswers(cfg: Config, s: Shared, env: Env, url: string, avoid: Option<string>,
                                answers: seq<Answer>)
    ensures var (r, s1, env1) := Resolved(cfg, s, env, url, avoid);
      Resolved(cfg, s, env.(answers := answers), url, avoid) == (r, s1, env1.(answers := answers))
  {
    hide TokenAt, CookiesAt, IsFresh, Refreshed;
  }

  lemma ChoosingIgnoresAnswers(cfg: Config, s: Shared, env: Env, answers: seq<Answer>)
    ensures var (r, s1, env1) := Current(cfg, s, env);
      Current(cfg, s, env.(answers := answers)) == (r, s1, env1.(answers := answers))
  {
    var (_, s1, env1) := Cached(cfg, s, env);
    if s1.authUrl.Some? {
      ResolvingIgnoresAnswers(cfg, s1, env1, s1.authUrl.value, None, answers);
    }
    hide Resolved, IsFresh;
  }

  /** The store has a token for this server that is not the one to avoid and
  expires more than a minute from now. */
  ghost predicate Stored(cfg: Config, store: Json, url: string, avoid: Option<string>, now: int, token: string) {
    TokenAt(store, url) == Some(Str(token)) && avoid != Some(token) && cfg.expires(token) > now + 60
  }

  /** Resolving finds such a token; or, with a cookie stored and a refresh
  granted, the token of that; or nothing. */
  ghost predicate Resolves(cfg: Config, store: Json, url: string, avoid: Option<string>, env: Env, r: Option<Credential>) {
    if exists token :: Stored(cfg, store, url, avoid, Reading(env), token) then
      exists token :: Stored(cfg, store, url, avoid, Reading(env), token)
        && r == Some(Credential(token, Unexpired(Reading(env))))
    else if HasCookie(store, url) && Granted(env).Some? then
      r == Some(Credential(Granted(env).value.accessToken, Fetched))
    else r == None
  }

  lemma UsableIsStored(cfg: Config, s: Shared, url: string, avoid: Option<string>, now: int)
    ensures Usable(cfg, s, url, avoid, now) ==>
      Stored(cfg, s.store, url, avoid, now, Text(TokenAt(s.store, url)).value)
    ensures Usable(cfg, s, url, avoid, now) <==> exists token :: Stored(cfg, s.store, url, avoid, now, token)
  {
    hide TokenAt;
    if Usable(cfg, s, url, avoid, now) {
      assert Stored(cfg, s.store, url, avoid, now, Text(TokenAt(s.store, url)).value);
    }
  }

  /** Main result: exactly what resolving a credential comes to. */
  lemma ResolvedExactly(cfg: Config, s: Shared, env: Env, url: string, avoid: Option<string>)
    ensures Resolves(cfg, s.store, url, avoid, env, Resolved(cfg, s, env, url, avoid).0)
  {
    hide TokenAt, CookiesAt, Stored, Usable, HasCookie, Refreshed;
    UsableIsStored(cfg, s, url, avoid, Reading(env));
    CookiesAreStored(s.store, url);
    assert Granted(Looked(s, url, avoid, env)) == Granted(env);
  }

  /** Main result: the credential that a call sends first is the pin; or the
  cached token, if it expires more than a minute from now; or what is resolved,
  if an auth server is known. */
  lemma CurrentExactly(cfg: Config, s: Shared, env: Env)
    ensures var r := Current(cfg, s, env).0;
      if cfg.pinned.Some? then r == Some(Credential(cfg.pinned.value, Pinned))
      else if s.token.Some? && cfg.expires(s.token.value) > Reading(env) + 60 then
        r == Some(Credential(s.token.value, Unexpired(Reading(env))))
      else if s.authUrl.None? then r == None
      else Resolves(cfg, s.store, s.authUrl.value, None, if s.token.Some? then Ticked(env) else env, r)
  {
    hide Resolves, Resolved;
    var (_, s1, env1) := Cached(cfg, s, env);
    if s1.authUrl.Some? {
      ResolvedExactly(cfg, s1, env1, s1.authUrl.value, None);
    }
  }

  /** The client and the scripts when the first answer's denial has been learned. */
  function Denied1(cfg: Config, s: Shared, env: Env): (Shared, Env)
    requires DenialOf(AnswerAt(env.answers, 0)).Some?
  {
    var (_, s1, env1) := Current(cfg, s, env);
    (KnowingServer(cfg, s1, DenialOf(AnswerAt(env.answers, 0)).value), Heard(env1))
  }

  /** The credential resolved for the retry. */
  function Second(cfg: Config, s: Shared, env: Env): Option<Credential>
    requires DenialOf(AnswerAt(env.answers, 0)).Some?
  {
    var (s1, env1) := Denied1(cfg, s, env);
    Resolved(cfg, s1, env1, DenialOf(AnswerAt(env.answers, 0)).value, TokenOf(Current(cfg, s, env).0)).0
  }

  /** A whole call that is not denied. */
  lemma AcceptedFacts(cfg: Config, s: Shared, env: Env)
    requires DenialOf(AnswerAt(env.answers, 0)).None?
    ensures var (s1, call, env1) := Whole(cfg, s, env);
      && call.place == Finished(ReplyTo(call))
      && call.sends == [Current(cfg, s, env).0] && call.answers == [AnswerAt(env.answers, 0)]
      && env1.answers == env.answers[Min(1, |env.answers|)..]
  {
    ChoosingKeepsAnswers(cfg, s, env);
    hide Current;
    TwoAnswers(env.answers);
  }

  /** A whole call that is denied. */
  lemma DeniedFacts(cfg: Config, s: Shared, env: Env)
    requires DenialOf(AnswerAt(env.answers, 0)).Some?
    ensures var (s1, call, env1) := Whole(cfg, s, env);
      var first, answer := Current(cfg, s, env).0, AnswerAt(env.answers, 0);
      && call.place == Finished(ReplyTo(call))
      && (if answer.status == 401 && cfg.pinned.None? && Second(cfg, s, env).Some?
          then call.sends == [first, Second(cfg, s, env)] && call.answers == [answer, AnswerAt(env.answers, 1)]
          else call.sends == [first] && call.answers == [answer])
      && env1.answers == env.answers[Min(|call.sends|, |env.answers|)..]
  {
    ChoosingKeepsAnswers(cfg, s, env);
    var (s1, env1) := Denied1(cfg, s, env);
    ResolvingKeepsAnswers(cfg, s1, env1, DenialOf(AnswerAt(env.answers, 0)).value, TokenOf(Current(cfg, s, env).0));
    TwoAnswers(env.answers);
    hide Current, Resolved, KnowingServer;
  }

  lemma SecondExactly(cfg: Config, s: Shared, env: Env)
    ensures var first, answer := Current(cfg, s, env).0, AnswerAt(env.answers, 0);
      DenialOf(answer).Some? ==>
        var (s1, env1) := Denied1(cfg, s, env);
        Resolves(cfg, s1.store, DenialOf(answer).value, TokenOf(first), env1, Second(cfg, s, env))
  {
    hide Resolves, Resolved, Current, KnowingServer;
    var answer := AnswerAt(env.answers, 0);
    if DenialOf(answer).Some? {
      var (s1, env1) := Denied1(cfg, s, env);
      ResolvedExactly(cfg, s1, env1, DenialOf(answer).value, TokenOf(Current(cfg, s, env).0));
    }
  }

  /** Main result: a call sends the token it has; it sends once more if and only
  if the first answer is a 401 denial, nothing is pinned and a credential can be
  resolved, and then sends that; it returns what its last answer calls for. */
  lemma CallFacts(cfg: Config, s: Shared, env: Env)
    ensures var (s1, call, env1) := Called(cfg, s, env);
      var first, answer := Current(cfg, s, env).0, AnswerAt(env.answers, 0);
      && call.place == Finished(ReplyTo(call))
      && (if DenialOf(answer).Some? && answer.status == 401 && cfg.pinned.None? && Second(cfg, s, env).Some?
          then call.sends == [first, Second(cfg, s, env)] && call.answers == [answer, AnswerAt(env.answers, 1)]
          else call.sends == [first] && call.answers == [answer])
      && env1.answers == env.answers[Min(|call.sends|, |env.answers|)..]
    ensures var first, answer := Current(cfg, s, env).0, AnswerAt(env.answers, 0);
      DenialOf(answer).Some? ==>
        var (s1, env1) := Denied1(cfg, s, env);
        Resolves(cfg, s1.store, DenialOf(answer).value, TokenOf(first), env1, Second(cfg, s, env))
  {
    SecondExactly(cfg, s, env);
    WholeIsComplete(cfg, s, env);
    hide Called, Whole, Current, Second, ReplyTo, Resolves, Denied1;
    if DenialOf(AnswerAt(env.answers, 0)).None? {
      AcceptedFacts(cfg, s, env);
    } else {
      DeniedFacts(cfg, s, env);
    }
  }

  lemma TwoAnswers(answers: seq<Answer>)
    ensures Tail(answers) == answers[Min(1, |answers|)..]
    ensures Tail(Tail(answers)) == answers[Min(2, |answers|)..]
    ensures AnswerAt(Tail(answers), 0) == AnswerAt(answers, 1)
  {
  }

  /** A credential is the pin; or unexpired by the margin at a reading of the
  clock; or given by an auth server. */
  ghost predicate FromScripts(cfg: Config, env: Env, c: Credential) {
    match c.origin
    case Pinned => cfg.pinned == Some(c.token)
    case Unexpired(now) => IsFresh(cfg.expires, c.token, now) && (now in env.clock || now == env.frozen)
    case Fetched => exists o: Outcome :: Some(o) in env.refreshes && o.accessToken == c.token
  }

  /** What is left of the clock and the auth servers' replies. */
  predicate Remains(env: Env, env0: Env) {
    && env.frozen == env0.frozen
    && (forall t :: t in env.clock ==> t in env0.clock)
    && (forall r :: r in env.refreshes ==> r in env0.refreshes)
  }

  lemma ResolvedFrom(cfg: Config, s: Shared, env: Env, url: string, avoid: Option<string>, env0: Env)
    requires Remains(env, env0)
    ensures var (r, _, env1) := Resolved(cfg, s, env, url, avoid);
      (r.Some? ==> FromScripts(cfg, env0, r.value)) && Remains(env1, env0)
  {
    hide IsFresh, TokenAt, CookiesAt, Refreshed;
    var after := Looked(s, url, avoid, env);
    if Granted(after).Some? {
      assert Granted(after) in env0.refreshes;
    }
  }

  lemma CurrentFrom(cfg: Config, s: Shared, env: Env)
    ensures var (r, _, env1) := Current(cfg, s, env);
      (r.Some? ==> FromScripts(cfg, env, r.value)) && Remains(env1, env)
  {
    hide IsFresh, Resolved;
    var (r, s1, env1) := Cached(cfg, s, env);
    if s1.authUrl.Some? {
      ResolvedFrom(cfg, s1, env1, s1.authUrl.value, None, env);
    }
  }

  /** Main result: every token a call attaches is the pin, or was unexpired by
  the margin when the call read the clock, or an auth server gave it. */
  lemma CallIsSourced(cfg: Config, s: Shared, env: Env, k: nat)
    ensures var sends := Called(cfg, s, env).1.sends;
      k < |sends| && sends[k].Some? ==> FromScripts(cfg, env, sends[k].value)
  {
    hide Called, Current, Resolved, FromScripts, KnowingServer;
    CallFacts(cfg, s, env);
    CurrentFrom(cfg, s, env);
    if DenialOf(AnswerAt(env.answers, 0)).Some? {
      var (s1, env1) := Denied1(cfg, s, env);
      ResolvedFrom(cfg, s1, env1, DenialOf(AnswerAt(env.answers, 0)).value, TokenOf(Current(cfg, s, env).0), env);
    }
  }

  /** A pinned client sends its pin, once, and leaves the store alone. */
  lemma {:induction false} PinnedCall(cfg: Config, s: Shared, call: Call, env: Env)
    requires Safe(cfg, call) && cfg.pinned.Some?
    ensures var (s1, c1, _) := Complete(cfg, s, call, env);
      s1.store == s.store && c1.sends == [Some(Credential(cfg.pinned.value, Pinned))]
    decreases StepsLeft(call)
  {
    hide Step, Safe, Spend;
    if call.place.Finished? {
      FinishedCall(cfg, call);
    } else {
      StepIsSafe(cfg, s, call, Supply(env));
      StepProgresses(cfg, s, call, Supply(env));
      StepKeepsPinnedStore(cfg, s, call, Supply(env));
      var (s1, c1) := Step(cfg, s, call, Supply(env));
      PinnedCall(cfg, s1, c1, Spend(cfg, s, call, env));
    }
  }

  /** Main result: a retry sends the token just rejected if and only if the
  stored token was of no use at the reading and the auth server gave that
  token again. */
  lemma SameTokenExactly(cfg: Config, s: Shared, env: Env)
    ensures var sends := Called(cfg, s, env).1.sends;
      |sends| == 2 && sends[0].Some? ==>
        && DenialOf(AnswerAt(env.answers, 0)).Some? && sends[1].Some?
        && var (s1, env1) := Denied1(cfg, s, env);
           var url, token := DenialOf(AnswerAt(env.answers, 0)).value, sends[0].value.token;
           var given := Granted(Looked(s1, url, Some(token), env1));
           (sends[1].value.token == token <==>
              !Usable(cfg, s1, url, Some(token), Reading(env1)) && given.Some? && given.value.accessToken == token)
  {
    CallFacts(cfg, s, env);
    hide Called, Current, IsFresh, TokenAt, CookiesAt, Learned, Refreshed;
  }

  // ----- a call alone is a run

  /** Main result: completing a call of a run in this way goes on with the run. */
  lemma {:induction false} CompleteRuns(cfg: Config, run: Run, i: nat, env: Env) returns (more: Run)
    requires IsRun(cfg, run) && i < |run.states[|run.moves|].calls|
    requires Safe(cfg, run.states[|run.moves|].calls[i])
    ensures IsRun(cfg, more) && run.states <= more.states && run.moves <= more.moves
    ensures forall k :: |run.moves| <= k < |more.moves| ==> more.moves[k].i == i
    ensures var last := run.states[|run.moves|];
      var (s1, c1, _) := Complete(cfg, last.shared, last.calls[i], env);
      more.states[|more.moves|] == System(s1, last.calls[i := c1])
    decreases StepsLeft(run.states[|run.moves|].calls[i])
  {
    hide Step, Safe, Spend;
    var last := run.states[|run.moves|];
    var call, input := last.calls[i], Supply(env);
    if call.place.Finished? {
      assert last.calls[i := call] == last.calls;
      return run;
    }
    StepIsSafe(cfg, last.shared, call, input);
    StepProgresses(cfg, last.shared, call, input);
    var (s1, c1) := Step(cfg, last.shared, call, input);
    var next := System(s1, last.calls[i := c1]);
    var one := Run(run.states + [next], run.moves + [Move(i, input)]);
    assert last.calls[i := c1][i := Complete(cfg, s1, c1, Spend(cfg, last.shared, call, env)).1]
        == last.calls[i := Complete(cfg, s1, c1, Spend(cfg, last.shared, call, env)).1];
    ExtendRun(cfg, run, Move(i, input), next);
    hide IsRun, Moves;
    more := CompleteRuns(cfg, one, i, Spend(cfg, last.shared, call, env));
  }

  lemma ExtendRun(cfg: Config, run: Run, m: Move, next: System)
    requires IsRun(cfg, run) && Moves(cfg, run.states[|run.moves|], next, m)
    ensures IsRun(cfg, Run(run.states + [next], run.moves + [m]))
  {
    hide Moves;
  }

  // ----- what calls, one after another, do to the store

  /** The updates a call makes. */
  function UpdatesOf(cfg: Config, s: Shared, call: Call, env: Env): seq<Update>
    requires Safe(cfg, call)
    decreases StepsLeft(call)
  {
    if call.place.Finished? then []
    else
      StepIsSafe(cfg, s, call, Supply(env));
      StepProgresses(cfg, s, call, Supply(env));
      var (s1, c1) := Step(cfg, s, call, Supply(env));
      UpdateMade(cfg, call) + UpdatesOf(cfg, s1, c1, Spend(cfg, s, call, env))
  }

  /** What a call loaded is still what the store holds. */
  predicate Uninterrupted(s: Shared, call: Call) {
    match call.place
    case Merging(_, _, loaded) => loaded == s.store
    case LearnSaving(url, loaded) => loaded == s.store && s.authUrl == Some(url)
    case LearnLoading(url) => s.authUrl == Some(url)
    case _ => true
  }

  /** Unpinned, and but for a discovery not yet saved, the store maps this box
  to the auth server in memory. */
  predicate Mapped(cfg: Config, s: Shared, call: Call) {
    cfg.pinned.None? && s.authUrl.Some? && !call.place.LearnLoading? && !call.place.LearnSaving? ==>
      Text(BoxAt(s.store, cfg.boxHost)) == s.authUrl
  }

  lemma StepUpdates(cfg: Config, s: Shared, call: Call, input: Input)
    requires Uninterrupted(s, call)
    ensures var (s1, c1) := Step(cfg, s, call, input);
      && Uninterrupted(s1, c1)
      && s1.store == UpdatedAll(s.store, UpdateMade(cfg, call))
      && OnlyLearns(UpdateMade(cfg, call), cfg.boxHost)
  {
    hide Learned, Refreshed, TokenAt, CookiesAt, IsFresh;
    assert forall u: Update :: [u][..0] == [];
  }

  lemma StepMaps(cfg: Config, s: Shared, call: Call, input: Input)
    requires Uninterrupted(s, call) && Mapped(cfg, s, call) && WellFormed(s.store)
    ensures var (s1, c1) := Step(cfg, s, call, input);
      Mapped(cfg, s1, c1) && WellFormed(s1.store)
  {
    hide TokenAt, CookiesAt, IsFresh, WellFormed;
    if UpdateMade(cfg, call) != [] {
      var update := UpdateMade(cfg, call)[0];
      UpdateKeepsWellFormed(s.store, update);
      UpdateLookups(s.store, update, cfg.boxHost, "", "");
      assert [update][..0] == [];
      hide Learned, Refreshed, BoxAt;
    }
  }

  /** A call leaves the store it found with exactly its updates applied, maps no
  box but its own, and keeps memory and store in step. */
  lemma {:induction false} CallUpdates(cfg: Config, s: Shared, call: Call, env: Env)
    requires Safe(cfg, call) && Uninterrupted(s, call)
    ensures var (s1, c1, _) := Complete(cfg, s, call, env);
      var updates := UpdatesOf(cfg, s, call, env);
      && c1.place.Finished?
      && s1.store == UpdatedAll(s.store, updates) && OnlyLearns(updates, cfg.boxHost)
      && (Mapped(cfg, s, call) && WellFormed(s.store) ==> Mapped(cfg, s1, c1) && WellFormed(s1.store))
    decreases StepsLeft(call)
  {
    hide Step, Safe, Spend, Mapped, WellFormed, UpdateMade, Uninterrupted;
    if !call.place.Finished? {
      StepIsSafe(cfg, s, call, Supply(env));
      StepProgresses(cfg, s, call, Supply(env));
      StepUpdates(cfg, s, call, Supply(env));
      if Mapped(cfg, s, call) && WellFormed(s.store) {
        StepMaps(cfg, s, call, Supply(env));
      }
      var (s1, c1) := Step(cfg, s, call, Supply(env));
      var env1 := Spend(cfg, s, call, env);
      CallUpdates(cfg, s1, c1, env1);
      UpdatedAllConcat(s.store, UpdateMade(cfg, call), UpdatesOf(cfg, s1, c1, env1));
      hide UpdatedAll;
    }
  }

  /** A server is known: to begin with, or from a denial among the answers. */
  ghost predicate KnownFrom(start: Option<string>, answers: seq<Answer>, url: string) {
    start == Some(url) || exists a :: a in answers && DenialOf(a) == Some(url)
  }

  /** The updates have their servers from what was known and heard, and their
  tokens and cookies from what auth servers gave. */
  ghost predicate GroundedIn(cfg: Config, start: Option<string>, env: Env, updates: seq<Update>) {
    forall u :: u in updates ==>
      && KnownFrom(start, env.answers, u.url) && cfg.pinned.None?
      && (u.Learn? ==> u.box == cfg.boxHost) && (u.Refresh? ==> Some(u.outcome) in env.refreshes)
  }

  /** What is left of the scripts `env0`. */
  predicate LeftOf(env: Env, env0: Env) {
    && (forall a :: a in env.answers ==> a in env0.answers)
    && (forall r :: r in env.refreshes ==> r in env0.refreshes)
  }

  /** The server a call deals with. */
  function ServerOf(call: Call): Option<string> {
    match call.place
    case Choosing(url, _) => Some(url)
    case Refreshing(url) => Some(url)
    case Loading(url, _) => Some(url)
    case Merging(url, _, _) => Some(url)
    case Learning(url) => Some(url)
    case LearnLoading(url) => Some(url)
    case LearnSaving(url, _) => Some(url)
    case _ => None
  }

  /** What a call was given and has not saved yet. */
  function Held(call: Call): seq<Outcome> {
    match call.place
    case Loading(_, outcome) => [outcome]
    case Merging(_, outcome, _) => [outcome]
    case _ => []
  }

  /** All that a call goes by comes from the scripts `env0` it began with. */
  ghost predicate Derived(start: Option<string>, env0: Env, s: Shared, call: Call, env: Env) {
    && LeftOf(env, env0)
    && (s.authUrl.Some? ==> KnownFrom(start, env0.answers, s.authUrl.value))
    && (ServerOf(call).Some? ==> KnownFrom(start, env0.answers, ServerOf(call).value))
    && (Held(call) != [] ==> Some(Held(call)[0]) in env0.refreshes)
  }

  lemma SpendLeaves(cfg: Config, start: Option<string>, env0: Env, s: Shared, call: Call, env: Env)
    requires LeftOf(env, env0)
    ensures LeftOf(Spend(cfg, s, call, env), env0)
    ensures var denial := DenialOf(Supply(env).answer);
      denial.Some? ==> KnownFrom(start, env0.answers, denial.value)
    ensures Supply(env).refresh.Some? ==> Supply(env).refresh in env0.refreshes
  {
    hide TokenAt;
  }

  /** Where a step has its server and its refresh from. */
  lemma StepServers(cfg: Config, s: Shared, call: Call, input: Input)
    ensures var (s1, c1) := Step(cfg, s, call, input);
      && (s1.authUrl == s.authUrl || s1.authUrl == ServerOf(call))
      && (ServerOf(c1).None? || ServerOf(c1) == ServerOf(call) || ServerOf(c1) == s.authUrl
          || ServerOf(c1) == DenialOf(input.answer))
      && (Held(c1) == [] || Held(c1) == Held(call) || Some(Held(c1)[0]) == input.refresh)
  {
    hide TokenAt, CookiesAt, IsFresh, Learned, Refreshed;
  }

  lemma StepDerives(cfg: Config, start: Option<string>, env0: Env, s: Shared, call: Call, env: Env)
    requires Derived(start, env0, s, call, env)
    ensures var (s1, c1) := Step(cfg, s, call, Supply(env));
      Derived(start, env0, s1, c1, Spend(cfg, s, call, env))
  {
    SpendLeaves(cfg, start, env0, s, call, env);
    StepServers(cfg, s, call, Supply(env));
    hide Step, Spend, Supply, LeftOf, KnownFrom, ServerOf, Held, DenialOf;
  }

  lemma DerivedAtStart(start: Option<string>, env0: Env, s: Shared, call: Call, env: Env)
    requires Derived(start, env0, s, call, env)
    ensures Derived(start, env0, s, START, env)
  {
    hide LeftOf, KnownFrom;
  }

  lemma UpdateDerives(cfg: Config, start: Option<string>, env0: Env, s: Shared, call: Call, env: Env)
    requires Safe(cfg, call) && Derived(start, env0, s, call, env)
    ensures GroundedIn(cfg, start, env0, UpdateMade(cfg, call))
  {
    hide LeftOf, KnownFrom;
  }

  lemma GroundedConcat(cfg: Config, start: Option<string>, env0: Env, a: seq<Update>, b: seq<Update>)
    requires GroundedIn(cfg, start, env0, a) && GroundedIn(cfg, start, env0, b)
    ensures GroundedIn(cfg, start, env0, a + b)
  {
    hide KnownFrom;
  }

  lemma {:induction false} CallDerives(cfg: Config, start: Option<string>, env0: Env, s: Shared, call: Call, env: Env)
    requires Safe(cfg, call) && Derived(start, env0, s, call, env)
    ensures var (s1, c1, env1) := Complete(cfg, s, call, env); Derived(start, env0, s1, c1, env1)
    ensures GroundedIn(cfg, start, env0, UpdatesOf(cfg, s, call, env))
    decreases StepsLeft(call)
  {
    if call.place.Finished? {
      hide Derived, Safe;
    } else {
      hide Step, Safe, Spend, Derived, UpdateMade, GroundedIn;
      StepIsSafe(cfg, s, call, Supply(env));
      StepProgresses(cfg, s, call, Supply(env));
      StepDerives(cfg, start, env0, s, call, env);
      UpdateDerives(cfg, start, env0, s, call, env);
      var (s1, c1) := Step(cfg, s, call, Supply(env));
      var env1 := Spend(cfg, s, call, env);
      CallDerives(cfg, start, env0, s1, c1, env1);
      GroundedConcat(cfg, start, env0, UpdateMade(cfg, call), UpdatesOf(cfg, s1, c1, env1));
    }
  }

  // ----- no refresh is lost

  /** What auth servers will give, failures left out. */
  function Grants(refreshes: seq<Option<Outcome>>): seq<Outcome> {
    if refreshes == [] then []
    else (if refreshes[0].Some? then [refreshes[0].value] else []) + Grants(refreshes[1..])
  }

  /** The refreshes among some updates. */
  function Outcomes(updates: seq<Update>): seq<Outcome> {
    if updates == [] then []
    else (if updates[0].Refresh? then [updates[0].outcome] else []) + Outcomes(updates[1..])
  }

  lemma {:induction false} OutcomesConcat(a: seq<Update>, b: seq<Update>)
    ensures Outcomes(a + b) == Outcomes(a) + Outcomes(b)
  {
    if a == [] {
      assert a + b == b;
    } else {
      OutcomesConcat(a[1..], b);
      assert (a + b)[1..] == a[1..] + b;
      Regroup(if a[0].Refresh? then [a[0].outcome] else [], Outcomes(a[1..]), Outcomes(b));
    }
  }

  lemma StepConserves(cfg: Config, s: Shared, call: Call, env: Env)
    ensures var c1, env1 := Step(cfg, s, call, Supply(env)).1, Spend(cfg, s, call, env);
      Held(call) + Grants(env.refreshes) == Outcomes(UpdateMade(cfg, call)) + (Held(c1) + Grants(env1.refreshes))
  {
    hide TokenAt;
    if call.place.Refreshing? {
      hide Step;
      AskingConserves(cfg, s, call, env);
    } else {
      HeldSaved(cfg, s, call, Supply(env));
      hide Step, Held, Outcomes, Grants;
      assert Spend(cfg, s, call, env).refreshes == env.refreshes;
      var c1 := Step(cfg, s, call, Supply(env)).1;
      Regroup(Outcomes(UpdateMade(cfg, call)), Held(c1), Grants(env.refreshes));
    }
  }

  lemma AskingConserves(cfg: Config, s: Shared, call: Call, env: Env)
    requires call.place.Refreshing?
    ensures Held(call) == Outcomes(UpdateMade(cfg, call)) == []
    ensures Grants(env.refreshes) == Held(Step(cfg, s, call, Supply(env)).1) + Grants(Renewed(env).refreshes)
  {
    if env.refreshes == [] {
      assert Grants([]) == [];
    }
  }

  /** What a call held is saved by the step, or still held. */
  lemma HeldSaved(cfg: Config, s: Shared, call: Call, input: Input)
    requires !call.place.Refreshing?
    ensures Held(call) == Outcomes(UpdateMade(cfg, call)) + Held(Step(cfg, s, call, input).1)
  {
    hide Learned, Refreshed, TokenAt, CookiesAt, IsFresh;
    assert forall u: Update :: [u][1..] == [];
  }

  /** A call alone saves all it is given, in the order it was given. */
  lemma {:induction false} CallConserves(cfg: Config, s: Shared, call: Call, env: Env)
    requires Safe(cfg, call)
    ensures Held(call) + Grants(env.refreshes)
         == Outcomes(UpdatesOf(cfg, s, call, env)) + Grants(Complete(cfg, s, call, env).2.refreshes)
    decreases StepsLeft(call)
  {
    assert Outcomes([]) == [];
    hide Step, Safe, Spend, UpdateMade, Grants, Outcomes;
    if !call.place.Finished? {
      StepIsSafe(cfg, s, call, Supply(env));
      StepProgresses(cfg, s, call, Supply(env));
      StepConserves(cfg, s, call, env);
      var (s1, c1) := Step(cfg, s, call, Supply(env));
      var env1 := Spend(cfg, s, call, env);
      CallConserves(cfg, s1, c1, env1);
      var made, more := UpdateMade(cfg, call), UpdatesOf(cfg, s1, c1, env1);
      OutcomesConcat(made, more);
      hide Complete;
      Regroup(Outcomes(made), Outcomes(more), Grants(Complete(cfg, s1, c1, env1).2.refreshes));
    }
  }

  lemma WholeCallConserves(cfg: Config, s: Shared, env: Env)
    ensures Safe(cfg, START)
    ensures Grants(env.refreshes)
         == Outcomes(UpdatesOf(cfg, s, START, env)) + Grants(Complete(cfg, s, START, env).2.refreshes)
  {
    StartIsSafe(cfg);
    CallConserves(cfg, s, START, env);
    hide Safe, UpdatesOf, Complete, Outcomes, Grants;
    assert Held(START) + Grants(env.refreshes) == Grants(env.refreshes);
  }

  /** Calls one after another, each from its start. */
  function Repeated(cfg: Config, s: Shared, env: Env, n: nat): (Shared, Env) {
    if n == 0 then (s, env)
    else
      var (s1, env1) := Repeated(cfg, s, env, n - 1);
      var (s2, _, env2) := Called(cfg, s1, env1);
      (s2, env2)
  }

  /** The updates they make. */
  function Updates(cfg: Config, s: Shared, env: Env, n: nat): seq<Update> {
    if n == 0 then []
    else
      var (s1, env1) := Repeated(cfg, s, env, n - 1);
      StartIsSafe(cfg);
      Updates(cfg, s, env, n - 1) + UpdatesOf(cfg, s1, START, env1)
  }

  /** One more call. */
  lemma OneMore(cfg: Config, s: Shared, env: Env, n: nat)
    requires n > 0
    ensures Safe(cfg, START)
    ensures var (s1, env1) := Repeated(cfg, s, env, n - 1);
      && Repeated(cfg, s, env, n) == (Complete(cfg, s1, START, env1).0, Complete(cfg, s1, START, env1).2)
      && Updates(cfg, s, env, n) == Updates(cfg, s, env, n - 1) + UpdatesOf(cfg, s1, START, env1)
  {
    StartIsSafe(cfg);
    hide Complete, UpdatesOf, Safe;
  }

  /** After any number of calls the store is the first one with exactly their
  updates applied, and memory and store are in step. */
  lemma {:induction false} CallsUpdate(cfg: Config, s: Shared, env: Env, n: nat)
    requires Mapped(cfg, s, START) && WellFormed(s.store)
    ensures var last, updates := Repeated(cfg, s, env, n).0, Updates(cfg, s, env, n);
      && last.store == UpdatedAll(s.store, updates) && OnlyLearns(updates, cfg.boxHost)
      && WellFormed(last.store) && Mapped(cfg, last, START)
  {
    hide Complete, WellFormed, Safe, UpdatesOf;
    if n > 0 {
      hide Repeated, Updates;
      CallsUpdate(cfg, s, env, n - 1);
      OneMore(cfg, s, env, n);
      var (s1, env1) := Repeated(cfg, s, env, n - 1);
      CallUpdates(cfg, s1, START, env1);
      UpdatedAllConcat(s.store, Updates(cfg, s, env, n - 1), UpdatesOf(cfg, s1, START, env1));
      hide UpdatedAll;
    }
  }

  /** Those updates are discoveries of servers that denials named, and refreshes
  that auth servers gave, for servers so known. */
  lemma {:induction false} CallsDerive(cfg: Config, s: Shared, env: Env, n: nat)
    ensures var (last, left) := Repeated(cfg, s, env, n); Derived(s.authUrl, env, last, START, left)
    ensures GroundedIn(cfg, s.authUrl, env, Updates(cfg, s, env, n))
  {
    hide Complete, Safe, UpdatesOf;
    if n > 0 {
      hide Repeated, Updates, GroundedIn, Derived;
      CallsDerive(cfg, s, env, n - 1);
      OneMore(cfg, s, env, n);
      var (s1, env1) := Repeated(cfg, s, env, n - 1);
      CallDerives(cfg, s.authUrl, env, s1, START, env1);
      var (s2, c2, env2) := Complete(cfg, s1, START, env1);
      DerivedAtStart(s.authUrl, env, s2, c2, env2);
      GroundedConcat(cfg, s.authUrl, env, Updates(cfg, s, env, n - 1), UpdatesOf(cfg, s1, START, env1));
    }
  }

  /** Main result: no refresh is lost between calls that do not overlap. The
  refreshes merged into the store are those that auth servers gave, each once
  and in order. */
  lemma {:induction false} CallsConserve(cfg: Config, s: Shared, env: Env, n: nat)
    ensures Outcomes(Updates(cfg, s, env, n)) + Grants(Repeated(cfg, s, env, n).1.refreshes) == Grants(env.refreshes)
  {
    hide Complete, Safe, UpdatesOf, Grants;
    if n == 0 {
      assert Updates(cfg, s, env, 0) == [];
    } else {
      hide Repeated, Updates, Outcomes;
      OneMore(cfg, s, env, n);
      var (s1, env1) := Repeated(cfg, s, env, n - 1);
      var made, more := Updates(cfg, s, env, n - 1), UpdatesOf(cfg, s1, START, env1);
      CallsConserve(cfg, s, env, n - 1);
      WholeCallConserves(cfg, s1, env1);
      OutcomesConcat(made, more);
      Regroup(Outcomes(made), Outcomes(more), Grants(Complete(cfg, s1, START, env1).2.refreshes));
    }
  }

  /** Other boxes stay mapped as they were, and so does the whole entry of every
  server that was not refreshed, as no server is that was never known. */
  lemma CallsKeep(cfg: Config, s: Shared, env: Env, n: nat, other: string, url: string)
    requires Mapped(cfg, s, START) && WellFormed(s.store)
    ensures var last, updates := Repeated(cfg, s, env, n).0.store, Updates(cfg, s, env, n);
      && (other != cfg.boxHost ==> BoxAt(last, other) == BoxAt(s.store, other))
      && (NotRefreshed(updates, url) ==> ServerAt(last, url) == ServerAt(s.store, url))
      && (!KnownFrom(s.authUrl, env.answers, url) ==> NotRefreshed(updates, url))
      && (cfg.pinned.Some? ==> last == s.store)
  {
    CallsUpdate(cfg, s, env, n);
    CallsDerive(cfg, s, env, n);
    var updates := Updates(cfg, s, env, n);
    assert UpdatedAll(s.store, []) == s.store;
    hide Repeated, Updates, UpdatedAll, WellFormed, KnownFrom, BoxAt, ServerAt, Mapped;
    assert forall i :: 0 <= i < |updates| ==> updates[i] in updates;
    UpdatesKeep(s.store, updates, cfg.boxHost, other, url);
    PinnedUpdatesNothing(cfg, s.authUrl, env, updates);
  }

  lemma PinnedUpdatesNothing(cfg: Config, start: Option<string>, env: Env, updates: seq<Update>)
    requires GroundedIn(cfg, start, env, updates)
    ensures updates != [] ==> cfg.pinned.None?
  {
    if updates != [] {
      assert updates[0] in updates;
    }
  }
}
