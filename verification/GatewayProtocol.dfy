/** The gateway credential protocol (src/auth.rs, src/client.rs): calls sharing
one client, interleaved at every point where the source takes or drops the
state lock, touches the store file, or waits for an answer. */
module GatewayProtocol {
  import opened Bytes
  import opened TokenStore

  const EXPIRY_MARGIN_SECONDS := 60

  datatype Answer = TransportError | Answered(status: nat, header: Option<string>, body: bytes)

  function IsDenial(status: nat): bool {
    status == 401 || status == 403 || status == 503
  }

  /** The auth server named by a gateway denial. */
  function DenialOf(a: Answer): Option<string> {
    if a.Answered? && IsDenial(a.status) then a.header else None
  }

  /** Where an attached token came from: the pin, a store or cache token found
  unexpired at a clock reading, or a refresh made in the same call. */
  datatype Origin = Pinned | Unexpired(now: int) | Fetched

  datatype Credential = Credential(token: string, origin: Origin)

  predicate IsFresh(expires: string -> int, token: string, now: int) {
    expires(token) > now + EXPIRY_MARGIN_SECONDS
  }

  /** A pinned client attaches its pin and nothing else. */
  predicate Labelled(cfg: Config, c: Credential) {
    if cfg.pinned.Some? then c == Credential(cfg.pinned.value, Pinned) else !c.origin.Pinned?
  }

  datatype Reply = Ok(status: nat, body: bytes) | Denied(status: nat, url: string, sentToken: bool) | Broken

  datatype Config = Config(boxHost: string, pinned: Option<string>, expires: string -> int)

  /** What the calls share: the locked state and the store file. */
  datatype Shared = Shared(authUrl: Option<string>, token: Option<string>, store: Json)

  /** Where a call is. */
  datatype Place =
    | AtCache
    | AtLookup
    | Choosing(url: string, avoid: Option<string>)
    | Refreshing(url: string)
    | Loading(url: string, outcome: Outcome)
    | Merging(url: string, outcome: Outcome, loaded: Json)
    | Caching(found: Credential)
    | Sending(attached: Option<Credential>)
    | Learning(url: string)
    | LearnLoading(url: string)
    | LearnSaving(url: string, loaded: Json)
    | Finished(reply: Reply)

  /** A call: where it is, whether it is on its retry, and what it sent and was answered. */
  datatype Call = Call(place: Place, retry: bool, sends: seq<Option<Credential>>, answers: seq<Answer>)

  const START := Call(AtCache, false, [], [])

  /** What the outside supplies to a step: a clock reading, an auth server's
  reply and a gateway's answer, whichever the step asks for. */
  datatype Input = Input(now: int, refresh: Option<Outcome>, answer: Answer)

  function SentToken(call: Call): Option<string> {
    if call.sends != [] && call.sends[0].Some? then Some(call.sends[0].value.token) else None
  }

  /** No credential: go without on the first send, give up on the retry. */
  function GiveUp(call: Call): Call {
    if call.retry then call.(place := Finished(FirstDenial(call))) else call.(place := Sending(None))
  }

  function FirstDenial(call: Call): Reply {
    if call.answers != [] && DenialOf(call.answers[0]).Some?
    then Denied(call.answers[0].status, DenialOf(call.answers[0]).value, SentToken(call).Some?)
    else Broken
  }

  /** After the auth server is recorded: retry a 401 when nothing is pinned. */
  function AfterLearning(cfg: Config, call: Call, url: string): Call {
    if call.answers != [] && call.answers[0].Answered? && call.answers[0].status == 401 && cfg.pinned.None?
    then call.(place := Choosing(url, SentToken(call)), retry := true)
    else call.(place := Finished(FirstDenial(call)))
  }

  function Step(cfg: Config, s: Shared, call: Call, input: Input): (Shared, Call) {
    match call.place
    case AtCache =>
      if cfg.pinned.Some? then (s, call.(place := Sending(Some(Credential(cfg.pinned.value, Pinned)))))
      else if s.token.None? then (s, call.(place := AtLookup))
      else if IsFresh(cfg.expires, s.token.value, input.now)
      then (s, call.(place := Sending(Some(Credential(s.token.value, Unexpired(input.now))))))
      else (s.(token := None), call.(place := AtLookup))
    case AtLookup =>
      if s.authUrl.Some? then (s, call.(place := Choosing(s.authUrl.value, None)))
      else (s, call.(place := Sending(None)))
    case Choosing(url, avoid) =>
      var stored := Text(TokenAt(s.store, url));
      if stored.Some? && stored != avoid && IsFresh(cfg.expires, stored.value, input.now)
      then (s, call.(place := Caching(Credential(stored.value, Unexpired(input.now)))))
      else if CookiesAt(s.store, url) == map[] then (s, GiveUp(call))
      else (s, call.(place := Refreshing(url)))
    case Refreshing(url) =>
      (match input.refresh
       case None => (s, GiveUp(call))
       case Some(outcome) => (s, call.(place := Loading(url, outcome))))
    case Loading(url, outcome) => (s, call.(place := Merging(url, outcome, s.store)))
    case Merging(url, outcome, loaded) =>
      (s.(store := Refreshed(loaded, url, outcome)),
       call.(place := Caching(Credential(outcome.accessToken, Fetched))))
    case Caching(c) => (s.(token := Some(c.token)), call.(place := Sending(Some(c))))
    case Sending(c) =>
      var after := call.(sends := call.sends + [c], answers := call.answers + [input.answer]);
      (match input.answer
       case TransportError => (s, after.(place := Finished(Broken)))
       case Answered(status, _, body) =>
         match DenialOf(input.answer)
         case None => (s, after.(place := Finished(Ok(status, body))))
         case Some(url) =>
           if call.retry then (s, after.(place := Finished(Denied(status, url, true))))
           else (s, after.(place := Learning(url))))
    case Learning(url) =>
      if s.authUrl == Some(url) then (s, AfterLearning(cfg, call, url))
      else if cfg.pinned.Some? then (s.(authUrl := Some(url)), AfterLearning(cfg, call, url))
      else (s.(authUrl := Some(url)), call.(place := LearnLoading(url)))
    case LearnLoading(url) => (s, call.(place := LearnSaving(url, s.store)))
    case LearnSaving(url, loaded) =>
      (if Learned(loaded, cfg.boxHost, url) == loaded then s
       else s.(store := Learned(loaded, cfg.boxHost, url)),
       AfterLearning(cfg, call, url))
    case Finished(_) => (s, call)
  }

  // ----- what every call keeps

  /** A stored token picked for the retry is not the one just rejected. */
  predicate Retryable(call: Call, c: Credential) {
    call.retry && c.origin.Unexpired? ==> Some(c.token) != SentToken(call)
  }

  predicate Attachable(cfg: Config, call: Call, c: Credential) {
    Labelled(cfg, c) && Retryable(call, c)
  }

  /** The reply that a call's answers call for. */
  function ReplyTo(call: Call): Reply {
    if call.answers == [] then Broken
    else
      var last := call.answers[|call.answers| - 1];
      match last
      case TransportError => Broken
      case Answered(status, _, body) =>
        match DenialOf(last)
        case None => Ok(status, body)
        case Some(url) => Denied(status, url, |call.sends| == |call.answers| && call.sends[|call.sends| - 1].Some?)
  }

  predicate GoodPlace(cfg: Config, call: Call) {
    match call.place
    case AtCache => call.sends == [] && !call.retry
    case AtLookup => call.sends == [] && !call.retry && cfg.pinned.None?
    case Choosing(_, avoid) =>
      cfg.pinned.None? && |call.sends| == (if call.retry then 1 else 0) && (call.retry ==> avoid == SentToken(call))
    case Refreshing(_) => cfg.pinned.None? && |call.sends| == (if call.retry then 1 else 0)
    case Loading(_, _) => cfg.pinned.None? && |call.sends| == (if call.retry then 1 else 0)
    case Merging(_, _, _) => cfg.pinned.None? && |call.sends| == (if call.retry then 1 else 0)
    case Caching(c) =>
      cfg.pinned.None? && |call.sends| == (if call.retry then 1 else 0) && Attachable(cfg, call, c)
    case Sending(c) =>
      && |call.sends| == (if call.retry then 1 else 0)
      && (call.retry || cfg.pinned.Some? ==> c.Some?)
      && (c.Some? ==> Attachable(cfg, call, c.value))
    case Learning(url) => |call.sends| == |call.answers| == 1 && !call.retry && DenialOf(call.answers[0]) == Some(url)
    case LearnLoading(url) =>
      cfg.pinned.None? && |call.sends| == |call.answers| == 1 && !call.retry && DenialOf(call.answers[0]) == Some(url)
    case LearnSaving(url, _) =>
      cfg.pinned.None? && |call.sends| == |call.answers| == 1 && !call.retry && DenialOf(call.answers[0]) == Some(url)
    case Finished(r) => call.sends != [] && r == ReplyTo(call)
  }

  /** What holds of a call at every point. */
  predicate Good(cfg: Config, call: Call)
    requires |call.sends| == |call.answers|
  {
    && |call.sends| <= 2
    && (call.retry ==>
          (|call.sends| >= 1 && cfg.pinned.None?
           && DenialOf(call.answers[0]).Some? && call.answers[0].status == 401))
    && (|call.sends| == 2 ==> call.retry && call.sends[1].Some? && Retryable(call, call.sends[1].value))
    && (forall i :: 0 <= i < |call.sends| && call.sends[i].Some? ==>
          Labelled(cfg, call.sends[i].value))
    && (cfg.pinned.Some? ==> forall i :: 0 <= i < |call.sends| ==> call.sends[i].Some?)
  }

  predicate Safe(cfg: Config, call: Call) {
    |call.sends| == |call.answers| && Good(cfg, call) && GoodPlace(cfg, call)
  }

  lemma ChoiceIsSafe(cfg: Config, s: Shared, call: Call, input: Input)
    requires Safe(cfg, call)
    requires !call.place.Sending? && !call.place.Learning? && !call.place.LearnLoading? && !call.place.LearnSaving?
    ensures Safe(cfg, Step(cfg, s, call, input).1)
  {
    hide Refreshed, TokenAt, CookiesAt, IsFresh;
  }

  lemma SendIsSafe(cfg: Config, s: Shared, call: Call, input: Input)
    requires Safe(cfg, call) && call.place.Sending?
    ensures Safe(cfg, Step(cfg, s, call, input).1)
  {
    hide IsFresh;
  }

  lemma LearningIsSafe(cfg: Config, s: Shared, call: Call, input: Input)
    requires Safe(cfg, call) && (call.place.Learning? || call.place.LearnLoading? || call.place.LearnSaving?)
    ensures Safe(cfg, Step(cfg, s, call, input).1)
  {
    hide Learned, IsFresh;
  }

  lemma StepIsSafe(cfg: Config, s: Shared, call: Call, input: Input)
    requires Safe(cfg, call)
    ensures Safe(cfg, Step(cfg, s, call, input).1)
  {
    hide Step, Safe;
    if call.place.Sending? {
      SendIsSafe(cfg, s, call, input);
    } else if call.place.Learning? || call.place.LearnLoading? || call.place.LearnSaving? {
      LearningIsSafe(cfg, s, call, input);
    } else {
      ChoiceIsSafe(cfg, s, call, input);
    }
  }

  lemma StepKeepsPinnedStore(cfg: Config, s: Shared, call: Call, input: Input)
    requires Safe(cfg, call) && cfg.pinned.Some?
    ensures Step(cfg, s, call, input).0.store == s.store
  {
  }

  /** What safety says of a finished call. */
  lemma FinishedCall(cfg: Config, call: Call)
    requires Safe(cfg, call) && call.place.Finished?
    ensures 1 <= |call.sends| <= 2
    ensures var last := call.answers[|call.answers| - 1];
      match last
      case TransportError => call.place.reply == Broken
      case Answered(status, _, body) =>
        call.place.reply == if DenialOf(last).None? then Ok(status, body)
                            else Denied(status, DenialOf(last).value, call.sends[|call.sends| - 1].Some?)
    ensures cfg.pinned.Some? ==>
      call.sends == [Some(Credential(cfg.pinned.value, Pinned))]
  {
  }

  // ----- every call ends

  /** Steps a call has left, at most. */
  function StepsLeft(call: Call): nat {
    var before := if call.retry then 0 else 9;
    match call.place
    case AtCache => 17
    case AtLookup => 16
    case Choosing(_, _) => before + 6
    case Refreshing(_) => before + 5
    case Loading(_, _) => before + 4
    case Merging(_, _, _) => before + 3
    case Caching(_) => before + 2
    case Sending(_) => before + 1
    case Learning(_) => 9
    case LearnLoading(_) => 8
    case LearnSaving(_, _) => 7
    case Finished(_) => 0
  }

  /** Every step of an unfinished call brings it nearer its end, whatever the
  other calls do: at most 17 of its own steps. */
  lemma StepProgresses(cfg: Config, s: Shared, call: Call, input: Input)
    requires Safe(cfg, call) && !call.place.Finished?
    ensures StepsLeft(Step(cfg, s, call, input).1) < StepsLeft(call) <= StepsLeft(START) == 17
  {
    hide Learned, Refreshed, TokenAt, CookiesAt, IsFresh;
  }

  // ----- updates of the store

  /** The update a step makes to the store a call has loaded. */
  function UpdateMade(cfg: Config, call: Call): seq<Update> {
    match call.place
    case Merging(url, outcome, _) => [Refresh(url, outcome)]
    case LearnSaving(url, _) => [Learn(cfg.boxHost, url)]
    case _ => []
  }

  /** No box but this one is mapped anywhere. */
  predicate OnlyLearns(updates: seq<Update>, box: string) {
    forall i :: 0 <= i < |updates| && updates[i].Learn? ==> updates[i].box == box
  }

  lemma {:induction false} OtherBoxesNotLearned(updates: seq<Update>, box: string, other: string)
    requires OnlyLearns(updates, box) && other != box
    ensures LastServer(updates, other).None?
  {
    if updates != [] {
      OtherBoxesNotLearned(updates[..|updates| - 1], box, other);
    }
  }

  /** This server is not refreshed. */
  predicate NotRefreshed(updates: seq<Update>, url: string) {
    forall i :: 0 <= i < |updates| && updates[i].Refresh? ==> updates[i].url != url
  }

  lemma {:induction false} NotRefreshedHasNoToken(updates: seq<Update>, url: string)
    requires NotRefreshed(updates, url)
    ensures LastToken(updates, url).None?
  {
    if updates != [] {
      NotRefreshedHasNoToken(updates[..|updates| - 1], url);
    }
  }

  /** What updates keep of a store: other boxes, and servers not refreshed. */
  lemma UpdatesKeep(store: Json, updates: seq<Update>, box: string, other: string, url: string)
    requires WellFormed(store) && OnlyLearns(updates, box)
    ensures WellFormed(UpdatedAll(store, updates))
    ensures other != box ==> BoxAt(UpdatedAll(store, updates), other) == BoxAt(store, other)
    ensures NotRefreshed(updates, url) ==> ServerAt(UpdatedAll(store, updates), url) == ServerAt(store, url)
  {
    hide UpdatedAll, WellFormed, BoxAt, ServerAt;
    UpdatesAreMerges(store, updates, other, "", "");
    if other != box {
      OtherBoxesNotLearned(updates, box, other);
    }
    if NotRefreshed(updates, url) {
      NotRefreshedHasNoToken(updates, url);
      OthersUntouched(store, updates, "", url);
    }
  }
}
