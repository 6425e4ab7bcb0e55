/** Runs of the credential protocol: any number of calls sharing one client,
their steps in any order (src/auth.rs, src/client.rs). */
module GatewayRuns {
  import opened Bytes
  import opened TokenStore
  import opened GatewayProtocol

  datatype System = System(shared: Shared, calls: seq<Call>)

  /** One call takes one step, with what the outside supplies. */
  datatype Move = Move(i: nat, input: Input)

  ghost predicate Moves(cfg: Config, a: System, b: System, m: Move) {
    && m.i < |a.calls|
    && var (shared, call) := Step(cfg, a.shared, a.calls[m.i], m.input);
       b == System(shared, a.calls[m.i := call])
  }

  datatype Run = Run(states: seq<System>, moves: seq<Move>)

  ghost predicate IsRun(cfg: Config, run: Run) {
    && |run.states| == |run.moves| + 1
    && (forall i :: 0 <= i < |run.states[0].calls| ==> run.states[0].calls[i] == START)
    && forall k {:trigger run.moves[k]} :: 0 <= k < |run.moves| ==>
         Moves(cfg, run.states[k], run.states[k + 1], run.moves[k])
  }

  /** Main result: in every state of every interleaving, every call has sent at
  most twice, a second time only after a 401 denial with nothing pinned; a
  finished call returns what its last answer calls for; and a pinned client
  sends only its pin and never writes the store. */
  lemma {:induction false} RunsAreSafe(cfg: Config, run: Run, k: nat)
    requires IsRun(cfg, run) && k <= |run.moves|
    ensures |run.states[k].calls| == |run.states[0].calls|
    ensures forall i :: 0 <= i < |run.states[k].calls| ==> Safe(cfg, run.states[k].calls[i])
    ensures cfg.pinned.Some? ==> run.states[k].shared.store == run.states[0].shared.store
  {
    hide Step;
    if k == 0 {
      forall i | 0 <= i < |run.states[0].calls|
        ensures Safe(cfg, run.states[0].calls[i])
      {
        assert run.states[0].calls[i] == START;
      }
    } else {
      hide Safe;
      RunsAreSafe(cfg, run, k - 1);
      var a, m := run.states[k - 1], run.moves[k - 1];
      StepIsSafe(cfg, a.shared, a.calls[m.i], m.input);
      if cfg.pinned.Some? {
        StepKeepsPinnedStore(cfg, a.shared, a.calls[m.i], m.input);
      }
    }
  }

  // ----- where tokens come from

  /** At step `j` call `i` looked at the clock and found this token unexpired by
  the margin, in the cache or in the store; for a retry, in the store, and not
  the token just rejected. */
  ghost predicate FoundAt(cfg: Config, run: Run, j: nat, i: nat, token: string, now: int, retry: bool) {
    && j < |run.moves| && j < |run.states| && run.moves[j].i == i < |run.states[j].calls|
    && run.moves[j].input.now == now && IsFresh(cfg.expires, token, now)
    && var s, call := run.states[j].shared, run.states[j].calls[i];
       || (call.place.AtCache? && !retry && s.token == Some(token))
       || (call.place.Choosing? && call.retry == retry && call.place.avoid != Some(token)
           && Text(TokenAt(s.store, call.place.url)) == Some(token))
  }

  /** At step `j` call `i` asked the auth server at `url`, which gave this. */
  ghost predicate AskedAt(run: Run, j: nat, i: nat, url: string, outcome: Outcome, retry: bool) {
    && j < |run.moves| && j < |run.states| && run.moves[j].i == i < |run.states[j].calls|
    && run.states[j].calls[i].place == Refreshing(url) && run.states[j].calls[i].retry == retry
    && run.moves[j].input.refresh == Some(outcome)
  }

  ghost predicate Found(cfg: Config, run: Run, k: nat, i: nat, token: string, now: int, retry: bool) {
    exists j: nat :: j < k && FoundAt(cfg, run, j, i, token, now, retry)
  }

  ghost predicate Asked(run: Run, k: nat, i: nat, url: string, outcome: Outcome, retry: bool) {
    exists j: nat :: j < k && AskedAt(run, j, i, url, outcome, retry)
  }

  ghost predicate Given(run: Run, k: nat, i: nat, token: string, retry: bool) {
    exists url, outcome: Outcome :: Asked(run, k, i, url, outcome, retry) && outcome.accessToken == token
  }

  /** A credential of call `i` is what its label says, by the first `k` steps. */
  ghost predicate Sourced(cfg: Config, run: Run, k: nat, i: nat, c: Credential, retry: bool) {
    match c.origin
    case Pinned => cfg.pinned == Some(c.token)
    case Unexpired(now) => Found(cfg, run, k, i, c.token, now, retry)
    case Fetched => Given(run, k, i, c.token, retry)
  }

  /** So are all that call `i` has sent or is about to send; `retry` is the
  second send. */
  ghost predicate Traced(cfg: Config, run: Run, k: nat, i: nat, call: Call) {
    && (forall m {:trigger call.sends[m]} :: 0 <= m < |call.sends| && call.sends[m].Some? ==>
          Sourced(cfg, run, k, i, call.sends[m].value, m == 1))
    && match call.place
       case Caching(c) => Sourced(cfg, run, k, i, c, call.retry)
       case Sending(c) => c.Some? ==> Sourced(cfg, run, k, i, c.value, call.retry)
       case Loading(url, outcome) => Asked(run, k, i, url, outcome, call.retry)
       case Merging(url, outcome, _) => Asked(run, k, i, url, outcome, call.retry)
       case _ => true
  }

  lemma SourcedLater(cfg: Config, run: Run, k: nat, i: nat, c: Credential, retry: bool)
    requires Sourced(cfg, run, k, i, c, retry)
    ensures Sourced(cfg, run, k + 1, i, c, retry)
  {
    hide FoundAt;
    if c.origin.Fetched? {
      var url, outcome: Outcome :| Asked(run, k, i, url, outcome, retry) && outcome.accessToken == c.token;
      AskedLater(run, k, i, url, outcome, retry);
    }
  }

  lemma AskedLater(run: Run, k: nat, i: nat, url: string, outcome: Outcome, retry: bool)
    requires Asked(run, k, i, url, outcome, retry)
    ensures Asked(run, k + 1, i, url, outcome, retry)
  {
    hide AskedAt;
  }

  /** What has been traced stays traced. */
  lemma TracedLater(cfg: Config, run: Run, k: nat, i: nat, call: Call)
    requires Traced(cfg, run, k, i, call)
    ensures Traced(cfg, run, k + 1, i, call)
  {
    hide Sourced, Asked;
    forall m | 0 <= m < |call.sends| && call.sends[m].Some?
      ensures Sourced(cfg, run, k + 1, i, call.sends[m].value, m == 1)
    {
      SourcedLater(cfg, run, k, i, call.sends[m].value, m == 1);
    }
    match call.place
    case Caching(c) => SourcedLater(cfg, run, k, i, c, call.retry);
    case Sending(c) =>
      if c.Some? {
        SourcedLater(cfg, run, k, i, c.value, call.retry);
      }
    case Loading(url, outcome) => AskedLater(run, k, i, url, outcome, call.retry);
    case Merging(url, outcome, _) => AskedLater(run, k, i, url, outcome, call.retry);
    case _ =>
  }

  /** A step of the call itself: a token it takes up is found or given then. */
  lemma StepTraces(cfg: Config, run: Run, k: nat)
    requires IsRun(cfg, run) && k < |run.moves|
    requires var i := run.moves[k].i;
      && i < |run.states[k].calls| && Safe(cfg, run.states[k].calls[i])
      && Traced(cfg, run, k, i, run.states[k].calls[i])
    ensures var i := run.moves[k].i;
      i < |run.states[k + 1].calls| && Traced(cfg, run, k + 1, i, run.states[k + 1].calls[i])
  {
    var m := run.moves[k];
    var s, call := run.states[k].shared, run.states[k].calls[m.i];
    var next := run.states[k + 1].calls[m.i];
    assert next == Step(cfg, s, call, m.input).1;
    TracedLater(cfg, run, k, m.i, call);
    hide Traced, IsRun, Step, Safe;
    if call.place.AtCache? {
      CacheTraces(cfg, run, k);
    } else if call.place.Choosing? {
      ChoiceTraces(cfg, run, k);
    } else if call.place.Refreshing? {
      RefreshTraces(cfg, run, k, call.place.url);
    } else {
      PlainTraces(cfg, run, k + 1, m.i, s, call, m.input);
    }
  }

  /** Other steps take up no new token. */
  lemma PlainTraces(cfg: Config, run: Run, k: nat, i: nat, s: Shared, call: Call, input: Input)
    requires Safe(cfg, call) && Traced(cfg, run, k, i, call)
    requires !call.place.AtCache? && !call.place.Choosing? && !call.place.Refreshing?
    ensures Traced(cfg, run, k, i, Step(cfg, s, call, input).1)
  {
    hide Sourced, Asked, Learned, Refreshed;
    if call.place.Merging? {
      MergeTraces(cfg, run, k, i, call.place.url, call.place.outcome, call.retry);
    }
  }

  lemma CacheTraces(cfg: Config, run: Run, k: nat)
    requires IsRun(cfg, run) && k < |run.moves|
    requires var i := run.moves[k].i;
      i < |run.states[k].calls| && run.states[k].calls[i].place.AtCache? && Safe(cfg, run.states[k].calls[i])
    ensures var i := run.moves[k].i; Traced(cfg, run, k + 1, i, run.states[k + 1].calls[i])
  {
    var i, s := run.moves[k].i, run.states[k].shared;
    var next := run.states[k + 1].calls[i];
    if cfg.pinned.None? && next.place.Sending? {
      assert FoundAt(cfg, run, k, i, s.token.value, run.moves[k].input.now, false);
    }
    hide FoundAt;
  }

  lemma ChoiceTraces(cfg: Config, run: Run, k: nat)
    requires IsRun(cfg, run) && k < |run.moves|
    requires var i := run.moves[k].i;
      && i < |run.states[k].calls| && run.states[k].calls[i].place.Choosing?
      && Traced(cfg, run, k + 1, i, run.states[k].calls[i])
    ensures var i := run.moves[k].i; Traced(cfg, run, k + 1, i, run.states[k + 1].calls[i])
  {
    var i, s := run.moves[k].i, run.states[k].shared;
    var call, next := run.states[k].calls[i], run.states[k + 1].calls[i];
    if next.place.Caching? {
      assert FoundAt(cfg, run, k, i, next.place.found.token, run.moves[k].input.now, call.retry);
    }
    hide FoundAt, TokenAt, CookiesAt;
  }

  lemma RefreshTraces(cfg: Config, run: Run, k: nat, url: string)
    requires IsRun(cfg, run) && k < |run.moves|
    requires var i := run.moves[k].i;
      && i < |run.states[k].calls| && run.states[k].calls[i].place == Refreshing(url)
      && Traced(cfg, run, k + 1, i, run.states[k].calls[i])
    ensures var i := run.moves[k].i; Traced(cfg, run, k + 1, i, run.states[k + 1].calls[i])
  {
    var i := run.moves[k].i;
    var call, next := run.states[k].calls[i], run.states[k + 1].calls[i];
    if next.place.Loading? {
      assert AskedAt(run, k, i, url, next.place.outcome, call.retry);
    }
    hide AskedAt;
  }

  lemma MergeTraces(cfg: Config, run: Run, k: nat, i: nat, url: string, outcome: Outcome, retry: bool)
    requires Asked(run, k, i, url, outcome, retry)
    ensures Sourced(cfg, run, k, i, Credential(outcome.accessToken, Fetched), retry)
  {
  }

  lemma StartTraced(cfg: Config, run: Run, i: nat)
    ensures Traced(cfg, run, 0, i, START)
  {
    hide Sourced, Asked;
  }

  /** What one move does to the calls. */
  lemma Moved(cfg: Config, run: Run, k: nat, i: nat)
    requires IsRun(cfg, run) && k < |run.moves| && i < |run.states[k].calls|
    ensures run.moves[k].i < |run.states[k].calls| == |run.states[k + 1].calls|
    ensures run.moves[k].i != i ==> run.states[k + 1].calls[i] == run.states[k].calls[i]
  {
    assert Moves(cfg, run.states[k], run.states[k + 1], run.moves[k]);
    hide Step;
  }

  /** Main result: every token a call attached was the pin; or was found by that
  call, at a clock reading of its own, unexpired by the margin in the cache or
  in the store, and for the retry in the store and not the token rejected; or
  was given by an auth server to that call. */
  lemma {:induction false} TokensAreSourced(cfg: Config, run: Run, k: nat, i: nat)
    requires IsRun(cfg, run) && k <= |run.moves| && i < |run.states[0].calls|
    ensures i < |run.states[k].calls| && Traced(cfg, run, k, i, run.states[k].calls[i])
  {
    hide Traced, Safe;
    RunsAreSafe(cfg, run, k);
    if k == 0 {
      StartTraced(cfg, run, i);
      assert run.states[0].calls[i] == START;
    } else {
      hide IsRun;
      RunsAreSafe(cfg, run, k - 1);
      TokensAreSourced(cfg, run, k - 1, i);
      Moved(cfg, run, k - 1, i);
      if run.moves[k - 1].i == i {
        StepTraces(cfg, run, k - 1);
      } else {
        TracedLater(cfg, run, k - 1, i, run.states[k - 1].calls[i]);
      }
    }
  }

  // ----- what a run does to the store

  /** The updates that the first `k` steps of a run made, in order. */
  function MadeBy(cfg: Config, run: Run, k: nat): seq<Update> {
    if k == 0 then []
    else MadeBy(cfg, run, k - 1) + MadeAt(cfg, run, k - 1)
  }

  function MadeAt(cfg: Config, run: Run, j: nat): seq<Update> {
    if j < |run.states| && j < |run.moves| && run.moves[j].i < |run.states[j].calls|
    then UpdateMade(cfg, run.states[j].calls[run.moves[j].i])
    else []
  }

  /** Some of `all`, in order. */
  predicate Sub(some: seq<Update>, all: seq<Update>) {
    if all == [] then some == []
    else
      var init := all[..|all| - 1];
      Sub(some, init) || (some != [] && some[|some| - 1] == all[|all| - 1] && Sub(some[..|some| - 1], init))
  }

  lemma SubMore(some: seq<Update>, all: seq<Update>, u: Update)
    requires Sub(some, all)
    ensures Sub(some, all + [u]) && Sub(some + [u], all + [u])
  {
    assert (all + [u])[..|all|] == all && (some + [u])[..|some|] == some;
  }

  lemma {:induction false} SubMembers(some: seq<Update>, all: seq<Update>)
    requires Sub(some, all)
    ensures forall u :: u in some ==> u in all
  {
    if all != [] {
      var init := all[..|all| - 1];
      if Sub(some, init) {
        SubMembers(some, init);
      } else {
        SubMembers(some[..|some| - 1], init);
        assert some == some[..|some| - 1] + [some[|some| - 1]];
      }
    }
  }

  /** The store `before` with some of the updates `made` applied, in order. */
  ghost predicate Descends(before: Json, made: seq<Update>, store: Json) {
    exists updates :: Sub(updates, made) && store == UpdatedAll(before, updates)
  }

  lemma DescendsMore(before: Json, made: seq<Update>, store: Json, more: seq<Update>)
    requires Descends(before, made, store) && |more| <= 1
    ensures Descends(before, made + more, store)
    ensures more != [] ==> Descends(before, made + more, Updated(store, more[0]))
  {
    if more == [] {
      assert made + more == made;
    } else {
      var updates :| Sub(updates, made) && store == UpdatedAll(before, updates);
      SubMore(updates, made, more[0]);
      assert more == [more[0]];
      var all := updates + [more[0]];
      assert all[..|all| - 1] == updates;
      assert UpdatedAll(before, all) == Updated(store, more[0]);
      hide Sub, Updated;
    }
  }

  /** So is what a call has loaded. */
  ghost predicate LoadedDescends(before: Json, made: seq<Update>, call: Call) {
    match call.place
    case Merging(_, _, loaded) => Descends(before, made, loaded)
    case LearnSaving(_, loaded) => Descends(before, made, loaded)
    case _ => true
  }

  lemma LoadedMore(before: Json, made: seq<Update>, call: Call, more: seq<Update>)
    requires LoadedDescends(before, made, call) && |more| <= 1
    ensures LoadedDescends(before, made + more, call)
  {
    match call.place
    case Merging(_, _, loaded) => DescendsMore(before, made, loaded, more);
    case LearnSaving(_, loaded) => DescendsMore(before, made, loaded, more);
    case _ =>
  }

  /** A step leaves the store as it is or saves what its call loaded, updated;
  what it loads is the store. */
  lemma StepWrites(cfg: Config, s: Shared, call: Call, input: Input)
    ensures var (s1, c1) := Step(cfg, s, call, input);
      && (s1.store == s.store
          || ((call.place.Merging? || call.place.LearnSaving?)
              && s1.store == Updated(call.place.loaded, UpdateMade(cfg, call)[0])))
      && (c1.place.Merging? || c1.place.LearnSaving? ==> c1.place.loaded == s.store)
  {
    hide Learned, Refreshed, TokenAt, CookiesAt, IsFresh;
  }

  lemma StepDescends(cfg: Config, before: Json, made: seq<Update>, s: Shared, call: Call, input: Input)
    requires Descends(before, made, s.store) && LoadedDescends(before, made, call)
    ensures var (s1, c1) := Step(cfg, s, call, input);
      var all := made + UpdateMade(cfg, call);
      Descends(before, all, s1.store) && LoadedDescends(before, all, c1)
  {
    hide Step, Descends, Updated;
    StepWrites(cfg, s, call, input);
    DescendsMore(before, made, s.store, UpdateMade(cfg, call));
    if call.place.Merging? || call.place.LearnSaving? {
      DescendsMore(before, made, call.place.loaded, UpdateMade(cfg, call));
    }
  }

  /** A server is known: it was to begin with, or a denial named it. */
  ghost predicate Known(run: Run, k: nat, url: string) {
    || (run.states != [] && run.states[0].shared.authUrl == Some(url))
    || exists j: nat :: j < k && NamedAt(run, j, url)
  }

  ghost predicate NamedAt(run: Run, j: nat, url: string) {
    && j < |run.moves| && j < |run.states| && run.moves[j].i < |run.states[j].calls|
    && run.states[j].calls[run.moves[j].i].place.Sending? && DenialOf(run.moves[j].input.answer) == Some(url)
  }

  /** The servers that the client and its calls go by are known. */
  ghost predicate Knows(run: Run, k: nat, s: Shared, call: Call) {
    && (s.authUrl.Some? ==> Known(run, k, s.authUrl.value))
    && match call.place
       case Choosing(url, _) => Known(run, k, url)
       case Refreshing(url) => Known(run, k, url)
       case Loading(url, _) => Known(run, k, url)
       case Merging(url, _, _) => Known(run, k, url)
       case Learning(url) => Known(run, k, url)
       case LearnLoading(url) => Known(run, k, url)
       case LearnSaving(url, _) => Known(run, k, url)
       case _ => true
  }

  lemma KnownLater(run: Run, k: nat, url: string)
    requires Known(run, k, url)
    ensures Known(run, k + 1, url)
  {
    hide NamedAt;
  }

  lemma KnowsLater(run: Run, k: nat, s: Shared, call: Call)
    requires Knows(run, k, s, call)
    ensures Knows(run, k + 1, s, call)
  {
    if s.authUrl.Some? {
      KnownLater(run, k, s.authUrl.value);
    }
    if call.place.Choosing? || call.place.Refreshing? || call.place.Loading? || call.place.Merging?
       || call.place.Learning? || call.place.LearnLoading? || call.place.LearnSaving? {
      KnownLater(run, k, call.place.url);
    }
    hide Known;
  }

  lemma StepKnows(cfg: Config, run: Run, k: nat)
    requires IsRun(cfg, run) && k < |run.moves| && run.moves[k].i < |run.states[k].calls|
    requires Knows(run, k, run.states[k].shared, run.states[k].calls[run.moves[k].i])
    ensures run.moves[k].i < |run.states[k + 1].calls|
    ensures Knows(run, k + 1, run.states[k + 1].shared, run.states[k + 1].calls[run.moves[k].i])
  {
    var m := run.moves[k];
    var s, call := run.states[k].shared, run.states[k].calls[m.i];
    KnowsLater(run, k, s, call);
    assert run.states[k + 1].calls[m.i] == Step(cfg, s, call, m.input).1;
    assert run.states[k + 1].shared == Step(cfg, s, call, m.input).0;
    if call.place.Sending? && DenialOf(m.input.answer).Some? {
      assert NamedAt(run, k, DenialOf(m.input.answer).value);
    }
    hide Known, IsRun, TokenAt, CookiesAt, Learned, Refreshed, IsFresh;
  }

  /** Every known update made was of this box, or given by the auth server. */
  ghost predicate Grounded(cfg: Config, run: Run, k: nat, u: Update) {
    && Known(run, k, u.url) && cfg.pinned.None?
    && match u
       case Learn(box, _) => box == cfg.boxHost
       case Refresh(url, outcome) => exists i: nat, retry :: Asked(run, k, i, url, outcome, retry)
  }

  lemma GroundedLater(cfg: Config, run: Run, k: nat, u: Update)
    requires Grounded(cfg, run, k, u)
    ensures Grounded(cfg, run, k + 1, u)
  {
    KnownLater(run, k, u.url);
    if u.Refresh? {
      var i: nat, retry :| Asked(run, k, i, u.url, u.outcome, retry);
      AskedLater(run, k, i, u.url, u.outcome, retry);
    }
    hide Known;
  }

  lemma {:induction false} RunKnows(cfg: Config, run: Run, k: nat, i: nat)
    requires IsRun(cfg, run) && k <= |run.moves| && i < |run.states[0].calls|
    ensures i < |run.states[k].calls| && Knows(run, k, run.states[k].shared, run.states[k].calls[i])
  {
    hide Step, Safe;
    RunsAreSafe(cfg, run, k);
    if k == 0 {
      assert run.states[0].calls[i] == START;
    } else {
      RunsAreSafe(cfg, run, k - 1);
      Moved(cfg, run, k - 1, i);
      RunKnows(cfg, run, k - 1, i);
      RunKnows(cfg, run, k - 1, run.moves[k - 1].i);
      hide Known, IsRun;
      StepKnows(cfg, run, k - 1);
      KnowsLater(run, k - 1, run.states[k - 1].shared, run.states[k - 1].calls[i]);
    }
  }

  /** Main result: every update a run made is a discovery of a server that a
  denial named, or a refresh that the server gave to a call that asked it. */
  lemma {:induction false} UpdatesAreGrounded(cfg: Config, run: Run, k: nat, u: Update)
    requires IsRun(cfg, run) && k <= |run.moves| && u in MadeBy(cfg, run, k)
    ensures Grounded(cfg, run, k, u)
  {
    hide IsRun, MadeAt, Grounded;
    if u in MadeBy(cfg, run, k - 1) {
      UpdatesAreGrounded(cfg, run, k - 1, u);
      GroundedLater(cfg, run, k - 1, u);
    } else {
      GroundedWhenMade(cfg, run, k - 1, u);
      GroundedLater(cfg, run, k - 1, u);
    }
  }

  lemma GroundedWhenMade(cfg: Config, run: Run, k: nat, u: Update)
    requires IsRun(cfg, run) && k < |run.moves| && u in MadeAt(cfg, run, k)
    ensures Grounded(cfg, run, k, u)
  {
    var i := run.moves[k].i;
    RunsAreSafe(cfg, run, k);
    RunKnows(cfg, run, k, i);
    TokensAreSourced(cfg, run, k, i);
    hide Known, Asked, IsRun;
  }

  ghost predicate SystemDescends(before: Json, made: seq<Update>, sys: System) {
    && Descends(before, made, sys.shared.store)
    && forall i :: 0 <= i < |sys.calls| ==> LoadedDescends(before, made, sys.calls[i])
  }

  lemma MoveDescends(cfg: Config, before: Json, made: seq<Update>, a: System, b: System, m: Move)
    requires Moves(cfg, a, b, m) && SystemDescends(before, made, a)
    ensures SystemDescends(before, made + UpdateMade(cfg, a.calls[m.i]), b)
  {
    hide Step, LoadedDescends, Descends;
    var more := UpdateMade(cfg, a.calls[m.i]);
    StepDescends(cfg, before, made, a.shared, a.calls[m.i], m.input);
    forall i | 0 <= i < |a.calls|
      ensures LoadedDescends(before, made + more, a.calls[i])
    {
      LoadedMore(before, made, a.calls[i], more);
    }
  }

  lemma StartDescends(sys: System)
    requires forall i :: 0 <= i < |sys.calls| ==> sys.calls[i] == START
    ensures SystemDescends(sys.shared.store, [], sys)
  {
    assert Sub([], []) && sys.shared.store == UpdatedAll(sys.shared.store, []);
    hide Sub, UpdatedAll;
  }

  /** The updates made by one more step. */
  lemma MadeMore(cfg: Config, run: Run, k: nat)
    requires IsRun(cfg, run) && k < |run.moves|
    ensures Moves(cfg, run.states[k], run.states[k + 1], run.moves[k])
    ensures MadeBy(cfg, run, k + 1)
         == MadeBy(cfg, run, k) + UpdateMade(cfg, run.states[k].calls[run.moves[k].i])
  {
    hide Step, UpdateMade;
  }

  /** Main result: races lose updates and do nothing else. In every state of
  every interleaving the store is the first one with some of the updates that
  the run has made applied, in the order they were made; and so is every store
  that a call has loaded. */
  lemma {:induction false} RunsOnlyMerge(cfg: Config, run: Run, k: nat)
    requires IsRun(cfg, run) && k <= |run.moves|
    ensures SystemDescends(run.states[0].shared.store, MadeBy(cfg, run, k), run.states[k])
  {
    hide SystemDescends, Step, MadeAt;
    var before := run.states[0].shared.store;
    if k == 0 {
      StartDescends(run.states[0]);
    } else {
      RunsOnlyMerge(cfg, run, k - 1);
      MadeMore(cfg, run, k - 1);
      hide IsRun, Moves, MadeBy;
      MoveDescends(cfg, before, MadeBy(cfg, run, k - 1), run.states[k - 1], run.states[k], run.moves[k - 1]);
    }
  }

  /** Main result: so in every state of every run the store is well-formed, other
  boxes stay mapped as they were, and so does the whole entry of every server
  that was not refreshed, as no server is that was never known. */
  lemma RunsKeep(cfg: Config, run: Run, k: nat, other: string, url: string)
    requires IsRun(cfg, run) && k <= |run.moves| && WellFormed(run.states[0].shared.store)
    ensures var before, after := run.states[0].shared.store, run.states[k].shared.store;
      && WellFormed(after)
      && (other != cfg.boxHost ==> BoxAt(after, other) == BoxAt(before, other))
      && (NotRefreshed(MadeBy(cfg, run, k), url) ==> ServerAt(after, url) == ServerAt(before, url))
      && (!Known(run, k, url) ==> ServerAt(after, url) == ServerAt(before, url))
  {
    var before, made := run.states[0].shared.store, MadeBy(cfg, run, k);
    RunsOnlyMerge(cfg, run, k);
    var updates :| Sub(updates, made) && run.states[k].shared.store == UpdatedAll(before, updates);
    SubMembers(updates, made);
    forall u | u in made
      ensures Grounded(cfg, run, k, u)
    {
      UpdatesAreGrounded(cfg, run, k, u);
    }
    hide IsRun, MadeBy, UpdatedAll, WellFormed, Known, Sub, BoxAt, ServerAt;
    assert forall i :: 0 <= i < |updates| ==> updates[i] in updates;
    assert NotRefreshed(made, url) ==> NotRefreshed(updates, url) by {
      assert forall u :: u in made && u.Refresh? && NotRefreshed(made, url) ==> u.url != url;
    }
    UpdatesKeep(before, updates, cfg.boxHost, other, url);
  }
}
