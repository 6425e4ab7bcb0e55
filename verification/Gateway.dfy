/** Gateway credentials and the one retry (src/auth.rs, src/client.rs). The
gateway, the auth server and the clock are scripts of answers. */
module Gateway {
  import opened Bytes
  import opened TokenStore
  import opened GatewayProtocol
  import opened GatewayAlone

  class World {
    var store: Json
    var clock: seq<int>
    const frozen: int
    var refreshes: seq<Option<Outcome>>
    var answers: seq<Answer>
    const expires: string -> int

    constructor (store: Json, clock: seq<int>, frozen: int, refreshes: seq<Option<Outcome>>,
                 answers: seq<Answer>, expires: string -> int)
      ensures this.store == store && this.expires == expires
      ensures Scripts() == Env(clock, frozen, refreshes, answers)
    {
      this.store, this.clock, this.frozen := store, clock, frozen;
      this.refreshes, this.answers, this.expires := refreshes, answers, expires;
    }

    /** What is still to come. */
    ghost function Scripts(): Env
      reads this`clock, this`refreshes, this`answers
    {
      Env(clock, frozen, refreshes, answers)
    }

    /** Read the clock; past the script's end it stands still. */
    method Now() returns (t: int)
      modifies this`clock
      ensures t == Reading(old(Scripts())) && Scripts() == Ticked(old(Scripts()))
    {
      t := frozen;
      if clock != [] {
        t := clock[0];
        clock := clock[1..];
      }
    }

    /** Ask an auth server for a new token. */
    method Refresh() returns (r: Option<Outcome>)
      modifies this`refreshes
      ensures r == Granted(old(Scripts())) && Scripts() == Renewed(old(Scripts()))
    {
      if refreshes == [] {
        return None;
      }
      r, refreshes := refreshes[0], refreshes[1..];
    }

    method Answer() returns (a: Answer)
      modifies this`answers
      ensures a == AnswerAt(old(answers), 0) && Scripts() == Heard(old(Scripts()))
    {
      if answers == [] {
        return TransportError;
      }
      a, answers := answers[0], answers[1..];
    }
  }

  class GatewayAuth {
    const world: World
    const boxHost: string
    const staticToken: Option<string>
    var authUrl: Option<string>
    var token: Option<string>

    constructor (world: World, boxHost: string, staticToken: Option<string>)
      ensures this.world == world && this.boxHost == boxHost && this.staticToken == staticToken
      ensures State() == Shared(Text(BoxAt(world.store, boxHost)), None, world.store)
    {
      this.world, this.boxHost, this.staticToken := world, boxHost, staticToken;
      authUrl, token := Text(BoxAt(world.store, boxHost)), None;
    }

    /** The client as the protocol sees it. */
    ghost function Cfg(): Config {
      Config(boxHost, staticToken, world.expires)
    }

    ghost function State(): Shared
      reads this, world
    {
      Shared(authUrl, token, world.store)
    }

    /** Record the auth server named by a denial. */
    method LearnAuthServer(url: string)
      modifies this`authUrl, world`store
      ensures State() == KnowingServer(Cfg(), old(State()), url)
    {
      if authUrl == Some(url) {
        return;
      }
      authUrl := Some(url);
      if staticToken.Some? {
        return;
      }
      var store := world.store;
      var boxes := GetOrEmpty(store, "boxes");
      if store.Obj? && boxes.Obj? && Text(Get(boxes, boxHost)) != Some(url) {
        boxes := Put(boxes, boxHost, Str(url));
        world.store := Put(store, "boxes", boxes);
      }
    }

    /** Token to attach without network I/O; a stale cache is cleared. */
    method CachedToken() returns (r: Option<Credential>)
      modifies this`token, world`clock
      ensures (r, State(), world.Scripts()) == Cached(Cfg(), old(State()), old(world.Scripts()))
      ensures r.Some? && staticToken.None? ==>
        Some(r.value.token) == old(token) && IsFresh(world.expires, r.value.token, Reading(old(world.Scripts())))
    {
      if staticToken.Some? {
        return Some(Credential(staticToken.value, Pinned));
      }
      if token.None? {
        return None;
      }
      var now := world.Now();
      if IsFresh(world.expires, token.value, now) {
        return Some(Credential(token.value, Unexpired(now)));
      }
      token := None;
      return None;
    }

    /** A usable token for `url` from the store, or from a refresh when the
    stored one is stale or is `avoid`, the one just rejected. */
    method ResolveToken(url: string, avoid: Option<string>) returns (r: Option<Credential>)
      requires staticToken.None?
      modifies this`token, world`clock, world`refreshes, world`store
      ensures (r, State(), world.Scripts()) == Resolved(Cfg(), old(State()), old(world.Scripts()), url, avoid)
      ensures Resolves(Cfg(), old(world.store), url, avoid, old(world.Scripts()), r)
    {
      hide Resolves;
      ResolvedExactly(Cfg(), State(), world.Scripts(), url, avoid);
      var stored := Text(TokenAt(world.store, url));
      var cookies := CookiesAt(world.store, url);
      if stored.Some? && stored != avoid {
        var now := world.Now();
        if IsFresh(world.expires, stored.value, now) {
          token := stored;
          return Some(Credential(stored.value, Unexpired(now)));
        }
      }
      if cookies == map[] {
        return None;
      }
      var outcome := world.Refresh();
      if outcome.None? {
        return None;
      }
      var updated := ApplyRefresh(world.store, url, outcome.value);
      world.store := updated;
      token := Some(outcome.value.accessToken);
      return Some(Credential(outcome.value.accessToken, Fetched));
    }

    /** Token to attach right now: pinned, cached, or from the store when the
    box is already known to be gated. */
    method CurrentToken() returns (r: Option<Credential>)
      modifies this`token, world`clock, world`refreshes, world`store
      ensures (r, State(), world.Scripts()) == Current(Cfg(), old(State()), old(world.Scripts()))
    {
      hide Resolved;
      r := CachedToken();
      if r.Some? || staticToken.Some? || authUrl.None? {
        return;
      }
      r := ResolveToken(authUrl.value, None);
    }

    /** Send with the current credential; after a 401 denial resolve another
    credential and send once more. `sends` are the credentials attached. This
    is the protocol's run of one call, step for step, on the next items of the
    scripts. */
    method WithGatewayAuth() returns (r: Reply, sends: seq<Option<Credential>>)
      modifies this`token, this`authUrl, world`clock, world`refreshes, world`store, world`answers
      ensures var (s1, call, env1) := Called(Cfg(), old(State()), old(world.Scripts()));
        call.place == Finished(r) && call.sends == sends && State() == s1 && world.Scripts() == env1
      ensures 1 <= |sends| <= 2
      ensures |sends| == 2 <==>
        var answer := AnswerAt(old(world.answers), 0);
        && DenialOf(answer).Some? && answer.status == 401 && staticToken.None?
        && Second(Cfg(), old(State()), old(world.Scripts())).Some?
    {
      WholeIsComplete(Cfg(), State(), world.Scripts());
      CallFacts(Cfg(), State(), world.Scripts());
      hide Called, Current, Resolved, Learned, IsDenial, Second;
      var first := CurrentToken();
      var answer := world.Answer();
      sends := [first];
      if answer.TransportError? {
        return Broken, sends;
      }
      var denial := DenialOf(answer);
      if denial.None? {
        return Ok(answer.status, answer.body), sends;
      }
      var url := denial.value;
      LearnAuthServer(url);
      var retry := None;
      if answer.status == 401 && staticToken.None? {
        retry := ResolveToken(url, TokenOf(first));
      }
      if retry.None? {
        return Denied(answer.status, url, first.Some?), sends;
      }
      var last := world.Answer();
      sends := [first, retry];
      if last.TransportError? {
        return Broken, sends;
      }
      var again := DenialOf(last);
      r := if again.None? then Ok(last.status, last.body) else Denied(last.status, again.value, true);
    }
  }

  /** Any number of calls on one client. The store is the first one with exactly
  the updates of the protocol's calls applied: discoveries of servers that
  denials named, and every refresh that an auth server gave, in order. Other
  boxes and servers that were not refreshed stay; unpinned, this box is mapped
  to the server last discovered, and pinned the store is untouched. */
  method Calls(store: Json, clock: seq<int>, frozen: int, refreshes: seq<Option<Outcome>>, answers: seq<Answer>,
               expires: string -> int, boxHost: string, pinned: Option<string>, calls: nat)
    returns (final: Json, known: Option<string>)
    requires WellFormed(store)
    ensures var cfg, env := Config(boxHost, pinned, expires), Env(clock, frozen, refreshes, answers);
      var start := Shared(Text(BoxAt(store, boxHost)), None, store);
      var updates, left := Updates(cfg, start, env, calls), Repeated(cfg, start, env, calls).1;
      && WellFormed(final) && final == UpdatedAll(store, updates)
      && GroundedIn(cfg, start.authUrl, env, updates)
      && Outcomes(updates) + Grants(left.refreshes) == Grants(refreshes)
      && (forall box :: box != boxHost ==> BoxAt(final, box) == BoxAt(store, box))
      && (forall url :: NotRefreshed(updates, url) ==> ServerAt(final, url) == ServerAt(store, url))
      && (pinned.Some? ==> final == store)
      && (pinned.None? && known.Some? ==> Text(BoxAt(final, boxHost)) == known)
  {
    var world := new World(store, clock, frozen, refreshes, answers, expires);
    var auth := new GatewayAuth(world, boxHost, pinned);
    ghost var cfg, start, env := auth.Cfg(), auth.State(), world.Scripts();
    for i := 0 to calls
      invariant fresh(world) && fresh(auth) && auth.world == world && auth.Cfg() == cfg
      invariant (auth.State(), world.Scripts()) == Repeated(cfg, start, env, i)
    {
      hide Called;
      var r, sends := auth.WithGatewayAuth();
    }
    hide Repeated, Updates, WellFormed, UpdatedAll, GroundedIn, BoxAt, ServerAt, Outcomes, Grants;
    CallsUpdate(cfg, start, env, calls);
    CallsDerive(cfg, start, env, calls);
    CallsConserve(cfg, start, env, calls);
    forall box | box != boxHost
      ensures BoxAt(world.store, box) == BoxAt(store, box)
    {
      CallsKeep(cfg, start, env, calls, box, "");
    }
    forall url | NotRefreshed(Updates(cfg, start, env, calls), url)
      ensures ServerAt(world.store, url) == ServerAt(store, url)
    {
      CallsKeep(cfg, start, env, calls, boxHost, url);
    }
    CallsKeep(cfg, start, env, calls, boxHost, "");
    return world.store, auth.authUrl;
  }
}
