/** The token store and its two updates (src/auth.rs). The store is a JSON
value; it may be missing, malformed or written by other tools. */
module TokenStore {
  import opened Bytes

  datatype Json = Obj(fields: map<string, Json>) | Str(text: string) | Other

  const EMPTY := Obj(map[])

  function Get(j: Json, key: string): Option<Json> {
    if j.Obj? && key in j.fields then Some(j.fields[key]) else None
  }

  /** The value at a key, or an empty object where there is none. */
  function GetOrEmpty(j: Json, key: string): Json {
    match Get(j, key)
    case Some(v) => v
    case None => EMPTY
  }

  function Put(j: Json, key: string, v: Json): Json
    requires j.Obj?
  {
    Obj(j.fields[key := v])
  }

  function Text(j: Option<Json>): Option<string> {
    if j.Some? && j.value.Str? then Some(j.value.text) else None
  }

  // ----- lookups

  /** The auth server a box is mapped to. */
  function BoxAt(store: Json, box: string): Option<Json> {
    var boxes :- Get(store, "boxes");
    Get(boxes, box)
  }

  function ServerAt(store: Json, url: string): Option<Json> {
    var servers :- Get(store, "authServers");
    Get(servers, url)
  }

  function TokenAt(store: Json, url: string): Option<Json> {
    var server :- ServerAt(store, url);
    Get(server, "accessToken")
  }

  function CookieAt(store: Json, url: string, name: string): Option<Json> {
    var server :- ServerAt(store, url);
    var cookies :- Get(server, "cookies");
    Get(cookies, name)
  }

  /** The cookies a refresh is attempted with. */
  function CookiesAt(store: Json, url: string): map<string, Json> {
    match ServerAt(store, url)
    case None => map[]
    case Some(server) => match Get(server, "cookies")
                         case Some(Obj(cookies)) => cookies
                         case _ => map[]
  }

  /** The store has a cookie for this server. */
  ghost predicate HasCookie(store: Json, url: string) {
    exists name :: CookieAt(store, url, name).Some?
  }

  /** The cookies a refresh is attempted with are the ones stored. */
  lemma CookiesAreStored(store: Json, url: string)
    ensures forall name :: name in CookiesAt(store, url) <==> CookieAt(store, url, name).Some?
    ensures forall name :: name in CookiesAt(store, url) ==>
      CookieAt(store, url, name) == Some(CookiesAt(store, url)[name])
    ensures CookiesAt(store, url) == map[] <==> !HasCookie(store, url)
  {
    if CookiesAt(store, url) != map[] {
      var name :| name in CookiesAt(store, url);
      assert CookieAt(store, url, name).Some?;
    }
  }

  /** Where a store that a login has written keeps what is looked up. */
  lemma StoreShape(box: string, url: string, token: string, name: string, value: string)
    ensures var entry := Obj(map["accessToken" := Str(token), "cookies" := Obj(map[name := Str(value)])]);
      var store := Obj(map["boxes" := Obj(map[box := Str(url)]), "authServers" := Obj(map[url := entry])]);
      && WellFormed(store)
      && BoxAt(store, box) == Some(Str(url)) && TokenAt(store, url) == Some(Str(token))
      && CookiesAt(store, url) == map[name := Str(value)]
  {
  }

  /** Every level the updates pass through is an object where it exists. */
  ghost predicate WellFormed(store: Json) {
    && store.Obj?
    && GetOrEmpty(store, "boxes").Obj?
    && GetOrEmpty(store, "authServers").Obj?
    && forall url :: ServerAt(store, url).Some? ==>
         ServerAt(store, url).value.Obj? && GetOrEmpty(ServerAt(store, url).value, "cookies").Obj?
  }

  // ----- the updates

  /** The store after learning that `url` serves `box`. */
  function Learned(store: Json, box: string, url: string): Json {
    var boxes := GetOrEmpty(store, "boxes");
    if !store.Obj? || !boxes.Obj? || Text(Get(boxes, box)) == Some(url) then store
    else Put(store, "boxes", Put(boxes, box, Str(url)))
  }

  datatype Outcome = Outcome(accessToken: string, setCookies: seq<(string, string)>)

  /** Rotated cookies over the existing ones. */
  method MergeCookies(cookies: Json, setCookies: seq<(string, string)>) returns (merged: Json)
    requires cookies.Obj?
    ensures merged == Merged(cookies, setCookies)
  {
    merged := cookies;
    for i := 0 to |setCookies|
      invariant merged.Obj? && merged == Merged(cookies, setCookies[..i])
    {
      assert setCookies[..i + 1][..i] == setCookies[..i];
      merged := Put(merged, setCookies[i].0, Str(setCookies[i].1));
    }
    assert setCookies[..|setCookies|] == setCookies;
  }

  function Merged(cookies: Json, setCookies: seq<(string, string)>): (merged: Json)
    requires cookies.Obj?
    ensures merged.Obj?
  {
    if setCookies == [] then cookies
    else
      var last := setCookies[|setCookies| - 1];
      Put(Merged(cookies, setCookies[..|setCookies| - 1]), last.0, Str(last.1))
  }

  /** The store after a refresh against `url`. */
  function Refreshed(store: Json, url: string, outcome: Outcome): Json {
    var servers := GetOrEmpty(store, "authServers");
    if !store.Obj? || !servers.Obj? then store
    else
      var entry := GetOrEmpty(servers, url);
      Put(store, "authServers", Put(servers, url, RefreshedEntry(entry, outcome)))
  }

  function RefreshedEntry(entry: Json, outcome: Outcome): Json {
    if !entry.Obj? then entry
    else
      var cookies := GetOrEmpty(entry, "cookies");
      Put(Put(entry, "accessToken", Str(outcome.accessToken)), "cookies",
          if cookies.Obj? then Merged(cookies, outcome.setCookies) else cookies)
  }

  method ApplyRefresh(store: Json, url: string, outcome: Outcome) returns (updated: Json)
    ensures updated == Refreshed(store, url, outcome)
  {
    if !store.Obj? {
      return store;
    }
    var servers := GetOrEmpty(store, "authServers");
    if !servers.Obj? {
      assert store.fields["authServers" := servers] == store.fields;
      return Put(store, "authServers", servers);
    }
    var entry := GetOrEmpty(servers, url);
    if entry.Obj? {
      entry := Put(entry, "accessToken", Str(outcome.accessToken));
      var cookies := GetOrEmpty(entry, "cookies");
      if cookies.Obj? {
        cookies := MergeCookies(cookies, outcome.setCookies);
      }
      entry := Put(entry, "cookies", cookies);
    }
    return Put(store, "authServers", Put(servers, url, entry));
  }

  // ----- what a sequence of updates comes to

  datatype Update = Learn(box: string, url: string) | Refresh(url: string, outcome: Outcome)

  function Updated(store: Json, update: Update): Json {
    match update
    case Learn(box, url) => Learned(store, box, url)
    case Refresh(url, outcome) => Refreshed(store, url, outcome)
  }

  function UpdatedAll(store: Json, updates: seq<Update>): Json {
    if updates == [] then store
    else Updated(UpdatedAll(store, updates[..|updates| - 1]), updates[|updates| - 1])
  }

  /** The value last given to a name, if any. */
  function LastCookie(setCookies: seq<(string, string)>, name: string): Option<string> {
    if setCookies == [] then None
    else if setCookies[|setCookies| - 1].0 == name then Some(setCookies[|setCookies| - 1].1)
    else LastCookie(setCookies[..|setCookies| - 1], name)
  }

  /** The server last discovered for a box, the token last refreshed from a
  server and the cookie value it last set. */
  function LastServer(updates: seq<Update>, box: string): Option<string> {
    if updates == [] then None
    else
      var u := updates[|updates| - 1];
      if u.Learn? && u.box == box then Some(u.url) else LastServer(updates[..|updates| - 1], box)
  }

  function LastToken(updates: seq<Update>, url: string): Option<string> {
    if updates == [] then None
    else
      var u := updates[|updates| - 1];
      if u.Refresh? && u.url == url then Some(u.outcome.accessToken) else LastToken(updates[..|updates| - 1], url)
  }

  function LastSet(updates: seq<Update>, url: string, name: string): Option<string> {
    if updates == [] then None
    else
      var u := updates[|updates| - 1];
      if u.Refresh? && u.url == url && LastCookie(u.outcome.setCookies, name).Some?
      then LastCookie(u.outcome.setCookies, name)
      else LastSet(updates[..|updates| - 1], url, name)
  }

  function Or(last: Option<string>, before: Option<Json>): Option<Json> {
    match last
    case Some(v) => Some(Str(v))
    case None => before
  }

  lemma {:induction false} MergedAt(cookies: Json, setCookies: seq<(string, string)>, name: string)
    requires cookies.Obj?
    ensures Get(Merged(cookies, setCookies), name) == Or(LastCookie(setCookies, name), Get(cookies, name))
  {
    if setCookies != [] {
      MergedAt(cookies, setCookies[..|setCookies| - 1], name);
    }
  }

  lemma LearnLookups(store: Json, box: string, server: string, other: string, url: string, name: string)
    requires WellFormed(store)
    ensures var s := Learned(store, box, server);
      && BoxAt(s, other) == (if box == other then Some(Str(server)) else BoxAt(store, other))
      && TokenAt(s, url) == TokenAt(store, url) && CookieAt(s, url, name) == CookieAt(store, url, name)
  {
  }

  lemma RefreshLookups(store: Json, server: string, o: Outcome, box: string, url: string, name: string)
    requires WellFormed(store)
    ensures var s := Refreshed(store, server, o);
      && BoxAt(s, box) == BoxAt(store, box)
      && TokenAt(s, url) == (if server == url then Some(Str(o.accessToken)) else TokenAt(store, url))
      && CookieAt(s, url, name) ==
         (if server == url then Or(LastCookie(o.setCookies, name), CookieAt(store, url, name))
          else CookieAt(store, url, name))
  {
    if ServerAt(store, server).Some? {
      assert ServerAt(store, server).value.Obj?;
    }
    MergedAt(GetOrEmpty(GetOrEmpty(GetOrEmpty(store, "authServers"), server), "cookies"), o.setCookies, name);
    hide Merged, LastCookie;
  }

  /** One update on a well-formed store changes exactly what it is about. */
  lemma UpdateLookups(store: Json, update: Update, box: string, url: string, name: string)
    requires WellFormed(store)
    ensures var s := Updated(store, update);
      && BoxAt(s, box) == Or(LastServer([update], box), BoxAt(store, box))
      && TokenAt(s, url) == Or(LastToken([update], url), TokenAt(store, url))
      && CookieAt(s, url, name) == Or(LastSet([update], url, name), CookieAt(store, url, name))
  {
    assert [update][..0] == [];
    hide WellFormed, Learned, Refreshed, LastCookie, BoxAt, TokenAt, CookieAt;
    match update
    case Learn(b, server) => LearnLookups(store, b, server, box, url, name);
    case Refresh(server, o) => RefreshLookups(store, server, o, box, url, name);
  }

  lemma UpdateKeepsWellFormed(store: Json, update: Update)
    requires WellFormed(store)
    ensures WellFormed(Updated(store, update))
  {
    var s := Updated(store, update);
    forall url | ServerAt(s, url).Some?
      ensures ServerAt(s, url).value.Obj? && GetOrEmpty(ServerAt(s, url).value, "cookies").Obj?
    {
      if ServerAt(store, url).Some? {
        assert ServerAt(store, url).value.Obj?;
      }
    }
  }

  lemma LastOf(updates: seq<Update>, box: string, url: string, name: string, before: Option<Json>)
    requires updates != []
    ensures var init, last := updates[..|updates| - 1], [updates[|updates| - 1]];
      && Or(LastServer(updates, box), before) == Or(LastServer(last, box), Or(LastServer(init, box), before))
      && Or(LastToken(updates, url), before) == Or(LastToken(last, url), Or(LastToken(init, url), before))
      && Or(LastSet(updates, url, name), before) == Or(LastSet(last, url, name), Or(LastSet(init, url, name), before))
  {
    assert [updates[|updates| - 1]][..0] == [];
  }

  /** What neither kind of update is about stays: other keys of the store, and
  the whole entry of a server that was not refreshed. */
  lemma {:induction false} OthersUntouched(store: Json, updates: seq<Update>, key: string, url: string)
    ensures key !in {"boxes", "authServers"} ==> Get(UpdatedAll(store, updates), key) == Get(store, key)
    ensures LastToken(updates, url).None? ==> ServerAt(UpdatedAll(store, updates), url) == ServerAt(store, url)
  {
    if updates != [] {
      OthersUntouched(store, updates[..|updates| - 1], key, url);
      hide Merged, LastCookie;
    }
  }

  /** Main result: after any discoveries and refreshes on a well-formed store,
  each box maps to its last discovered server, each server has its last
  token, each cookie its last value, and whatever was not updated is as before. */
  lemma {:induction false} UpdatesAreMerges(store: Json, updates: seq<Update>, box: string, url: string, name: string)
    requires WellFormed(store)
    ensures var s := UpdatedAll(store, updates);
      && WellFormed(s)
      && BoxAt(s, box) == Or(LastServer(updates, box), BoxAt(store, box))
      && TokenAt(s, url) == Or(LastToken(updates, url), TokenAt(store, url))
      && CookieAt(s, url, name) == Or(LastSet(updates, url, name), CookieAt(store, url, name))
  {
    if updates != [] {
      var init, last := updates[..|updates| - 1], updates[|updates| - 1];
      var s := UpdatedAll(store, init);
      UpdatesAreMerges(store, init, box, url, name);
      UpdateKeepsWellFormed(s, last);
      UpdateLookups(s, last, box, url, name);
      LastOf(updates, box, url, name, BoxAt(store, box));
      LastOf(updates, box, url, name, TokenAt(store, url));
      LastOf(updates, box, url, name, CookieAt(store, url, name));
      assert UpdatedAll(store, updates) == Updated(s, last);
      hide Updated, UpdatedAll, WellFormed, LastServer, LastToken, LastSet, BoxAt, TokenAt, CookieAt;
    }
  }

  lemma {:induction false} UpdatedAllConcat(store: Json, a: seq<Update>, b: seq<Update>)
    ensures UpdatedAll(UpdatedAll(store, a), b) == UpdatedAll(store, a + b)
  {
    if b == [] {
      assert a + b == a;
    } else {
      UpdatedAllConcat(store, a, b[..|b| - 1]);
      assert (a + b)[..|a + b| - 1] == a + b[..|b| - 1];
    }
  }
}
