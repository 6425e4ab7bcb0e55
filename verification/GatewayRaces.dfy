/** Where the credential protocol falls short (src/auth.rs): updates of the store
file that overlap, and a refresh that returns the token just rejected. */
module GatewayRaces {
  import opened Bytes
  import opened TokenStore
  import opened GatewayProtocol
  import opened GatewayRuns
  import opened GatewayAlone

  // ----- two updates of the store in a run, wherever they load and save

  /** A call about to load the store for an update, and the update. */
  predicate AtLoad(call: Call) {
    call.place.Loading? || call.place.LearnLoading?
  }

  function Pending(cfg: Config, call: Call): Update
    requires AtLoad(call)
  {
    match call.place
    case Loading(url, outcome) => Refresh(url, outcome)
    case LearnLoading(url) => Learn(cfg.boxHost, url)
  }

  function Loaded(call: Call, store: Json): Call
    requires AtLoad(call)
  {
    match call.place
    case Loading(url, outcome) => call.(place := Merging(url, outcome, store))
    case LearnLoading(url) => call.(place := LearnSaving(url, store))
  }

  /** A discovery that is already in the store is not saved again. */
  predicate Saves(store: Json, update: Update) {
    update.Refresh? || Updated(store, update) != store
  }

  function Saved(current: Json, loaded: Json, update: Update): Json {
    if Saves(loaded, update) then Updated(loaded, update) else current
  }

  /** A call, and the steps of a run at which it loads the store and saves it. */
  datatype Write = Write(i: nat, load: nat, save: nat)

  ghost predicate Writes(run: Run, w: Write) {
    && w.load < w.save < |run.moves| < |run.states| && run.moves[w.load].i == run.moves[w.save].i == w.i
    && w.i < |run.states[w.load].calls| && AtLoad(run.states[w.load].calls[w.i])
    && forall k :: w.load < k < w.save ==> run.moves[k].i != w.i
  }

  function UpdateOf(cfg: Config, run: Run, w: Write): Update
    requires Writes(run, w)
  {
    Pending(cfg, run.states[w.load].calls[w.i])
  }

  /** One call loads before the other has saved. */
  predicate Overlaps(a: Write, b: Write) {
    a.load < b.save && b.load < a.save
  }

  predicate Still(run: Run, k: nat)
    requires k + 1 < |run.states|
  {
    run.states[k + 1].shared.store == run.states[k].shared.store
  }

  /** Two calls write the store; whatever else goes on from the first load to the
  last save, the store is not written by it. */
  ghost predicate Race(run: Run, a: Write, b: Write) {
    && Writes(run, a) && Writes(run, b) && a.i != b.i
    && forall k :: Min(a.load, b.load) <= k <= Max(a.save, b.save) && k !in {a.load, a.save, b.load, b.save} ==>
         Still(run, k)
  }

  function Before(run: Run, a: Write, b: Write): Json
    requires Min(a.load, b.load) < |run.states|
  {
    run.states[Min(a.load, b.load)].shared.store
  }

  function After(run: Run, a: Write, b: Write): Json
    requires Max(a.save, b.save) + 1 < |run.states|
  {
    run.states[Max(a.save, b.save) + 1].shared.store
  }

  /** The store is not written. */
  lemma {:induction false} StoreStill(run: Run, from: nat, to: nat)
    requires from <= to < |run.states| && forall k :: from <= k < to ==> Still(run, k)
    ensures run.states[to].shared.store == run.states[from].shared.store
  {
    if from < to {
      StoreStill(run, from, to - 1);
      assert Still(run, to - 1);
    }
  }

  lemma LoadStep(cfg: Config, run: Run, w: Write)
    requires IsRun(cfg, run) && Writes(run, w)
    ensures Still(run, w.load) && w.i < |run.states[w.load + 1].calls|
    ensures run.states[w.load + 1].calls[w.i]
         == Loaded(run.states[w.load].calls[w.i], run.states[w.load].shared.store)
  {
    assert Moves(cfg, run.states[w.load], run.states[w.load + 1], run.moves[w.load]);
  }

  /** Until it saves, a call keeps what it loaded. */
  lemma {:induction false} LoadedKept(cfg: Config, run: Run, w: Write, k: nat)
    requires IsRun(cfg, run) && Writes(run, w) && w.load < k <= w.save
    ensures w.i < |run.states[k].calls|
    ensures run.states[k].calls[w.i] == Loaded(run.states[w.load].calls[w.i], run.states[w.load].shared.store)
  {
    hide Step, Loaded, AtLoad;
    if k == w.load + 1 {
      LoadStep(cfg, run, w);
    } else {
      LoadedKept(cfg, run, w, k - 1);
      Moved(cfg, run, k - 1, w.i);
      hide IsRun;
    }
  }

  /** What a save comes to. */
  lemma SaveStep(cfg: Config, run: Run, w: Write)
    requires IsRun(cfg, run) && Writes(run, w)
    ensures run.states[w.save + 1].shared.store
         == Saved(run.states[w.save].shared.store, run.states[w.load].shared.store, UpdateOf(cfg, run, w))
  {
    LoadedKept(cfg, run, w, w.save);
    assert Moves(cfg, run.states[w.save], run.states[w.save + 1], run.moves[w.save]);
    hide Learned, Refreshed;
  }

  /** What two updates come to, by the order of their loads and saves. */
  lemma RaceInOrder(cfg: Config, run: Run, a: Write, b: Write)
    requires IsRun(cfg, run) && Race(run, a, b) && a.load < b.load
    ensures var x, y, before := UpdateOf(cfg, run, a), UpdateOf(cfg, run, b), Before(run, a, b);
      After(run, a, b) ==
        if !Overlaps(a, b) then UpdatedAll(before, [x, y])
        else if b.save < a.save then Saved(Saved(before, before, y), before, x)
        else Saved(Saved(before, before, x), before, y)
  {
    hide UpdateOf, Updated, IsRun, AtLoad;
    var x, y, before := UpdateOf(cfg, run, a), UpdateOf(cfg, run, b), Before(run, a, b);
    LoadStep(cfg, run, a);
    LoadStep(cfg, run, b);
    SaveStep(cfg, run, a);
    SaveStep(cfg, run, b);
    hide Loaded;
    if a.save < b.load {
      TwoUpdates(before, x, y);
      StoreStill(run, a.load, a.save);
      StoreStill(run, a.save + 1, b.load);
      StoreStill(run, b.load, b.save);
    } else {
      var first, last := Min(a.save, b.save), Max(a.save, b.save);
      StoreStill(run, a.load, b.load);
      StoreStill(run, b.load, first);
      StoreStill(run, first + 1, last);
    }
  }

  /** So whichever loads first. */
  lemma RaceEnds(cfg: Config, run: Run, a: Write, b: Write)
    requires IsRun(cfg, run) && Race(run, a, b)
    ensures var x, y, before := UpdateOf(cfg, run, a), UpdateOf(cfg, run, b), Before(run, a, b);
      After(run, a, b) ==
        if !Overlaps(a, b) then UpdatedAll(before, if a.load < b.load then [x, y] else [y, x])
        else if b.save < a.save then Saved(Saved(before, before, y), before, x)
        else Saved(Saved(before, before, x), before, y)
  {
    hide UpdateOf, UpdatedAll, Saved, IsRun, AtLoad;
    if a.load < b.load {
      RaceInOrder(cfg, run, a, b);
    } else {
      RaceInOrder(cfg, run, b, a);
    }
  }

  lemma TwoUpdates(store: Json, x: Update, y: Update)
    ensures UpdatedAll(store, [x, y]) == Updated(Updated(store, x), y)
    ensures UpdatedAll(store, [x]) == Updated(store, x)
    ensures Saved(store, store, x) == Updated(store, x)
  {
    hide Updated;
    assert [x][..0] == [] && UpdatedAll(store, []) == store;
    assert UpdatedAll(store, [x]) == Updated(store, x);
    assert [x, y][..1] == [x];
  }

  // ----- when both updates are still there

  /** The store holds both updates, made in one order or the other. */
  predicate Serial(before: Json, x: Update, y: Update, after: Json) {
    after == UpdatedAll(before, [x, y]) || after == UpdatedAll(before, [y, x])
  }

  predicate SameTarget(x: Update, y: Update) {
    match (x, y)
    case (Learn(b, _), Learn(c, _)) => b == c
    case (Refresh(u, _), Refresh(v, _)) => u == v
    case _ => false
  }

  /** Saving `y` over `x` leaves nothing of `x` to be missed: `y` sets every
  cookie that `x` changed, or they discover for one box; otherwise `x`
  changed nothing, or `y` was not saved. */
  ghost predicate Covers(before: Json, x: Update, y: Update) {
    match (x, y)
    case (Refresh(u, o), Refresh(v, p)) =>
      if u == v then
        forall name :: LastCookie(o.setCookies, name).Some? && LastCookie(p.setCookies, name).None? ==>
          CookieAt(before, u, name) == Some(Str(LastCookie(o.setCookies, name).value))
      else Updated(before, x) == before
    case _ => SameTarget(x, y) || Updated(before, x) == before || !Saves(before, y)
  }

  /** What an update is about. */
  function Slot(store: Json, u: Update): Option<Json> {
    match u
    case Learn(box, _) => BoxAt(store, box)
    case Refresh(url, _) => ServerAt(store, url)
  }

  function NewSlot(v: Option<Json>, u: Update): Json {
    match u
    case Learn(_, url) => Str(url)
    case Refresh(_, outcome) => RefreshedEntry(match v
                                               case Some(entry) => entry
                                               case None => EMPTY, outcome)
  }

  lemma SlotUpdated(store: Json, u: Update)
    requires WellFormed(store)
    ensures Slot(Updated(store, u), u) == Some(NewSlot(Slot(store, u), u))
    ensures Updated(store, u) == store <==> Slot(store, u) == Some(NewSlot(Slot(store, u), u))
  {
    hide RefreshedEntry;
    match u
    case Learn(box, url) =>
      if BoxAt(store, box) == Some(Str(url)) {
        assert Learned(store, box, url) == store;
      }
    case Refresh(url, outcome) =>
      var servers := GetOrEmpty(store, "authServers");
      if ServerAt(store, url).Some? && ServerAt(store, url).value == NewSlot(ServerAt(store, url), u) {
        assert servers.fields[url := servers.fields[url]] == servers.fields;
        assert store.fields["authServers" := servers] == store.fields;
      }
  }

  lemma SlotKept(store: Json, x: Update, y: Update)
    requires WellFormed(store) && !SameTarget(x, y)
    ensures Slot(Updated(store, y), x) == Slot(store, x)
  {
    hide RefreshedEntry;
  }

  /** Updates about different things: one saved over the other hides it unless
  the other changed nothing. */
  lemma DifferentTargets(before: Json, x: Update, y: Update)
    requires WellFormed(before) && !SameTarget(x, y)
    ensures Updated(before, y) == Updated(Updated(before, x), y) ==> Updated(before, x) == before
    ensures Updated(before, y) == Updated(Updated(before, y), x) ==> Updated(before, x) == before
  {
    UpdateKeepsWellFormed(before, x);
    UpdateKeepsWellFormed(before, y);
    SlotUpdated(before, x);
    SlotUpdated(Updated(before, y), x);
    SlotKept(before, x, y);
    SlotKept(Updated(before, x), x, y);
    hide Updated, Slot, NewSlot, WellFormed;
  }

  /** Discoveries for one box: the last one is what it would be in turn. */
  lemma SameBox(before: Json, box: string, u: string, v: string)
    requires WellFormed(before)
    ensures Learned(Learned(before, box, u), box, v) == Learned(before, box, v)
  {
    var boxes := GetOrEmpty(before, "boxes");
    var l1, l2 := Put(boxes, box, Str(u)), Put(boxes, box, Str(v));
    assert l1.fields[box := Str(v)] == l2.fields;
    assert before.fields["boxes" := l1]["boxes" := l2] == before.fields["boxes" := l2];
    if Text(Get(boxes, box)) == Some(v) {
      assert boxes.fields[box := Str(v)] == boxes.fields;
      assert before.fields["boxes" := boxes] == before.fields;
    }
  }

  lemma SameFields(a: Json, b: Json)
    requires a.Obj? && b.Obj? && forall name :: Get(a, name) == Get(b, name)
    ensures a == b
  {
    forall name
      ensures name in a.fields <==> name in b.fields
      ensures name in a.fields ==> a.fields[name] == b.fields[name]
    {
      assert Get(a, name) == Get(b, name);
    }
    assert a.fields == b.fields;
  }

  /** Cookies set over cookies set, where the last ones cover the first. */
  lemma CookiesCovered(cookies: Json, first: seq<(string, string)>, last: seq<(string, string)>)
    requires cookies.Obj?
    requires forall name :: LastCookie(first, name).Some? && LastCookie(last, name).None? ==>
      Get(cookies, name) == Some(Str(LastCookie(first, name).value))
    ensures Merged(Merged(cookies, first), last) == Merged(cookies, last)
  {
    forall name
      ensures Get(Merged(Merged(cookies, first), last), name) == Get(Merged(cookies, last), name)
    {
      MergedAt(cookies, first, name);
      MergedAt(Merged(cookies, first), last, name);
      MergedAt(cookies, last, name);
    }
    hide Merged, LastCookie;
    SameFields(Merged(Merged(cookies, first), last), Merged(cookies, last));
  }

  lemma EntryCovered(entry: Json, o: Outcome, p: Outcome)
    requires entry.Obj? && GetOrEmpty(entry, "cookies").Obj?
    requires Merged(Merged(GetOrEmpty(entry, "cookies"), o.setCookies), p.setCookies)
          == Merged(GetOrEmpty(entry, "cookies"), p.setCookies)
    ensures RefreshedEntry(RefreshedEntry(entry, o), p) == RefreshedEntry(entry, p)
  {
    hide Merged;
    var twice, once := RefreshedEntry(RefreshedEntry(entry, o), p), RefreshedEntry(entry, p);
    assert twice.fields == once.fields;
  }

  lemma CookiesOf(store: Json, url: string, name: string)
    requires WellFormed(store)
    ensures var entry := GetOrEmpty(GetOrEmpty(store, "authServers"), url);
      && entry.Obj? && GetOrEmpty(entry, "cookies").Obj?
      && CookieAt(store, url, name) == Get(GetOrEmpty(entry, "cookies"), name)
  {
    if ServerAt(store, url).Some? {
      assert ServerAt(store, url).value.Obj?;
    }
  }

  /** Refreshes of one server: the last is what it would be in turn exactly when
  it sets every cookie that the first changed. */
  lemma SameServer(before: Json, url: string, o: Outcome, p: Outcome)
    requires WellFormed(before)
    ensures var x, y := Refresh(url, o), Refresh(url, p);
      && (Covers(before, x, y) ==> Updated(Updated(before, x), y) == Updated(before, y))
      && (Updated(Updated(before, x), y) == Updated(before, y) ==> Covers(before, x, y))
      && (Updated(Updated(before, y), x) == Updated(before, y) ==> Covers(before, x, y))
  {
    var x, y := Refresh(url, o), Refresh(url, p);
    if Covers(before, x, y) {
      CoveredInTurn(before, url, o, p);
    }
    UpdateKeepsWellFormed(before, x);
    UpdateKeepsWellFormed(before, y);
    forall name | LastCookie(o.setCookies, name).Some? && LastCookie(p.setCookies, name).None?
      ensures (Updated(Updated(before, x), y) == Updated(before, y)
               || Updated(Updated(before, y), x) == Updated(before, y)) ==>
        CookieAt(before, url, name) == Some(Str(LastCookie(o.setCookies, name).value))
    {
      UpdateLookups(before, x, "", url, name);
      UpdateLookups(before, y, "", url, name);
      UpdateLookups(Updated(before, x), y, "", url, name);
      UpdateLookups(Updated(before, y), x, "", url, name);
      assert [x][..0] == [] && [y][..0] == [];
      hide Updated, CookieAt, LastCookie, WellFormed;
    }
    hide Updated, CookieAt, LastCookie;
  }

  lemma CoveredInTurn(before: Json, url: string, o: Outcome, p: Outcome)
    requires WellFormed(before) && Covers(before, Refresh(url, o), Refresh(url, p))
    ensures Refreshed(Refreshed(before, url, o), url, p) == Refreshed(before, url, p)
  {
    var servers := GetOrEmpty(before, "authServers");
    var entry := GetOrEmpty(servers, url);
    CookiesOf(before, url, "");
    var cookies := GetOrEmpty(entry, "cookies");
    forall name | LastCookie(o.setCookies, name).Some? && LastCookie(p.setCookies, name).None?
      ensures Get(cookies, name) == Some(Str(LastCookie(o.setCookies, name).value))
    {
      CookiesOf(before, url, name);
    }
    hide Covers, CookieAt, LastCookie, WellFormed;
    CookiesCovered(cookies, o.setCookies, p.setCookies);
    EntryCovered(entry, o, p);
    TwiceRefreshed(before, url, o, p);
    hide RefreshedEntry;
  }

  lemma TwiceRefreshed(store: Json, url: string, o: Outcome, p: Outcome)
    requires store.Obj? && GetOrEmpty(store, "authServers").Obj?
    ensures var servers := GetOrEmpty(store, "authServers");
      Refreshed(Refreshed(store, url, o), url, p) ==
        Put(store, "authServers",
            Put(servers, url, RefreshedEntry(RefreshedEntry(GetOrEmpty(servers, url), o), p)))
  {
    hide RefreshedEntry;
    var servers := GetOrEmpty(store, "authServers");
    var e1 := RefreshedEntry(GetOrEmpty(servers, url), o);
    var s1 := Put(servers, url, e1);
    var e2 := RefreshedEntry(e1, p);
    assert Refreshed(store, url, o) == Put(store, "authServers", s1);
    assert GetOrEmpty(s1, url) == e1;
    assert Put(s1, url, e2) == Put(servers, url, e2) by {
      assert s1.fields[url := e2] == servers.fields[url := e2];
    }
    var s2 := Put(servers, url, e2);
    assert Put(Put(store, "authServers", s1), "authServers", s2) == Put(store, "authServers", s2) by {
      assert store.fields["authServers" := s1]["authServers" := s2] == store.fields["authServers" := s2];
    }
  }

  /** Main result: in any run, two updates are both still there if and only if
  their loads and saves do not overlap, or the one saved last covers the
  other; whatever other calls do meanwhile, so long as they do not write. */
  lemma RaceExactly(cfg: Config, run: Run, a: Write, b: Write)
    requires IsRun(cfg, run) && Race(run, a, b) && WellFormed(run.states[0].shared.store)
    ensures var x, y, before := UpdateOf(cfg, run, a), UpdateOf(cfg, run, b), Before(run, a, b);
      Serial(before, x, y, After(run, a, b)) <==>
        !Overlaps(a, b) || (if b.save < a.save then Covers(before, y, x) else Covers(before, x, y))
  {
    var x, y, before := UpdateOf(cfg, run, a), UpdateOf(cfg, run, b), Before(run, a, b);
    assert x.Learn? && y.Learn? ==> x.box == y.box;
    RaceEnds(cfg, run, a, b);
    RunsKeep(cfg, run, Min(a.load, b.load), "", "");
    hide IsRun, Race, Writes, UpdateOf, WellFormed, Covers, Saved;
    OneOverOther(before, x, y);
    OneOverOther(before, y, x);
  }

  /** `y` saved over `x`, both loaded from one store. */
  lemma OneOverOther(before: Json, x: Update, y: Update)
    requires WellFormed(before) && (x.Learn? && y.Learn? ==> x.box == y.box)
    ensures Serial(before, x, y, Saved(Saved(before, before, x), before, y)) <==> Covers(before, x, y)
    ensures Serial(before, y, x, Saved(Saved(before, before, x), before, y)) <==> Covers(before, x, y)
  {
    TwoUpdates(before, x, y);
    TwoUpdates(before, y, x);
    if SameTarget(x, y) {
      if x.Learn? {
        SameBox(before, x.box, x.url, y.url);
        SameBox(before, x.box, y.url, x.url);
      } else {
        SameServer(before, x.url, x.outcome, y.outcome);
      }
    } else {
      DifferentTargets(before, x, y);
    }
    hide UpdatedAll, Learned, Refreshed, WellFormed;
  }

  /** Two updates of different things that both change the store: overlapping
  always loses one, whichever they are and in whatever order. */
  lemma OverlapLoses(cfg: Config, run: Run, a: Write, b: Write)
    requires IsRun(cfg, run) && Race(run, a, b) && WellFormed(run.states[0].shared.store)
    requires var x, y, before := UpdateOf(cfg, run, a), UpdateOf(cfg, run, b), Before(run, a, b);
      !SameTarget(x, y) && Updated(before, x) != before && Updated(before, y) != before
    ensures Serial(Before(run, a, b), UpdateOf(cfg, run, a), UpdateOf(cfg, run, b), After(run, a, b))
       <==> !Overlaps(a, b)
  {
    hide IsRun, Updated, Serial, UpdatedAll, UpdateOf, WellFormed;
    RaceExactly(cfg, run, a, b);
  }

  // ----- it happens, from the start of two calls

  function Last(run: Run): System
    requires run.states != []
  {
    run.states[|run.states| - 1]
  }

  /** One more step of a run. */
  lemma Go(cfg: Config, run: Run, i: nat, now: int, refresh: Option<Outcome>) returns (more: Run)
    requires IsRun(cfg, run) && i < |Last(run).calls|
    ensures IsRun(cfg, more) && run.states <= more.states && run.moves <= more.moves
    ensures |more.moves| == |run.moves| + 1 && more.moves[|run.moves|].i == i
    ensures var sys := Last(run);
      var (s, call) := Step(cfg, sys.shared, sys.calls[i], Input(now, refresh, TransportError));
      Last(more) == System(s, sys.calls[i := call])
  {
    hide Step;
    var sys, m := Last(run), Move(i, Input(now, refresh, TransportError));
    var (s, call) := Step(cfg, sys.shared, sys.calls[i], m.input);
    var next := System(s, sys.calls[i := call]);
    ExtendRun(cfg, run, m, next);
    more := Run(run.states + [next], run.moves + [m]);
  }

  /** A call that found no stored token, or a stale one, and has its refresh, but
  has not loaded the store yet. */
  lemma ToLoading(cfg: Config, run: Run, i: nat, url: string, now: int, o: Outcome) returns (more: Run)
    requires IsRun(cfg, run) && i < |Last(run).calls| && Last(run).calls[i] == START
    requires var s := Last(run).shared;
      && cfg.pinned.None? && s.authUrl == Some(url) && s.token.None?
      && !Usable(cfg, s, url, None, now) && CookiesAt(s.store, url) != map[]
    ensures IsRun(cfg, more) && run.states <= more.states && |more.moves| == |run.moves| + 4
    ensures Last(more) == System(Last(run).shared, Last(run).calls[i := START.(place := Loading(url, o))])
  {
    hide IsRun, TokenAt, CookiesAt, IsFresh;
    RunLength(cfg, run);
    var calls := Last(run).calls;
    more := Go(cfg, run, i, now, None);
    more := Go(cfg, more, i, now, None);
    assert calls[i := START.(place := AtLookup)][i := START.(place := Choosing(url, None))]
        == calls[i := START.(place := Choosing(url, None))];
    more := Go(cfg, more, i, now, None);
    assert calls[i := START.(place := Choosing(url, None))][i := START.(place := Refreshing(url))]
        == calls[i := START.(place := Refreshing(url))];
    more := Go(cfg, more, i, now, Some(o));
    assert calls[i := START.(place := Refreshing(url))][i := START.(place := Loading(url, o))]
        == calls[i := START.(place := Loading(url, o))];
  }

  /** Main result: two calls on one client, from their start, refresh against
  one server; both load the store before either saves. Both end with a token,
  and the store is as if only the second had refreshed: cookies that only the
  first was given are gone. */
  lemma LostRefresh(cfg: Config, s: Shared, url: string, now: int, o: Outcome, p: Outcome)
    returns (run: Run, a: Write, b: Write)
    requires cfg.pinned.None? && s.authUrl == Some(url) && s.token.None?
    requires !Usable(cfg, s, url, None, now) && CookiesAt(s.store, url) != map[]
    requires WellFormed(s.store)
    ensures IsRun(cfg, run) && run.states[0] == System(s, [START, START])
    ensures Race(run, a, b) && Overlaps(a, b) && Before(run, a, b) == s.store
    ensures UpdateOf(cfg, run, a) == Refresh(url, o) && UpdateOf(cfg, run, b) == Refresh(url, p)
    ensures Last(run) == System(s.(store := Refreshed(s.store, url, p)),
                                [START.(place := Caching(Credential(o.accessToken, Fetched))),
                                 START.(place := Caching(Credential(p.accessToken, Fetched)))])
    ensures forall name :: LastCookie(p.setCookies, name).None? ==>
      CookieAt(Last(run).shared.store, url, name) == CookieAt(s.store, url, name)
  {
    hide IsRun, TokenAt, CookiesAt, WellFormed, Refreshed, CookieAt, LastCookie, IsFresh;
    run := Run([System(s, [START, START])], []);
    OnlyStart(cfg, run);
    run := ToLoading(cfg, run, 0, url, now, o);
    run := ToLoading(cfg, run, 1, url, now, p);
    a, b := Write(0, 8, 10), Write(1, 9, 11);
    run := BothLoadThenSave(cfg, run, url, o, p);
    forall name | LastCookie(p.setCookies, name).None?
      ensures CookieAt(Last(run).shared.store, url, name) == CookieAt(s.store, url, name)
    {
      RefreshLookups(s.store, url, p, "", url, name);
    }
  }

  lemma OnlyStart(cfg: Config, run: Run)
    requires |run.states| == 1 && run.moves == []
    requires forall i :: 0 <= i < |run.states[0].calls| ==> run.states[0].calls[i] == START
    ensures IsRun(cfg, run)
  {
  }

  /** Both calls load; then both save. */
  lemma BothLoadThenSave(cfg: Config, run: Run, url: string, o: Outcome, p: Outcome) returns (more: Run)
    requires IsRun(cfg, run) && |run.moves| == 8
    requires Last(run).calls == [START.(place := Loading(url, o)), START.(place := Loading(url, p))]
    ensures IsRun(cfg, more) && run.states <= more.states
    ensures var s, a, b := Last(run).shared, Write(0, 8, 10), Write(1, 9, 11);
      && Race(more, a, b) && Before(more, a, b) == s.store
      && UpdateOf(cfg, more, a) == Refresh(url, o) && UpdateOf(cfg, more, b) == Refresh(url, p)
      && Last(more) == System(s.(store := Refreshed(s.store, url, p)),
                              [START.(place := Caching(Credential(o.accessToken, Fetched))),
                               START.(place := Caching(Credential(p.accessToken, Fetched)))])
  {
    hide IsRun, Refreshed;
    assert |run.states| == 9 by {
      RunLength(cfg, run);
    }
    var store := Last(run).shared.store;
    var one := Go(cfg, run, 0, 0, None);
    assert Last(one).calls == [START.(place := Merging(url, o, store)), START.(place := Loading(url, p))];
    var two := Go(cfg, one, 1, 0, None);
    assert Last(two).calls == [START.(place := Merging(url, o, store)), START.(place := Merging(url, p, store))];
    var three := Go(cfg, two, 0, 0, None);
    assert Last(three).calls == [START.(place := Caching(Credential(o.accessToken, Fetched))),
                                 START.(place := Merging(url, p, store))];
    more := Go(cfg, three, 1, 0, None);
    assert Last(more).calls == [START.(place := Caching(Credential(o.accessToken, Fetched))),
                                START.(place := Caching(Credential(p.accessToken, Fetched)))];
    RunLength(cfg, one);
    RunLength(cfg, two);
    RunLength(cfg, three);
    RunLength(cfg, more);
  }

  lemma RunLength(cfg: Config, run: Run)
    requires IsRun(cfg, run)
    ensures |run.states| == |run.moves| + 1
  {
  }

  // ----- the token just rejected, again

  /** A call whose stored token is rejected and whose refresh returns that token
  sends it again: the retry is only sure to differ when it is a stored one. */
  lemma RejectedTokenAgain(cfg: Config, s: Shared, url: string, token: string, now: int, cookies: seq<(string, string)>,
                           denial: Answer, last: Answer)
    requires cfg.pinned.None? && s.authUrl == Some(url) && s.token.None?
    requires Text(TokenAt(s.store, url)) == Some(token) && IsFresh(cfg.expires, token, now)
    requires CookiesAt(s.store, url) != map[]
    requires denial.Answered? && denial.status == 401 && DenialOf(denial) == Some(url)
    requires last.Answered? && DenialOf(last).None?
    ensures Called(cfg, s, Env([now], now, [Some(Outcome(token, cookies))], [denial, last])).1
         == Call(Finished(Ok(last.status, last.body)), true,
                 [Some(Credential(token, Unexpired(now))), Some(Credential(token, Fetched))], [denial, last])
  {
    hide Called, TokenAt, CookiesAt, IsFresh, Refreshed, Learned, DenialOf;
    WholeIsComplete(cfg, s, Env([now], now, [Some(Outcome(token, cookies))], [denial, last]));
  }
}
