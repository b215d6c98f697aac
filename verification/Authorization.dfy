/** extauth/server/middleware.go and SignOut of extauth/server/protectedHandlers.go. */
module Authorization {
  import opened Wrappers
  import opened SessionStore
  import opened SessionManager
  import Cookies

  const COOKIE_NAME := "__unpaperSID"
  const HEADER_NAME := "x-unpaper-sid"
  const USER_HEADER := "x-user-id"
  const SET_COOKIE := "Set-Cookie"

  /** Session lifetime and refresh threshold, in ms. */
  const LIFETIME := 24 * 3600 * 1000
  const TTL_REFRESH := 30 * 1000
  const NS_PER_MS := 1_000_000

  /** KO denies the request; Failure is an error returned to the proxy. */
  datatype Response = OK(headers: map<string, string>) | KO(message: string) | Failure(message: string)

  datatype Route = Default | SignOut

  /** The headers an authorised request carries for the sid of its cookie, which was live at the
      lookup of its remaining time (state `at`): the sid's own user, and the sid itself if more than
      TTL_REFRESH was left, else a new one. */
  ghost predicate Vouches(headers: map<string, string>, incoming: Sid, before: Machine, at: Machine, after: Machine) {
    && incoming in after.owner
    && Live(at.store, incoming) && at.store.entries[incoming].user == after.owner[incoming]
    && USER_HEADER in headers && headers[USER_HEADER] == after.owner[incoming]
    && HEADER_NAME in headers && Owns(after, after.owner[incoming], headers[HEADER_NAME])
    && if headers[HEADER_NAME] == incoming then
         Ttl(at.store, incoming) > TTL_REFRESH
       else
         Ttl(at.store, incoming) <= TTL_REFRESH && headers[HEADER_NAME] !in before.owner && Retired(after, incoming)
  }

  /** The sid is a live session of the user; if it was made after `at`, with a whole lifetime. */
  ghost predicate Admits(m: Machine, sid: Sid, user: UserId, renewed: bool, at: Machine) {
    && Live(m.store, sid) && m.store.entries[sid].user == user
    && (renewed ==>
          && m.store.entries[sid].deadline.Some?
          && at.store.now + 86_400_000 <= m.store.entries[sid].deadline.value <= m.store.now + 86_400_000)
  }

  lemma TokenIsCookieText(sid: Sid)
    requires IsToken(sid)
    ensures Cookies.Pair(COOKIE_NAME, sid).WellFormed()
  {
    var text := Cookies.Pair(COOKIE_NAME, sid).Text();
    assert text[|text| - 1] == sid[|sid| - 1];
    assert forall i :: |COOKIE_NAME| < i < |text| ==> text[i] == sid[i - |COOKIE_NAME| - 1];
  }

  /** The headers the middleware writes before a renewal's cookie is added. */
  function SessionHeaders(sid: Sid, user: UserId): (h: map<string, string>)
    ensures HEADER_NAME in h && h[HEADER_NAME] == sid
    ensures USER_HEADER in h && h[USER_HEADER] == user
    ensures h.Keys == {HEADER_NAME, USER_HEADER}
    ensures SET_COOKIE !in h
    ensures HEADER_NAME != SET_COOKIE && USER_HEADER != SET_COOKIE
  {
    map[HEADER_NAME := sid, USER_HEADER := user]
  }

  /** The sid has a session, of a user on whom nothing else runs, that lasts beyond `until`; if it never
      expires, less than a lifetime passes. */
  predicate Admissible(m: Machine, mine: set<UserId>, sid: Sid, until: int) {
    && Held(m, mine, sid, until)
    && (m.store.entries[sid].deadline.None? ==> until < m.store.now + 86_400_000)
  }

  /** The outcome of a refresh: the sid was live at `at`; it is kept with more than TTL_REFRESH left, and
      else replaced by a new one of the same user. */
  ghost predicate Refreshed(m1: Machine, at: Machine, m: Machine, sid: Sid, sid': Sid) {
    && Bound(m1) && Bound(at) && Bound(m) && Live(at.store, sid)
    && if sid' == sid then Ttl(at.store, sid) > TTL_REFRESH
       else
         && Ttl(at.store, sid) <= TTL_REFRESH && sid' !in m1.owner && Retired(m, sid) && IsToken(sid')
         && sid in m.owner && sid' in m.store.entries
         && m.store.entries[sid'] == Entry(m.owner[sid], Some(m.store.now + LIFETIME))
  }

  ghost predicate Outlasts(mine: set<UserId>, m1: Machine, at: Machine, m: Machine, sid: Sid, sid': Sid) {
    forall until :: Admissible(m1, mine, sid, until) && at.store.now <= until ==> Held(m, mine, sid', until)
  }

  /** The names the proxy and the services know. */
  lemma HeadersAreNamed(sid: Sid, user: UserId)
    ensures SessionHeaders(sid, user) == map["x-unpaper-sid" := sid, "x-user-id" := user]
    ensures COOKIE_NAME == "__unpaperSID" && SET_COOKIE == "Set-Cookie"
  {
  }

  lemma VouchNow(headers: map<string, string>, incoming: Sid, u: UserId,
                 m0: Machine, m1: Machine, at: Machine, m3: Machine, m: Machine)
    requires HEADER_NAME in headers && USER_HEADER in headers && headers[USER_HEADER] == u
    requires Refreshed(m1, at, m3, incoming, headers[HEADER_NAME])
    requires Evolves(m0, m1) && Evolves(at, m3) && Evolves(m3, m)
    requires Live(m.store, headers[HEADER_NAME]) && m.store.entries[headers[HEADER_NAME]].user == u
    requires Owns(m, u, headers[HEADER_NAME])
    ensures Vouches(headers, incoming, m0, at, m)
    ensures Admits(m, headers[HEADER_NAME], u, headers[HEADER_NAME] != incoming, at)
  {
    var sid := headers[HEADER_NAME];
    assert Owns(at, at.store.entries[incoming].user, incoming);
    if sid != incoming {
      LiveIsNotPending(m3, sid);
      RetiredStay(m3, m);
    }
  }

  /** A sid once found live stays live until it is retired. */
  lemma StillLive(m: Machine, m': Machine, sid: Sid)
    requires Bound(m) && Live(m.store, sid) && Evolves(m, m') && !Retired(m', sid)
    ensures Live(m'.store, sid)
  {
    LiveIsNotPending(m, sid);
  }

  /** All headers but the cookie's are the same. */
  ghost predicate KeepsOthers(headers: map<string, string>, headers': map<string, string>) {
    forall k :: k in headers && k != SET_COOKIE ==> k in headers' && headers'[k] == headers[k]
  }

  lemma VouchKept(headers: map<string, string>, headers': map<string, string>, incoming: Sid,
                  m0: Machine, at: Machine, m: Machine, m': Machine)
    requires Vouches(headers, incoming, m0, at, m) && Evolves(m, m')
    requires KeepsOthers(headers, headers')
    ensures Vouches(headers', incoming, m0, at, m')
    ensures headers'[HEADER_NAME] == headers[HEADER_NAME]
  {
    EvolvesOwners(m, m');
    RetiredStay(m, m');
    assert HEADER_NAME != SET_COOKIE && USER_HEADER != SET_COOKIE;
  }

  /** Redis answers in rounded seconds: a session is left alone exactly when it has an expiry that
      is at least 30.5 seconds away, so one without an expiry is renewed every time. */
  lemma RenewalIsDue(s: Store, sid: Sid)
    ensures Ttl(s, sid) > TTL_REFRESH
      <==> Live(s, sid) && s.entries[sid].deadline.Some? && s.entries[sid].deadline.value - s.now >= 30_500
  {
  }

  /** A session on the point of expiry at `at` is outlived by the one that replaces it; one without
      an expiry, for a lifetime. */
  lemma RenewalLasts(mine: set<UserId>, m1: Machine, at: Machine, made: Machine, sid: Sid, sid': Sid, u: UserId)
    requires Evolves(m1, at) && Evolves(at, made) && Bound(at) && Owns(made, u, sid) && Ttl(at.store, sid) <= TTL_REFRESH
    requires forall until :: Admissible(m1, mine, sid, until) ==> Admissible(at, mine, sid, until)
    requires sid' in made.store.entries && made.store.entries[sid'] == Entry(u, Some(made.store.now + LIFETIME))
    ensures Outlasts(mine, m1, at, made, sid, sid')
  {
    RenewalIsDue(at.store, sid);
    if sid in at.store.entries {
      assert Owns(at, at.store.entries[sid].user, sid);
    }
  }

  /** Other operations leave a session admissible. */
  lemma AdmissibleOn(t: Tid, mine: set<UserId>, m: Machine, m': Machine, sid: Sid)
    requires Bound(m) && Elsewhere(t, mine, m, m')
    ensures forall until :: Held(m, mine, sid, until) ==> Held(m', mine, sid, until)
    ensures forall until :: Admissible(m, mine, sid, until)
              ==> Admissible(m', mine, sid, until) && Held(m, mine, sid, until)
  {
    HeldOn(t, mine, m, m', sid);
  }

  /** What was so before a refresh, for what follows it. */
  lemma AfterRefresh(mine: set<UserId>, m0: Machine, m1: Machine, at: Machine, m3: Machine, m4: Machine,
                     sid: Sid, sid': Sid)
    requires Refreshed(m1, at, m3, sid, sid') && Outlasts(mine, m1, at, m3, sid, sid')
    requires forall until :: Admissible(m0, mine, sid, until) ==> Admissible(m1, mine, sid, until)
    requires Evolves(at, m3) && Evolves(m3, m4) && Evolves(m0, m1)
    ensures Evolves(at, m4) && (sid' != sid ==> !Live(m4.store, sid) && Retired(m4, sid) && IsToken(sid'))
    ensures forall until :: Admissible(m0, mine, sid, until) && at.store.now <= until ==> Held(m3, mine, sid', until)
  {
    EvolvesOn(at, m3, m4);
    if sid' != sid {
      RetiredStay(m3, m4);
      RetiredAreDead(m4);
    }
  }

  lemma LaterNow(m: Machine, m': Machine)
    requires Evolves(m, m')
    ensures m.store.now <= m'.store.now
  {
  }

  lemma SelfEvolves(m: Machine)
    ensures Evolves(m, m)
  {
  }

  class AuthorizationServer {
    const sm: Manager
    const clientDomain: string

    constructor (sm: Manager, clientDomain: string)
      ensures this.sm == sm && this.clientDomain == clientDomain
    {
      this.sm, this.clientDomain := sm, clientDomain;
    }

    /** Checks the cookie's session, renews it near its expiry, and hands the headers to `next`. */
    method Authorize(ghost t: Tid, cookie: string, next: Route) returns (r: Response, ghost at: Machine)
      requires sm.rdb.Valid() && sm.rdb.Ours(t) && t !in sm.rdb.ops
      modifies sm.rdb
      ensures sm.rdb.Valid() && t !in sm.rdb.ops
      ensures Evolves(old(sm.rdb.M()), at) && Evolves(at, sm.rdb.M())
      ensures Cookies.Find(cookie, COOKIE_NAME).None? ==> r.KO? && sm.rdb.M() == old(sm.rdb.M())
      ensures Cookies.Find(cookie, COOKIE_NAME).Some? && sm.rdb.FaultsOf(t) == old(sm.rdb.FaultsOf(t))
        ==> r.OK? || !Live(sm.rdb.M().store, Cookies.Find(cookie, COOKIE_NAME).value)
      ensures
        && Cookies.Find(cookie, COOKIE_NAME).Some? && sm.rdb.FaultsOf(t) == old(sm.rdb.FaultsOf(t))
        && Admissible(old(sm.rdb.M()), sm.rdb.mine, Cookies.Find(cookie, COOKIE_NAME).value, sm.rdb.now)
        ==> r.OK?
      ensures r.OK? ==>
        && Cookies.Find(cookie, COOKIE_NAME).Some?
        && var incoming := Cookies.Find(cookie, COOKIE_NAME).value;
        && Vouches(r.headers, incoming, old(sm.rdb.M()), at, sm.rdb.M())
        && !old(Retired(sm.rdb.M(), incoming))
        && (next.Default? ==>
              && Admits(sm.rdb.M(), r.headers[HEADER_NAME], r.headers[USER_HEADER],
                        r.headers[HEADER_NAME] != incoming, at)
              && (SET_COOKIE in r.headers <==> r.headers[HEADER_NAME] != incoming)
              && r.headers.Keys <= {HEADER_NAME, USER_HEADER, SET_COOKIE}
              && (SET_COOKIE in r.headers ==>
                    && Ok(r.headers[SET_COOKIE])
                       == Cookies.GetValue(clientDomain, COOKIE_NAME, r.headers[HEADER_NAME], 86_400 * Cookies.SECOND)
                    && Cookies.Find(r.headers[SET_COOKIE], COOKIE_NAME) == Some(r.headers[HEADER_NAME])))
        && (next.SignOut? ==>
              && Retired(sm.rdb.M(), incoming) && Retired(sm.rdb.M(), r.headers[HEADER_NAME])
              && SET_COOKIE in r.headers
              && Ok(r.headers[SET_COOKIE]) == Cookies.DeleteCookie(clientDomain, COOKIE_NAME)
              && Cookies.Find(r.headers[SET_COOKIE], COOKIE_NAME) == Some("deleted"))
    {
      hide Bound, Indexed, Elsewhere, Evolves, Track, Retired, IsToken, Vouches, Admits, SessionHeaders, Ttl, Live;
      hide Held, Admissible, KeepsOthers, Refreshed, Outlasts;
      hide Cookies.GetValue, Cookies.DeleteCookie, Cookies.Find;
      ghost var m0 := sm.rdb.M();
      SelfEvolves(m0);
      at := m0;
      var sid, ok := Cookies.FindAttribute(cookie, COOKIE_NAME);
      if !ok {
        return KO("missing session in cookie"), at;
      }

      var has := sm.HasSession(t, sid);
      ghost var m1 := sm.rdb.M();
      ElsewhereGives(t, sm.rdb.mine, m0, m1);
      AdmissibleOn(t, sm.rdb.mine, m0, m1, sid);
      if has.Err? {
        return KO("error retrieving session"), at;
      }
      if !has.value {
        return KO("missing session in in-memory store"), at;
      }
      NotRetiredBefore(m0, m1, sid);

      ghost var incoming := sid;
      var refreshed, refreshOccurred;
      refreshed, refreshOccurred, at := Refresh(t, sid);
      ghost var m3 := sm.rdb.M();
      EvolvesOn(m0, m1, at);
      if refreshed.Err? {
        return Failure(refreshed.error), at;
      }
      sid := refreshed.value;

      var user := sm.GetUserBySID(t, sid);
      ghost var m4 := sm.rdb.M();
      ElsewhereGives(t, sm.rdb.mine, m3, m4);
      AfterRefresh(sm.rdb.mine, m0, m1, at, m3, m4, incoming, sid);
      LaterNow(at, m4);
      HeldOn(t, sm.rdb.mine, m3, m4, sid);
      if user.Err? {
        return Failure("error extracting user from session: " + user.error), at;
      }

      var headers := SessionHeaders(sid, user.value);
      if refreshOccurred {
        var value := Cookies.GetValue(clientDomain, COOKIE_NAME, sid, LIFETIME * NS_PER_MS);
        TokenIsCookieText(sid);
        Cookies.FindRecoversValue(clientDomain, COOKIE_NAME, sid, LIFETIME * NS_PER_MS);
        if value.Err? {
          return Failure("error printing the session cookie"), at;
        }
        headers := headers[SET_COOKIE := value.value];
      }
      VouchNow(headers, incoming, user.value, m0, m1, at, m3, m4);
      match next
      case Default =>
        r := OK(headers);
      case SignOut =>
        r := Forget(t, headers);
        EvolvesOn(at, m4, sm.rdb.M());
        LaterNow(at, sm.rdb.M());
        RetiredStay(m4, sm.rdb.M());
        RetiredAreDead(sm.rdb.M());
        if r.OK? {
          VouchKept(headers, r.headers, incoming, m0, at, m4, sm.rdb.M());
          assert HEADER_NAME != SET_COOKIE;
        }
    }

    /** Looks up the remaining time of a session that was found, and renews it near its expiry. */
    method Refresh(ghost t: Tid, sid: Sid) returns (r: Result<Sid, string>, refreshOccurred: bool, ghost at: Machine)
      requires sm.rdb.Valid() && sm.rdb.Ours(t) && t !in sm.rdb.ops && Live(sm.rdb.M().store, sid)
      modifies sm.rdb
      ensures sm.rdb.Valid() && sm.rdb.Ours(t) && t !in sm.rdb.ops
      ensures Evolves(old(sm.rdb.M()), at) && Evolves(at, sm.rdb.M())
      ensures sm.rdb.FaultsOf(t) >= old(sm.rdb.FaultsOf(t))
      ensures sm.rdb.FaultsOf(t) == old(sm.rdb.FaultsOf(t)) ==> r.Ok? || !Live(sm.rdb.M().store, sid)
      ensures sm.rdb.FaultsOf(t) == old(sm.rdb.FaultsOf(t)) && Held(old(sm.rdb.M()), sm.rdb.mine, sid, sm.rdb.now)
        ==> r.Ok?
      ensures r.Ok? ==> refreshOccurred == (r.value != sid)
      ensures r.Ok? ==> Refreshed(old(sm.rdb.M()), at, sm.rdb.M(), sid, r.value)
      ensures r.Ok? ==> Outlasts(sm.rdb.mine, old(sm.rdb.M()), at, sm.rdb.M(), sid, r.value)
    {
      hide Bound, Indexed, Elsewhere, Evolves, Track, Retired, Ttl, Live, Held, Admissible;
      ghost var m1 := sm.rdb.M();
      var timeRemaining := sm.rdb.TTL(t, sid);
      at := sm.rdb.M();
      ElsewhereGives(t, sm.rdb.mine, m1, at);
      AdmissibleOn(t, sm.rdb.mine, m1, at, sid);
      SelfEvolves(at);
      if timeRemaining.None? {
        return Err("TTL"), false, at;
      }
      RenewalIsDue(at.store, sid);
      if timeRemaining.value > TTL_REFRESH {
        return Ok(sid), false, at;
      }
      ghost var u;
      r, u := sm.RenewSession(t, sid, LIFETIME);
      TrackBegin(t, sm.rdb.mine, u, at, sm.rdb.M());
      EvolvesOwners(m1, at);
      if r.Err? {
        return Err("error renewing session: " + r.error), false, at;
      }
      refreshOccurred := true;
      StillLive(m1, at, sid);
      RenewalLasts(sm.rdb.mine, m1, at, sm.rdb.M(), sid, r.value, u);
    }

    /** SignOut: deletes the session named by the headers and the browser's cookie. */
    method Forget(ghost t: Tid, headers: map<string, string>) returns (r: Response)
      requires sm.rdb.Valid() && sm.rdb.Ours(t) && t !in sm.rdb.ops
      modifies sm.rdb
      ensures sm.rdb.Valid() && t !in sm.rdb.ops && Evolves(old(sm.rdb.M()), sm.rdb.M())
      ensures HEADER_NAME !in headers ==> r.KO? && sm.rdb.M() == old(sm.rdb.M())
      ensures r.KO? || r.OK?
      ensures sm.rdb.FaultsOf(t) >= old(sm.rdb.FaultsOf(t))
      ensures HEADER_NAME in headers && sm.rdb.FaultsOf(t) == old(sm.rdb.FaultsOf(t))
        ==> r.OK? || !Live(sm.rdb.M().store, headers[HEADER_NAME])
      ensures HEADER_NAME in headers && sm.rdb.FaultsOf(t) == old(sm.rdb.FaultsOf(t))
        ==> Held(old(sm.rdb.M()), sm.rdb.mine, headers[HEADER_NAME], sm.rdb.now) ==> r.OK?
      ensures HEADER_NAME in headers && old(Retired(sm.rdb.M(), headers[HEADER_NAME])) ==> r.KO?
      ensures r.OK? ==>
        && HEADER_NAME in headers && Retired(sm.rdb.M(), headers[HEADER_NAME])
        && KeepsOthers(headers, r.headers)
        && SET_COOKIE in r.headers
        && Ok(r.headers[SET_COOKIE]) == Cookies.DeleteCookie(clientDomain, COOKIE_NAME)
        && Cookies.Find(r.headers[SET_COOKIE], COOKIE_NAME) == Some("deleted")
    {
      hide Bound, Indexed, Elsewhere, Evolves, Track, Retired, Cookies.DeleteCookie;
      ghost var m0 := sm.rdb.M();
      SelfEvolves(m0);
      if HEADER_NAME !in headers {
        return KO("missing session");
      }
      var ok, u, _ := sm.Delete(t, headers[HEADER_NAME]);
      TrackBegin(t, sm.rdb.mine, u, m0, sm.rdb.M());
      if !ok {
        return KO("error deleting session from the in-memory db");
      }
      RetiredAreDead(sm.rdb.M());
      var deleted := Cookies.DeleteCookie(clientDomain, COOKIE_NAME);
      TokenIsCookieText("deleted");
      Cookies.FindRecoversDeleted(clientDomain, COOKIE_NAME);
      if deleted.Err? {
        return KO("error deleting session cookie");
      }
      return OK(headers[SET_COOKIE := deleted.value]);
    }
  }
}
