/**
 * Who may reach what in the admin app (src/app.js): the `authGate`
 * middleware that lets anonymous requests through only on an allowlist of
 * path prefixes, the `requireAuth`/`requireAdmin` guards of the admin APIs,
 * and the admin-presence cache that decides whether sign-up is offered.
 */
module Access {
  import opened Wrappers
  import opened JsValues

  /** The session's user; an `id` of 0 stands for a missing or falsy id. */
  datatype User = User(id: int, role: string)

  /** `req.session?.user`: None when there is no session or no user in it. */
  type Session = Option<User>

  /** `!!req.session?.user?.id`. */
  predicate SignedIn(session: Session)
  {
    session.Some? && session.value.id != 0
  }

  /** The paths authGate lets through without a session, as string prefixes. */
  const OpenPrefixes: seq<string> := ["/auth", "/static", "/shared", "/health", "/__cache-policy", "/socket.io", "/api"]

  /** Whether `path` starts with one of `prefixes`, tried in order. */
  function StartsWithAny(path: string, prefixes: seq<string>): (r: bool)
    ensures r <==> exists i :: 0 <= i < |prefixes| && StartsWith(path, prefixes[i])
  {
    if prefixes == [] then false
    else StartsWith(path, prefixes[0]) || StartsWithAny(path, prefixes[1..])
  }

  /** What authGate does with a request: pass it on, or render the sign-in page with status 200. */
  datatype GateResult = Next | AuthRequired

  /**
   * authGate: a request passes exactly when the session has a user id or
   * its path string-starts with one of the open prefixes.
   */
  function AuthGate(session: Session, path: string): (r: GateResult)
    ensures r == Next <==>
      SignedIn(session) || exists i :: 0 <= i < |OpenPrefixes| && StartsWith(path, OpenPrefixes[i])
    ensures r == Next || r == AuthRequired
  {
    if SignedIn(session) then Next
    else if StartsWithAny(path, OpenPrefixes) then Next
    else AuthRequired
  }

  /** A path extended after an open prefix is open. */
  lemma OpenBelowPrefix(session: Session, i: nat, rest: string)
    requires i < |OpenPrefixes|
    ensures AuthGate(session, OpenPrefixes[i] + rest) == Next
  {
    assert (OpenPrefixes[i] + rest)[..|OpenPrefixes[i]|] == OpenPrefixes[i];
  }

  /**
   * The match is on the string, not on path segments: `/apis` and
   * `/authors` are as open as `/api` and `/auth`.
   */
  lemma PrefixNotSegment(session: Session)
    ensures AuthGate(session, "/apis") == Next
    ensures AuthGate(session, "/authors") == Next
  {
    OpenBelowPrefix(session, 6, "s");
    OpenBelowPrefix(session, 0, "ors");
  }

  /** An anonymous request whose second character begins no open prefix is sent to sign in. */
  lemma ClosedBySecondChar(path: string)
    requires |path| >= 2 && path[1] !in {'a', 's', 'h', '_'}
    ensures AuthGate(None, path) == AuthRequired
  {
    forall i | 0 <= i < |OpenPrefixes| ensures !StartsWith(path, OpenPrefixes[i]) {
      var p := OpenPrefixes[i];
      assert |p| >= 2 && p[1] in {'a', 's', 'h', '_'};
      assert !StartsWith(path, p) by {
        if |p| <= |path| { assert path[..|p|][1] == path[1]; }
      }
    }
  }

  /** An anonymous request for the dashboard gets the sign-in page. */
  lemma DashboardNeedsSignIn()
    ensures AuthGate(None, "/dashboard") == AuthRequired
  {
    ClosedBySecondChar("/dashboard");
  }

  /** What a guard does: let the handler run, or answer with a JSON error. */
  datatype Verdict = Pass | Deny(status: int, error: string)

  /** requireAuth: 401 "Not authenticated" without a user id. */
  function RequireAuth(session: Session): (v: Verdict)
    ensures v == Pass <==> SignedIn(session)
    ensures v != Pass ==> v == Deny(401, "Not authenticated")
  {
    if !SignedIn(session) then Deny(401, "Not authenticated") else Pass
  }

  predicate IsAdminRole(role: string)
  {
    role == "admin" || role == "superadmin"
  }

  /** requireAdmin: 403 "Forbidden" unless the user's role is admin or superadmin; the id is not looked at. */
  function RequireAdmin(session: Session): (v: Verdict)
    ensures v == Pass <==> session.Some? && IsAdminRole(session.value.role)
    ensures v != Pass ==> v == Deny(403, "Forbidden")
  {
    if session.None? || !IsAdminRole(session.value.role) then Deny(403, "Forbidden") else Pass
  }

  /** `requireAuth, requireAdmin` in front of an admin API: the first guard that denies answers. */
  function AdminGuard(session: Session): Verdict
  {
    match RequireAuth(session)
    case Deny(s, m) => Deny(s, m)
    case Pass => RequireAdmin(session)
  }

  /**
   * The admin APIs run only for a signed-in admin; a caller without a user
   * id gets 401 whatever the role, a signed-in non-admin gets 403.
   */
  lemma AdminGuardOutcomes(session: Session)
    ensures AdminGuard(session) == Pass <==> SignedIn(session) && IsAdminRole(session.value.role)
    ensures !SignedIn(session) ==> AdminGuard(session) == Deny(401, "Not authenticated")
    ensures SignedIn(session) && !IsAdminRole(session.value.role) ==> AdminGuard(session) == Deny(403, "Forbidden")
  {
  }

  /**
   * An anonymous call to an admin API passes authGate, because every
   * `/api` path is open, and is then refused with 401 by requireAuth.
   */
  lemma AnonymousApiIs401(rest: string)
    ensures AuthGate(None, "/api" + rest) == Next
    ensures AdminGuard(None) == Deny(401, "Not authenticated")
  {
    OpenBelowPrefix(None, 6, rest);
  }

  // ---------------------------------------------------------------------
  // Admin presence cache

  /** `adminPresenceCache`: the last answer (`null` until the first) and when it was recorded, in ms. */
  datatype Presence = Presence(hasAdmin: Option<bool>, ts: int)

  /** The lifetime of a cached answer, in ms. */
  const PresenceTtl: int := 5000

  /** What the admin query would report: the number of admin rows found, or that it threw. */
  datatype QueryOutcome = Rows(count: nat) | QueryFailed

  /** The cached answer is used while it is set, stamped with a non-zero time and younger than the lifetime. */
  predicate CacheHit(p: Presence, now: int)
  {
    p.ts != 0 && now - p.ts < PresenceTtl && p.hasAdmin.Some?
  }

  /** `!!(rows && rows.length)`, and `true` when the query threw. */
  predicate QueryAnswer(q: QueryOutcome)
  {
    q.QueryFailed? || q.count > 0
  }

  /**
   * ensureAdminPresenceFlag as a function of the cache: `now` is the clock
   * on entry, `q` what the query would report and `stamp` the clock after
   * it. Returns the flag and the new cache.
   */
  function Lookup(p: Presence, now: int, q: QueryOutcome, stamp: int): (bool, Presence)
  {
    if CacheHit(p, now) then (p.hasAdmin.value, p)
    else (QueryAnswer(q), Presence(Some(QueryAnswer(q)), stamp))
  }

  /** The `nudeplatform:first-admin-created` event: an admin exists as of `stamp`. */
  function AdminCreated(stamp: int): Presence
  {
    Presence(Some(true), stamp)
  }

  /**
   * A hit answers from the cache and leaves it alone, whatever the query
   * would say; a miss answers with the query and records it at `stamp`.
   */
  lemma LookupOutcome(p: Presence, now: int, q: QueryOutcome, stamp: int)
    ensures CacheHit(p, now) ==>
      forall q', stamp' :: Lookup(p, now, q', stamp') == (p.hasAdmin.value, p)
    ensures !CacheHit(p, now) ==>
      Lookup(p, now, q, stamp) == (QueryAnswer(q), Presence(Some(QueryAnswer(q)), stamp))
  {
  }

  /** The process starts with an empty cache, which always asks the database. */
  lemma EmptyCacheQueries(now: int, q: QueryOutcome, stamp: int)
    ensures Lookup(Presence(None, 0), now, q, stamp).0 == QueryAnswer(q)
  {
  }

  /** A failed query counts as "an admin exists". */
  lemma FailedQueryMeansAdmin(p: Presence, now: int, stamp: int)
    requires !CacheHit(p, now)
    ensures Lookup(p, now, QueryFailed, stamp).0
  {
  }

  /**
   * The answer is false only when the database was asked and found no
   * admin row, or when a false answer is still cached.
   */
  lemma FalseOnlyFromEmptyRows(p: Presence, now: int, q: QueryOutcome, stamp: int)
    ensures !Lookup(p, now, q, stamp).0 ==>
      (CacheHit(p, now) && p.hasAdmin == Some(false)) || (!CacheHit(p, now) && q == Rows(0))
  {
  }

  /**
   * A second lookup within the lifetime of the first one's query gives the
   * same answer without asking again, whatever the database says by then.
   */
  lemma {:induction false} SecondLookupCached(p: Presence, now1: int, q1: QueryOutcome, stamp1: int,
                                              now2: int, q2: QueryOutcome, stamp2: int)
    requires stamp1 != 0 && now2 - stamp1 < PresenceTtl
    ensures var (flag1, p1) := Lookup(p, now1, q1, stamp1);
      CacheHit(p1, now2) || CacheHit(p, now1)
    ensures var (flag1, p1) := Lookup(p, now1, q1, stamp1);
      !CacheHit(p, now1) ==> Lookup(p1, now2, q2, stamp2) == (flag1, p1)
  {
  }

  /**
   * After the first-admin event, every lookup within the lifetime answers
   * true without asking, so sign-up closes at once.
   */
  lemma AdminCreatedIsSeen(stamp: int, now: int, q: QueryOutcome, stamp': int)
    requires stamp != 0 && now - stamp < PresenceTtl
    ensures Lookup(AdminCreated(stamp), now, q, stamp') == (true, AdminCreated(stamp))
  {
  }

  /** The view locals the middleware sets from the presence flag and the session. */
  datatype Locals = Locals(disableSignup: bool, adminNeeded: bool, isAuthenticated: bool)

  function LocalsFor(hasAdmin: bool, session: Session): (l: Locals)
  {
    Locals(hasAdmin, !hasAdmin, SignedIn(session))
  }

  /**
   * Sign-up is offered exactly when bootstrapping is needed, and only when
   * the database was found without any admin (or that finding is cached).
   */
  lemma SignupOnlyWithoutAdmin(p: Presence, now: int, q: QueryOutcome, stamp: int, session: Session)
    ensures var l := LocalsFor(Lookup(p, now, q, stamp).0, session);
      && (l.disableSignup <==> !l.adminNeeded)
      && (!l.disableSignup ==> (CacheHit(p, now) && p.hasAdmin == Some(false)) || (!CacheHit(p, now) && q == Rows(0)))
      && (l.isAuthenticated <==> SignedIn(session))
  {
    FalseOnlyFromEmptyRows(p, now, q, stamp);
  }

  /** The module-level cache object, reassigned by lookups and by the event. */
  class AdminPresenceCache {
    var hasAdmin: Option<bool>
    var ts: int

    function State(): Presence
      reads this
    {
      Presence(hasAdmin, ts)
    }

    /** `{ hasAdmin: null, ts: 0 }`. */
    constructor ()
      ensures hasAdmin == None && ts == 0
    {
      hasAdmin := None;
      ts := 0;
    }

    /** ensureAdminPresenceFlag: the query is consulted only on a miss. */
    method EnsureAdminPresenceFlag(now: int, q: QueryOutcome, stamp: int) returns (flag: bool)
      modifies this
      ensures (flag, State()) == Lookup(old(State()), now, q, stamp)
    {
      if ts != 0 && now - ts < PresenceTtl && hasAdmin != None {
        return hasAdmin.value;
      }
      var found := match q
        case QueryFailed => true
        case Rows(n) => n > 0;
      hasAdmin := Some(found);
      ts := stamp;
      flag := hasAdmin.value;
    }

    /** The first-admin-created event handler. */
    method OnFirstAdminCreated(stamp: int)
      modifies this
      ensures State() == AdminCreated(stamp)
    {
      hasAdmin := Some(true);
      ts := stamp;
    }
  }
}
