/**
 Page leases: they mark a page as in use while it is not yet registered in a tab group, and
 page creation with one recovery attempt on a fresh session.
 */
module PageLeases {
  import opened Optional

  /** Identity of a browser page. */
  type Page = nat

  // ----- the leases of one session as a table from lease to protected page

  function Acquired<L>(leases: map<L, Option<Page>>, lease: L): map<L, Option<Page>> {
    leases[lease := None]
  }

  /** A lease that is not live stays out of the table. */
  function WithPage<L>(leases: map<L, Option<Page>>, lease: L, page: Page): map<L, Option<Page>> {
    if lease in leases then leases[lease := Some(page)] else leases
  }

  function Released<L>(leases: map<L, Option<Page>>, lease: L): map<L, Option<Page>> {
    leases - {lease}
  }

  predicate Protects<L>(leases: map<L, Option<Page>>, page: Page) {
    exists l :: l in leases && leases[l] == Some(page)
  }

  class Lease {
    var page: Option<Page>
    var released: bool

    constructor ()
      ensures page == None && !released
    {
      page, released := None, false;
    }
  }

  class Session {
    /** The live leases; a session that never had one has the empty set. */
    var pageLeases: set<Lease>

    constructor ()
      ensures pageLeases == {}
    {
      pageLeases := {};
    }

    function Leases(): map<Lease, Option<Page>>
      reads this, pageLeases
    {
      map l | l in pageLeases :: l.page
    }
  }

  method AcquirePageLease(session: Session) returns (lease: Lease)
    modifies session
    ensures fresh(lease) && lease.page == None && !lease.released
    ensures session.pageLeases == old(session.pageLeases) + {lease}
    ensures session.Leases() == Acquired(old(session.Leases()), lease)
  {
    lease := new Lease();
    session.pageLeases := session.pageLeases + {lease};
  }

  /** Any session sees the page on its lease, if it holds that lease. */
  method SetLeasedPage(ghost session: Session, lease: Lease, page: Page)
    modifies lease`page
    ensures lease.page == Some(page)
    ensures session.Leases() == WithPage(old(session.Leases()), lease, page)
  {
    lease.page := Some(page);
  }

  /** Releasing twice, or releasing nothing, has no effect. */
  method ReleasePageLease(session: Session?, lease: Lease?)
    modifies lease, session
    ensures lease != null ==> lease.released && lease.page == old(lease.page)
    ensures session != null && (lease == null || old(lease.released)) ==>
      session.pageLeases == old(session.pageLeases) && session.Leases() == old(session.Leases())
    ensures session != null && lease != null && !old(lease.released) ==>
      && session.pageLeases == old(session.pageLeases) - {lease}
      && session.Leases() == Released(old(session.Leases()), lease)
  {
    if lease == null || lease.released {
      return;
    }
    lease.released := true;
    if session != null {
      session.pageLeases := session.pageLeases - {lease};
    }
  }

  predicate HasActivePageLeases(session: Session?)
    reads session
  {
    session != null && session.pageLeases != {}
  }

  predicate IsPageLeased(session: Session?, page: Option<Page>)
    reads session, if session == null then {} else session.pageLeases
  {
    page.Some? && session != null && exists l :: l in session.pageLeases && l.page == page
  }

  /** The two queries of the reapers are those of the lease table. */
  lemma QueriesAreTheTable(session: Session, page: Page)
    ensures HasActivePageLeases(session) <==> session.Leases() != map[]
    ensures IsPageLeased(session, Some(page)) <==> Protects(session.Leases(), page)
  {
    var t := session.Leases();
    if HasActivePageLeases(session) {
      var l :| l in session.pageLeases;
      assert l in t;
    }
    if IsPageLeased(session, Some(page)) {
      var l :| l in session.pageLeases && l.page == Some(page);
      assert l in t && t[l] == Some(page);
    }
  }

  /**
   From acquisition to release the session counts as in use, and from setting to release the
   page is protected; afterwards it is protected only if another lease holds it.
   */
  method LeaseLifeCycle(session: Session, page: Page) returns (inUse: bool, during: bool, after: bool)
    modifies session
    ensures inUse && during
    ensures after <==> old(IsPageLeased(session, Some(page)))
    ensures session.pageLeases == old(session.pageLeases) && session.Leases() == old(session.Leases())
  {
    var lease := AcquirePageLease(session);
    inUse := HasActivePageLeases(session);
    SetLeasedPage(session, lease, page);
    during := IsPageLeased(session, Some(page));
    ReleasePageLease(session, lease);
    after := IsPageLeased(session, Some(page));
  }

  // ----- creating a page, with one recovery

  /** How opening a page ended. */
  datatype Opening = Opened(page: Page) | TimedOut | DeadContext | OtherFailure

  predicate Recoverable(o: Opening) { o.TimedOut? || o.DeadContext? }

  /** The session map; `destroyed` lists the sessions that the request at hand destroyed. */
  class SessionMap {
    var sessions: map<string, Session>
    var destroyed: seq<Session>

    constructor ()
      ensures sessions == map[] && destroyed == []
    {
      sessions, destroyed := map[], [];
    }

    /** Destroys whatever session the user has at this moment. */
    method Destroy(user: string)
      modifies this
      ensures sessions == old(sessions) - {user}
      ensures destroyed == old(destroyed) + if user in old(sessions) then [old(sessions[user])] else []
    {
      if user in sessions {
        destroyed := destroyed + [sessions[user]];
        sessions := sessions - {user};
      }
    }
  }

  /**
   What other requests did while this one waited: leases that joined or left the session it
   waits on, and the session map they left behind.
   */
  datatype Others = Others(joined: set<Lease>, gone: set<Lease>, sessions: map<string, Session>)

  function Mixed(leases: set<Lease>, o: Others): set<Lease> {
    leases + o.joined - o.gone
  }

  /** The request is suspended while other requests come and go. */
  method Await(table: SessionMap, session: Session, o: Others)
    modifies session, table`sessions
    ensures session.pageLeases == Mixed(old(session.pageLeases), o) && table.sessions == o.sessions
  {
    session.pageLeases := session.pageLeases + o.joined - o.gone;
    table.sessions := o.sessions;
  }

  /** Opens a page under a lease; if that fails, the lease is released again. */
  method CreateLeasedPage(table: SessionMap, session: Session, o: Opening, others: Others) returns (lease: Lease)
    modifies session, table`sessions
    ensures fresh(lease) && table.sessions == others.sessions
    ensures o.Opened? ==> !lease.released && lease.page == Some(o.page)
    ensures session.pageLeases == Mixed(old(session.pageLeases), others) + if o.Opened? then {lease} else {}
  {
    hide Session.Leases, Acquired, WithPage, Released;
    lease := AcquirePageLease(session);
    Await(table, session, others);
    if o.Opened? {
      SetLeasedPage(session, lease, o.page);
    } else {
      ReleasePageLease(session, lease);
    }
  }

  datatype Creation = Created(session: Session, page: Page, lease: Lease) | NotCreated

  /**
   Opens a page on `session`; after a time-out or a dead context it destroys the user's
   current session, if that is still this one, and tries once more on the session it then
   gets (`replacement`, or `null` when getting it fails; `torn` says that the destruction
   did not fail). Whatever other requests do to the session map and the leases meanwhile, no
   other session is destroyed, a success leaves exactly one new live lease, holding the
   returned page, on the returned session, and a failure leaves none of its leases behind.
   */
  method CreatePageWithSessionRecovery(
    table: SessionMap, user: string, session: Session, first: Opening, during: Others,
    torn: bool, replacement: Session?, second: Opening, later: Others)
    returns (r: Creation, pagesRequested: nat)
    modifies table, session, replacement
    ensures table.destroyed ==
      old(table.destroyed) +
        if (first == TimedOut || first == DeadContext) && user in during.sessions && during.sessions[user] == session
        then [session] else []
    ensures 1 <= pagesRequested <= 2
    ensures pagesRequested == 2 <==>
      && (first == TimedOut || first == DeadContext) && replacement != null
      && (user in during.sessions && during.sessions[user] == session ==> torn)
    ensures r.Created? <==> first.Opened? || (pagesRequested == 2 && second.Opened?)
    ensures r.Created? ==>
      && fresh(r.lease) && !r.lease.released && r.lease.page == Some(r.page) && r.lease in r.session.pageLeases
      && (if first.Opened? then r.session == session && r.page == first.page
          else r.session == replacement && r.page == second.page)
    ensures first.Opened? ==> session.pageLeases == Mixed(old(session.pageLeases), during) + {r.lease}
    ensures !first.Opened? && (session != replacement || pagesRequested < 2) ==>
      session.pageLeases == Mixed(old(session.pageLeases), during)
    ensures replacement != null && replacement != session && pagesRequested < 2 ==>
      replacement.pageLeases == old(replacement.pageLeases)
    ensures replacement != null && replacement != session && pagesRequested == 2 ==>
      replacement.pageLeases ==
        Mixed(old(replacement.pageLeases), later) + if r.Created? then {r.lease} else {}
    ensures replacement == session && pagesRequested == 2 ==>
      session.pageLeases ==
        Mixed(Mixed(old(session.pageLeases), during), later) + if r.Created? then {r.lease} else {}
  {
    pagesRequested := 1;
    r := NotCreated;
    var lease := CreateLeasedPage(table, session, first, during);
    if first.Opened? {
      r := Created(session, first.page, lease);
      return;
    }
    if !Recoverable(first) {
      return;
    }
    if user in table.sessions && table.sessions[user] == session {
      table.Destroy(user);
      if !torn {
        return;
      }
    }
    if replacement == null {
      return;
    }
    pagesRequested := 2;
    var retry := CreateLeasedPage(table, replacement, second, later);
    if second.Opened? {
      r := Created(replacement, second.page, retry);
    }
  }
}
