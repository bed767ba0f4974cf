/**
 Where one browser tab keeps the signed-in session (admin-web/src/lib/session.ts):
 localStorage shared with the other tabs, its own sessionStorage, and the module
 variable that requests read.
 */
module SessionStore {
  import opened Options
  import opened TokenService

  datatype Session = Session(access: Jwt, refresh: Jwt)

  /** What one tab sees: the two stores' entries and its module variable. */
  datatype View = View(local: Option<Session>, own: Option<Session>, current: Option<Session>)

  /** `read`: localStorage first, then sessionStorage. */
  function ReadView(v: View): Option<Session>
  {
    if v.local.Some? then v.local else v.own
  }

  function Reloaded(v: View): View { v.(current := ReadView(v)) }

  /** `saveSession`: a refresh (no `remember`) keeps the store the session already
      lives in; a sign-in chooses one. The other store is emptied. */
  function SavedIn(v: View, session: Session, remember: Option<bool>): (r: View)
    ensures ReadView(r) == Some(session) == r.current
    ensures r.local.None? || r.own.None?
    ensures remember.None? && ReadView(v).Some? ==> (r.local.Some? <==> v.local.Some?)
    ensures remember.None? && ReadView(v).None? ==> r.local.None?
    ensures remember.Some? ==> (r.local.Some? <==> remember.value)
  {
    var toLocal := if remember.None? then ReadView(v).Some? && v.local.Some? else remember.value;
    if toLocal then View(Some(session), None, Some(session)) else View(None, Some(session), Some(session))
  }

  function Cleared(v: View): View { View(None, None, None) }

  class Storage {
    var entry: Option<Session>

    constructor (entry: Option<Session>)
      ensures this.entry == entry
    {
      this.entry := entry;
    }
  }

  class Tab {
    const localStorage: Storage
    const sessionStorage: Storage
    var current: Option<Session>

    function Seen(): View
      reads this, localStorage, sessionStorage
    {
      View(localStorage.entry, sessionStorage.entry, current)
    }

    /** A tab starts from whatever its stores hold. */
    constructor (localStorage: Storage, sessionStorage: Storage)
      ensures this.localStorage == localStorage && this.sessionStorage == sessionStorage
      ensures current == ReadView(Seen())
    {
      this.localStorage, this.sessionStorage := localStorage, sessionStorage;
      current := if localStorage.entry.Some? then localStorage.entry else sessionStorage.entry;
    }

    method ReadStores() returns (found: Option<Session>, at: Storage)
      ensures found == ReadView(Seen())
      ensures at == if localStorage.entry.Some? then localStorage else sessionStorage
    {
      if localStorage.entry.Some? { return localStorage.entry, localStorage; }
      return sessionStorage.entry, sessionStorage;
    }

    /** Also what the storage event's handler does. */
    method ReloadSession() returns (session: Option<Session>)
      modifies this
      ensures Seen() == Reloaded(old(Seen())) && session == current
    {
      var found, _ := ReadStores();
      current := found;
      session := current;
    }

    method SaveSession(session: Session, remember: Option<bool>)
      requires localStorage != sessionStorage
      modifies this, localStorage, sessionStorage
      ensures Seen() == SavedIn(old(Seen()), session, remember)
    {
      var existing, at := ReadStores();
      var target := sessionStorage;
      if remember.None? && existing.Some? {
        target := at;
      } else if remember == Some(true) {
        target := localStorage;
      }
      if localStorage != target { localStorage.entry := None; }
      if sessionStorage != target { sessionStorage.entry := None; }
      target.entry := Some(session);
      current := Some(session);
    }

    method ClearSession()
      modifies this, localStorage, sessionStorage
      ensures Seen() == Cleared(old(Seen()))
    {
      localStorage.entry := None;
      sessionStorage.entry := None;
      current := None;
    }
  }
}
