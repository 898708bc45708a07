/** The in-memory session store: one conversation session id per chat user,
    kept in a process-wide dictionary that `save_session` and
    `clear_session` update in place. */
module Session {
  import opened Wrappers

  type UserId = int
  type SessionId = string

  /** The dictionary lookup `_sessions.get(user)`. */
  function Lookup(sessions: map<UserId, SessionId>, user: UserId): (r: Option<SessionId>)
    ensures r.Some? <==> user in sessions
    ensures r.Some? ==> r.value == sessions[user]
  {
    if user in sessions then Some(sessions[user]) else None
  }

  /** One update of the store, as a value, so that histories of updates can
      be reasoned about. */
  datatype Update = Saved(user: UserId, session: SessionId) | Cleared(user: UserId)

  /** The effect of one update: a save assigns, a clear deletes (and does
      nothing when the user has no entry). */
  function Apply(sessions: map<UserId, SessionId>, u: Update): (r: map<UserId, SessionId>)
    ensures u.Saved? ==> r.Keys == sessions.Keys + {u.user}
    ensures u.Cleared? ==> r.Keys == sessions.Keys - {u.user}
    ensures forall v :: v in r && v != u.user ==> v in sessions && r[v] == sessions[v]
  {
    match u
    case Saved(user, session) => sessions[user := session]
    case Cleared(user) => sessions - {user}
  }

  /** The store after a history of updates, applied oldest first. */
  function Replay(sessions: map<UserId, SessionId>, history: seq<Update>): map<UserId, SessionId>
    decreases |history|
  {
    if history == [] then sessions
    else Replay(Apply(sessions, history[0]), history[1..])
  }

  /** The most recent word in `history` about `user`: `None` when the history
      never mentions the user, `Some(Some(s))` when the last mention saved
      `s`, `Some(None)` when it cleared the entry. */
  function LastWord(history: seq<Update>, user: UserId): (r: Option<Option<SessionId>>)
    ensures r.None? <==> forall i :: 0 <= i < |history| ==> history[i].user != user
    decreases |history|
  {
    if history == [] then None
    else
      var last := history[|history| - 1];
      if last.user == user then
        Some(if last.Saved? then Some(last.session) else None)
      else
        LastWord(history[..|history| - 1], user)
  }

  /** Replaying one more update is applying it to the replayed store. */
  lemma {:induction false} ReplaySnoc(sessions: map<UserId, SessionId>, history: seq<Update>, u: Update)
    ensures Replay(sessions, history + [u]) == Apply(Replay(sessions, history), u)
    decreases |history|
  {
    if history == [] {
      assert [u][1..] == [];
    } else {
      assert (history + [u])[1..] == history[1..] + [u];
      ReplaySnoc(Apply(sessions, history[0]), history[1..], u);
    }
  }

  /** Last write wins: after any history, `get_session(user)` answers with
      the most recent save for that user, `None` when the most recent
      mention was a clear, and the original entry when the history never
      mentions the user (so other users' updates never disturb it). */
  lemma {:induction false} ReplayLookup(sessions: map<UserId, SessionId>, history: seq<Update>, user: UserId)
    ensures Lookup(Replay(sessions, history), user) ==
      match LastWord(history, user)
      case None => Lookup(sessions, user)
      case Some(word) => word
    decreases |history|
  {
    if history != [] {
      var front, last := history[..|history| - 1], history[|history| - 1];
      assert history == front + [last];
      ReplaySnoc(sessions, front, last);
      ReplayLookup(sessions, front, user);
    }
  }

  /** A fresh store that has seen no update for `user` has no session for
      it, whatever was done for other users. */
  lemma NeverSavedIsAbsent(history: seq<Update>, user: UserId)
    requires forall i :: 0 <= i < |history| ==> history[i].user != user
    ensures Lookup(Replay(map[], history), user) == None
  {
    ReplayLookup(map[], history, user);
  }

  /** The module-level dictionary `_sessions` and the three functions that
      use it. */
  class SessionStore {
    var sessions: map<UserId, SessionId>

    /** The dictionary starts empty when the process starts. */
    constructor ()
      ensures sessions == map[]
    {
      sessions := map[];
    }

    /** `get_session`: the stored id, or `None` when the user has none. */
    method Get(user: UserId) returns (r: Option<SessionId>)
      ensures r.Some? <==> user in sessions
      ensures r.Some? ==> r.value == sessions[user]
    {
      if user in sessions {
        r := Some(sessions[user]);
      } else {
        r := None;
      }
    }

    /** `save_session`: the user's entry becomes `session` (a second save
        overwrites the first); every other entry is kept. */
    method Save(user: UserId, session: SessionId)
      modifies this
      ensures sessions == Apply(old(sessions), Saved(user, session))
      ensures Lookup(sessions, user) == Some(session)
      ensures forall v :: v != user ==> Lookup(sessions, v) == Lookup(old(sessions), v)
    {
      sessions := sessions[user := session];
    }

    /** `clear_session`: the user's entry is removed; clearing a user with
        no entry changes nothing; every other entry is kept. */
    method Clear(user: UserId)
      modifies this
      ensures sessions == Apply(old(sessions), Cleared(user))
      ensures Lookup(sessions, user) == None
      ensures user !in old(sessions) ==> sessions == old(sessions)
      ensures forall v :: v != user ==> Lookup(sessions, v) == Lookup(old(sessions), v)
    {
      if user in sessions {
        sessions := sessions - {user};
      }
    }
  }
}
