/** The Memory client: key schemes, the `SessionState` and `CurrentProject`
    records and their dictionary round trips, over a `MemoryStore.Store`. */
module MemoryClient {
  import opened Wrappers
  import opened Json
  import opened Strings
  import Clock
  import Dict
  import Seqs
  import MemoryStore

  /** The session record kept in Memory. `updated_at` is an ISO string. */
  datatype SessionState = SessionState(
    project: string, user: string,
    currentPhase: string, currentTask: string, lastCompleted: string,
    blockers: seq<string>, notes: string, lastSummary: string, nextAction: string,
    updatedAt: string)

  const SessionFields: seq<string> := ["project", "user", "current_phase", "current_task",
    "last_completed", "blockers", "notes", "last_summary", "next_action", "updated_at"]

  /** `asdict(state)`: exactly the ten fields. */
  function ToDict(s: SessionState): (d: Obj)
    ensures d.Keys == set k | k in SessionFields
    ensures d["project"] == JStr(s.project) && d["user"] == JStr(s.user)
  {
    map["project" := JStr(s.project), "user" := JStr(s.user),
        "current_phase" := JStr(s.currentPhase), "current_task" := JStr(s.currentTask),
        "last_completed" := JStr(s.lastCompleted), "blockers" := StrList(s.blockers),
        "notes" := JStr(s.notes), "last_summary" := JStr(s.lastSummary),
        "next_action" := JStr(s.nextAction), "updated_at" := JStr(s.updatedAt)]
  }

  /** `SessionState.from_dict`: a missing field takes its default. */
  function FromDict(d: Obj): (s: SessionState)
    ensures "project" !in d ==> s.project == ""
    ensures "blockers" !in d ==> s.blockers == []
    ensures "updated_at" !in d ==> s.updatedAt == ""
  {
    SessionState(
      StrField(d, "project", ""), StrField(d, "user", ""),
      StrField(d, "current_phase", ""), StrField(d, "current_task", ""),
      StrField(d, "last_completed", ""), StrListField(d, "blockers"),
      StrField(d, "notes", ""), StrField(d, "last_summary", ""),
      StrField(d, "next_action", ""), StrField(d, "updated_at", ""))
  }

  /** `from_dict(to_dict(s)) == s`. */
  lemma {:induction false} SessionRoundTrip(s: SessionState)
    ensures FromDict(ToDict(s)) == s
  {
    var d := ToDict(s);
    HeadFields(s);
    TailFields(s);
    StrListRoundTrip(s.blockers);
  }

  lemma {:induction false} HeadFields(s: SessionState)
    ensures StrField(ToDict(s), "project", "") == s.project
    ensures StrField(ToDict(s), "user", "") == s.user
    ensures StrField(ToDict(s), "current_phase", "") == s.currentPhase
    ensures StrField(ToDict(s), "current_task", "") == s.currentTask
    ensures StrField(ToDict(s), "last_completed", "") == s.lastCompleted
  {
  }

  lemma {:induction false} TailFields(s: SessionState)
    ensures ToDict(s)["blockers"] == StrList(s.blockers)
    ensures StrField(ToDict(s), "notes", "") == s.notes
    ensures StrField(ToDict(s), "last_summary", "") == s.lastSummary
    ensures StrField(ToDict(s), "next_action", "") == s.nextAction
    ensures StrField(ToDict(s), "updated_at", "") == s.updatedAt
  {
  }

  /** The empty dictionary decodes to the all-defaults record. */
  lemma {:induction false} SessionDefaults()
    ensures FromDict(map[]) == SessionState("", "", "", "", "", [], "", "", "", "")
  {
  }

  datatype CurrentProject = CurrentProject(projectId: string, switchedAt: string)

  function CurrentToDict(c: CurrentProject): (d: Obj)
    ensures d.Keys == {"project_id", "switched_at"}
  {
    map["project_id" := JStr(c.projectId), "switched_at" := JStr(c.switchedAt)]
  }

  function CurrentFromDict(d: Obj): (c: CurrentProject)
    ensures "project_id" !in d ==> c.projectId == ""
  {
    CurrentProject(StrField(d, "project_id", ""), StrField(d, "switched_at", ""))
  }

  lemma {:induction false} CurrentRoundTrip(c: CurrentProject)
    ensures CurrentFromDict(CurrentToDict(c)) == c
  {
  }

  const SessionPrefix: string := "prismind:session:"

  /** `prismind:session:{project}:{user}`. */
  function SessionKey(project: string, user: string): (k: string)
    ensures StartsWith(k, SessionPrefix)
    ensures EndsWith(k, ":" + user)
  {
    var k := SessionPrefix + project + ":" + user;
    assert k[..|SessionPrefix|] == SessionPrefix;
    assert k[|k| - |":" + user|..] == ":" + user;
    k
  }

  /** `prismind:current_project:{user}`. */
  function CurrentProjectKey(user: string): (k: string)
    ensures StartsWith(k, "prismind:current_project:")
    ensures k[|"prismind:current_project:"|..] == user
  {
    "prismind:current_project:" + user
  }

  /** Session keys and current-project keys never collide. */
  lemma {:induction false} KeySchemesDisjoint(project: string, user: string, other: string)
    ensures SessionKey(project, user) != CurrentProjectKey(other)
  {
    var a := SessionKey(project, user);
    var b := CurrentProjectKey(other);
    assert a[9] == 's' && b[9] == 'c';
  }

  /** A stored value decoded as a dictionary (a non-dictionary reads as `{}`). */
  function AsObj(j: Json): Obj {
    if j.JObj? then j.fields else map[]
  }

  /** `get_session_state`: `None` when nothing, or `None`, is stored under the key. */
  function GetSessionState(st: MemoryStore.Store, project: string, user: string): (r: Option<SessionState>)
    ensures r.None? <==> (MemoryStore.Get(st, SessionKey(project, user)).None?
                          || MemoryStore.Get(st, SessionKey(project, user)).value.value == JNull)
  {
    match MemoryStore.Get(st, SessionKey(project, user))
    case None => None
    case Some(e) => if e.value == JNull then None else Some(FromDict(AsObj(e.value)))
  }

  /** `save_session_state`: stamps `updated_at` with now, then writes under the
      key of the state's own project and user. */
  function SaveSessionState(st: MemoryStore.Store, s: SessionState, now: Clock.Instant): (r: MemoryStore.Store)
    ensures GetSessionState(r, s.project, s.user) == Some(s.(updatedAt := Clock.IsoFormat(now)))
    ensures forall k :: k != SessionKey(s.project, s.user) ==> MemoryStore.Get(r, k) == MemoryStore.Get(st, k)
  {
    var stamped := s.(updatedAt := Clock.IsoFormat(now));
    SessionRoundTrip(stamped);
    MemoryStore.Set(st, SessionKey(s.project, s.user), JObj(ToDict(stamped)), now)
  }

  /** `get_current_project`. */
  function GetCurrentProject(st: MemoryStore.Store, user: string): (r: Option<CurrentProject>)
    ensures r.None? <==> (MemoryStore.Get(st, CurrentProjectKey(user)).None?
                          || MemoryStore.Get(st, CurrentProjectKey(user)).value.value == JNull)
  {
    match MemoryStore.Get(st, CurrentProjectKey(user))
    case None => None
    case Some(e) => if e.value == JNull then None else Some(CurrentFromDict(AsObj(e.value)))
  }

  /** `set_current_project`: a later read returns the project and the switch time. */
  function SetCurrentProject(st: MemoryStore.Store, user: string, projectId: string, now: Clock.Instant)
    : (r: MemoryStore.Store)
    ensures GetCurrentProject(r, user) == Some(CurrentProject(projectId, Clock.IsoFormat(now)))
    ensures forall k :: k != CurrentProjectKey(user) ==> MemoryStore.Get(r, k) == MemoryStore.Get(st, k)
  {
    MemoryStore.Set(st, CurrentProjectKey(user),
      JObj(CurrentToDict(CurrentProject(projectId, Clock.IsoFormat(now)))), now)
  }

  /** `clear_current_project`: a later read finds nothing. */
  function ClearCurrentProject(st: MemoryStore.Store, user: string): (r: MemoryStore.Store)
    ensures GetCurrentProject(r, user).None?
    ensures forall k :: k != CurrentProjectKey(user) ==> MemoryStore.Get(r, k) == MemoryStore.Get(st, k)
  {
    MemoryStore.Delete(st, CurrentProjectKey(user)).0
  }

  /** The session a key holds, when its stored value is truthy. */
  function SessionAt(st: MemoryStore.Store, key: string): Option<SessionState> {
    match MemoryStore.Get(st, key)
    case Some(e) => if Truthy(e.value) then Some(FromDict(AsObj(e.value))) else None
    case None => None
  }

  /** The sessions stored under the given keys whose value is truthy,
      decoded: each comes from one of the keys, and every such key gives
      one. */
  function DecodeSessions(st: MemoryStore.Store, keys: seq<string>): (r: seq<SessionState>)
    ensures forall s :: s in r ==> exists k :: k in keys && SessionAt(st, k) == Some(s)
    ensures forall k :: k in keys && SessionAt(st, k).Some? ==> SessionAt(st, k).value in r
  {
    if |keys| == 0 then []
    else
      var rest := DecodeSessions(st, keys[1..]);
      assert forall k :: k in keys[1..] ==> k in keys;
      assert forall k :: k in keys ==> k == keys[0] || k in keys[1..];
      match SessionAt(st, keys[0])
      case Some(s) => [s] + rest
      case None => rest
  }

  /** The keys `get_all_sessions_for_user` reads: session keys ending in ":{user}". */
  function UserSessionKeys(st: MemoryStore.Store, user: string): (r: seq<string>)
    ensures forall k :: k in r <==> k in Dict.Keys(st) && StartsWith(k, SessionPrefix) && EndsWith(k, ":" + user)
  {
    Seqs.Filter((k: string) => EndsWith(k, ":" + user), MemoryStore.ListKeys(st, SessionPrefix))
  }

  /** `get_all_sessions_for_user` as written: selects by key suffix only,
      so it returns exactly the sessions held by session keys that end in
      ":{user}", whoever they belong to. */
  function SessionsForUserAsWritten(st: MemoryStore.Store, user: string): (r: seq<SessionState>)
    ensures forall s :: s in r ==>
      exists k :: StartsWith(k, SessionPrefix) && EndsWith(k, ":" + user) && SessionAt(st, k) == Some(s)
    ensures forall k :: StartsWith(k, SessionPrefix) && EndsWith(k, ":" + user) && SessionAt(st, k).Some? ==>
      SessionAt(st, k).value in r
  {
    DecodeSessions(st, UserSessionKeys(st, user))
  }

  /** A session stored for user "b:c" in project "a" is returned for user "c". */
  lemma {:induction false} SessionsForUserSuffixClash()
    ensures var s := SessionState("a", "b:c", "", "", "", [], "", "", "", "");
            var st := [(SessionKey("a", "b:c"), MemoryStore.Entry(SessionKey("a", "b:c"), JObj(ToDict(s)), "", ""))];
            SessionsForUserAsWritten(st, "c") == [s]
  {
    var s := SessionState("a", "b:c", "", "", "", [], "", "", "", "");
    var key := SessionKey("a", "b:c");
    var e := MemoryStore.Entry(key, JObj(ToDict(s)), "", "");
    var st := [(key, e)];
    ClashKeys(st, key, e);
    assert Truthy(e.value) by {
      assert "project" in ToDict(s);
    }
    SessionRoundTrip(s);
    assert DecodeSessions(st, [key]) == [FromDict(ToDict(s))] + DecodeSessions(st, []);
  }

  lemma {:induction false} ClashKeys(st: MemoryStore.Store, key: string, e: MemoryStore.Entry)
    requires key == SessionKey("a", "b:c") && st == [(key, e)]
    ensures UserSessionKeys(st, "c") == [key]
  {
    assert key == "prismind:session:a:b:c";
    assert Dict.Keys(st) == [key];
    assert StartsWith(key, SessionPrefix);
    assert EndsWith(key, ":c");
    var listed := MemoryStore.ListKeys(st, SessionPrefix);
    assert listed == [key];
  }

  /** `get_all_sessions_for_user` as intended: the decoded state's own user
      must be the requested user, so a colon in a user name cannot leak
      another user's sessions. */
  function SessionsForUser(st: MemoryStore.Store, user: string): (r: seq<SessionState>)
    ensures forall i :: 0 <= i < |r| ==> r[i].user == user
    ensures forall i :: 0 <= i < |r| ==> r[i] in SessionsForUserAsWritten(st, user)
    ensures forall s :: s in SessionsForUserAsWritten(st, user) && s.user == user ==> s in r
    ensures forall project ::
      (SessionAt(st, SessionKey(project, user)).Some? && SessionAt(st, SessionKey(project, user)).value.user == user)
        ==> SessionAt(st, SessionKey(project, user)).value in r
  {
    Seqs.Filter((s: SessionState) => s.user == user, SessionsForUserAsWritten(st, user))
  }
}
