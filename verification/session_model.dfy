/** The session record of the models package, whose `updated_at` is a
    timestamp rather than a string. Its dictionary form is the Memory
    client's, with the timestamp rendered by `isoformat`. */
module SessionModel {
  import opened Wrappers
  import opened Json
  import Clock
  import MemoryClient

  datatype SessionState = SessionState(
    project: string, user: string,
    currentPhase: string, currentTask: string, lastCompleted: string,
    blockers: seq<string>, notes: string, lastSummary: string, nextAction: string,
    updatedAt: Clock.Instant)

  /** The same record with its timestamp rendered. */
  function Stored(s: SessionState): MemoryClient.SessionState {
    MemoryClient.SessionState(s.project, s.user, s.currentPhase, s.currentTask, s.lastCompleted,
      s.blockers, s.notes, s.lastSummary, s.nextAction, Clock.IsoFormat(s.updatedAt))
  }

  /** `to_dict`: exactly the ten fields. */
  function ToDict(s: SessionState): (d: Obj)
    ensures d.Keys == set k | k in MemoryClient.SessionFields
  {
    MemoryClient.ToDict(Stored(s))
  }

  /** `from_dict`: a string `updated_at` is parsed (a malformed one is an
      error); an absent or null one is the current time. */
  function FromDict(d: Obj, now: Clock.Instant): (r: Option<SessionState>)
    ensures ("updated_at" !in d || d["updated_at"] == JNull) ==> r.Some? && r.value.updatedAt == now
    ensures r.Some? ==> r.value.project == StrField(d, "project", "") && r.value.blockers == StrListField(d, "blockers")
  {
    var base := MemoryClient.FromDict(d);
    var updatedAt :- if "updated_at" in d && d["updated_at"].JStr? then Clock.ParseIso(d["updated_at"].s) else Some(now);
    Some(SessionState(base.project, base.user, base.currentPhase, base.currentTask, base.lastCompleted,
      base.blockers, base.notes, base.lastSummary, base.nextAction, updatedAt))
  }

  /** `from_dict(to_dict(s)) == s` for a real timestamp, whatever the
      current time. */
  lemma {:induction false} SessionRoundTrip(s: SessionState, now: Clock.Instant)
    requires Clock.Valid(s.updatedAt)
    ensures FromDict(ToDict(s), now) == Some(s)
  {
    MemoryClient.SessionRoundTrip(Stored(s));
    MemoryClient.TailFields(Stored(s));
    Clock.IsoRoundTrip(s.updatedAt);
  }
}
