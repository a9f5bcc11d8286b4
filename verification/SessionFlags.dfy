/** The workflow flag shared by an external session, its published log and the log's chunks. */
module SessionFlags {
  import opened Wrappers

  type External = string

  type Id = nat

  datatype Session = Session(id: Id, flag: bool)

  /** A published log and the flag of each of its chunks. */
  datatype Log = Log(id: Id, flag: bool, chunks: seq<bool>)

  /** Sessions and logs by external session id, both unique there. */
  datatype Tables = Tables(sessions: map<External, Session>, logs: map<External, Log>)

  /** Everything stored for an external id carries the one flag. */
  ghost predicate AgreeAt(t: Tables, e: External, flag: bool) {
    && (e in t.sessions ==> t.sessions[e].flag == flag)
    && (e in t.logs ==> t.logs[e].flag == flag && forall i :: 0 <= i < |t.logs[e].chunks| ==>
         t.logs[e].chunks[i] == flag)
    && (flag ==> e in t.sessions || e in t.logs)
  }

  predicate DistinctIds(t: Tables) {
    forall e, f :: e in t.sessions && f in t.sessions && t.sessions[e].id == t.sessions[f].id ==> e == f
  }

  /**
   The flag of an external id is whether some committed create, append or publish for it carried
   workflow evidence, in every row stored for it.
   */
  ghost predicate Agree(t: Tables, evidence: set<External>) {
    DistinctIds(t) && forall e :: AgreeAt(t, e, e in evidence)
  }

  /** Raising the flag of a log raises its chunks with it, by the cascading foreign key. */
  function RaiseLog(log: Log): Log {
    log.(flag := true, chunks := seq(|log.chunks|, i => true))
  }

  /** Nothing stored for an external id differs. */
  ghost predicate Untouched(t: Tables, u: Tables, e: External) {
    && (e in t.sessions <==> e in u.sessions) && (e in t.sessions ==> u.sessions[e] == t.sessions[e])
    && (e in t.logs <==> e in u.logs) && (e in t.logs ==> u.logs[e] == t.logs[e])
  }

  /** Changing the rows of one external id, its session identifier aside, is settled there. */
  lemma AgreesAfter(t: Tables, u: Tables, evidence: set<External>, e: External, workflow: bool)
    requires Agree(t, evidence) && DistinctIds(u)
    requires forall f :: f != e ==> Untouched(t, u, f)
    requires AgreeAt(u, e, e in evidence || workflow)
    ensures Agree(u, evidence + (if workflow then {e} else {}))
  {
    var after := evidence + (if workflow then {e} else {});
    forall f ensures AgreeAt(u, f, f in after) {
      if f != e {
        assert AgreeAt(t, f, f in evidence) && Untouched(t, u, f);
      }
    }
  }

  /** The same sessions, with their identifiers. */
  ghost predicate SessionsKept(t: Tables, u: Tables) {
    u.sessions.Keys == t.sessions.Keys && forall e :: e in t.sessions ==> u.sessions[e].id == t.sessions[e].id
  }

  /** The same logs, with their identifiers and as many chunks. */
  ghost predicate LogsKept(t: Tables, u: Tables) {
    && u.logs.Keys == t.logs.Keys
    && forall e :: e in t.logs ==> u.logs[e].id == t.logs[e].id && |u.logs[e].chunks| == |t.logs[e].chunks|
  }

  class SessionStore {
    var tables: Tables
    ghost var evidence: set<External>

    ghost predicate Valid()
      reads this
    {
      Agree(tables, evidence)
    }

    constructor ()
      ensures Valid() && evidence == {}
    {
      tables := Tables(map[], map[]);
      evidence := {};
    }

    /** Raise both parents when the resolved flag is set. */
    method ReconcileParents(e: External, resolved: bool)
      requires e in tables.sessions && e in tables.logs
      modifies this`tables
      ensures !resolved ==> tables == old(tables)
      ensures resolved ==>
                var session, log := old(tables).sessions[e], old(tables).logs[e];
                tables == old(tables).(sessions := old(tables).sessions[e := session.(flag := true)],
                                       logs := old(tables).logs[e := if log.flag then log else RaiseLog(log)])
    {
      if !resolved {
        return;
      }
      tables := tables.(sessions := tables.sessions[e := tables.sessions[e].(flag := true)]);
      if !tables.logs[e].flag {
        tables := tables.(logs := tables.logs[e := RaiseLog(tables.logs[e])]);
      } else {
        assert tables.logs[e := tables.logs[e]] == tables.logs;
      }
    }

    /** Create or refresh the session of an external id. */
    method CreateSession(e: External, id: Id, workflow: bool)
      requires Valid()
      requires forall f :: f in tables.sessions ==> tables.sessions[f].id != id
      modifies this
      ensures Valid() && evidence == old(evidence) + (if workflow then {e} else {})
      ensures e in tables.sessions && LogsKept(old(tables), tables)
      ensures tables.sessions[e].id == if e in old(tables.sessions) then old(tables.sessions)[e].id else id
      ensures forall f :: f != e ==> Untouched(old(tables), tables, f)
    {
      ghost var t := tables;
      assert AgreeAt(t, e, e in evidence);
      var row := if e in tables.sessions then tables.sessions[e].(flag := tables.sessions[e].flag || workflow)
        else Session(id, workflow);
      tables := tables.(sessions := tables.sessions[e := row]);
      var resolved := row.flag;
      if e in tables.logs {
        resolved := resolved || tables.logs[e].flag;
        ReconcileParents(e, resolved);
      }
      AgreesAfter(t, tables, evidence, e, workflow);
      evidence := evidence + (if workflow then {e} else {});
    }

    /** Append a message to the session with this identifier; `workflow` says it mentions a task. */
    method AppendMessage(id: Id, workflow: bool) returns (found: bool)
      requires Valid()
      modifies this
      ensures Valid()
      ensures found <==> exists e :: e in old(tables.sessions) && old(tables.sessions)[e].id == id
      ensures !found ==> tables == old(tables) && evidence == old(evidence)
      ensures found ==>
                exists e :: e in old(tables.sessions) && old(tables.sessions)[e].id == id
                            && evidence == old(evidence) + (if workflow then {e} else {})
                            && SessionsKept(old(tables), tables) && LogsKept(old(tables), tables)
                            && forall f :: f != e ==> Untouched(old(tables), tables, f)
    {
      var owners := set e | e in tables.sessions && tables.sessions[e].id == id;
      if owners == {} {
        assert forall e :: e in tables.sessions && tables.sessions[e].id == id ==> e in owners;
        return false;
      }
      var e :| e in owners;
      ghost var t := tables;
      assert AgreeAt(t, e, e in evidence);
      var resolved := tables.sessions[e].flag || workflow;
      if e in tables.logs {
        resolved := resolved || tables.logs[e].flag;
        ReconcileParents(e, resolved);
      } else if resolved {
        tables := tables.(sessions := tables.sessions[e := tables.sessions[e].(flag := true)]);
      }
      AgreesAfter(t, tables, evidence, e, workflow);
      evidence := evidence + (if workflow then {e} else {});
      return true;
    }

    /**
     Publish a log with `count` chunks. When a normalized session is named, it must still be the
     one stored for the external id.
     */
    method PublishLog(e: External, id: Id, workflow: bool, count: nat, normalized: Option<Id>) returns (r: Option<Id>)
      requires Valid()
      modifies this
      ensures Valid()
      ensures r == None <==>
                normalized.Some? && (e !in old(tables.sessions) || old(tables.sessions)[e].id != normalized.value)
      ensures r == None ==> tables == old(tables) && evidence == old(evidence)
      ensures r.Some? ==>
                && evidence == old(evidence) + (if workflow then {e} else {})
                && e in tables.logs && |tables.logs[e].chunks| == count && SessionsKept(old(tables), tables)
                && r.value == tables.logs[e].id == (if e in old(tables.logs) then old(tables.logs)[e].id else id)
                && forall f :: f != e ==> Untouched(old(tables), tables, f)
    {
      if normalized.Some? && (e !in tables.sessions || tables.sessions[e].id != normalized.value) {
        return None;
      }
      ghost var t := tables;
      assert AgreeAt(t, e, e in evidence);
      var sessionFlag := e in tables.sessions && tables.sessions[e].flag;
      var logFlag := e in tables.logs && tables.logs[e].flag;
      var resolved := workflow || sessionFlag || logFlag;
      var stored := if e in tables.logs then
                      (if resolved && !tables.logs[e].flag then RaiseLog(tables.logs[e]) else tables.logs[e])
                    else Log(id, resolved, []);
      tables := tables.(logs := tables.logs[e := stored]);
      if e in tables.sessions {
        var session := tables.sessions[e];
        tables := tables.(sessions := tables.sessions[e := session.(flag := session.flag || resolved)]);
      }
      // replace the published chunks
      tables := tables.(logs := tables.logs[e := stored.(chunks := seq(count, i => resolved))]);
      AgreesAfter(t, tables, evidence, e, workflow);
      evidence := evidence + (if workflow then {e} else {});
      return Some(stored.id);
    }
  }
}
