/** The memory table: provenance-aware writes, plain writes, deletion and dream mutations. */
module MemoryStore {
  import opened Wrappers
  import opened Lineage
  import opened BatchMarks
  import opened EditMarks

  datatype WriteError = DuplicateId | NotFound | Immutable

  ghost function WithMarks(m: Memories, ids: set<Id>): Memories {
    map x | x in m :: m[x].(marked := m[x].marked || x in ids)
  }

  /** Marking the plans of a lineage, then the unmarked decisions that review one, promotes the plan. */
  lemma LineageIsMarked(m: Memories, id: Id, lineage: set<Id>, decisions: set<Id>)
    requires IsPlan(m, id) && Triggered(m, id)
    requires forall x :: x in lineage <==> Reachable(m, id, x)
    requires decisions == set d | d in m && m[d].category == Decision && !(m[d].marked || d in lineage) &&
               m[d].tags.reviews * lineage != {}
    ensures WithMarks(WithMarks(m, lineage), decisions) == PromotedPlan(m, id)
  {
    forall x | x in m
      ensures (x in lineage || x in decisions || m[x].marked) <==> (m[x].marked || InLineage(m, id, x))
    {
      if x in lineage {
        ReachEnds(m, id, x);
      }
      if x in decisions {
        var t :| t in m[x].tags.reviews * lineage;
        assert t in m[x].tags.reviews && Reachable(m, id, t);
      }
      if m[x].category == Decision && !m[x].marked {
        if t :| t in m[x].tags.reviews && Reachable(m, id, t) {
          assert t in m[x].tags.reviews * lineage;
        }
      }
    }
  }

  /** Rows removed, the others kept with their marks and relationships. */
  lemma RemovalKeepsClosed(m: Memories, x: Id)
    requires Closed(m)
    ensures Closed(m - {x}) && MarksKept(m, m - {x})
  {
    var n := m - {x};
    assert forall y :: IsPlan(n, y) ==> IsPlan(m, y);
    forall y, z | IsPlan(n, y) && y in MarkedSet(n) && IsPlan(n, z) && z in n[y].tags.supersedes
      ensures z in MarkedSet(n)
    {
      assert y in MarkedSet(m) && IsPlan(m, z);
      assert z in MarkedSet(m);
    }
    forall y, t | y in n && n[y].category == Decision && t in n[y].tags.reviews && IsPlan(n, t) && t in MarkedSet(n)
      ensures y in MarkedSet(n)
    {
      assert t in MarkedSet(m) && IsPlan(m, t);
      assert y in MarkedSet(m);
    }
  }

  /** Every stored plan that a seen plan supersedes is seen or still on the frontier. */
  ghost predicate ClosedUpTo(m: Memories, seen: set<Id>, frontier: set<Id>) {
    forall x, y :: x in seen && IsPlan(m, x) && IsPlan(m, y) && y in m[x].tags.supersedes ==> y in seen || y in frontier
  }

  /** A policy key refuses every edit but new tags of a plan or a decision, which do not look at it. */
  predicate EditRefused(row: Memory, tags: Option<Tags>) {
    row.keyed && !(tags.Some? && (row.category == Plan || row.category == Decision))
  }

  predicate DreamProtected(row: Memory) {
    row.marked || row.category == Plan || row.category == Rule
  }

  class Store {
    var rows: Memories

    constructor ()
      ensures rows == map[]
    {
      rows := map[];
    }

    /** UPDATE memories SET workflow_artifact = TRUE for the given ids. */
    method MarkAll(ids: set<Id>)
      modifies this
      ensures rows == WithMarks(old(rows), ids)
    {
      rows := map x | x in rows :: rows[x].(marked := rows[x].marked || x in ids);
    }

    /**
     Mark the plans in the lineage of `id`, then the decisions that review one of them. The graph
     may have cycles and dangling references.
     */
    method PromotePlanLineage(id: Id)
      requires IsPlan(rows, id)
      modifies this
      ensures rows == PromotedPlan(old(rows), id)
    {
      ghost var m := rows;
      var superseders := set y | y in rows && rows[y].category == Plan && rows[y].marked &&
        id in rows[y].tags.supersedes;
      if !rows[id].marked && superseders == {} {
        assert forall y: Id :: IsMarkedPlan(m, y) && id in m[y].tags.supersedes ==> y in superseders;
        return;
      }
      assert Triggered(m, id) by {
        if !m[id].marked {
          var y :| y in superseders;
          assert IsMarkedPlan(m, y);
        }
      }
      var lineage := CollectLineage(id);
      var markedPlans := lineage;
      MarkAll(markedPlans);
      var decisions := set d | d in rows && rows[d].category == Decision && !rows[d].marked &&
        rows[d].tags.reviews * markedPlans != {};
      MarkAll(decisions);
      LineageIsMarked(m, id, lineage, decisions);
    }

    /** Exactly the stored plans reachable from `id`, found frontier by frontier. */
    method CollectLineage(id: Id) returns (seen: set<Id>)
      requires IsPlan(rows, id)
      ensures forall x :: x in seen <==> Reachable(rows, id, x)
    {
      seen := {};
      var frontier := {id};
      ReachSelf(rows, id);
      while frontier != {}
        invariant forall x :: x in seen ==> Reachable(rows, id, x)
        invariant forall x :: x in frontier && IsPlan(rows, x) ==> Reachable(rows, id, x)
        invariant id in seen || id in frontier
        invariant ClosedUpTo(rows, seen, frontier)
        decreases rows.Keys - seen, frontier
      {
        var batch := set x | x in frontier && x in rows && rows[x].category == Plan;
        ghost var before, full := seen, frontier;
        frontier := {};
        while batch != {}
          invariant before <= seen
          invariant forall x :: x in batch ==> x in full && Reachable(rows, id, x) && IsPlan(rows, x)
          invariant forall x :: x in seen ==> Reachable(rows, id, x)
          invariant forall x :: x in frontier && IsPlan(rows, x) ==> Reachable(rows, id, x)
          invariant id in seen || id in batch
          invariant ClosedUpTo(rows, seen, frontier + batch)
          invariant seen == before ==> frontier == {}
          decreases batch
        {
          var plan :| plan in batch;
          batch := batch - {plan};
          if plan !in seen {
            seen := seen + {plan};
            var targets := set t | t in rows[plan].tags.supersedes && t !in seen;
            forall t | t in targets && IsPlan(rows, t) ensures Reachable(rows, id, t) {
              ReachStep(rows, id, plan, t);
            }
            frontier := frontier + targets;
          }
        }
        if seen != before {
          var x :| x in seen && x !in before;
          ReachEnds(rows, id, x);
          assert x in rows.Keys - before && x !in rows.Keys - seen;
        }
      }
      forall x | Reachable(rows, id, x) ensures x in seen {
        ReachWithin(rows, id, x, seen);
      }
    }

    /** Promote the relationships of one stored row. */
    method PromoteRelationships(id: Id)
      requires id in rows
      modifies this
      ensures rows == Promoted(old(rows), id)
    {
      match rows[id].category {
        case Plan =>
          PromotePlanLineage(id);
        case Decision =>
          ghost var m := rows;
          var markedTargets := set t | t in rows[id].tags.reviews && t in rows && rows[t].category == Plan &&
            rows[t].marked;
          if markedTargets != {} {
            var t :| t in markedTargets;
            assert t in m[id].tags.reviews && IsMarkedPlan(m, t);
            MarkAll({id});
          } else {
            assert forall t :: t in m[id].tags.reviews && IsMarkedPlan(m, t) ==> t in markedTargets;
          }
        case Rule =>
        case Other =>
      }
    }

    /** Insert a plan or a decision and follow its relationships, in one transaction. */
    method InsertWithProvenance(id: Id, category: Category, tags: Tags, text: string)
      returns (r: Result<(), WriteError>)
      modifies this
      ensures id in old(rows) ==> r == Failure(DuplicateId) && rows == old(rows)
      ensures id !in old(rows) ==> r == Success(()) && rows == Inserted(old(rows), id, NewRow(category, tags, text))
      ensures Closed(old(rows)) ==> Closed(rows) && MarksKept(old(rows), rows)
      ensures Exact(old(rows)) ==> Exact(rows)
    {
      if id in rows {
        return Failure(DuplicateId);
      }
      ghost var m := rows;
      rows := rows[id := NewRow(category, tags, text)];
      PromoteRelationships(id);
      if Closed(m) { InsertionKeepsClosed(m, id, NewRow(category, tags, text)); }
      if Exact(m) { InsertionKeepsExact(m, id, NewRow(category, tags, text)); }
      return Success(());
    }

    /** Insert without following relationships. */
    method Insert(id: Id, category: Category, tags: Tags, text: string) returns (r: Result<(), WriteError>)
      modifies this
      ensures id in old(rows) ==> r == Failure(DuplicateId) && rows == old(rows)
      ensures id !in old(rows) ==>
                r == Success(()) && rows == old(rows)[id := Memory(category, tags, text, false, false)]
    {
      if id in rows {
        return Failure(DuplicateId);
      }
      rows := rows[id := Memory(category, tags, text, false, false)];
      return Success(());
    }

    /** Store a new memory without policy metadata, choosing the write by its category. */
    method StoreMemory(id: Id, category: Category, tags: Tags, text: string) returns (r: Result<(), WriteError>)
      modifies this
      ensures id in old(rows) ==> r == Failure(DuplicateId) && rows == old(rows)
      ensures id !in old(rows) ==> r == Success(()) && rows == Inserted(old(rows), id, NewRow(category, tags, text))
      ensures Closed(old(rows)) ==> Closed(rows) && MarksKept(old(rows), rows)
      ensures Exact(old(rows)) ==> Exact(rows)
    {
      ghost var m := rows;
      if category == Plan || category == Decision {
        r := InsertWithProvenance(id, category, tags, text);
      } else {
        r := Insert(id, category, tags, text);
        if id !in m {
          if Closed(m) { InsertionKeepsClosed(m, id, NewRow(category, tags, text)); }
          if Exact(m) { InsertionKeepsExact(m, id, NewRow(category, tags, text)); }
        }
      }
    }

    /** Replace text or tags of a row without a policy key. */
    method Update(id: Id, text: Option<string>, tags: Option<Tags>) returns (updated: bool)
      modifies this
      ensures updated <==> id in old(rows) && !old(rows)[id].keyed
      ensures rows == if updated then old(rows)[id := Edited(old(rows)[id], text, tags)] else old(rows)
      ensures Closed(old(rows)) &&
                (tags.None? ||
                  (id in old(rows) && old(rows)[id].category != Plan && old(rows)[id].category != Decision)) ==>
                Closed(rows) && MarksKept(old(rows), rows)
    {
      if id !in rows || rows[id].keyed {
        return false;
      }
      if Closed(rows) && (tags.None? || (rows[id].category != Plan && rows[id].category != Decision)) {
        EditKeepsClosed(rows, id, Edited(rows[id], text, tags));
      }
      rows := rows[id := Edited(rows[id], text, tags)];
      return true;
    }

    /** Replace text or tags; new tags of a plan or a decision also raise and propagate its mark. */
    method UpdateWithProvenance(id: Id, text: Option<string>, tags: Option<Tags>) returns (updated: bool)
      modifies this
      ensures MarkedSet(rows) <= JustifiedSet(rows, MarkedSet(old(rows)))
      ensures Closed(old(rows)) ==> MarkedSet(rows) == JustifiedSet(rows, MarkedSet(old(rows)))
      ensures Exact(old(rows)) && id in old(rows) && OnlyAdds(old(rows)[id], tags) ==> Exact(rows)
      ensures rows.Keys == old(rows).Keys
      ensures forall x :: x in rows && x != id ==> rows[x] == old(rows)[x].(marked := rows[x].marked)
      ensures id in rows && updated ==>
                rows[id] == Memory(old(rows)[id].category,
                                   if tags.Some? then tags.value else old(rows)[id].tags,
                                   if text.Some? then text.value else old(rows)[id].text,
                                   old(rows)[id].keyed, rows[id].marked)
      ensures Closed(old(rows)) ==> Closed(rows) && MarksKept(old(rows), rows)
      ensures id in old(rows) && tags.Some? &&
                (old(rows)[id].category == Plan || old(rows)[id].category == Decision) ==>
                && updated
                && rows == Promoted(old(rows)[id := Rescoped(Edited(old(rows)[id], text, tags))], id)
      ensures id in old(rows) &&
                (tags.None? || (old(rows)[id].category != Plan && old(rows)[id].category != Decision)) ==>
                && (updated <==> !old(rows)[id].keyed)
                && rows == if updated then old(rows)[id := Edited(old(rows)[id], text, tags)] else old(rows)
      ensures id !in old(rows) ==> !updated && rows == old(rows)
    {
      ghost var m := rows;
      SameIsJustified(m);
      if id in m { UpdateIsJustified(m, id, text, tags); }
      if tags.None? {
        updated := Update(id, text, None);
        return;
      }
      if id !in rows {
        return false;
      }
      if rows[id].category != Plan && rows[id].category != Decision {
        updated := Update(id, text, tags);
        return;
      }
      var row := Rescoped(Edited(rows[id], text, tags));
      rows := rows[id := row];
      PromoteRelationships(id);
      return true;
    }

    /**
     Edit a memory without policy metadata, choosing the write by its category. `current` is what
     the caller read before the write: by now the row may be gone or carry a policy key, but a
     category never changes.
     */
    method UpdateMemory(id: Id, current: Option<Memory>, text: Option<string>, tags: Option<Tags>)
      returns (r: Result<Option<Memory>, WriteError>)
      requires current.Some? && id in rows ==> rows[id].category == current.value.category
      modifies this
      ensures MarkedSet(rows) <= JustifiedSet(rows, MarkedSet(old(rows)))
      ensures Closed(old(rows)) ==> MarkedSet(rows) == JustifiedSet(rows, MarkedSet(old(rows)))
      ensures Exact(old(rows)) && id in old(rows) && OnlyAdds(old(rows)[id], tags) ==> Exact(rows)
      ensures rows.Keys == old(rows).Keys
      ensures forall x :: x in rows && x != id ==> rows[x] == old(rows)[x].(marked := rows[x].marked)
      ensures id in rows && rows != old(rows) ==>
                rows[id] == Memory(old(rows)[id].category,
                                   if tags.Some? then tags.value else old(rows)[id].tags,
                                   if text.Some? then text.value else old(rows)[id].text,
                                   old(rows)[id].keyed, rows[id].marked)
      ensures Closed(old(rows)) ==> Closed(rows) && MarksKept(old(rows), rows)
      ensures r == if current.None? then (if text.Some? then Failure(NotFound) else Success(None))
                   else if text.None? && tags.None? then Success(current)
                   else if current.value.keyed then Failure(Immutable)
                   else if id !in old(rows) then Success(None)
                   else if EditRefused(old(rows)[id], tags) then Failure(Immutable)
                   else Success(Some(UpdatedRows(old(rows), id, text, tags)[id]))
      ensures rows == if current.Some? && (text.Some? || tags.Some?) && !current.value.keyed
                         && id in old(rows) && !EditRefused(old(rows)[id], tags)
                      then UpdatedRows(old(rows), id, text, tags) else old(rows)
    {
      SameIsJustified(rows);
      if id in rows { UpdateIsJustified(rows, id, text, tags); }
      if current.None? {
        return if text.Some? then Failure(NotFound) else Success(None);
      }
      if text.None? && tags.None? {
        return Success(current);
      }
      if current.value.keyed {
        return Failure(Immutable);
      }
      var updated;
      if (current.value.category == Plan || current.value.category == Decision) && tags.Some? {
        updated := UpdateWithProvenance(id, text, tags);
      } else {
        updated := Update(id, text, tags);
      }
      if !updated {
        return if id in rows && rows[id].keyed then Failure(Immutable) else Success(None);
      }
      return Success(Some(rows[id]));
    }

    /** Delete one memory without a policy key. */
    method Delete(id: Id) returns (deleted: bool)
      modifies this
      ensures deleted <==> id in old(rows) && !old(rows)[id].keyed
      ensures rows == if deleted then old(rows) - {id} else old(rows)
      ensures Closed(old(rows)) ==> Closed(rows) && MarksKept(old(rows), rows)
    {
      if id !in rows || rows[id].keyed {
        return false;
      }
      if Closed(rows) { RemovalKeepsClosed(rows, id); }
      rows := rows - {id};
      return true;
    }

    /** Fold one ordinary memory into another, unless either is protected or gone by now. */
    method DreamMerge(survivor: Id, source: Id, text: string) returns (merged: bool)
      modifies this
      ensures merged <==> survivor != source && survivor in old(rows) && source in old(rows)
                          && !old(rows)[survivor].marked && old(rows)[survivor].category !in {Plan, Rule}
                          && !old(rows)[source].marked && old(rows)[source].category !in {Plan, Rule}
      ensures rows == if merged then old(rows)[survivor := old(rows)[survivor].(text := text)] - {source} else old(rows)
      ensures Closed(old(rows)) ==> Closed(rows) && MarksKept(old(rows), rows)
    {
      if survivor == source || survivor !in rows || source !in rows || DreamProtected(rows[survivor]) ||
        DreamProtected(rows[source]) {
        return false;
      }
      ghost var m := rows;
      rows := rows[survivor := rows[survivor].(text := text)];
      if Closed(m) {
        EditKeepsClosed(m, survivor, m[survivor].(text := text));
        RemovalKeepsClosed(rows, source);
      }
      rows := rows - {source};
      return true;
    }

    /** Drop one stale memory, unless it is protected by now. */
    method DreamPrune(id: Id) returns (pruned: bool)
      modifies this
      ensures pruned <==> id in old(rows) && !old(rows)[id].marked && old(rows)[id].category !in {Plan, Rule}
      ensures rows == if pruned then old(rows) - {id} else old(rows)
      ensures Closed(old(rows)) ==> Closed(rows) && MarksKept(old(rows), rows)
      ensures forall x :: x in old(rows) && old(rows)[x].marked ==> x in rows
    {
      if id !in rows || DreamProtected(rows[id]) {
        return false;
      }
      if Closed(rows) { RemovalKeepsClosed(rows, id); }
      rows := rows - {id};
      return true;
    }
  }
}
