/** Marks after an edit: exactly those the new relationships justify, starting from the marks there were. */
module EditMarks {
  import opened Wrappers
  import opened Lineage

  function Edited(row: Memory, text: Option<string>, tags: Option<Tags>): Memory {
    row.(text := if text.Some? then text.value else row.text, tags := if tags.Some? then tags.value else row.tags)
  }

  /** A plan whose new tags scope it directly is marked; no mark is taken away. */
  function Rescoped(row: Memory): Memory {
    row.(marked := row.marked || (row.category == Plan && row.tags.scoped))
  }

  /** An edit that the category dispatch lets through: new tags of a plan or a decision are promoted. */
  ghost function UpdatedRows(m: Memories, id: Id, text: Option<string>, tags: Option<Tags>): (n: Memories)
    requires id in m
    ensures id in n
  {
    var row := Edited(m[id], text, tags);
    if tags.Some? && (row.category == Plan || row.category == Decision) then Promoted(m[id := Rescoped(row)], id)
      else m[id := row]
  }

  // ---- justification -------------------------------------------------------------------

  /** A plan in the lineage of one that is directly scoped or was marked before. */
  ghost predicate JustifiedPlan(m: Memories, s: set<Id>, x: Id) {
    exists r :: IsPlan(m, r) && (m[r].tags.scoped || r in s) && Reachable(m, r, x)
  }

  /** Marked before, or such a plan, or a decision that reviews one. */
  ghost predicate Justified(m: Memories, s: set<Id>, x: Id) {
    && x in m
    && (|| x in s
        || (m[x].category == Plan && JustifiedPlan(m, s, x))
        || (m[x].category == Decision && exists t :: t in m[x].tags.reviews && JustifiedPlan(m, s, t)))
  }

  ghost function JustifiedSet(m: Memories, s: set<Id>): set<Id> {
    set x | x in m && Justified(m, s, x)
  }

  lemma JustifiedPlanIn(m: Memories, s: set<Id>, t: set<Id>, x: Id)
    requires Respects(m, t) && (forall y :: y in m && y in s ==> y in t) && JustifiedPlan(m, s, x)
    ensures x in t && IsPlan(m, x)
  {
    var r :| IsPlan(m, r) && (m[r].tags.scoped || r in s) && Reachable(m, r, x);
    ReachWithin(m, r, x, t);
    ReachEnds(m, r, x);
  }

  /** Justification gives the least marking that respects the rules and keeps the marks there were. */
  lemma JustifiedIsLeast(m: Memories, s: set<Id>, t: set<Id>)
    ensures Respects(m, JustifiedSet(m, s))
    ensures Respects(m, t) && (forall y :: y in m && y in s ==> y in t) ==> JustifiedSet(m, s) <= t
  {
    forall x | IsPlan(m, x) && (m[x].tags.scoped || x in s) ensures JustifiedPlan(m, s, x) {
      ReachSelf(m, x);
    }
    forall x, y | IsPlan(m, x) && x in JustifiedSet(m, s) && IsPlan(m, y) && y in m[x].tags.supersedes
      ensures y in JustifiedSet(m, s)
    {
      var r :| IsPlan(m, r) && (m[r].tags.scoped || r in s) && Reachable(m, r, x);
      ReachStep(m, r, x, y);
    }
    if Respects(m, t) && forall y :: y in m && y in s ==> y in t {
      forall x | x in JustifiedSet(m, s) ensures x in t {
        if x !in s {
          if m[x].category == Plan {
            JustifiedPlanIn(m, s, t, x);
          } else {
            var p :| p in m[x].tags.reviews && JustifiedPlan(m, s, p);
            JustifiedPlanIn(m, s, t, p);
          }
        }
      }
    }
  }

  lemma SameIsJustified(m: Memories)
    ensures MarkedSet(m) <= JustifiedSet(m, MarkedSet(m))
    ensures Closed(m) ==> MarkedSet(m) == JustifiedSet(m, MarkedSet(m))
  {
    JustifiedIsLeast(m, MarkedSet(m), MarkedSet(m));
  }

  lemma JustifiedIgnoresMarks(m: Memories, n: Memories, s: set<Id>, x: Id)
    requires forall y :: y in m <==> y in n
    requires forall y :: y in m ==> n[y].category == m[y].category && n[y].tags == m[y].tags
    requires JustifiedPlan(m, s, x)
    ensures JustifiedPlan(n, s, x)
  {
    var r :| IsPlan(m, r) && (m[r].tags.scoped || r in s) && Reachable(m, r, x);
    SameReach(m, n, r, x);
    assert IsPlan(n, r);
  }

  // ---- edits ---------------------------------------------------------------------------

  /** New text never matters; new tags do not matter outside plans and decisions. */
  lemma EditKeepsClosed(m: Memories, x: Id, row: Memory)
    requires Closed(m) && x in m && row.category == m[x].category && row.marked == m[x].marked
    requires row.tags == m[x].tags || (row.category != Plan && row.category != Decision)
    ensures Closed(m[x := row]) && MarksKept(m, m[x := row])
  {
    var n := m[x := row];
    assert MarkedSet(n) == MarkedSet(m);
    assert forall y :: IsPlan(n, y) <==> IsPlan(m, y);
  }

  /** A plan whose promotion is triggered by its own new tags or by a plan marked before is justified. */
  lemma TriggerIsJustified(m: Memories, id: Id, row: Memory)
    requires id in m && row.category == m[id].category == Plan
    requires row.marked ==> m[id].marked || row.tags.scoped
    requires Triggered(m[id := row], id)
    ensures JustifiedPlan(m[id := row], MarkedSet(m), id)
  {
    var n := m[id := row];
    ReachSelf(n, id);
    if n[id].marked {
      assert IsPlan(n, id) && (n[id].tags.scoped || id in MarkedSet(m));
    } else {
      var y :| IsMarkedPlan(n, y) && id in n[y].tags.supersedes;
      ReachSelf(n, y);
      ReachStep(n, y, y, id);
      assert IsPlan(n, y) && y in MarkedSet(m);
    }
  }

  /** Promoting an edited plan marks nothing but what is justified. */
  lemma PlanEditIsJustified(m: Memories, id: Id, row: Memory, x: Id)
    requires id in m && row.category == m[id].category == Plan
    requires row.marked ==> m[id].marked || row.tags.scoped
    requires x in MarkedSet(PromotedPlan(m[id := row], id))
    ensures Justified(m[id := row], MarkedSet(m), x)
  {
    var n := m[id := row];
    if Triggered(n, id) && InLineage(n, id, x) {
      TriggerIsJustified(m, id, row);
      var r: Id :| IsPlan(n, r) && (n[r].tags.scoped || r in MarkedSet(m)) && Reachable(n, r, id);
      if Reachable(n, id, x) {
        ReachEnds(n, id, x);
        ReachOn(n, r, id, x);
      } else {
        var t: Id :| t in n[x].tags.reviews && Reachable(n, id, t);
        ReachOn(n, r, id, t);
        assert JustifiedPlan(n, MarkedSet(m), t);
      }
    } else if x == id {
      ReachSelf(n, id);
    }
  }

  /** Promoting an edited decision marks it at most when it reviews a plan marked before. */
  lemma DecisionEditIsJustified(m: Memories, id: Id, row: Memory, x: Id)
    requires id in m && row.category == m[id].category == Decision && row.marked == m[id].marked
    requires x in MarkedSet(PromotedDecision(m[id := row], id))
    ensures Justified(m[id := row], MarkedSet(m), x)
  {
    var n := m[id := row];
    if x == id && !m[id].marked {
      var t :| t in n[id].tags.reviews && IsMarkedPlan(n, t);
      ReachSelf(n, t);
      assert JustifiedPlan(n, MarkedSet(m), t);
    }
  }

  lemma UpdateKeepsClosed(m: Memories, id: Id, text: Option<string>, tags: Option<Tags>)
    requires id in m && Closed(m)
    ensures Closed(UpdatedRows(m, id, text, tags)) && MarksKept(m, UpdatedRows(m, id, text, tags))
  {
    var row := Edited(m[id], text, tags);
    if tags.Some? && (row.category == Plan || row.category == Decision) {
      AroundRow(m, id, Rescoped(row));
      PromotionCloses(m[id := Rescoped(row)], id);
    } else {
      EditKeepsClosed(m, id, row);
    }
  }

  lemma UpdateMarksJustified(m: Memories, id: Id, text: Option<string>, tags: Option<Tags>, x: Id)
    requires id in m && x in MarkedSet(UpdatedRows(m, id, text, tags))
    ensures Justified(UpdatedRows(m, id, text, tags), MarkedSet(m), x)
  {
    var row := Edited(m[id], text, tags);
    var after := UpdatedRows(m, id, text, tags);
    if tags.Some? && (row.category == Plan || row.category == Decision) {
      var n := m[id := Rescoped(row)];
      if row.category == Plan {
        PlanEditIsJustified(m, id, Rescoped(row), x);
      } else {
        DecisionEditIsJustified(m, id, Rescoped(row), x);
      }
      forall p | JustifiedPlan(n, MarkedSet(m), p) ensures JustifiedPlan(after, MarkedSet(m), p) {
        JustifiedIgnoresMarks(n, after, MarkedSet(m), p);
      }
    }
  }

  // ---- exactness -----------------------------------------------------------------------

  /** New tags that take no scope and no relationship away, where relationships matter. */
  predicate OnlyAdds(row: Memory, tags: Option<Tags>) {
    tags.Some? && (row.category == Plan || row.category == Decision) ==>
      && (row.tags.scoped ==> tags.value.scoped)
      && row.tags.supersedes <= tags.value.supersedes && row.tags.reviews <= tags.value.reviews
  }

  ghost predicate Grows(m: Memories, n: Memories) {
    && (forall y :: y in m <==> y in n)
    && forall y :: y in m ==>
         && n[y].category == m[y].category
         && (m[y].category == Plan || m[y].category == Decision ==>
               && (m[y].tags.scoped ==> n[y].tags.scoped)
               && m[y].tags.supersedes <= n[y].tags.supersedes && m[y].tags.reviews <= n[y].tags.reviews)
  }

  /** Entitlement only grows with the relationships. */
  lemma EntitledGrows(m: Memories, n: Memories)
    requires Grows(m, n)
    ensures EntitledSet(m) <= EntitledSet(n)
  {
    forall t | EntitledPlan(m, t) ensures EntitledPlan(n, t) {
      var r :| IsPlan(m, r) && m[r].tags.scoped && Reachable(m, r, t);
      var p :| IsLineage(m, p) && p[0] == r && p[|p| - 1] == t;
      assert IsLineage(n, p);
      assert IsPlan(n, r) && n[r].tags.scoped;
    }
  }

  lemma ExactIsClosed(m: Memories)
    requires Exact(m)
    ensures Closed(m) && MarkedSet(m) == EntitledSet(m)
  {
    assert MarkedSet(m) == EntitledSet(m);
    EntitledIsLeast(m, EntitledSet(m));
  }

  lemma UpdateGrows(m: Memories, id: Id, text: Option<string>, tags: Option<Tags>)
    requires id in m && OnlyAdds(m[id], tags)
    ensures Grows(m, UpdatedRows(m, id, text, tags))
  {
  }

  lemma SameMarksAreExact(m: Memories)
    requires MarkedSet(m) == EntitledSet(m)
    ensures Exact(m)
  {
    assert forall x :: x in m ==> (m[x].marked <==> x in MarkedSet(m)) && (Entitled(m, x) <==> x in EntitledSet(m));
  }

  /** Exact marks stay exact when relationships grow and the new marks are closed and justified. */
  lemma JustifiedStaysExact(m: Memories, n: Memories)
    requires Exact(m) && Closed(n) && Grows(m, n) && MarkedSet(n) <= JustifiedSet(n, MarkedSet(m))
    ensures Exact(n)
  {
    ExactIsClosed(m);
    EntitledGrows(m, n);
    EntitledIsLeast(n, MarkedSet(n));
    JustifiedIsLeast(n, MarkedSet(m), EntitledSet(n));
    SameMarksAreExact(n);
  }

  lemma ClosedIsLeast(m: Memories, n: Memories)
    requires Closed(n) && MarksKept(m, n) && MarkedSet(n) <= JustifiedSet(n, MarkedSet(m))
    ensures MarkedSet(n) == JustifiedSet(n, MarkedSet(m))
  {
    JustifiedIsLeast(n, MarkedSet(m), MarkedSet(n));
  }

  lemma UpdateMarksOnlyJustified(m: Memories, id: Id, text: Option<string>, tags: Option<Tags>)
    requires id in m
    ensures var n := UpdatedRows(m, id, text, tags); MarkedSet(n) <= JustifiedSet(n, MarkedSet(m))
  {
    var n := UpdatedRows(m, id, text, tags);
    forall x | x in MarkedSet(n) ensures Justified(n, MarkedSet(m), x) {
      UpdateMarksJustified(m, id, text, tags, x);
    }
  }

  /**
   After an edit the marks are the least ones that respect the rules over the new rows and keep
   the old marks; marks that were exact stay exact as long as relationships are only added.
   */
  lemma UpdateIsJustified(m: Memories, id: Id, text: Option<string>, tags: Option<Tags>)
    requires id in m
    ensures var n := UpdatedRows(m, id, text, tags);
            && MarkedSet(n) <= JustifiedSet(n, MarkedSet(m))
            && (Closed(m) ==> Closed(n) && MarksKept(m, n) && MarkedSet(n) == JustifiedSet(n, MarkedSet(m)))
            && (Exact(m) && OnlyAdds(m[id], tags) ==> Exact(n))
  {
    var n := UpdatedRows(m, id, text, tags);
    UpdateMarksOnlyJustified(m, id, text, tags);
    if Closed(m) {
      UpdateKeepsClosed(m, id, text, tags);
      ClosedIsLeast(m, n);
    }
    if Exact(m) && OnlyAdds(m[id], tags) {
      ExactIsClosed(m);
      UpdateKeepsClosed(m, id, text, tags);
      UpdateGrows(m, id, text, tags);
      JustifiedStaysExact(m, n);
    }
  }
}
