/** Workflow provenance of memories: what is marked, and what ought to be. */
module Lineage {

  type Id = nat

  datatype Category = Plan | Decision | Rule | Other

  /** The workflow relationships parsed from a memory's tags. */
  datatype Tags = Tags(scoped: bool, supersedes: set<Id>, reviews: set<Id>)

  datatype Memory = Memory(category: Category, tags: Tags, text: string, keyed: bool, marked: bool)

  type Memories = map<Id, Memory>

  predicate IsPlan(m: Memories, x: Id) {
    x in m && m[x].category == Plan
  }

  predicate IsMarkedPlan(m: Memories, x: Id) {
    IsPlan(m, x) && m[x].marked
  }

  // ---- lineage -------------------------------------------------------------------------

  /** A chain of stored plans, each superseding the next. */
  ghost predicate IsLineage(m: Memories, p: seq<Id>) {
    && |p| > 0
    && (forall i :: 0 <= i < |p| ==> IsPlan(m, p[i]))
    && (forall i :: 0 < i < |p| ==> p[i] in m[p[i - 1]].tags.supersedes)
  }

  ghost predicate Reachable(m: Memories, a: Id, b: Id) {
    exists p :: IsLineage(m, p) && p[0] == a && p[|p| - 1] == b
  }

  lemma ReachSelf(m: Memories, a: Id)
    requires IsPlan(m, a)
    ensures Reachable(m, a, a)
  {
    assert IsLineage(m, [a]);
  }

  lemma ReachStep(m: Memories, a: Id, b: Id, c: Id)
    requires Reachable(m, a, b) && IsPlan(m, c) && c in m[b].tags.supersedes
    ensures Reachable(m, a, c)
  {
    var p :| IsLineage(m, p) && p[0] == a && p[|p| - 1] == b;
    assert IsLineage(m, p + [c]);
    assert (p + [c])[0] == a && (p + [c])[|p|] == c;
  }

  lemma ReachOn(m: Memories, a: Id, b: Id, c: Id)
    requires Reachable(m, a, b) && Reachable(m, b, c)
    ensures Reachable(m, a, c)
  {
    var p :| IsLineage(m, p) && p[0] == a && p[|p| - 1] == b;
    var q :| IsLineage(m, q) && q[0] == b && q[|q| - 1] == c;
    var r := p + q[1..];
    forall i | 0 < i < |r| ensures r[i] in m[r[i - 1]].tags.supersedes {
      if i >= |p| {
        assert r[i] == q[i - |p| + 1] && r[i - 1] == q[i - |p|];
      }
    }
    assert IsLineage(m, r) && r[0] == a && r[|r| - 1] == c;
  }

  lemma ReachEnds(m: Memories, a: Id, b: Id)
    requires Reachable(m, a, b)
    ensures IsPlan(m, a) && IsPlan(m, b)
  {
  }

  lemma {:induction false} LineageWithin(m: Memories, p: seq<Id>, i: nat, s: set<Id>)
    requires IsLineage(m, p) && p[0] in s && i < |p|
    requires forall x, y :: x in s && IsPlan(m, x) && IsPlan(m, y) && y in m[x].tags.supersedes ==> y in s
    ensures p[i] in s
  {
    if i == 0 {
    } else {
      LineageWithin(m, p, i - 1, s);
      assert IsPlan(m, p[i - 1]) && IsPlan(m, p[i]);
    }
  }

  /** A set that holds the start and is closed under supersession holds everything reachable. */
  lemma ReachWithin(m: Memories, a: Id, b: Id, s: set<Id>)
    requires Reachable(m, a, b) && a in s
    requires forall x, y :: x in s && IsPlan(m, x) && IsPlan(m, y) && y in m[x].tags.supersedes ==> y in s
    ensures b in s
  {
    var p :| IsLineage(m, p) && p[0] == a && p[|p| - 1] == b;
    LineageWithin(m, p, |p| - 1, s);
  }

  // ---- entitlement ---------------------------------------------------------------------

  /** A plan in the lineage of a directly scoped one. */
  ghost predicate EntitledPlan(m: Memories, x: Id) {
    exists r :: IsPlan(m, r) && m[r].tags.scoped && Reachable(m, r, x)
  }

  /** What ought to be marked: such plans, and the decisions that review one. */
  ghost predicate Entitled(m: Memories, x: Id) {
    && x in m
    && match m[x].category
       case Plan => EntitledPlan(m, x)
       case Decision => exists t :: t in m[x].tags.reviews && EntitledPlan(m, t)
       case _ => false
  }

  /** The rules a marking must respect. */
  ghost predicate Respects(m: Memories, s: set<Id>) {
    && (forall x :: IsPlan(m, x) && m[x].tags.scoped ==> x in s)
    && (forall x, y :: IsPlan(m, x) && x in s && IsPlan(m, y) && y in m[x].tags.supersedes ==> y in s)
    && (forall x, t :: x in m && m[x].category == Decision && t in m[x].tags.reviews && IsPlan(m, t) && t in s ==>
         x in s)
  }

  ghost function EntitledSet(m: Memories): set<Id> {
    set x | x in m && Entitled(m, x)
  }

  lemma EntitledPlanIn(m: Memories, x: Id, s: set<Id>)
    requires Respects(m, s) && EntitledPlan(m, x)
    ensures x in s && IsPlan(m, x)
  {
    var r :| IsPlan(m, r) && m[r].tags.scoped && Reachable(m, r, x);
    ReachWithin(m, r, x, s);
    ReachEnds(m, r, x);
  }

  /** Entitlement is the least marking that respects the rules. */
  lemma EntitledIsLeast(m: Memories, s: set<Id>)
    ensures Respects(m, EntitledSet(m))
    ensures Respects(m, s) ==> EntitledSet(m) <= s
  {
    forall x | IsPlan(m, x) && m[x].tags.scoped ensures x in EntitledSet(m) {
      ReachSelf(m, x);
    }
    forall x, y | IsPlan(m, x) && x in EntitledSet(m) && IsPlan(m, y) && y in m[x].tags.supersedes
      ensures y in EntitledSet(m)
    {
      var r :| IsPlan(m, r) && m[r].tags.scoped && Reachable(m, r, x);
      ReachStep(m, r, x, y);
    }
    if Respects(m, s) {
      forall x | x in EntitledSet(m) ensures x in s {
        if m[x].category == Plan {
          EntitledPlanIn(m, x, s);
        } else {
          var t :| t in m[x].tags.reviews && EntitledPlan(m, t);
          EntitledPlanIn(m, t, s);
        }
      }
    }
  }

  // ---- closure -------------------------------------------------------------------------

  ghost function MarkedSet(m: Memories): set<Id> {
    set x | x in m && m[x].marked
  }

  /** Marks respect the rules, and only plans and decisions carry one. */
  ghost predicate Closed(m: Memories) {
    && Respects(m, MarkedSet(m))
    && (forall x :: x in m && m[x].marked ==> m[x].category == Plan || m[x].category == Decision)
  }

  /** Every memory that ought to be marked is, in any store whose marks are closed. */
  lemma ClosedMarksEntitled(m: Memories, x: Id)
    requires Closed(m) && Entitled(m, x)
    ensures m[x].marked
  {
    EntitledIsLeast(m, MarkedSet(m));
    assert x in EntitledSet(m);
  }

  ghost predicate MarksKept(m: Memories, n: Memories) {
    forall x :: x in m && x in n && m[x].marked ==> n[x].marked
  }

  /** Marks are exactly what ought to be marked. */
  ghost predicate Exact(m: Memories) {
    forall x :: x in m ==> (m[x].marked <==> Entitled(m, x))
  }

  // ---- promotion -----------------------------------------------------------------------

  /** A plan is promoted when it is marked itself or a stored marked plan supersedes it. */
  ghost predicate Triggered(m: Memories, x: Id) {
    x in m && (m[x].marked || exists y :: IsMarkedPlan(m, y) && x in m[y].tags.supersedes)
  }

  /** The start's lineage, and the decisions that review a plan of it. */
  ghost predicate InLineage(m: Memories, start: Id, x: Id) {
    && x in m
    && (Reachable(m, start, x)
        || (m[x].category == Decision && exists t :: t in m[x].tags.reviews && Reachable(m, start, t)))
  }

  ghost function PromotedPlan(m: Memories, start: Id): Memories {
    if Triggered(m, start) then map x | x in m :: m[x].(marked := m[x].marked || InLineage(m, start, x)) else m
  }

  ghost function PromotedDecision(m: Memories, x: Id): Memories
    requires x in m
  {
    if exists t :: t in m[x].tags.reviews && IsMarkedPlan(m, t) then m[x := m[x].(marked := true)] else m
  }

  /** The relationships of one row, promoted by its category. */
  ghost function Promoted(m: Memories, x: Id): Memories
    requires x in m
  {
    match m[x].category
    case Plan => PromotedPlan(m, x)
    case Decision => PromotedDecision(m, x)
    case _ => m
  }

  /** Marks are closed, except perhaps around one row, which is marked if it is directly scoped. */
  ghost predicate ClosedAround(m: Memories, x: Id) {
    var s := MarkedSet(m);
    && x in m
    && (forall y :: y in m && m[y].marked ==> m[y].category == Plan || m[y].category == Decision)
    && (forall y :: IsPlan(m, y) && m[y].tags.scoped ==> y in s)
    && (forall y, z :: y != x && z != x && IsPlan(m, y) && y in s && IsPlan(m, z) && z in m[y].tags.supersedes ==>
         z in s)
    && (forall y, t ::
          (y != x && t != x && y in m && m[y].category == Decision && t in m[y].tags.reviews && IsPlan(m, t) && t in s)
          ==> y in s)
  }

  lemma SameReach(m: Memories, n: Memories, a: Id, b: Id)
    requires forall x :: x in m <==> x in n
    requires forall x :: x in m ==> n[x].category == m[x].category && n[x].tags == m[x].tags
    ensures Reachable(m, a, b) <==> Reachable(n, a, b)
  {
    if Reachable(m, a, b) {
      var p :| IsLineage(m, p) && p[0] == a && p[|p| - 1] == b;
      assert IsLineage(n, p);
    }
    if Reachable(n, a, b) {
      var p :| IsLineage(n, p) && p[0] == a && p[|p| - 1] == b;
      assert IsLineage(m, p);
    }
  }

  lemma PlanPromotionCloses(m: Memories, x: Id)
    requires ClosedAround(m, x) && IsPlan(m, x)
    ensures Closed(PromotedPlan(m, x)) && MarksKept(m, PromotedPlan(m, x))
  {
    var n := PromotedPlan(m, x);
    var s := MarkedSet(n);
    assert forall y :: IsPlan(n, y) <==> IsPlan(m, y);
    ReachSelf(m, x);
    if Triggered(m, x) {
      forall y, z | IsPlan(n, y) && y in s && IsPlan(n, z) && z in n[y].tags.supersedes ensures z in s {
        if Reachable(m, x, y) {
          ReachStep(m, x, y, z);
        } else if z != x {
          assert z in MarkedSet(m);
        }
      }
      forall y, t | y in n && n[y].category == Decision && t in n[y].tags.reviews && IsPlan(n, t) && t in s
        ensures y in s
      {
        if !Reachable(m, x, t) {
          assert t != x && y != x;
          assert t in MarkedSet(m);
          assert y in MarkedSet(m);
        }
      }
    } else {
      assert MarkedSet(m) == s;
    }
  }

  /** Promotion closes the marks around the promoted row and clears none. */
  lemma PromotionCloses(m: Memories, x: Id)
    requires ClosedAround(m, x)
    ensures Closed(Promoted(m, x)) && MarksKept(m, Promoted(m, x))
  {
    match m[x].category
    case Plan => PlanPromotionCloses(m, x);
    case Decision =>
      var n := PromotedDecision(m, x);
      assert forall y :: IsPlan(n, y) <==> IsPlan(m, y);
    case _ =>
  }

  // ---- insertion -----------------------------------------------------------------------

  /** A new row starts marked exactly when it is a directly scoped plan. */
  function NewRow(category: Category, tags: Tags, text: string): Memory {
    Memory(category, tags, text, false, category == Plan && tags.scoped)
  }

  /** What inserting one memory leaves behind, whatever its category. */
  ghost function Inserted(m: Memories, x: Id, row: Memory): Memories {
    Promoted(m[x := row], x)
  }

  /** Replacing one row of a closed store by one whose mark covers its own scope leaves it closed around that row. */
  lemma AroundRow(m: Memories, x: Id, row: Memory)
    requires Closed(m)
    requires row.marked ==> row.category == Plan || row.category == Decision
    requires row.category == Plan && row.tags.scoped ==> row.marked
    requires x in m ==> m[x].category == row.category
    ensures ClosedAround(m[x := row], x)
  {
    var n := m[x := row];
    var s := MarkedSet(m);
    assert forall y :: y != x ==> (IsPlan(n, y) <==> IsPlan(m, y));
    forall y, z | y != x && z != x && IsPlan(n, y) && y in MarkedSet(n) && IsPlan(n, z) && z in n[y].tags.supersedes
      ensures z in MarkedSet(n)
    {
      assert IsPlan(m, y) && y in s && IsPlan(m, z) && z in m[y].tags.supersedes;
    }
    forall y, t | y != x && t != x && y in n && n[y].category == Decision && t in n[y].tags.reviews && IsPlan(n, t) &&
      t in MarkedSet(n)
      ensures y in MarkedSet(n)
    {
      assert y in m && t in m[y].tags.reviews && IsPlan(m, t) && t in s;
    }
  }

  lemma {:induction false} InsertionKeepsClosed(m: Memories, x: Id, row: Memory)
    requires Closed(m) && x !in m && row == NewRow(row.category, row.tags, row.text)
    ensures Closed(Inserted(m, x, row)) && MarksKept(m, Inserted(m, x, row))
  {
    AroundRow(m, x, row);
    PromotionCloses(m[x := row], x);
  }
}
