/** Marking each inserted memory at once gives the marks of one batch over all of them. */
module BatchMarks {
  import opened Lineage

  // ---- paths through an inserted row ---------------------------------------------------

  lemma ReachGrows(m: Memories, x: Id, row: Memory, a: Id, b: Id)
    requires x !in m && Reachable(m, a, b)
    ensures Reachable(m[x := row], a, b)
  {
    var p :| IsLineage(m, p) && p[0] == a && p[|p| - 1] == b;
    assert IsLineage(m[x := row], p);
  }

  /** A lineage either stays among the old rows or passes through the new one. */
  lemma ReachSplits(m: Memories, x: Id, row: Memory, a: Id, b: Id)
    requires x !in m && Reachable(m[x := row], a, b)
    ensures Reachable(m, a, b) || (Reachable(m[x := row], a, x) && Reachable(m[x := row], x, b))
  {
    var n := m[x := row];
    var p :| IsLineage(n, p) && p[0] == a && p[|p| - 1] == b;
    if x in p {
      var i :| 0 <= i < |p| && p[i] == x;
      var front, back := p[..i + 1], p[i..];
      assert IsLineage(n, front) && front[0] == a && front[|front| - 1] == x;
      assert IsLineage(n, back) && back[0] == x && back[|back| - 1] == b;
    } else {
      assert forall i :: 0 <= i < |p| ==> p[i] != x;
      assert IsLineage(m, p);
    }
  }

  /** The last step into the new row comes from an old plan of the same lineage. */
  lemma {:induction false} ReachEnters(m: Memories, x: Id, row: Memory, p: seq<Id>)
    requires x !in m && IsLineage(m[x := row], p) && p[0] != x && p[|p| - 1] == x
    ensures exists y :: Reachable(m, p[0], y) && x in m[y].tags.supersedes
    decreases |p|
  {
    var y := p[|p| - 2];
    var front := p[..|p| - 1];
    assert IsLineage(m[x := row], front) && front[|front| - 1] == y;
    if x in front {
      var i :| 0 <= i < |front| && front[i] == x;
      assert IsLineage(m[x := row], p[..i + 1]);
      ReachEnters(m, x, row, p[..i + 1]);
    } else {
      assert forall i :: 0 <= i < |front| ==> front[i] != x;
      assert IsLineage(m, front);
      assert Reachable(m, p[0], y);
    }
  }

  /** An inserted plan is entitled exactly when its insertion triggers promotion. */
  lemma EntitledWhenTriggered(m: Memories, x: Id, row: Memory)
    requires Exact(m) && x !in m && row == NewRow(Plan, row.tags, row.text)
    ensures EntitledPlan(m[x := row], x) <==> Triggered(m[x := row], x)
  {
    var n := m[x := row];
    if EntitledPlan(n, x) && !row.tags.scoped {
      var r :| IsPlan(n, r) && n[r].tags.scoped && Reachable(n, r, x);
      var p :| IsLineage(n, p) && p[0] == r && p[|p| - 1] == x;
      ReachEnters(m, x, row, p);
      var y :| Reachable(m, r, y) && x in m[y].tags.supersedes;
      ReachEnds(m, r, y);
      assert Entitled(m, y);
      assert IsMarkedPlan(n, y);
    }
    if Triggered(n, x) {
      if row.tags.scoped {
        ReachSelf(n, x);
      } else {
        var y :| IsMarkedPlan(n, y) && x in n[y].tags.supersedes;
        assert IsMarkedPlan(m, y) && Entitled(m, y);
        var r :| IsPlan(m, r) && m[r].tags.scoped && Reachable(m, r, y);
        ReachGrows(m, x, row, r, y);
        ReachStep(n, r, y, x);
        assert IsPlan(n, r);
      }
    }
  }

  /** Which plans become entitled by an insertion: those in the lineage of the new row, if it is. */
  lemma EntitledAfter(m: Memories, x: Id, row: Memory, b: Id)
    requires x !in m
    ensures EntitledPlan(m[x := row], b) <==>
              EntitledPlan(m, b) || (EntitledPlan(m[x := row], x) && Reachable(m[x := row], x, b))
  {
    var n := m[x := row];
    if EntitledPlan(m, b) {
      var r :| IsPlan(m, r) && m[r].tags.scoped && Reachable(m, r, b);
      ReachGrows(m, x, row, r, b);
      assert IsPlan(n, r);
    }
    if EntitledPlan(n, x) && Reachable(n, x, b) {
      var r :| IsPlan(n, r) && n[r].tags.scoped && Reachable(n, r, x);
      ReachOn(n, r, x, b);
    }
    if EntitledPlan(n, b) {
      var r :| IsPlan(n, r) && n[r].tags.scoped && Reachable(n, r, b);
      ReachSplits(m, x, row, r, b);
      if Reachable(m, r, b) {
        ReachEnds(m, r, b);
        assert IsPlan(m, r) && m[r].tags.scoped;
      }
    }
  }

  // ---- one insertion -------------------------------------------------------------------

  lemma EntitledIgnoresMarks(m: Memories, n: Memories, b: Id)
    requires forall y :: y in m <==> y in n
    requires forall y :: y in m ==> n[y].category == m[y].category && n[y].tags == m[y].tags
    ensures EntitledPlan(m, b) <==> EntitledPlan(n, b)
    ensures Entitled(m, b) <==> Entitled(n, b)
  {
    forall r, t ensures Reachable(m, r, t) <==> Reachable(n, r, t) {
      SameReach(m, n, r, t);
    }
    assert forall t :: EntitledPlan(m, t) <==> EntitledPlan(n, t) by {
      forall t ensures EntitledPlan(m, t) <==> EntitledPlan(n, t) {
        if EntitledPlan(m, t) {
          var r :| IsPlan(m, r) && m[r].tags.scoped && Reachable(m, r, t);
          assert IsPlan(n, r) && n[r].tags.scoped && Reachable(n, r, t);
        }
        if EntitledPlan(n, t) {
          var r :| IsPlan(n, r) && n[r].tags.scoped && Reachable(n, r, t);
          assert IsPlan(m, r) && m[r].tags.scoped && Reachable(m, r, t);
        }
      }
    }
  }

  lemma MarkedByPlan(m: Memories, x: Id, row: Memory, y: Id)
    requires Exact(m) && x !in m && row == NewRow(Plan, row.tags, row.text) && (y == x || y in m)
    requires Triggered(m[x := row], x) && EntitledPlan(m[x := row], x)
    requires forall b :: EntitledPlan(m[x := row], b) <==> EntitledPlan(m, b) || Reachable(m[x := row], x, b)
    ensures PromotedPlan(m[x := row], x)[y].marked <==> Entitled(m[x := row], y)
  {
    var n := m[x := row];
    if y == x {
      ReachSelf(n, x);
    } else if m[y].category == Plan {
      if Reachable(n, x, y) { ReachEnds(n, x, y); }
    } else {
      assert !Reachable(n, x, y) by {
        if Reachable(n, x, y) { ReachEnds(n, x, y); }
      }
    }
  }

  /** The mark of every row after an insertion is the one it is entitled to. */
  lemma InsertedMark(m: Memories, x: Id, row: Memory, y: Id)
    requires Exact(m) && x !in m && row == NewRow(row.category, row.tags, row.text) && (y == x || y in m)
    ensures y in Inserted(m, x, row) && (Inserted(m, x, row)[y].marked <==> Entitled(m[x := row], y))
  {
    var n := m[x := row];
    forall b ensures EntitledPlan(n, b) <==> EntitledPlan(m, b) || (EntitledPlan(n, x) && Reachable(n, x, b)) {
      EntitledAfter(m, x, row, b);
    }
    forall b | EntitledPlan(m, b) ensures IsMarkedPlan(m, b) {
      var r :| IsPlan(m, r) && m[r].tags.scoped && Reachable(m, r, b);
      ReachEnds(m, r, b);
      assert Entitled(m, b);
    }
    if row.category == Plan {
      EntitledWhenTriggered(m, x, row);
      ReachSelf(n, x);
      if Triggered(n, x) {
        MarkedByPlan(m, x, row, y);
      }
    } else {
      forall b ensures !Reachable(n, x, b) {
        if Reachable(n, x, b) { ReachEnds(n, x, b); assert false; }
      }
      if y == x && row.category == Decision {
        forall t | t in row.tags.reviews && IsMarkedPlan(n, t) ensures EntitledPlan(n, t) {
          assert t in m && Entitled(m, t);
        }
      } else if y != x {
        assert Entitled(m, y) <==> Entitled(n, y);
      }
    }
  }

  lemma InsertionKeepsExact(m: Memories, x: Id, row: Memory)
    requires Exact(m) && x !in m && row == NewRow(row.category, row.tags, row.text)
    ensures Exact(Inserted(m, x, row))
  {
    var n := m[x := row];
    var after := Inserted(m, x, row);
    forall y | y in after ensures after[y].marked <==> Entitled(after, y) {
      EntitledIgnoresMarks(n, after, y);
      InsertedMark(m, x, row, y);
    }
  }

  // ---- whole histories -----------------------------------------------------------------

  datatype Insertion = Insertion(id: Id, category: Category, tags: Tags, text: string)

  /** The same memories with exactly the marks they are entitled to, computed at once. */
  ghost function Batch(m: Memories): Memories {
    map x | x in m :: m[x].(marked := Entitled(m, x))
  }

  predicate Distinct(items: seq<Insertion>) {
    forall i, j :: 0 <= i < j < |items| ==> items[i].id != items[j].id
  }

  /** The memories of a history, without any relationship followed. */
  function Unmarked(items: seq<Insertion>): Memories {
    if items == [] then map[]
    else
      var last := items[|items| - 1];
      Unmarked(items[..|items| - 1])[last.id := Memory(last.category, last.tags, last.text, false, false)]
  }

  /** Insert one memory after the other. */
  ghost function InsertAll(items: seq<Insertion>): Memories {
    if items == [] then map[]
    else
      var last := items[|items| - 1];
      Inserted(InsertAll(items[..|items| - 1]), last.id, NewRow(last.category, last.tags, last.text))
  }

  lemma {:induction false} UnmarkedKeys(items: seq<Insertion>, x: Id)
    ensures x in Unmarked(items) <==> exists i :: 0 <= i < |items| && items[i].id == x
  {
    if items == [] {
    } else {
      UnmarkedKeys(items[..|items| - 1], x);
    }
  }

  /** Equal up to marks. */
  ghost predicate SameRows(m: Memories, base: Memories) {
    && (forall y :: y in m <==> y in base)
    && (forall y :: y in m ==> m[y].(marked := false) == base[y].(marked := false))
  }

  /** A marking that is exact is the batch over its rows. */
  lemma ExactIsBatch(m: Memories, base: Memories)
    requires Exact(m) && SameRows(m, base)
    ensures m == Batch(base)
  {
    forall y | y in m ensures m[y] == Batch(base)[y] {
      EntitledIgnoresMarks(m, base, y);
    }
  }

  lemma PromotedSameRows(m: Memories, x: Id)
    requires x in m
    ensures SameRows(Promoted(m, x), m)
  {
  }

  lemma InsertedSameRows(m: Memories, base: Memories, x: Id, row: Memory)
    requires SameRows(m, base)
    ensures SameRows(Inserted(m, x, row), base[x := row.(marked := false)])
  {
    assert SameRows(m[x := row], base[x := row.(marked := false)]);
    PromotedSameRows(m[x := row], x);
  }

  lemma {:induction false} InsertionsAreExact(items: seq<Insertion>)
    requires Distinct(items)
    ensures Exact(InsertAll(items)) && SameRows(InsertAll(items), Unmarked(items))
  {
    if items == [] {
    } else {
      var front, last := items[..|items| - 1], items[|items| - 1];
      InsertionsAreExact(front);
      UnmarkedKeys(front, last.id);
      var row := NewRow(last.category, last.tags, last.text);
      InsertionKeepsExact(InsertAll(front), last.id, row);
      InsertedSameRows(InsertAll(front), Unmarked(front), last.id, row);
    }
  }

  /** Incremental marking of an insert-only history equals the batch least fixpoint over its memories. */
  lemma InsertionsAreABatch(items: seq<Insertion>)
    requires Distinct(items)
    ensures InsertAll(items) == Batch(Unmarked(items))
  {
    InsertionsAreExact(items);
    ExactIsBatch(InsertAll(items), Unmarked(items));
  }

  lemma {:induction false} UnmarkedRow(items: seq<Insertion>, i: nat)
    requires Distinct(items) && i < |items|
    ensures items[i].id in Unmarked(items)
    ensures Unmarked(items)[items[i].id] == Memory(items[i].category, items[i].tags, items[i].text, false, false)
  {
    if i < |items| - 1 {
      UnmarkedRow(items[..|items| - 1], i);
    }
  }

  lemma SameRow(a: seq<Insertion>, b: seq<Insertion>, x: Id)
    requires Distinct(a) && Distinct(b) && x in Unmarked(a)
    requires forall item :: item in a ==> item in b
    ensures x in Unmarked(b) && Unmarked(a)[x] == Unmarked(b)[x]
  {
    UnmarkedKeys(a, x);
    var i :| 0 <= i < |a| && a[i].id == x;
    assert a[i] in b;
    var j :| 0 <= j < |b| && b[j] == a[i];
    UnmarkedRow(a, i);
    UnmarkedRow(b, j);
  }

  /** Any two histories of the same memories end with the same marks, in whatever order they came. */
  lemma InsertionOrderDoesNotMatter(a: seq<Insertion>, b: seq<Insertion>)
    requires Distinct(a) && Distinct(b)
    requires forall item :: item in a <==> item in b
    ensures InsertAll(a) == InsertAll(b)
  {
    InsertionsAreABatch(a);
    InsertionsAreABatch(b);
    forall x | x in Unmarked(a) ensures x in Unmarked(b) && Unmarked(a)[x] == Unmarked(b)[x] {
      SameRow(a, b, x);
    }
    forall x | x in Unmarked(b) ensures x in Unmarked(a) {
      SameRow(b, a, x);
    }
    assert Unmarked(a) == Unmarked(b);
  }
}
