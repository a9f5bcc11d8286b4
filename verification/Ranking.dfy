/** Lists of scored memories and their order by descending score. */
module Ranking {

  type Id = nat

  datatype Scored = Scored(id: Id, score: real)

  predicate Descending(s: seq<Scored>) {
    forall i, j :: 0 <= i < j < |s| ==> s[i].score >= s[j].score
  }

  function Ids(s: seq<Scored>): set<Id> {
    set i | 0 <= i < |s| :: s[i].id
  }

  predicate DistinctIds(s: seq<Scored>) {
    forall i, j :: 0 <= i < j < |s| ==> s[i].id != s[j].id
  }

  predicate SameEntries(s: seq<Scored>, t: seq<Scored>) {
    multiset(s) == multiset(t)
  }

  lemma JoinedInOrder(a: seq<Scored>, b: seq<Scored>, bound: real)
    requires Descending(a) && Descending(b)
    requires forall i :: 0 <= i < |a| ==> a[i].score >= bound
    requires forall i :: 0 <= i < |b| ==> b[i].score <= bound
    ensures Descending(a + b)
  {
  }

  lemma InsertedInOrder(s: seq<Scored>, x: Scored, k: nat)
    requires k <= |s| && Descending(s)
    requires forall i :: 0 <= i < k ==> s[i].score >= x.score
    requires forall i :: k <= i < |s| ==> s[i].score < x.score
    ensures Descending(s[..k] + [x] + s[k..]) && multiset(s[..k] + [x] + s[k..]) == multiset(s) + multiset{x}
  {
    var front, back := s[..k], s[k..];
    assert Descending(front + [x]) && Descending(back);
    JoinedInOrder(front + [x], back, x.score);
    assert front + back == s;
  }

  /** Insert behind every entry of at least the same score. */
  method InsertByScore(s: seq<Scored>, x: Scored) returns (r: seq<Scored>)
    requires Descending(s)
    ensures Descending(r) && multiset(r) == multiset(s) + multiset{x}
  {
    var k := |s|;
    while k > 0 && s[k - 1].score < x.score
      invariant 0 <= k <= |s|
      invariant forall i :: k <= i < |s| ==> s[i].score < x.score
    {
      k := k - 1;
    }
    r := s[..k] + [x] + s[k..];
    InsertedInOrder(s, x, k);
  }

  /** Sort by descending score. */
  method SortDescending(s: seq<Scored>) returns (sorted: seq<Scored>)
    ensures Descending(sorted) && SameEntries(s, sorted)
  {
    sorted := [];
    for n := 0 to |s|
      invariant Descending(sorted) && SameEntries(s[..n], sorted)
    {
      sorted := InsertByScore(sorted, s[n]);
      assert s[..n + 1] == s[..n] + [s[n]];
    }
    assert s[..|s|] == s;
  }

  lemma AppendIds(s: seq<Scored>, t: seq<Scored>)
    ensures Ids(s + t) == Ids(s) + Ids(t)
    ensures DistinctIds(s) && DistinctIds(t) && Ids(s) !! Ids(t) ==> DistinctIds(s + t)
  {
    forall x | x in Ids(s) + Ids(t) ensures x in Ids(s + t) {
      if x in Ids(s) {
        var i :| 0 <= i < |s| && s[i].id == x;
        assert (s + t)[i].id == x;
      } else {
        var i :| 0 <= i < |t| && t[i].id == x;
        assert (s + t)[|s| + i].id == x;
      }
    }
    if DistinctIds(s) && DistinctIds(t) && Ids(s) !! Ids(t) {
      forall i, j | 0 <= i < j < |s + t| ensures (s + t)[i].id != (s + t)[j].id {
        if i < |s| <= j {
          assert s[i].id in Ids(s) && t[j - |s|].id in Ids(t);
        }
      }
    }
  }

  lemma SingleId(x: Scored)
    ensures Ids([x]) == {x.id} && DistinctIds([x])
  {
    assert [x][0].id in Ids([x]);
  }

  lemma IdsOf(s: seq<Scored>)
    ensures forall x :: x in Ids(s) <==> exists e :: e in s && e.id == x
  {
    forall x | x in Ids(s) ensures exists e :: e in s && e.id == x {
      var i :| 0 <= i < |s| && s[i].id == x;
      assert s[i] in s;
    }
  }

  lemma EntriesKept(s: seq<Scored>, t: seq<Scored>)
    requires SameEntries(s, t)
    ensures |s| == |t| && forall e :: e in s <==> e in t
    ensures Ids(s) == Ids(t)
  {
    assert |multiset(s)| == |multiset(t)|;
    forall e ensures e in s <==> e in t {
      assert e in s <==> e in multiset(s);
      assert e in t <==> e in multiset(t);
    }
    IdsOf(s);
    IdsOf(t);
  }

  lemma TwiceIn(t: seq<Scored>, i: nat, j: nat)
    requires i < j < |t| && t[i] == t[j]
    ensures multiset(t)[t[i]] >= 2
  {
    assert t == t[..i] + [t[i]] + t[i + 1..j] + [t[j]] + t[j + 1..];
  }

  lemma OnceIn(s: seq<Scored>, a: nat)
    requires a < |s| && DistinctIds(s)
    ensures multiset(s)[s[a]] == 1
  {
    assert s == s[..a] + [s[a]] + s[a + 1..];
    assert s[a] !in s[..a] && s[a] !in s[a + 1..];
  }

  /** Distinct identifiers survive any reordering. */
  lemma {:induction false} DistinctKept(s: seq<Scored>, t: seq<Scored>)
    requires SameEntries(s, t) && DistinctIds(s)
    ensures DistinctIds(t)
  {
    EntriesKept(s, t);
    forall i, j | 0 <= i < j < |t| ensures t[i].id != t[j].id {
      if t[i].id == t[j].id {
        assert t[i] in s && t[j] in s;
        var a :| 0 <= a < |s| && s[a] == t[i];
        var b :| 0 <= b < |s| && s[b] == t[j];
        assert a == b;
        TwiceIn(t, i, j);
        OnceIn(s, a);
        assert false;
      }
    }
  }
}
