/** Loading a list of workspace bindings, and resolving a working directory against it. */
module DirectoryBindings {
  import opened Wrappers

  /** A canonical absolute path, by its components. */
  type Path = seq<string>

  datatype Identity = Git(common: Path) | Directory(root: Path, descendants: bool)

  datatype Binding = Binding(identity: Identity, project: string)

  datatype Refusal = DuplicateIdentity | OverlappingScopes | Ambiguous | Unmapped

  predicate Within(path: Path, root: Path) {
    root <= path
  }

  predicate SameIdentity(a: Identity, b: Identity) {
    match (a, b)
    case (Git(c), Git(d)) => c == d
    case (Directory(r, _), Directory(s, _)) => r == s
    case _ => false
  }

  /** One of the two directories descends into the other. */
  predicate Overlaps(a: Identity, b: Identity) {
    a.Directory? && b.Directory? &&
      ((Within(a.root, b.root) && b.descendants) || (Within(b.root, a.root) && a.descendants))
  }

  ghost predicate NoDuplicates(bindings: seq<Binding>) {
    forall i, j :: 0 <= i < j < |bindings| ==> !SameIdentity(bindings[i].identity, bindings[j].identity)
  }

  ghost predicate NoOverlaps(bindings: seq<Binding>) {
    forall i, j :: 0 <= i < j < |bindings| ==> !Overlaps(bindings[i].identity, bindings[j].identity)
  }

  /** The key a binding is known by: its kind and its path. */
  function KeyOf(identity: Identity): (nat, Path) {
    match identity
    case Git(common) => (0, common)
    case Directory(root, _) => (1, root)
  }

  /** The checks made while loading: every identity once, then no overlapping directories. */
  method CheckBindings(bindings: seq<Binding>) returns (r: Result<(), Refusal>)
    ensures r == if !NoDuplicates(bindings) then Failure(DuplicateIdentity)
                 else if !NoOverlaps(bindings) then Failure(OverlappingScopes)
                 else Success(())
  {
    var keys: set<(nat, Path)> := {};
    for n := 0 to |bindings|
      invariant keys == set i | 0 <= i < n :: KeyOf(bindings[i].identity)
      invariant NoDuplicates(bindings[..n])
    {
      var key := KeyOf(bindings[n].identity);
      if key in keys {
        return Failure(DuplicateIdentity);
      }
      keys := keys + {key};
    }
    assert bindings[..|bindings|] == bindings;
    for i := 0 to |bindings|
      invariant forall p, q :: 0 <= p < i && p < q < |bindings| ==>
                !Overlaps(bindings[p].identity, bindings[q].identity)
    {
      if bindings[i].identity.Directory? {
        for j := i + 1 to |bindings|
          invariant forall q :: i < q < j ==> !Overlaps(bindings[i].identity, bindings[q].identity)
        {
          if Overlaps(bindings[i].identity, bindings[j].identity) {
            return Failure(OverlappingScopes);
          }
        }
      }
    }
    return Success(());
  }

  /** The directory binding covers the working directory. */
  predicate Covers(identity: Identity, cwd: Path) {
    identity.Directory? && (cwd == identity.root || (identity.descendants && Within(cwd, identity.root)))
  }

  /** The working directory is the bound directory or, if it descends, lies below it. */
  lemma CoversIsExact(identity: Identity, cwd: Path)
    ensures Covers(identity, cwd) <==>
              && identity.Directory?
              && exists below: Path :: cwd == identity.root + below && (below == [] || identity.descendants)
  {
    if Covers(identity, cwd) {
      assert cwd == identity.root + cwd[|identity.root|..];
    }
  }

  /** One directory contains the other, and descends into it. */
  lemma OverlapsIsExact(a: Identity, b: Identity)
    requires a.Directory? && b.Directory?
    ensures Overlaps(a, b) <==>
              || (b.descendants && exists below: Path :: a.root == b.root + below)
              || (a.descendants && exists below: Path :: b.root == a.root + below)
  {
    if b.root <= a.root {
      assert a.root == b.root + a.root[|b.root|..];
    }
    if a.root <= b.root {
      assert b.root == a.root + b.root[|a.root|..];
    }
  }

  /** No working directory is covered twice. */
  ghost predicate Unambiguous(bindings: seq<Binding>) {
    forall cwd: Path, i, j :: 0 <= i < j < |bindings| && Covers(bindings[i].identity, cwd) ==>
      !Covers(bindings[j].identity, cwd)
  }

  /** No repository is bound twice. */
  ghost predicate GitUnambiguous(bindings: seq<Binding>) {
    forall i, j :: 0 <= i < j < |bindings| && bindings[i].identity.Git? ==> bindings[j].identity != bindings[i].identity
  }

  /** Two directories can cover a common working directory exactly when they are the same or overlap. */
  lemma CoveredTwice(a: Identity, b: Identity)
    requires a.Directory? && b.Directory?
    ensures (exists cwd: Path :: Covers(a, cwd) && Covers(b, cwd)) <==> SameIdentity(a, b) || Overlaps(a, b)
  {
    if cwd: Path :| Covers(a, cwd) && Covers(b, cwd) {
      assert a.root == cwd[..|a.root|] && b.root == cwd[..|b.root|];
      if |a.root| <= |b.root| {
        assert a.root == b.root[..|a.root|];
      } else {
        assert b.root == a.root[..|b.root|];
      }
    }
    if SameIdentity(a, b) || (Overlaps(a, b) && Within(a.root, b.root) && b.descendants) {
      assert Covers(a, a.root) && Covers(b, a.root);
    } else if Overlaps(a, b) {
      assert Covers(a, b.root) && Covers(b, b.root);
    }
  }

  /** The checks accept exactly the lists that name every repository once and cover no directory twice. */
  lemma AcceptedIsUnambiguous(bindings: seq<Binding>)
    ensures NoDuplicates(bindings) && NoOverlaps(bindings) <==> GitUnambiguous(bindings) && Unambiguous(bindings)
  {
    forall i, j | 0 <= i < j < |bindings| && bindings[i].identity.Directory? && bindings[j].identity.Directory?
      ensures (exists cwd: Path :: Covers(bindings[i].identity, cwd) && Covers(bindings[j].identity, cwd))
              <==>
              SameIdentity(bindings[i].identity, bindings[j].identity)
              || Overlaps(bindings[i].identity, bindings[j].identity)
    {
      CoveredTwice(bindings[i].identity, bindings[j].identity);
    }
    if GitUnambiguous(bindings) && Unambiguous(bindings) {
      forall i, j | 0 <= i < j < |bindings|
        ensures !SameIdentity(bindings[i].identity, bindings[j].identity) &&
                  !Overlaps(bindings[i].identity, bindings[j].identity)
      {
        if bindings[i].identity.Directory? && bindings[j].identity.Directory? {
          CoveredTwice(bindings[i].identity, bindings[j].identity);
        }
      }
    }
  }

  /** The bindings that cover the working directory, in list order. */
  function Matches(bindings: seq<Binding>, cwd: Path): seq<Binding> {
    if bindings == [] then []
    else
      var n := |bindings| - 1;
      Matches(bindings[..n], cwd) + if Covers(bindings[n].identity, cwd) then [bindings[n]] else []
  }

  ghost predicate CoveredAt(bindings: seq<Binding>, cwd: Path, i: int) {
    0 <= i < |bindings| && Covers(bindings[i].identity, cwd)
  }

  lemma {:induction false} CoveredIsMatched(bindings: seq<Binding>, cwd: Path, i: int)
    requires CoveredAt(bindings, cwd, i)
    ensures bindings[i] in Matches(bindings, cwd)
  {
    if i < |bindings| - 1 {
      CoveredIsMatched(bindings[..|bindings| - 1], cwd, i);
    }
  }

  lemma {:induction false} MatchedIsCovered(bindings: seq<Binding>, cwd: Path, b: Binding) returns (i: int)
    requires b in Matches(bindings, cwd)
    ensures CoveredAt(bindings, cwd, i) && bindings[i] == b
  {
    var n := |bindings| - 1;
    if b in Matches(bindings[..n], cwd) {
      i := MatchedIsCovered(bindings[..n], cwd, b);
    } else {
      i := n;
    }
  }

  lemma {:induction false} CoveredTwiceIsSeveral(bindings: seq<Binding>, cwd: Path, i: int, j: int)
    requires i < j && CoveredAt(bindings, cwd, i) && CoveredAt(bindings, cwd, j)
    ensures |Matches(bindings, cwd)| > 1
  {
    var n := |bindings| - 1;
    if j < n {
      CoveredTwiceIsSeveral(bindings[..n], cwd, i, j);
    } else {
      CoveredIsMatched(bindings[..n], cwd, i);
    }
  }

  lemma {:induction false} SeveralIsCoveredTwice(bindings: seq<Binding>, cwd: Path) returns (i: int, j: int)
    requires |Matches(bindings, cwd)| > 1
    ensures i < j && CoveredAt(bindings, cwd, i) && CoveredAt(bindings, cwd, j)
  {
    var n := |bindings| - 1;
    if |Matches(bindings[..n], cwd)| > 1 {
      i, j := SeveralIsCoveredTwice(bindings[..n], cwd);
    } else {
      i := MatchedIsCovered(bindings[..n], cwd, Matches(bindings[..n], cwd)[0]);
      j := n;
    }
  }

  /** How many matches there are: none, one, or several. */
  lemma MatchesCount(bindings: seq<Binding>, cwd: Path)
    ensures Matches(bindings, cwd) == [] <==> forall i :: !CoveredAt(bindings, cwd, i)
    ensures |Matches(bindings, cwd)| > 1 <==>
              exists i, j :: i < j && CoveredAt(bindings, cwd, i) && CoveredAt(bindings, cwd, j)
  {
    if i :| CoveredAt(bindings, cwd, i) {
      CoveredIsMatched(bindings, cwd, i);
    }
    if Matches(bindings, cwd) != [] {
      var i := MatchedIsCovered(bindings, cwd, Matches(bindings, cwd)[0]);
    }
    if i, j :| i < j && CoveredAt(bindings, cwd, i) && CoveredAt(bindings, cwd, j) {
      CoveredTwiceIsSeveral(bindings, cwd, i, j);
    }
    if |Matches(bindings, cwd)| > 1 {
      var i, j := SeveralIsCoveredTwice(bindings, cwd);
    }
  }

  method ResolveDirectory(bindings: seq<Binding>, cwd: Path) returns (r: Result<Binding, Refusal>)
    ensures r == match |Matches(bindings, cwd)| {
              case 0 => Failure(Unmapped)
              case 1 => Success(Matches(bindings, cwd)[0])
              case _ => Failure(Ambiguous)
            }
    ensures r == Failure(Unmapped) <==> forall i :: !CoveredAt(bindings, cwd, i)
    ensures r == Failure(Ambiguous) <==>
              exists i, j :: i < j && CoveredAt(bindings, cwd, i) && CoveredAt(bindings, cwd, j)
    ensures r.Success? ==>
              && r.value in bindings && r.value.identity.Directory?
              && exists below: Path ::
                   cwd == r.value.identity.root + below && (below == [] || r.value.identity.descendants)
  {
    var matches := [];
    for n := 0 to |bindings|
      invariant matches == Matches(bindings[..n], cwd)
    {
      assert bindings[..n + 1][..n] == bindings[..n];
      if Covers(bindings[n].identity, cwd) {
        matches := matches + [bindings[n]];
      }
    }
    assert bindings[..|bindings|] == bindings;
    MatchesCount(bindings, cwd);
    if |matches| > 1 {
      return Failure(Ambiguous);
    }
    if matches == [] {
      return Failure(Unmapped);
    }
    ghost var i := MatchedIsCovered(bindings, cwd, matches[0]);
    CoversIsExact(matches[0].identity, cwd);
    return Success(matches[0]);
  }

  /** An accepted list resolves every working directory: to the one binding that covers it, or to none. */
  lemma AcceptedResolves(bindings: seq<Binding>, cwd: Path)
    requires NoDuplicates(bindings) && NoOverlaps(bindings)
    ensures |Matches(bindings, cwd)| <= 1
    ensures forall i :: CoveredAt(bindings, cwd, i) ==> Matches(bindings, cwd) == [bindings[i]]
  {
    AcceptedIsUnambiguous(bindings);
    if |Matches(bindings, cwd)| > 1 {
      var i, j := SeveralIsCoveredTwice(bindings, cwd);
      assert false;
    }
    forall i | CoveredAt(bindings, cwd, i) ensures Matches(bindings, cwd) == [bindings[i]] {
      CoveredIsMatched(bindings, cwd, i);
    }
  }

  /** A rejected list that names every repository once does make some working directory ambiguous. */
  lemma RejectedIsAmbiguous(bindings: seq<Binding>)
    requires GitUnambiguous(bindings) && !(NoDuplicates(bindings) && NoOverlaps(bindings))
    ensures exists cwd: Path :: |Matches(bindings, cwd)| > 1
  {
    AcceptedIsUnambiguous(bindings);
    var cwd: Path, i, j :| 0 <= i < j < |bindings| && Covers(bindings[i].identity, cwd) &&
      Covers(bindings[j].identity, cwd);
    CoveredTwiceIsSeveral(bindings, cwd, i, j);
  }
}
