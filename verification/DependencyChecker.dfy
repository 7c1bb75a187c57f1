/** The read-after-write check over a call sequence (safety/src/dependency_checker.rs). */
module DependencyChecker {
  import opened Common
  import opened Classifier

  datatype DataDependency = DataDependency(fromIndex: nat, toIndex: nat)

  /** A call that may write, followed at any distance by an eligible call of the same program. */
  predicate Depends(s: seq<Event>, i: int, j: int) {
    && 0 <= i < j < |s|
    && s[i].programId == s[j].programId
    && !Eligible(s[i].syscallId) && Eligible(s[j].syscallId)
  }

  predicate HasDependencies(s: seq<Event>) {
    exists i, j | 0 <= i < |s| && 0 <= j < |s| :: Depends(s, i, j)
  }

  predicate IsSafeToReorder(s: seq<Event>) {
    !HasDependencies(s) && forall e | e in s :: Classify(e.syscallId) == ReadOnly
  }

  /** Exactly the sequences of nothing but ReadOnly calls are safe to reorder. */
  lemma SafeToReorderExact(s: seq<Event>)
    ensures IsSafeToReorder(s) <==> forall e :: e in s ==> e.syscallId in READ_ONLY_IDS
  {
    forall e: Event ensures Classify(e.syscallId) == ReadOnly <==> e.syscallId in READ_ONLY_IDS {
      ClassTable(e.syscallId);
    }
  }

  ghost predicate Before(d: DataDependency, d': DataDependency) {
    d.fromIndex < d'.fromIndex || (d.fromIndex == d'.fromIndex && d.toIndex < d'.toIndex)
  }

  /** Exactly the dependencies of s, in strict lexicographic order. */
  ghost predicate ListsDependencies(s: seq<Event>, deps: seq<DataDependency>) {
    && (forall i: nat, j: nat :: DataDependency(i, j) in deps <==> Depends(s, i, j))
    && (forall a, b :: 0 <= a < b < |deps| ==> Before(deps[a], deps[b]))
  }

  method CheckSequence(s: seq<Event>) returns (deps: seq<DataDependency>)
    ensures ListsDependencies(s, deps)
    ensures deps == [] <==> !HasDependencies(s)
  {
    var classifier := new SyscallClassifier();
    deps := [];
    for i := 0 to |s|
      invariant forall id: SyscallId :: classifier.Get(id) == Classify(id)
      invariant forall d :: d in deps <==> d.fromIndex < i && Depends(s, d.fromIndex, d.toIndex)
      invariant forall a, b :: 0 <= a < b < |deps| ==> Before(deps[a], deps[b])
    {
      var class_ := classifier.Get(s[i].syscallId);
      if class_ != StateChanging && class_ != OrderSensitive {
        continue;
      }
      for j := i + 1 to |s|
        invariant forall d :: d in deps <==>
                    && Depends(s, d.fromIndex, d.toIndex)
                    && (d.fromIndex < i || (d.fromIndex == i && d.toIndex < j))
        invariant forall a, b :: 0 <= a < b < |deps| ==> Before(deps[a], deps[b])
      {
        var toClass := classifier.Get(s[j].syscallId);
        if s[j].programId == s[i].programId && (toClass == ReadOnly || toClass == Idempotent) {
          deps := deps + [DataDependency(i, j)];
        }
      }
    }
    assert forall i: nat, j: nat :: Depends(s, i, j) ==> DataDependency(i, j) in deps;
    assert deps != [] ==> deps[0] in deps;
  }

  // ---- The check, program by program ------------------------------------------------------------

  function Project(s: seq<Event>, program: Pubkey): seq<Event> {
    if s == [] then [] else
    var rest := Project(s[1..], program);
    if s[0].programId == program then [s[0]] + rest else rest
  }

  /** Eligible calls first, then the others. */
  ghost predicate Layered(s: seq<Event>) {
    exists k :: LayeredAt(s, k)
  }

  ghost predicate LayeredAt(s: seq<Event>, k: int) {
    0 <= k <= |s| && forall i :: 0 <= i < |s| ==> (Eligible(s[i].syscallId) <==> i < k)
  }

  lemma {:induction false} ProjectMembers(s: seq<Event>, program: Pubkey)
    ensures forall e :: e in Project(s, program) <==> e in s && e.programId == program
  {
    if s != [] {
      ProjectMembers(s[1..], program);
      assert s == [s[0]] + s[1..];
    }
  }

  lemma HasDependenciesCons(s: seq<Event>)
    requires s != []
    ensures HasDependencies(s) <==>
            HasDependencies(s[1..]) ||
            (!Eligible(s[0].syscallId) &&
             exists e :: e in s[1..] && e.programId == s[0].programId && Eligible(e.syscallId))
  {
    forall i, j | Depends(s, i, j) && i > 0 ensures HasDependencies(s[1..]) {
      assert Depends(s[1..], i - 1, j - 1);
    }
    forall i, j | Depends(s[1..], i, j) ensures HasDependencies(s) {
      assert Depends(s, i + 1, j + 1);
    }
    forall e | e in s[1..] && e.programId == s[0].programId && Eligible(e.syscallId) && !Eligible(s[0].syscallId)
      ensures HasDependencies(s)
    {
      var j :| 0 <= j < |s[1..]| && s[1..][j] == e;
      assert Depends(s, 0, j + 1);
    }
    forall j | Depends(s, 0, j) ensures s[j] in s[1..] {
      assert s[1..][j - 1] == s[j];
    }
  }

  lemma LayeredCons(e: Event, s: seq<Event>)
    ensures Layered([e] + s) <==>
            Layered(s) && (!Eligible(e.syscallId) ==> forall x :: x in s ==> !Eligible(x.syscallId))
  {
    var t := [e] + s;
    if Layered(t) {
      var k :| LayeredAt(t, k);
      forall i | 0 <= i < |s| ensures Eligible(s[i].syscallId) <==> i < k - 1 {
        assert s[i] == t[i + 1];
      }
      assert LayeredAt(s, if k == 0 then 0 else k - 1);
      assert Eligible(t[0].syscallId) <==> 0 < k;
      forall i | 0 <= i < |s| && !Eligible(e.syscallId) ensures !Eligible(s[i].syscallId) {
        assert s[i] == t[i + 1];
      }
    }
    if Layered(s) && (!Eligible(e.syscallId) ==> forall x :: x in s ==> !Eligible(x.syscallId)) {
      var k :| LayeredAt(s, k);
      assert LayeredAt(t, if Eligible(e.syscallId) then k + 1 else 0);
    }
  }

  /** Each program makes all its eligible calls before all its others. */
  ghost predicate LayeredByProgram(s: seq<Event>) {
    forall p: Pubkey :: Layered(Project(s, p))
  }

  lemma LayeredByProgramCons(s: seq<Event>)
    requires s != []
    ensures LayeredByProgram(s) <==>
            && LayeredByProgram(s[1..])
            && (!Eligible(s[0].syscallId) ==>
                  forall x :: x in s[1..] && x.programId == s[0].programId ==> !Eligible(x.syscallId))
  {
    var e, rest := s[0], s[1..];
    var own := Project(rest, e.programId);
    ProjectMembers(rest, e.programId);
    LayeredCons(e, own);
    if LayeredByProgram(s) {
      assert Layered(Project(s, e.programId));
      forall p: Pubkey ensures Layered(Project(rest, p)) {
        assert Layered(Project(s, p));
      }
    }
    if LayeredByProgram(rest) && (!Eligible(e.syscallId) ==> forall x :: x in own ==> !Eligible(x.syscallId)) {
      forall p: Pubkey ensures Layered(Project(s, p)) {
        assert Layered(Project(rest, p));
      }
    }
  }

  lemma {:induction false} DependencyFreeIffLayered(s: seq<Event>)
    ensures !HasDependencies(s) <==> LayeredByProgram(s)
  {
    if s == [] {
      forall p: Pubkey ensures Layered(Project(s, p)) {
        assert LayeredAt(Project(s, p), 0);
      }
    } else {
      DependencyFreeIffLayered(s[1..]);
      HasDependenciesCons(s);
      LayeredByProgramCons(s);
    }
  }
}
