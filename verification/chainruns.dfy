/** Runs of chain operations: whatever create_chain, remove_chain and f_truncate's cut do,
    in any order, the FAT stays a family of disjoint, terminated chains. */
module ChainRuns {
  import opened Layout
  import opened Chains
  import opened Allocator

  datatype FatOp =
    | NewChain(start: nat)             // create_chain(0), search starting at `start`
    | Append(clst: nat)                // create_chain(clst)
    | Release(clst: nat)               // remove_chain(clst)
    | Truncate(clst: nat)              // put_fat(clst, end); remove_chain(old follower)

  /** remove_chain may be given the first cluster of a chain or a free cluster. */
  ghost predicate Legal(f: seq<nat>, op: FatOp) {
    match op
    case NewChain(start) => 1 <= start < |f|
    case Append(clst) => true
    case Release(clst) => 2 <= clst < |f| && forall x :: 2 <= x < |f| ==> f[x] != clst
    case Truncate(clst) => 2 <= clst < |f| && 2 <= f[clst] < |f|
  }

  /** The effect of one operation on the FAT. */
  ghost predicate Step(g: Geometry, f: seq<nat>, op: FatOp, r: nat, f': seq<nat>)
    requires |f| == g.nFatent
  {
    match op
    case NewChain(start) => Created(g, f, f', 0, start, r)
    case Append(clst) => clst != 0 && Created(g, f, f', clst, clst, r)
    case Release(clst) => 2 <= clst && f' == Unlink(f, clst).0
    case Truncate(clst) => 2 <= clst < |f| && 2 <= f[clst]
                           && f' == Unlink(f[clst := EndMark(g.fsType)], f[clst]).0
  }

  /** What an operation does to the family of chains. */
  ghost predicate Change(g: Geometry, f: seq<nat>, op: FatOp, r: nat, cs: set<seq<nat>>, cs': set<seq<nat>>)
    requires |f| == g.nFatent
  {
    match op
    case NewChain(_) => cs' == if r >= 2 then cs + {[r]} else cs
    case Append(clst) =>
      if r >= 2 && Extends(g, f, clst) then exists a :: a in cs && a != [] && a[|a| - 1] == clst && cs' == cs - {a} + {a + [r]}
      else cs' == cs
    case Release(clst) =>
      if clst < |f| && f[clst] != 0 then exists a :: a in cs && a != [] && a[0] == clst && cs' == cs - {a}
      else cs' == cs
    case Truncate(clst) => exists a, k :: a in cs && 0 < k <= |a| && a[k - 1] == clst && cs' == cs - {a} + {a[..k]}
  }

  /** An entry holding an end mark is the last of its chain. */
  lemma LastOfChain(f: seq<nat>, a: seq<nat>, c: nat)
    requires IsChain(f, a) && c in a && f[c] >= |f|
    ensures a[|a| - 1] == c
  {
    var i :| 0 <= i < |a| && a[i] == c;
    forall j | 0 <= j < |a| - 1 ensures f[a[j]] < |f| { Follower(f, a, j); }
  }

  /** A cluster no entry points to is the first of its chain. */
  lemma HeadOfChain(f: seq<nat>, a: seq<nat>, c: nat)
    requires IsChain(f, a) && c in a && forall x :: 2 <= x < |f| ==> f[x] != c
    ensures a[0] == c
  {
    var i :| 0 <= i < |a| && a[i] == c;
    forall j | 0 < j < |a| ensures a[j] != c { Follower(f, a, j - 1); }
  }

  lemma AppendKeepsForest(g: Geometry, f: seq<nat>, f': seq<nat>, cs: set<seq<nat>>, clst: nat, r: nat)
      returns (cs': set<seq<nat>>)
    requires g.Valid() && |f| == g.nFatent && Forest(f, cs) && clst != 0
    requires Created(g, f, f', clst, clst, r)
    ensures Forest(f', cs') && Change(g, f, Append(clst), r, cs, cs')
  {
    cs' := cs;
    if Extends(g, f, clst) && r >= 2 {
      var a :| a in cs && clst in a;
      LastOfChain(f, a, clst);
      EndMarkEnds(g);
      StretchKeepsForest(f, cs, a, r, EndMark(g.fsType));
      cs' := cs - {a} + {a + [r]};
    }
  }

  lemma ReleaseKeepsForest(g: Geometry, f: seq<nat>, cs: set<seq<nat>>, clst: nat) returns (cs': set<seq<nat>>)
    requires |f| == g.nFatent && Forest(f, cs) && Legal(f, Release(clst))
    ensures Forest(Unlink(f, clst).0, cs') && Change(g, f, Release(clst), 0, cs, cs')
  {
    cs' := cs;
    if f[clst] != 0 {
      var a :| a in cs && clst in a;
      HeadOfChain(f, a, clst);
      UnlinkChain(f, a);
      RemoveKeepsForest(f, cs, a);
      cs' := cs - {a};
    }
  }

  /** put_fat(end) then remove_chain(follower) is the cut of the chain. */
  lemma TruncateIsCut(f: seq<nat>, a: seq<nat>, k: nat, eoc: nat)
    requires IsChain(f, a) && 0 < k < |a| && eoc >= |f|
    ensures f[a[k - 1]] == a[k]
    ensures Unlink(f[a[k - 1] := eoc], a[k]) == (CutAt(f, a, k, eoc), true)
  {
    var g := f[a[k - 1] := eoc];
    assert f[a[k - 1]] == a[k - 1 + 1];
    TailIsChain(f, a, k);
    ChainFrame(f, g, a[k..]);
    UnlinkChain(g, a[k..]);
  }

  lemma TruncateKeepsForest(g: Geometry, f: seq<nat>, cs: set<seq<nat>>, clst: nat) returns (cs': set<seq<nat>>)
    requires g.Valid() && |f| == g.nFatent && Forest(f, cs) && Legal(f, Truncate(clst))
    ensures Forest(Unlink(f[clst := EndMark(g.fsType)], f[clst]).0, cs') && Change(g, f, Truncate(clst), 0, cs, cs')
  {
    var a :| a in cs && clst in a;
    var i :| 0 <= i < |a| && a[i] == clst;
    if i == |a| - 1 { assert false; }
    assert a[i + 1 - 1] == clst;
    EndMarkEnds(g);
    TruncateIsCut(f, a, i + 1, EndMark(g.fsType));
    CutKeepsForest(f, cs, a, i + 1, EndMark(g.fsType));
    cs' := cs - {a} + {a[..i + 1]};
  }

  /** One operation: the family changes in one place, and the FAT is that family again. */
  lemma StepKeepsForest(g: Geometry, f: seq<nat>, op: FatOp, r: nat, f': seq<nat>, cs: set<seq<nat>>)
      returns (cs': set<seq<nat>>)
    requires g.Valid() && |f| == g.nFatent && Forest(f, cs) && Legal(f, op) && Step(g, f, op, r, f')
    ensures Forest(f', cs') && Change(g, f, op, r, cs, cs')
  {
    match op
    case NewChain(start) =>
      cs' := cs;
      if r >= 2 {
        EndMarkEnds(g);
        CreateKeepsForest(f, cs, r, EndMark(g.fsType));
        cs' := cs + {[r]};
      }
    case Append(clst) => cs' := AppendKeepsForest(g, f, f', cs, clst, r);
    case Release(clst) => cs' := ReleaseKeepsForest(g, f, cs, clst);
    case Truncate(clst) => cs' := TruncateKeepsForest(g, f, cs, clst);
  }

  /** The families of a run: css[i] is that of fats[i], and each is the one before with one operation done. */
  ghost predicate Families(g: Geometry, fats: seq<seq<nat>>, ops: seq<FatOp>, rs: seq<nat>, css: seq<set<seq<nat>>>) {
    && |fats| == |css| == |ops| + 1 && |rs| == |ops|
    && (forall i :: 0 <= i < |fats| ==> |fats[i]| == g.nFatent && Forest(fats[i], css[i]))
    && (forall i :: 0 <= i < |ops| ==> Change(g, fats[i], ops[i], rs[i], css[i], css[i + 1]))
  }

  /** The run theorem: fats[i] is the FAT before the i-th operation. */
  lemma {:induction false} RunKeepsForest(g: Geometry, fats: seq<seq<nat>>, ops: seq<FatOp>, rs: seq<nat>,
                                          cs: set<seq<nat>>) returns (css: seq<set<seq<nat>>>)
    requires g.Valid() && |fats| == |ops| + 1 && |rs| == |ops|
    requires forall i :: 0 <= i < |fats| ==> |fats[i]| == g.nFatent
    requires Forest(fats[0], cs)
    requires forall i :: 0 <= i < |ops| ==> Legal(fats[i], ops[i]) && Step(g, fats[i], ops[i], rs[i], fats[i + 1])
    ensures Families(g, fats, ops, rs, css) && css[0] == cs
    decreases |ops|
  {
    hide Forest, Legal, Step, Change;
    if ops == [] {
      css := [cs];
    } else {
      var n := |ops| - 1;
      var mid := RunKeepsForest(g, fats[..n + 1], ops[..n], rs[..n], cs);
      assert fats[..n + 1][n] == fats[n];
      var cs' := StepKeepsForest(g, fats[n], ops[n], rs[n], fats[n + 1], mid[n]);
      FamiliesGrow(g, fats[..n + 1], ops[..n], rs[..n], mid, ops[n], rs[n], fats[n + 1], cs');
      assert fats == fats[..n + 1] + [fats[n + 1]] && ops == ops[..n] + [ops[n]] && rs == rs[..n] + [rs[n]];
      css := mid + [cs'];
    }
  }

  lemma FamiliesGrow(g: Geometry, fats: seq<seq<nat>>, ops: seq<FatOp>, rs: seq<nat>, css: seq<set<seq<nat>>>,
                     op: FatOp, r: nat, f: seq<nat>, cs: set<seq<nat>>)
    requires Families(g, fats, ops, rs, css) && |f| == g.nFatent && Forest(f, cs)
    requires Change(g, fats[|ops|], op, r, css[|ops|], cs)
    ensures Families(g, fats + [f], ops + [op], rs + [r], css + [cs])
  {
    hide Forest, Change;
    var fs', os', rs', cs' := fats + [f], ops + [op], rs + [r], css + [cs];
    forall i | 0 <= i < |os'| ensures Change(g, fs'[i], os'[i], rs'[i], cs'[i], cs'[i + 1]) {
      if i < |ops| { assert fs'[i] == fats[i] && cs'[i] == css[i] && cs'[i + 1] == css[i + 1]; }
    }
  }

  /** Clusters are conserved: freeing a chain makes exactly its clusters free. */
  lemma {:induction false} ReleaseFrees(f: seq<nat>, a: seq<nat>)
    requires IsChain(f, a)
    ensures Free(Cleared(f, a)) == Free(f) + |a|
    decreases |a|
  {
    var g := f[a[0] := 0];
    ChainEntries(f, a);
    FreeUpdate(f, a[0], 0);
    if |a| == 1 {
      assert Cleared(f, a) == g;
    } else {
      TailIsChain(f, a, 1);
      ChainFrame(f, g, a[1..]);
      ReleaseFrees(g, a[1..]);
      assert forall c :: c in a <==> c == a[0] || c in a[1..];
      assert Cleared(g, a[1..]) == Cleared(f, a);
    }
  }
}
