/** Runs of create_chain, remove_chain and the cut of f_truncate on a mounted volume. */
module VolumeRuns {
  import opened Layout
  import opened Window
  import opened FatAccess
  import opened Chains
  import opened Allocator
  import opened ChainRuns

  datatype VolOp =
    | Create                 // create_chain(0)
    | Extend(clst: nat)      // create_chain(clst)
    | Remove(clst: nat)      // remove_chain(clst)
    | CutBehind(clst: nat)   // put_fat(clst, end mark); remove_chain(follower)

  /** The operation on the FAT; start is where the search for a free cluster begins. */
  function AsFat(op: VolOp, start: nat): FatOp {
    match op
    case Create => NewChain(start)
    case Extend(clst) => Append(clst)
    case Remove(clst) => Release(clst)
    case CutBehind(clst) => FatOp.Truncate(clst)
  }

  /** Chains are extended from any cluster number but 0, removed from their first cluster on, and cut inside. */
  ghost predicate Allowed(f: seq<nat>, op: VolOp) {
    match op
    case Create => true
    case Extend(clst) => 0 < clst < DWORDS
    case Remove(clst) => Legal(f, Release(clst))
    case CutBehind(clst) => Legal(f, FatOp.Truncate(clst))
  }

  /** last_clust after an operation. */
  ghost function NextLast(g: Geometry, f: seq<nat>, last: nat, op: VolOp, r: nat): nat
    requires |f| == g.nFatent
  {
    match op
    case Create => if r >= 2 then r else last
    case Extend(clst) => if r >= 2 && Extends(g, f, clst) then r else last
    case _ => last
  }

  /** The operation on the FAT when the last allocated cluster is last. */
  function Started(g: Geometry, last: nat, op: VolOp): FatOp {
    AsFat(op, SearchStart(g, last, 0))
  }

  /** Every operation is allowed when its turn comes. */
  ghost predicate Permitted(g: Geometry, f: seq<nat>, last: nat, ops: seq<VolOp>)
    requires |f| == g.nFatent
    decreases |ops|
  {
    ops == [] ||
    (Allowed(f, ops[0])
     && forall r, f' :: |f'| == |f| && Step(g, f, Started(g, last, ops[0]), r, f') ==> Permitted(g, f', NextLast(g, f, last, ops[0], r), ops[1..]))
  }

  lemma PermittedStep(g: Geometry, f: seq<nat>, last: nat, ops: seq<VolOp>, r: nat, f': seq<nat>)
    requires |f| == g.nFatent && Permitted(g, f, last, ops) && ops != []
    ensures Allowed(f, ops[0])
    ensures |f'| == |f| && Step(g, f, Started(g, last, ops[0]), r, f') ==> Permitted(g, f', NextLast(g, f, last, ops[0], r), ops[1..])
  {
    hide Allowed, Step, Started, NextLast;
  }

  method Perform(fs: Volume, op: VolOp) returns (r: nat)
    requires fs.Valid() && Allowed(Fat(fs.geo, fs.Logical()), op)
    modifies fs`disk, fs`winsect, fs`wflag, fs`fsiFlag, fs`lastClust, fs`freeClust, fs.win
    ensures fs.Valid() && OnlyFat(fs.geo, old(fs.Logical()), fs.Logical())
    ensures Legal(Fat(fs.geo, old(fs.Logical())), Started(fs.geo, old(fs.lastClust), op))
    ensures Step(fs.geo, Fat(fs.geo, old(fs.Logical())), Started(fs.geo, old(fs.lastClust), op), r, Fat(fs.geo, fs.Logical()))
    ensures fs.lastClust == NextLast(fs.geo, Fat(fs.geo, old(fs.Logical())), old(fs.lastClust), op, r)
    ensures Counts(old(fs.freeClust), Fat(fs.geo, old(fs.Logical())), fs.freeClust, Fat(fs.geo, fs.Logical()))
  {
    hide *;
    VolumeFits(fs);
    ghost var g, f, last := fs.geo, Fat(fs.geo, fs.Logical()), fs.lastClust;
    FitsValid(g, fs.Logical());
    r := 0;
    match op
    case Create =>
      CreateRange();
      r := CreateChain(fs, 0);
      VolumeFits(fs);
      CreateStep(g, f, last, r, Fat(g, fs.Logical()));
    case Extend(clst) =>
      ExtendRange(f, clst);
      r := CreateChain(fs, clst);
      VolumeFits(fs);
      ExtendStep(g, f, last, clst, r, Fat(g, fs.Logical()));
    case Remove(clst) =>
      RemoveRange(g, f, clst);
      var res := RemoveChain(fs, clst);
      VolumeFits(fs);
      RemoveStep(g, f, last, clst, Fat(g, fs.Logical()));
    case CutBehind(clst) =>
      CutRange(g, f, clst);
      var ncl := GetFat(fs, clst);
      var res := EndChain(fs, clst, ncl);
      VolumeFits(fs);
      CutStep(g, f, last, clst, Fat(g, fs.Logical()));
  }

  lemma CreateRange()
    ensures 0 < DWORDS
  {
  }

  lemma ExtendRange(f: seq<nat>, clst: nat)
    requires Allowed(f, Extend(clst))
    ensures 0 < clst < DWORDS
  {
  }

  lemma RemoveRange(g: Geometry, f: seq<nat>, clst: nat)
    requires g.Valid() && |f| == g.nFatent && Allowed(f, Remove(clst))
    ensures g.Cluster(clst) && 2 <= clst < DWORDS
  {
  }

  lemma CutRange(g: Geometry, f: seq<nat>, clst: nat)
    requires g.Valid() && |f| == g.nFatent && Allowed(f, CutBehind(clst))
    ensures g.Cluster(clst) && clst < |f| && g.Cluster(f[clst]) && f[clst] >= 2
  {
  }

  lemma CreateStep(g: Geometry, f: seq<nat>, last: nat, r: nat, f': seq<nat>)
    requires g.Valid() && |f| == g.nFatent && Created(g, f, f', 0, SearchStart(g, last, 0), r)
    ensures Legal(f, Started(g, last, Create)) && Step(g, f, Started(g, last, Create), r, f')
    ensures Extends(g, f, 0) && NextLast(g, f, last, Create, r) == if r >= 2 then r else last
  {
    hide Created;
  }

  lemma ExtendStep(g: Geometry, f: seq<nat>, last: nat, clst: nat, r: nat, f': seq<nat>)
    requires |f| == g.nFatent && clst > 0 && Created(g, f, f', clst, SearchStart(g, last, clst), r)
    ensures Legal(f, Started(g, last, Extend(clst))) && Step(g, f, Started(g, last, Extend(clst)), r, f')
    ensures NextLast(g, f, last, Extend(clst), r) == if r >= 2 && Extends(g, f, clst) then r else last
  {
    hide Created;
  }

  lemma RemoveStep(g: Geometry, f: seq<nat>, last: nat, clst: nat, f': seq<nat>)
    requires |f| == g.nFatent && Allowed(f, Remove(clst)) && clst >= 2 && f' == Unlink(f, clst).0
    ensures Legal(f, Started(g, last, Remove(clst))) && Step(g, f, Started(g, last, Remove(clst)), 0, f')
    ensures NextLast(g, f, last, Remove(clst), 0) == last
  {
    hide Unlink;
  }

  lemma CutStep(g: Geometry, f: seq<nat>, last: nat, clst: nat, f': seq<nat>)
    requires |f| == g.nFatent && Allowed(f, CutBehind(clst)) && clst < |f| && f[clst] >= 2
    requires f' == Unlink(f[clst := EndMark(g.fsType)], f[clst]).0
    ensures Legal(f, Started(g, last, CutBehind(clst))) && Step(g, f, Started(g, last, CutBehind(clst)), 0, f')
    ensures NextLast(g, f, last, CutBehind(clst), 0) == last
  {
    hide Unlink;
  }

  /** The steps of a run: each FAT and last_clust come from the ones before by the operation, which returned rs[i]. */
  ghost predicate Steps(g: Geometry, fats: seq<seq<nat>>, lasts: seq<nat>, ops: seq<VolOp>, done: seq<FatOp>, rs: seq<nat>) {
    && |fats| == |lasts| == |ops| + 1 && |done| == |rs| == |ops|
    && (forall i :: 0 <= i < |fats| ==> |fats[i]| == g.nFatent)
    && (forall i :: 0 <= i < |ops| ==> done[i] == Started(g, lasts[i], ops[i]))
    && (forall i :: 0 <= i < |ops| ==> Step(g, fats[i], done[i], rs[i], fats[i + 1]))
    && (forall i :: 0 <= i < |ops| ==> lasts[i + 1] == NextLast(g, fats[i], lasts[i], ops[i], rs[i]))
  }

  lemma StepsGrow(g: Geometry, fats: seq<seq<nat>>, lasts: seq<nat>, ops: seq<VolOp>, done: seq<FatOp>, rs: seq<nat>,
                  op: VolOp, r: nat, f: seq<nat>)
    requires Steps(g, fats, lasts, ops, done, rs) && |f| == g.nFatent
    requires Step(g, fats[|ops|], Started(g, lasts[|ops|], op), r, f)
    ensures Steps(g, fats + [f], lasts + [NextLast(g, fats[|ops|], lasts[|ops|], op, r)], ops + [op],
                  done + [Started(g, lasts[|ops|], op)], rs + [r])
  {
    hide Step, Started, NextLast;
    var n := |ops|;
    var fs', ls', os', ds', rs' := fats + [f], lasts + [NextLast(g, fats[n], lasts[n], op, r)], ops + [op], done + [Started(g, lasts[n], op)], rs + [r];
    forall i | 0 <= i < |os'|
      ensures ds'[i] == Started(g, ls'[i], os'[i]) && Step(g, fs'[i], ds'[i], rs'[i], fs'[i + 1]) && ls'[i + 1] == NextLast(g, fs'[i], ls'[i], os'[i], rs'[i])
    {
      assert fs'[i] == fats[i] && ls'[i] == lasts[i];
      if i < n { assert fs'[i + 1] == fats[i + 1] && ls'[i + 1] == lasts[i + 1] && ds'[i] == done[i] && os'[i] == ops[i] && rs'[i] == rs[i]; }
    }
  }

  /** The run theorem on a volume: every call is the step on the FAT, with searches starting behind the last allocated
      cluster; from a family of disjoint terminated chains on, each changes the family in one place and nothing outside
      the FAT copies, and a free cluster count that is exact stays exact. */
  method Run(fs: Volume, ops: seq<VolOp>, ghost cs: set<seq<nat>>)
    returns (rs: seq<nat>, ghost fats: seq<seq<nat>>, ghost lasts: seq<nat>, ghost done: seq<FatOp>, ghost css: seq<set<seq<nat>>>)
    requires fs.Valid() && Forest(Fat(fs.geo, fs.Logical()), cs) && Permitted(fs.geo, Fat(fs.geo, fs.Logical()), fs.lastClust, ops)
    modifies fs`disk, fs`winsect, fs`wflag, fs`fsiFlag, fs`lastClust, fs`freeClust, fs.win
    ensures fs.Valid() && OnlyFat(fs.geo, old(fs.Logical()), fs.Logical())
    ensures Steps(fs.geo, fats, lasts, ops, done, rs) && Families(fs.geo, fats, done, rs, css) && css[0] == cs
    ensures fats[0] == Fat(fs.geo, old(fs.Logical())) && fats[|ops|] == Fat(fs.geo, fs.Logical())
    ensures lasts[0] == old(fs.lastClust) && lasts[|ops|] == fs.lastClust
    ensures Counts(old(fs.freeClust), fats[0], fs.freeClust, fats[|ops|])
  {
    hide *;
    VolumeFits(fs);
    ghost var g, d := fs.geo, fs.Logical();
    ghost var f0 := Fat(g, d);
    OnlyFatRefl(g, d);
    CountsRefl(fs.freeClust, f0);
    FitsValid(g, d);
    FamiliesStart(g, f0, cs);
    StepsStart(g, f0, fs.lastClust, ops);
    rs, fats, lasts, done, css := [], [f0], [fs.lastClust], [], [cs];
    var n := 0;
    assert ops[0..] == ops;
    while n < |ops|
      invariant 0 <= n <= |ops| && fs.Valid() && OnlyFat(g, d, fs.Logical()) && Fits(g, fs.Logical())
      invariant Families(g, fats, done, rs, css) && Steps(g, fats, lasts, ops[..n], done, rs) && |done| == n
      invariant |fats| == n + 1 && |css| == n + 1 && |lasts| == n + 1 && css[0] == cs && fats[0] == f0 && fats[n] == Fat(g, fs.Logical())
      invariant lasts[0] == old(fs.lastClust) && lasts[n] == fs.lastClust
      invariant Counts(old(fs.freeClust), f0, fs.freeClust, fats[n]) && Permitted(g, fats[n], fs.lastClust, ops[n..])
    {
      ghost var e, f, free, last := fs.Logical(), fats[n], fs.freeClust, fs.lastClust;
      PermittedStep(g, f, last, ops[n..], 0, f);
      var r := Perform(fs, ops[n]);
      VolumeFits(fs);
      ghost var f' := Fat(g, fs.Logical());
      PermittedStep(g, f, last, ops[n..], r, f');
      OnlyFatTrans(g, d, e, fs.Logical());
      CountsTrans(old(fs.freeClust), f0, free, f, fs.freeClust, f');
      FamiliesFacts(g, fats, done, rs, css);
      ghost var op := Started(g, last, ops[n]);
      ghost var cs' := StepKeepsForest(g, f, op, r, f', css[n]);
      FamiliesGrow(g, fats, done, rs, css, op, r, f', cs');
      StepsGrow(g, fats, lasts, ops[..n], done, rs, ops[n], r, f');
      assert ops[..n + 1] == ops[..n] + [ops[n]] && ops[n..][1..] == ops[n + 1..];
      rs, fats, lasts, done, css := rs + [r], fats + [f'], lasts + [fs.lastClust], done + [op], css + [cs'];
      n := n + 1;
    }
    assert ops[..n] == ops;
  }

  lemma StepsStart(g: Geometry, f: seq<nat>, last: nat, ops: seq<VolOp>)
    requires |f| == g.nFatent
    ensures Steps(g, [f], [last], ops[..0], [], [])
  {
  }

  lemma OnlyFatRefl(g: Geometry, d: seq<Sector>)
    requires Fits(g, d)
    ensures OnlyFat(g, d, d)
  {
  }

  lemma FitsValid(g: Geometry, d: seq<Sector>)
    requires Fits(g, d)
    ensures g.Valid() && |Fat(g, d)| == g.nFatent
  {
  }

  lemma FamiliesStart(g: Geometry, f: seq<nat>, cs: set<seq<nat>>)
    requires |f| == g.nFatent && Forest(f, cs)
    ensures Families(g, [f], [], [], [cs])
  {
  }

  lemma FamiliesFacts(g: Geometry, fats: seq<seq<nat>>, ops: seq<FatOp>, rs: seq<nat>, css: seq<set<seq<nat>>>)
    requires Families(g, fats, ops, rs, css)
    ensures |fats| == |css| == |ops| + 1 && |rs| == |ops| && |fats[|ops|]| == g.nFatent && Forest(fats[|ops|], css[|ops|])
  {
  }

  /** An empty volume of n clusters, never searched before. */
  ghost predicate Empty(g: Geometry, f: seq<nat>) {
    g.Valid() && |f| == g.nFatent && f[2..] == seq(|f| - 2, _ => 0)
  }

  /** On an empty volume a chain may be created, extended and cut again in one run. */
  lemma CutOwnChain(g: Geometry, f: seq<nat>)
    requires Empty(g, f) && g.nFatent >= 4
    ensures Permitted(g, f, 0, [Create, Extend(2), CutBehind(2)])
  {
    hide Step, Permitted;
    var ops := [Create, Extend(2), CutBehind(2)];
    var f1 := f[2 := EndMark(g.fsType)];
    var f2 := f1[3 := EndMark(g.fsType)][2 := 3];
    EndMarkEnds(g);
    forall r, f' | |f'| == |f| && Step(g, f, Started(g, 0, ops[0]), r, f') ensures Permitted(g, f', NextLast(g, f, 0, ops[0], r), ops[1..]) {
      FirstCreated(g, f, r, f');
      assert ops[1..] == [Extend(2), CutBehind(2)];
      assert f' == f1;
      forall q, h | |h| == |f1| && Step(g, f1, Started(g, 2, Extend(2)), q, h) ensures Permitted(g, h, NextLast(g, f1, 2, Extend(2), q), [CutBehind(2)]) {
        SecondCreated(g, f, f1, q, h);
        CutPermitted(g, h, NextLast(g, f1, 2, Extend(2), q));
      }
      PermittedWhen(g, f1, 2, [Extend(2), CutBehind(2)]);
    }
    PermittedWhen(g, f, 0, ops);
  }

  lemma PermittedWhen(g: Geometry, f: seq<nat>, last: nat, ops: seq<VolOp>)
    requires |f| == g.nFatent && ops != [] && Allowed(f, ops[0])
    requires forall r, f' :: |f'| == |f| && Step(g, f, Started(g, last, ops[0]), r, f') ==> Permitted(g, f', NextLast(g, f, last, ops[0], r), ops[1..])
    ensures Permitted(g, f, last, ops)
  {
    hide Allowed, Step, Started, NextLast;
  }

  lemma CutPermitted(g: Geometry, f: seq<nat>, last: nat)
    requires g.Valid() && |f| == g.nFatent && g.nFatent >= 4 && f[2] == 3
    ensures Permitted(g, f, last, [CutBehind(2)])
  {
    hide Step;
    assert [CutBehind(2)][1..] == [];
  }

  lemma FirstCreated(g: Geometry, f: seq<nat>, r: nat, f': seq<nat>)
    requires Empty(g, f) && g.nFatent >= 4 && |f'| == |f| && Step(g, f, Started(g, 0, Create), r, f')
    ensures r == 2 && f' == f[2 := EndMark(g.fsType)]
  {
    assert forall c :: 2 <= c < |f| ==> f[c] == f[2..][c - 2] == 0;
    assert Distance(|f|, 1, 2) == 1;
    assert !Taken(f, 1, |f|);
  }

  lemma SecondCreated(g: Geometry, f: seq<nat>, f1: seq<nat>, r: nat, f': seq<nat>)
    requires Empty(g, f) && g.nFatent >= 4 && f1 == f[2 := EndMark(g.fsType)] && EndMark(g.fsType) >= |f|
    requires |f'| == |f| && Step(g, f1, Started(g, 2, Extend(2)), r, f')
    ensures r == 3 && f' == f1[3 := EndMark(g.fsType)][2 := 3]
  {
    assert forall c :: 3 <= c < |f| ==> f1[c] == f[2..][c - 2] == 0;
    assert Distance(|f|, 2, 3) == 1;
    assert !Taken(f1, 2, |f|);
  }
}
