/** Every run of the operations on variables and links. */
module JsRuns {
  import opened JsRefs
  import opened JsLinks
  import opened JsGraph

  /** What the interpreter may ask for; addresses are those that the allocator hands out. */
  datatype Op =
    | MakeVar(at: nat)
    | MakeLink(at: nat, name: string, v: nat)
    | CleanLink(l: nat)
    | TakeRef(v: nat)
    | DropRef(v: nat)
    | Redirect(l: nat, v: nat)
    | Add(v: nat, name: string, child: nat, at: nat, atVar: nat)
    | AddOnce(v: nat, name: string, child: nat, at: nat, atVar: nat)
    | Remove(v: nat, name: string)
    | RemoveAll(v: nat)

  /** The arguments are live objects and fresh addresses; only references that were taken are dropped; a variable that is
      emptied survives it. */
  ghost predicate Allowed(s: State, op: Op) {
    match op
    case MakeVar(at) => at != 0 && at !in s.vars
    case MakeLink(at, _, v) => at != 0 && at !in s.links && v in s.vars
    case CleanLink(l) => l == 0 || l in s.links
    case TakeRef(v) => v in s.vars
    case DropRef(v) => v in s.vars && v in s.held && s.held[v] > 0
    case Redirect(l, v) => l in s.links && v in s.vars
    case Add(v, _, child, at, atVar) => AddAllowed(s, v, child, at, atVar)
    case AddOnce(v, _, child, at, atVar) => AddAllowed(s, v, child, at, atVar)
    case Remove(v, _) => v in s.vars
    case RemoveAll(v) => v in s.vars && v in s.kids && Survives(s, v)
  }

  predicate AddAllowed(s: State, v: nat, child: nat, at: nat, atVar: nat) {
    v in s.vars && at != 0 && at !in s.links && (if child == 0 then atVar != 0 && atVar !in s.vars else child in s.vars)
  }

  /** The place of the first link with that name; the length of the list when there is none. */
  function FirstNamed(links: map<nat, Link>, ks: seq<nat>, name: string): nat {
    if ks == [] || (ks[0] in links && links[ks[0]].name == name) then 0 else 1 + FirstNamed(links, ks[1..], name)
  }

  lemma {:induction false} FirstNamedIs(links: map<nat, Link>, ks: seq<nat>, name: string, i: nat)
    requires i <= |ks| && (i < |ks| ==> ks[i] in links && links[ks[i]].name == name)
    requires forall j :: 0 <= j < i ==> ks[j] in links && links[ks[j]].name != name
    ensures FirstNamed(links, ks, name) == i
  {
    if i > 0 {
      assert links[ks[0]].name != name;
      FirstNamedIs(links, ks[1..], name, i - 1);
    }
  }

  /** What an operation does before anything is deleted: the store then, the variable that still counts a reference
      that is gone, the links that go, and the variable whose list is emptied. */
  datatype Plan = Plan(store: State, owed: nat, gone: set<nat>, emptied: nat)

  ghost predicate Adds(a: State, v: nat, name: string, child: nat, at: nat, atVar: nat, p: Plan) {
    var m := Given(a, child, atVar);
    && v in m.vars && Target(child, atVar) in m.vars && Attachable(Pointed(m, at, name, Target(child, atVar)), v, at)
    && p == Plan(Attached(Pointed(m, at, name, Target(child, atVar)), v, at), 0, {}, 0)
  }

  ghost predicate Redirects(a: State, l: nat, v: nat, p: Plan) {
    l in a.links && v in a.vars && p == Plan(Retargeted(a, l, v), a.links[l].target, {}, 0)
  }

  ghost predicate Plans(a: State, op: Op, p: Plan) {
    match op
    case MakeVar(at) => p == Plan(Born(a, at), 0, {}, 0)
    case MakeLink(at, name, v) => v in a.vars && p == Plan(Pointed(a, at, name, v), 0, {}, 0)
    case CleanLink(l) => p == Plan(a, 0, if l in a.links && !a.links[l].owned then {l} else {}, 0)
    case TakeRef(v) => v in a.vars && v in a.held && p == Plan(Raised(a, v), 0, {}, 0)
    case DropRef(v) => v in a.held && a.held[v] > 0 && p == Plan(Lowered(a, v), v, {}, 0)
    case Redirect(l, v) => Redirects(a, l, v, p)
    case Add(v, name, child, at, atVar) => Adds(a, v, name, child, at, atVar, p)
    case AddOnce(v, name, child, at, atVar) =>
      && v in a.kids
      && var i := FirstNamed(a.links, a.kids[v], name);
      if i < |a.kids[v]| then Redirects(Given(a, child, atVar), a.kids[v][i], Target(child, atVar), p)
      else Adds(a, v, name, child, at, atVar, p)
    case Remove(v, name) =>
      && v in a.kids && v in a.vars
      && var i := FirstNamed(a.links, a.kids[v], name);
      if i < |a.kids[v]| then HasNeighbours(a.links, a.kids[v][i]) && p == Plan(Unlinked(a, v, i), 0, {a.kids[v][i]}, 0)
      else p == Plan(a, 0, {}, 0)
    case RemoveAll(v) => v in a.kids && p == Plan(Loosened(a, v), 0, SetOf(a.kids[v]), v)
  }

  /** After the plan, what the links in gone alone kept alive is deleted, and nothing else. */
  ghost predicate Carried(p: Plan, mid: State, b: State) {
    && Inv(p.store, p.owed) && Inv(mid, 0) && Shrunk(p.store, mid, p.gone)
    && if p.emptied == 0 then b == mid else p.emptied in mid.vars && b == Closed(mid, p.emptied)
  }

  ghost predicate Follows(a: State, op: Op, b: State) {
    exists p, mid :: Plans(a, op, p) && Carried(p, mid, b)
  }

  /** The outcome of an operation is determined. */
  lemma OneOutcome(a: State, op: Op, b: State, c: State)
    requires Follows(a, op, b) && Follows(a, op, c)
    ensures b == c
  {
    hide Plans, Inv, Shrunk;
    var p, x :| Plans(a, op, p) && Carried(p, x, b);
    var q, y :| Plans(a, op, q) && Carried(q, y, c);
    OnePlan(a, op, p, q);
    Determined(p.store, p.owed, x, y, p.gone);
  }

  lemma OnePlan(a: State, op: Op, p: Plan, q: Plan)
    requires Plans(a, op, p) && Plans(a, op, q)
    ensures p == q
  {
    hide Attachable, Attached, Pointed, Born, Given, Retargeted, Unlinked, Loosened, Raised, Lowered, FirstNamed, HasNeighbours;
  }

  lemma Planned(a: State, op: Op, p: Plan, mid: State, b: State)
    requires Plans(a, op, p) && Carried(p, mid, b)
    ensures Follows(a, op, b)
  {
  }

  /** Nothing goes. */
  lemma Unshrunk(p: Plan)
    requires Settled(p.store) && p.owed == 0 && p.gone == {} && p.emptied == 0
    ensures Carried(p, p.store, p.store)
  {
    hide Inv, Shrunk;
    ShrunkRefl(p.store);
  }

  /** A run from s by ops. */
  ghost predicate IsRun(trace: seq<State>, ops: seq<Op>) {
    |trace| == |ops| + 1 && forall i :: 0 <= i < |ops| ==> Settled(trace[i]) && Follows(trace[i], ops[i], trace[i + 1])
  }

  /** Two runs of the same operations from the same store agree throughout. */
  lemma {:induction false} OneRun(x: seq<State>, y: seq<State>, ops: seq<Op>)
    requires IsRun(x, ops) && IsRun(y, ops) && x[0] == y[0]
    ensures x == y
  {
    hide Follows, Settled;
    if ops != [] {
      OneOutcome(x[0], ops[0], x[1], y[1]);
      RunTail(x, ops);
      RunTail(y, ops);
      OneRun(x[1..], y[1..], ops[1..]);
      assert x == [x[0]] + x[1..] && y == [y[0]] + y[1..];
    }
  }

  lemma RunTail(x: seq<State>, ops: seq<Op>)
    requires IsRun(x, ops) && ops != []
    ensures IsRun(x[1..], ops[1..])
  {
    hide Follows, Settled;
    forall i | 0 <= i < |ops[1..]| ensures Settled(x[1..][i]) && Follows(x[1..][i], ops[1..][i], x[1..][i + 1]) {
      assert x[1..][i] == x[i + 1] && ops[1..][i] == ops[i + 1] && x[1..][i + 1] == x[i + 2];
    }
  }

  lemma RunLonger(x: seq<State>, ops: seq<Op>, op: Op, b: State)
    requires IsRun(x, ops) && Settled(x[|ops|]) && Follows(x[|ops|], op, b)
    ensures IsRun(x + [b], ops + [op])
  {
    hide Follows, Settled;
    var y, qs := x + [b], ops + [op];
    forall i | 0 <= i < |qs| ensures Settled(y[i]) && Follows(y[i], qs[i], y[i + 1]) {
      if i < |ops| { assert y[i] == x[i] && qs[i] == ops[i] && y[i + 1] == x[i + 1]; }
    }
  }

  /** setArrayIndex with an undefined value, and other callers: the link is looked up and removed. */
  method RemoveNamed(g: Graph, v: nat, name: string)
    requires Settled(g.S()) && v in g.vars
    modifies g
    ensures Settled(g.S()) && Follows(old(g.S()), Remove(v, name), g.S())
  {
    hide *;
    ghost var a := g.S();
    StateIs(g);
    SettledFacts(a);
    InvFacts(a, 0);
    var l, i := g.FindChild(v, name);
    FirstNamedIs(a.links, a.kids[v], name, i);
    if l != 0 {
      OwnIs(a, v, 0);
      InKids(a.kids[v], i);
      ghost var j := g.RemoveLink(v, l);
      SamePlace(a, v, i, j);
      UnlinkedInv(a, v, i);
      SettledFacts(g.S());
      RemovePlan(a, v, name, i, g.S());
    } else {
      StillPlan(a, v, name);
    }
  }

  lemma InKids(ks: seq<nat>, i: nat)
    requires i < |ks|
    ensures ks[i] in ks
  {
  }

  lemma SamePlace(s: State, v: nat, i: nat, j: nat)
    requires Settled(s) && v in s.vars && v in s.kids && i < |s.kids[v]| && j < |s.kids[v]| && s.kids[v][i] == s.kids[v][j]
    ensures i == j
  {
    hide Listed;
    LastIn(s, v);
    Distinct(s.links, s.kids[v], s.vars[v].first, s.vars[v].last);
  }

  lemma RemovePlan(a: State, v: nat, name: string, i: nat, b: State)
    requires v in a.kids && v in a.vars && i < |a.kids[v]| && FirstNamed(a.links, a.kids[v], name) == i && HasNeighbours(a.links, a.kids[v][i])
    requires Inv(Unlinked(a, v, i), 0) && Inv(b, 0) && Shrunk(Unlinked(a, v, i), b, {a.kids[v][i]})
    ensures Follows(a, Remove(v, name), b)
  {
    hide Inv, Shrunk, Unlinked, HasNeighbours;
    Planned(a, Remove(v, name), Plan(Unlinked(a, v, i), 0, {a.kids[v][i]}, 0), b, b);
  }

  lemma StillPlan(a: State, v: nat, name: string)
    requires Settled(a) && v in a.kids && v in a.vars && FirstNamed(a.links, a.kids[v], name) == |a.kids[v]|
    ensures Follows(a, Remove(v, name), a)
  {
    hide Inv, Shrunk, Settled;
    Unshrunk(Plan(a, 0, {}, 0));
    Planned(a, Remove(v, name), Plan(a, 0, {}, 0), a, a);
  }

  lemma CleanPlan(a: State, l: nat, b: State)
    requires Settled(a) && Settled(b)
    requires if l in a.links && !a.links[l].owned then Shrunk(a, b, {l}) else b == a
    ensures Follows(a, CleanLink(l), b)
  {
    hide Inv, Shrunk, Marked;
    if b == a && !(l in a.links && !a.links[l].owned) {
      Unshrunk(Plan(a, 0, {}, 0));
    }
    Planned(a, CleanLink(l), Plan(a, 0, if l in a.links && !a.links[l].owned then {l} else {}, 0), b, b);
  }

  /** Operations that only make something. */
  lemma MakePlan(a: State, op: Op, b: State)
    requires Settled(b) && Plans(a, op, Plan(b, 0, {}, 0))
    ensures Follows(a, op, b)
  {
    hide Inv, Shrunk, Settled, Plans;
    Unshrunk(Plan(b, 0, {}, 0));
    Planned(a, op, Plan(b, 0, {}, 0), b, b);
  }

  /** Operations that let one reference go. */
  lemma LetGoPlan(a: State, op: Op, m: State, owed: nat, b: State)
    requires Plans(a, op, Plan(m, owed, {}, 0)) && Inv(m, owed) && Settled(b) && Shrunk(m, b, {})
    ensures Follows(a, op, b)
  {
    hide Inv, Shrunk, Plans, Marked;
    Planned(a, op, Plan(m, owed, {}, 0), b, b);
  }

  lemma EmptyPlan(a: State, v: nat, mid: State, b: State)
    requires v in a.kids && v != 0 && Inv(Loosened(a, v), 0) && Inv(mid, 0) && v in mid.vars
    requires Shrunk(Loosened(a, v), mid, SetOf(a.kids[v])) && b == Closed(mid, v)
    ensures Follows(a, RemoveAll(v), b)
  {
    hide Inv, Shrunk, Loosened, Closed, SetOf;
    Planned(a, RemoveAll(v), Plan(Loosened(a, v), 0, SetOf(a.kids[v]), v), mid, b);
  }

  method Empty(g: Graph, v: nat)
    requires Settled(g.S()) && v in g.vars && v in g.kids && Survives(g.S(), v)
    modifies g
    ensures Settled(g.S()) && Follows(old(g.S()), RemoveAll(v), g.S())
  {
    hide *;
    ghost var a := g.S();
    StateIs(g);
    SettledFacts(a);
    InvFacts(a, 0);
    LoosenedInv(a, v);
    ghost var mid := g.RemoveAllChildren(v);
    EmptyPlan(a, v, mid, g.S());
  }

  method Put(g: Graph, v: nat, name: string, child: nat, at: nat, atVar: nat)
    requires Settled(g.S()) && Allowed(g.S(), AddOnce(v, name, child, at, atVar))
    modifies g
    ensures Settled(g.S()) && Follows(old(g.S()), AddOnce(v, name, child, at, atVar), g.S())
  {
    ghost var a := g.S();
    hide Settled, Follows, FirstNamed, Given, Attachable, Attached, Pointed, Retargeted, Shrunk, Inv, Target;
    SettledFacts(a);
    var l, i := g.AddChildNoDup(v, name, child, at, atVar);
    FirstNamedIs(a.links, a.kids[v], name, i);
    PutPlan(a, v, name, child, at, atVar, i, g.S());
  }

  lemma GivenSettled(a: State, child: nat, atVar: nat)
    requires Settled(a) && (child == 0 ==> atVar != 0 && atVar !in a.vars)
    ensures Settled(Given(a, child, atVar))
  {
    hide Settled;
    if child == 0 { BornSettled(a, atVar); }
  }

  lemma PutPlan(a: State, v: nat, name: string, child: nat, at: nat, atVar: nat, i: nat, b: State)
    requires Settled(a) && Settled(b) && v in a.kids && i == FirstNamed(a.links, a.kids[v], name) && i <= |a.kids[v]|
    requires child == 0 ==> atVar != 0 && atVar !in a.vars
    requires v in Given(a, child, atVar).vars && Target(child, atVar) in Given(a, child, atVar).vars
    requires if i < |a.kids[v]| then a.kids[v][i] in Given(a, child, atVar).links && Shrunk(Retargeted(Given(a, child, atVar), a.kids[v][i], Target(child, atVar)), b, {})
             else Attachable(Pointed(Given(a, child, atVar), at, name, Target(child, atVar)), v, at) && b == Attached(Pointed(Given(a, child, atVar), at, name, Target(child, atVar)), v, at)
    ensures Follows(a, AddOnce(v, name, child, at, atVar), b)
  {
    hide Settled, Follows, FirstNamed, Given, Attachable, Attached, Pointed, Retargeted, Shrunk, Inv, Target;
    var m, op := Given(a, child, atVar), AddOnce(v, name, child, at, atVar);
    GivenSettled(a, child, atVar);
    if i < |a.kids[v]| {
      var l := a.kids[v][i];
      RetargetedInv(m, l, Target(child, atVar));
      LetGoPlan(a, op, Retargeted(m, l, Target(child, atVar)), m.links[l].target, b);
    } else {
      MakePlan(a, op, b);
    }
  }

  method Perform(g: Graph, op: Op)
    requires Settled(g.S()) && Allowed(g.S(), op)
    modifies g
    ensures Settled(g.S()) && Follows(old(g.S()), op, g.S())
  {
    hide Settled, Follows, FirstNamed, Given, Attachable, Attached, Pointed, Retargeted, Shrunk, Inv, Target, Lowered, Raised, Born, Survives;
    ghost var a := g.S();
    SettledFacts(a);
    match op
    case MakeVar(at) =>
      g.NewVar(at);
      MakePlan(a, op, g.S());
    case MakeLink(at, name, v) =>
      g.NewLink(at, name, v);
      MakePlan(a, op, g.S());
    case CleanLink(l) =>
      InvFacts(a, 0);
      g.Clean(l);
      CleanPlan(a, l, g.S());
    case TakeRef(v) =>
      g.Ref(v);
      MakePlan(a, op, g.S());
    case DropRef(v) =>
      LoweredInv(a, v);
      g.Release(v);
      LetGoPlan(a, op, Lowered(a, v), v, g.S());
    case Redirect(l, v) =>
      RetargetedInv(a, l, v);
      g.ReplaceWith(l, v);
      LetGoPlan(a, op, Retargeted(a, l, v), a.links[l].target, g.S());
    case Add(v, name, child, at, atVar) =>
      g.AddChild(v, name, child, at, atVar);
      MakePlan(a, op, g.S());
    case AddOnce(v, name, child, at, atVar) => Put(g, v, name, child, at, atVar);
    case Remove(v, name) => RemoveNamed(g, v, name);
    case RemoveAll(v) => Empty(g, v);
  }

  /** Every operation of ops is allowed when its turn comes. */
  ghost predicate Legal(s: State, ops: seq<Op>)
    decreases |ops|
  {
    ops == [] || (Allowed(s, ops[0]) && forall b :: Follows(s, ops[0], b) ==> Legal(b, ops[1..]))
  }

  lemma LegalStep(s: State, ops: seq<Op>, b: State)
    requires Legal(s, ops) && ops != []
    ensures Allowed(s, ops[0]) && (Follows(s, ops[0], b) ==> Legal(b, ops[1..]))
  {
    hide Allowed, Follows;
  }

  /** Every run: each store on the way has exact counts and lists in order, and follows from the one before. */
  method Run(g: Graph, ops: seq<Op>) returns (ghost trace: seq<State>)
    requires Settled(g.S()) && Legal(g.S(), ops)
    modifies g
    ensures IsRun(trace, ops) && trace[0] == old(g.S()) && trace[|ops|] == g.S() && Settled(g.S())
  {
    hide Settled, Follows, Allowed, Legal;
    var n := 0;
    trace := [g.S()];
    assert ops[0..] == ops;
    while n < |ops|
      invariant n <= |ops| && IsRun(trace, ops[..n]) && trace[0] == old(g.S()) && trace[n] == g.S() && Settled(g.S())
      invariant Legal(g.S(), ops[n..])
    {
      ghost var a := g.S();
      LegalStep(a, ops[n..], a);
      Perform(g, ops[n]);
      LegalStep(a, ops[n..], g.S());
      RunLonger(trace, ops[..n], ops[n], g.S());
      assert ops[..n + 1] == ops[..n] + [ops[n]] && ops[n..][1..] == ops[n + 1..];
      trace := trace + [g.S()];
      n := n + 1;
    }
    assert ops[..n] == ops;
  }

  /** A new variable may be emptied at once. */
  lemma EmptyingNew(s: State, v: nat)
    requires Settled(s) && v != 0 && v !in s.vars
    ensures Legal(s, [MakeVar(v), RemoveAll(v)])
  {
    hide *;
    forall b | Follows(s, MakeVar(v), b) ensures Legal(b, [RemoveAll(v)]) {
      MadeVar(s, v, b);
      LegalOne(b, v);
    }
    LegalTwo(s, v);
  }

  lemma LegalOne(b: State, v: nat)
    requires v in b.vars && v in b.kids && Survives(b, v)
    ensures Legal(b, [RemoveAll(v)])
  {
    hide Follows, Survives;
    assert [RemoveAll(v)][1..] == [];
  }

  lemma LegalTwo(s: State, v: nat)
    requires v != 0 && v !in s.vars && forall b :: Follows(s, MakeVar(v), b) ==> Legal(b, [RemoveAll(v)])
    ensures Legal(s, [MakeVar(v), RemoveAll(v)])
  {
    hide Follows;
    assert [MakeVar(v), RemoveAll(v)][1..] == [RemoveAll(v)];
  }

  lemma MadeVar(s: State, v: nat, b: State)
    requires Settled(s) && v != 0 && v !in s.vars && Follows(s, MakeVar(v), b)
    ensures b == Born(s, v) && v in b.vars && v in b.kids && Survives(b, v)
  {
    hide Follows, Settled, Survives;
    BornSettled(s, v);
    MakePlan(s, MakeVar(v), Born(s, v));
    OneOutcome(s, MakeVar(v), b, Born(s, v));
    NewSurvives(b, v);
  }
}
