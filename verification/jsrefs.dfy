/** Variables and links of the interpreter with their reference counts. Objects are records in a store, pointers are
    their numbers, 0 is the null pointer, and delete takes a record out of the store. */
module JsRefs {

  /** CScriptVar */
  datatype Var = Var(refs: int, first: nat, last: nat)

  /** CScriptVarLink */
  datatype Link = Link(name: string, target: nat, next: nat, prev: nat, owned: bool)

  /** The store; for each variable its child links in order and how often ref was called for it outside of links; for
      each link the variable whose list it is in (0: none); the variable whose list is being taken down (0: none). */
  datatype State = State(vars: map<nat, Var>, links: map<nat, Link>,
                         kids: map<nat, seq<nat>>, own: map<nat, nat>, held: map<nat, nat>, loose: nat)

  /** The live links that point to v. */
  ghost function Into(links: map<nat, Link>, v: nat): set<nat> {
    set l | l in links && links[l].target == v
  }

  /** Neighbours in a list, 0 at its ends. */
  function After(ks: seq<nat>, i: nat): nat { if i + 1 < |ks| then ks[i + 1] else 0 }

  function Before(ks: seq<nat>, i: nat): nat { if 0 < i <= |ks| then ks[i - 1] else 0 }

  /** ks is a doubly linked list from first to last. */
  ghost predicate Listed(links: map<nat, Link>, ks: seq<nat>, first: nat, last: nat) {
    && (forall i :: 0 <= i < |ks| ==> ks[i] in links && links[ks[i]].owned)
    && (forall i, j :: 0 <= i < j < |ks| ==> ks[i] != ks[j])
    && first == (if ks == [] then 0 else ks[0]) && last == (if ks == [] then 0 else ks[|ks| - 1])
    && (forall i :: 0 <= i < |ks| ==> links[ks[i]].next == After(ks, i))
    && (forall i :: 0 <= i < |ks| ==> links[ks[i]].prev == Before(ks, i))
  }

  ghost predicate Owners(s: State) {
    && s.kids.Keys == s.vars.Keys && s.own.Keys == s.links.Keys
    && (forall v, l :: v in s.vars && l in s.links ==> (s.own[l] == v <==> l in s.kids[v]))
    && (forall l :: l in s.links ==> s.own[l] == 0 || s.own[l] in s.vars)
  }

  ghost predicate Lists(s: State) {
    && s.kids.Keys == s.vars.Keys
    && (forall v :: v in s.vars && v != s.loose ==> Listed(s.links, s.kids[v], s.vars[v].first, s.vars[v].last))
    && (s.loose in s.kids ==> s.kids[s.loose] == [])
  }

  /** Every count is exact, except that owed still counts a reference that is gone. */
  ghost predicate Counts(s: State, owed: nat) {
    && s.held.Keys == s.vars.Keys
    && forall v :: v in s.vars ==> s.vars[v].refs == |Into(s.links, v)| + s.held[v] + (if v == owed then 1 else 0)
  }

  ghost predicate Targets(s: State) {
    forall l :: l in s.links ==> s.links[l].target in s.vars
  }

  ghost predicate Inv(s: State, owed: nat) {
    && 0 !in s.vars && 0 !in s.links && Owners(s) && Lists(s) && Counts(s, owed) && Targets(s)
  }

  /** l keeps x alive: it is not about to go, and it is in no list or in the list of one of xs. */
  ghost predicate Support(s: State, gone: set<nat>, xs: set<nat>, x: nat, l: nat) {
    l in s.links && l !in gone && l in s.own && s.links[l].target == x && (s.own[l] == 0 || s.own[l] in xs)
  }

  ghost predicate Kept(s: State, gone: set<nat>, xs: set<nat>, x: nat) {
    x in s.vars && x in s.held && (s.vars[x].refs == 0 || s.held[x] > 0 || exists l :: Support(s, gone, xs, x, l))
  }

  /** The variables xs keep each other alive once the links in gone are deleted: each of them never had a reference, or
      has one from outside of links, or one from a free link, or one from the list of a variable of xs. */
  ghost predicate Backed(s: State, gone: set<nat>, xs: set<nat>) {
    forall x :: x in xs ==> Kept(s, gone, xs, x)
  }

  /** What is kept alive in a without the links in gone is kept alive in b. */
  ghost predicate Keeps(a: State, b: State, gone: set<nat>) {
    forall g, xs :: Backed(a, g + gone, xs) ==> Backed(b, g, xs)
  }

  /** The variable whose list is being taken down is kept alive. */
  ghost predicate Safe(s: State, gone: set<nat>) {
    s.loose == 0 || exists xs :: Backed(s, gone, xs) && s.loose in xs
  }

  /** Between operations: every count exact, every list in order, and owned says whether a link is in a list. */
  ghost predicate Settled(s: State) {
    Inv(s, 0) && s.loose == 0 && Marked(s, {})
  }

  /** owned is right for the links that are not about to go. */
  ghost predicate Marked(s: State, gone: set<nat>) {
    forall l :: l in s.links && l in s.own && l !in gone ==> (s.links[l].owned <==> s.own[l] != 0)
  }

  /** b came from a by deleting the links in gone, variables whose count had become zero, and their lists; everything
      else is as it was, but for smaller counts. Links in no list stay, apart from those in gone, and so does every
      variable that is kept alive. */
  ghost predicate Shrunk(a: State, b: State, gone: set<nat>) {
    && Thinned(a, b) && Stay(a, b, gone) && Keeps(a, b, gone)
  }

  ghost predicate Thinned(a: State, b: State) {
    && b.loose == a.loose
    && b.vars.Keys <= a.vars.Keys && b.links.Keys <= a.links.Keys
    && b.kids.Keys <= a.kids.Keys && b.held.Keys <= a.held.Keys && b.own.Keys <= a.own.Keys
    && (forall v :: v in b.kids ==> b.kids[v] == a.kids[v])
    && (forall v :: v in b.held ==> b.held[v] == a.held[v])
    && (forall l :: l in b.links ==> b.links[l] == a.links[l])
    && (forall l :: l in b.own ==> b.own[l] == a.own[l])
    && (forall v :: v in b.vars ==> b.vars[v].first == a.vars[v].first && b.vars[v].last == a.vars[v].last)
    && (forall v :: v in b.vars && b.vars[v].refs == 0 ==> a.vars[v].refs == 0)
  }

  ghost predicate Stay(a: State, b: State, gone: set<nat>) {
    && (forall l :: l in a.links && l in a.own && a.own[l] == 0 && l !in gone ==> l in b.links)
    && (forall l :: l in gone ==> l !in b.links)
  }

  lemma ShrunkRefl(a: State)
    ensures Shrunk(a, a, {})
  {
    forall g, xs | Backed(a, g + {}, xs) ensures Backed(a, g, xs) { assert g + {} == g; }
  }

  lemma ShrunkTrans(a: State, b: State, c: State, g: set<nat>, h: set<nat>)
    requires Shrunk(a, b, g) && Shrunk(b, c, h) && a.own.Keys == a.links.Keys && b.own.Keys == b.links.Keys
    ensures Shrunk(a, c, g + h)
  {
    hide Keeps;
    StayTrans(a, b, c, g, h);
    KeepsTrans(a, b, c, g, h);
  }

  lemma StayTrans(a: State, b: State, c: State, g: set<nat>, h: set<nat>)
    requires Thinned(a, b) && Thinned(b, c) && Stay(a, b, g) && Stay(b, c, h) && a.own.Keys == a.links.Keys && b.own.Keys == b.links.Keys
    ensures Stay(a, c, g + h)
  {
    forall l | l in a.links && l in a.own && a.own[l] == 0 && l !in g + h ensures l in c.links { assert l in b.links; }
    forall l | l in g + h ensures l !in c.links { }
  }

  lemma KeepsTrans(a: State, b: State, c: State, g: set<nat>, h: set<nat>)
    requires Keeps(a, b, g) && Keeps(b, c, h)
    ensures Keeps(a, c, g + h)
  {
    hide Backed;
    forall k, xs | Backed(a, k + (g + h), xs) ensures Backed(c, k, xs) {
      assert k + (g + h) == (k + h) + g;
      assert Backed(b, k + h, xs);
    }
  }

  /** The fewer links go, the more is kept alive. */
  lemma BackedLess(s: State, g: set<nat>, h: set<nat>, xs: set<nat>)
    requires Backed(s, g, xs) && h <= g
    ensures Backed(s, h, xs)
  {
    forall x | x in xs ensures Kept(s, h, xs, x) {
      assert Kept(s, g, xs, x);
      if l :| Support(s, g, xs, x, l) { assert Support(s, h, xs, x, l); }
    }
  }

  lemma SafeLess(s: State, g: set<nat>, h: set<nat>)
    requires Safe(s, g) && h <= g
    ensures Safe(s, h)
  {
    hide Backed;
    if s.loose != 0 {
      var xs :| Backed(s, g, xs) && s.loose in xs;
      BackedLess(s, g, h, xs);
    }
  }

  lemma SafeKept(a: State, b: State, gone: set<nat>, g: set<nat>)
    requires Safe(a, g + gone) && Shrunk(a, b, gone)
    ensures Safe(b, g)
  {
    hide Backed;
    if a.loose != 0 {
      var xs :| Backed(a, g + gone, xs) && a.loose in xs;
      assert Backed(b, g, xs);
    }
  }

  /** Bringing the count of owed up to date. */
  lemma Decremented(s: State, v: nat)
    requires Inv(s, v) && v in s.vars
    ensures var s' := s.(vars := s.vars[v := s.vars[v].(refs := s.vars[v].refs - 1)]);
      Inv(s', 0) && s.vars[v].refs >= 1
  {
    hide Owners, Lists, Counts, Targets;
    var s' := s.(vars := s.vars[v := s.vars[v].(refs := s.vars[v].refs - 1)]);
    assert s'.vars.Keys == s.vars.Keys;
    SameShape(s, s');
    CountDown(s, s', v);
  }

  lemma CountDown(s: State, s': State, v: nat)
    requires Counts(s, v) && v in s.vars && 0 !in s.vars && s' == s.(vars := s.vars[v := s.vars[v].(refs := s.vars[v].refs - 1)])
    ensures Counts(s', 0) && s.vars[v].refs >= 1
  {
    hide Into;
    assert s'.vars.Keys == s.vars.Keys;
  }

  /** Counts do not matter to lists and owners. */
  lemma SameShape(s: State, s': State)
    requires s'.vars.Keys == s.vars.Keys && s'.links == s.links && s'.kids == s.kids && s'.own == s.own && s'.loose == s.loose
    requires forall v :: v in s.vars ==> s'.vars[v].first == s.vars[v].first && s'.vars[v].last == s.vars[v].last
    ensures Owners(s) ==> Owners(s')
    ensures Lists(s) ==> Lists(s')
    ensures Targets(s) ==> Targets(s')
  {
    hide Listed;
  }

  ghost function Freed(own: map<nat, nat>, v: nat): map<nat, nat> {
    map l | l in own :: if own[l] == v then 0 else own[l]
  }

  /** A variable without references goes, and its children belong to no list any more. */
  ghost function Buried(s: State, v: nat): State
    requires v in s.kids
  {
    State(s.vars - {v}, s.links, s.kids - {v}, Freed(s.own, v), s.held - {v}, s.loose)
  }

  lemma NobodyPoints(s: State, v: nat)
    requires Inv(s, 0) && v in s.vars && s.vars[v].refs == 0
    ensures s.held[v] == 0 && forall l :: l in s.links ==> s.links[l].target != v
  {
    assert |Into(s.links, v)| == 0;
    assert Into(s.links, v) == {};
    forall l | l in s.links ensures s.links[l].target != v {
      assert l !in Into(s.links, v);
    }
  }

  lemma BuriedInv(s: State, v: nat)
    requires Inv(s, 0) && v in s.vars && s.vars[v].refs == 0 && v != s.loose
    ensures Inv(Buried(s, v), 0) && Listed(s.links, s.kids[v], s.vars[v].first, s.vars[v].last)
  {
    var b := Buried(s, v);
    NobodyPoints(s, v);
    assert Lists(b);
    assert Targets(b);
    assert Counts(b, 0);
    BuriedOwners(s, v);
  }

  lemma BuriedOwners(s: State, v: nat)
    requires Owners(s) && v in s.vars && v != 0 && 0 !in s.vars
    ensures Owners(Buried(s, v))
  {
    var b := Buried(s, v);
    forall u, l | u in b.vars && l in b.links ensures b.own[l] == u <==> l in b.kids[u] {
      assert s.own[l] == u <==> l in s.kids[u];
    }
  }

  /** A link that is in no list goes; its target is owed a count. */
  ghost function Dropped(s: State, c: nat): State {
    s.(links := s.links - {c}, own := s.own - {c})
  }

  lemma DroppedInv(s: State, c: nat)
    requires Inv(s, 0) && c in s.links && s.own[c] == 0
    ensures Inv(Dropped(s, c), s.links[c].target) && s.links[c].target in s.vars
  {
    var d := Dropped(s, c);
    var t := s.links[c].target;
    forall v | v in s.vars ensures c !in s.kids[v] && d.vars[v].refs == |Into(d.links, v)| + d.held[v] + (if v == t then 1 else 0) {
      assert s.own[c] == v <==> c in s.kids[v];
      DropCounts(s.links, c, v);
    }
    assert Counts(d, t);
    DroppedLists(s, c);
    assert Owners(d);
  }

  lemma DropCounts(links: map<nat, Link>, c: nat, v: nat)
    requires c in links
    ensures |Into(links, v)| == |Into(links - {c}, v)| + if links[c].target == v then 1 else 0
  {
    var a, b := Into(links, v), Into(links - {c}, v);
    if links[c].target == v { assert a == b + {c}; } else { assert a == b; }
  }

  lemma DroppedLists(s: State, c: nat)
    requires Lists(s) && forall v :: v in s.vars ==> c !in s.kids[v]
    ensures Lists(Dropped(s, c))
  {
    var d := Dropped(s, c);
    forall v | v in s.vars && v != s.loose ensures Listed(d.links, s.kids[v], s.vars[v].first, s.vars[v].last) {
      var ks := s.kids[v];
      forall i | 0 <= i < |ks| ensures ks[i] in d.links && d.links[ks[i]] == s.links[ks[i]] { assert ks[i] in ks; }
    }
  }

  lemma DroppedShrinks(s: State, c: nat)
    requires s.own.Keys == s.links.Keys
    ensures Shrunk(s, Dropped(s, c), {c})
  {
    hide Backed;
    forall g, xs | Backed(s, g + {c}, xs) ensures Backed(Dropped(s, c), g, xs) { DroppedBacked(s, c, g, xs); }
  }

  lemma DroppedBacked(s: State, c: nat, g: set<nat>, xs: set<nat>)
    requires Backed(s, g + {c}, xs)
    ensures Backed(Dropped(s, c), g, xs)
  {
    forall x | x in xs ensures Kept(Dropped(s, c), g, xs, x) {
      assert Kept(s, g + {c}, xs, x);
      if l :| Support(s, g + {c}, xs, x, l) { assert Support(Dropped(s, c), g, xs, x, l); }
    }
  }

  /** v, once its last reference is gone. */
  ghost function Ended(s: State, v: nat): State
    requires v in s.vars && v in s.kids
  {
    Buried(s.(vars := s.vars[v := s.vars[v].(refs := 0)]), v)
  }

  /** Nothing else that is kept alive depends on v or its list. */
  lemma EndedBacked(s: State, v: nat, g: set<nat>, xs: set<nat>)
    requires Inv(s, v) && v in s.vars && s.vars[v].refs == 1 && Backed(s, g, xs)
    ensures v !in xs && v in s.kids && Backed(Ended(s, v), g + SetOf(s.kids[v]), xs)
  {
    hide Inv, Ended, Kept, SetOf;
    InvFacts(s, v);
    OwnIs(s, v, v);
    Unsupported(s, v, g, xs);
    forall x | x in xs ensures Kept(Ended(s, v), g + SetOf(s.kids[v]), xs, x) { EndedKept(s, v, g, xs, x); }
  }

  lemma EndedKept(s: State, v: nat, g: set<nat>, xs: set<nat>, x: nat)
    requires v in s.vars && v in s.kids && v !in xs && x in xs && Kept(s, g, xs, x) && s.own.Keys == s.links.Keys
    requires v != 0 && forall l :: l in s.links ==> (s.own[l] == v <==> l in s.kids[v])
    ensures Kept(Ended(s, v), g + SetOf(s.kids[v]), xs, x)
  {
    if l :| Support(s, g, xs, x, l) {
      assert s.own[l] != v && l !in s.kids[v];
      assert Support(Ended(s, v), g + SetOf(s.kids[v]), xs, x, l);
    }
  }

  lemma Unsupported(s: State, v: nat, g: set<nat>, xs: set<nat>)
    requires Inv(s, v) && v in s.vars && s.vars[v].refs == 1 && Backed(s, g, xs)
    ensures v !in xs
  {
    assert |Into(s.links, v)| + s.held[v] == 0;
    assert Into(s.links, v) == {};
    forall l ensures !Support(s, g, xs, v, l) { assert l !in Into(s.links, v); }
    assert !Kept(s, g, xs, v);
  }

  /** The variable whose list is being taken down does not lose its last reference. */
  lemma LooseStays(s: State, v: nat)
    requires Inv(s, v) && v in s.vars && s.vars[v].refs == 1 && Safe(s, {})
    ensures v != s.loose && v in s.kids && Safe(Ended(s, v), SetOf(s.kids[v]))
  {
    hide Inv, Backed, Ended, SetOf;
    InvFacts(s, v);
    EndedLoose(s, v);
    if s.loose != 0 {
      var xs :| Backed(s, {}, xs) && s.loose in xs;
      EndedBacked(s, v, {}, xs);
      assert {} + SetOf(s.kids[v]) == SetOf(s.kids[v]);
    }
  }

  lemma EndedLoose(s: State, v: nat)
    requires v in s.vars && v in s.kids
    ensures Ended(s, v).loose == s.loose
  {
  }

  /** Counting down and burying, and then deleting the children, is a shrinking of the store. */
  lemma BuriedShrinks(s: State, v: nat, b: State)
    requires Inv(s, v) && v in s.vars && v in s.kids && s.vars[v].refs == 1
    requires Shrunk(Ended(s, v), b, SetOf(s.kids[v])) && Inv(b, 0)
    ensures Shrunk(s, b, {}) && v !in b.vars
  {
    hide Inv, Stay, Keeps;
    InvFacts(s, v);
    InvFacts(b, 0);
    BuriedOwn(s, v, b);
    BuriedStay(s, v, b);
    BuriedKeeps(s, v, b);
  }

  lemma BuriedKeeps(s: State, v: nat, b: State)
    requires Inv(s, v) && v in s.vars && v in s.kids && s.vars[v].refs == 1 && Keeps(Ended(s, v), b, SetOf(s.kids[v]))
    ensures Keeps(s, b, {})
  {
    hide Inv, Backed, Ended;
    forall g, xs | Backed(s, g + {}, xs) ensures Backed(b, g, xs) {
      assert g + {} == g;
      EndedBacked(s, v, g, xs);
    }
  }

  lemma OwnIs(s: State, v: nat, owed: nat)
    requires Inv(s, owed) && v in s.vars
    ensures forall l :: l in s.links ==> (s.own[l] == v <==> l in s.kids[v])
  {
  }

  lemma BuriedOwn(s: State, v: nat, b: State)
    requires Inv(s, v) && v in s.vars && v in s.kids
    requires Thinned(Ended(s, v), b) && Stay(Ended(s, v), b, SetOf(s.kids[v])) && b.own.Keys == b.links.Keys
    ensures forall l :: l in b.own ==> l in s.own && b.own[l] == s.own[l]
  {
    hide Inv;
    OwnIs(s, v, v);
    forall l | l in b.own ensures l in s.own && b.own[l] == s.own[l] { assert l in b.links && l !in SetOf(s.kids[v]); }
  }

  lemma BuriedStay(s: State, v: nat, b: State)
    requires Inv(s, v) && v in s.vars && v in s.kids
    requires Stay(Ended(s, v), b, SetOf(s.kids[v]))
    ensures Stay(s, b, {})
  {
    hide Inv, SetOf;
    InvFacts(s, v);
    OwnIs(s, v, v);
    var m := Ended(s, v);
    forall l | l in s.links && l in s.own && s.own[l] == 0 && l !in {} ensures l in b.links {
      InSetOf(s.kids[v], l);
      assert m.own[l] == 0 && l !in s.kids[v];
    }
  }

  lemma SmallerMap(m: map<nat, Var>, v: nat)
    requires v in m
    ensures |m - {v}| < |m|
  {
    assert (m - {v}).Keys == m.Keys - {v};
    assert |m - {v}| == |(m - {v}).Keys| && |m| == |m.Keys|;
  }

  lemma SubMap(a: map<nat, Var>, b: map<nat, Var>)
    requires b.Keys <= a.Keys
    ensures |b| <= |a|
  {
    assert |b| == |b.Keys| && |a| == |a.Keys|;
    Smaller(b.Keys, a.Keys);
  }

  lemma Smaller(x: set<nat>, y: set<nat>)
    requires x <= y
    ensures |x| <= |y|
  {
    assert y == x + (y - x);
    assert |y| == |x| + |y - x|;
  }

  ghost function SetOf(ks: seq<nat>): set<nat> { set l | l in ks }

  lemma InSetOf(ks: seq<nat>, l: nat)
    ensures l in SetOf(ks) <==> l in ks
  {
  }

  /** ks are links in no list, each pointing to the next one, from c on. */
  ghost predicate Chained(s: State, c: nat, ks: seq<nat>) {
    && (if ks == [] then c == 0 else c == ks[0] && c != 0)
    && (forall i :: 0 <= i < |ks| ==> ks[i] in s.links && ks[i] in s.own && s.own[ks[i]] == 0)
    && (forall i :: 0 <= i < |ks| ==> s.links[ks[i]].next == After(ks, i))
    && (forall i, j :: 0 <= i < j < |ks| ==> ks[i] != ks[j])
  }

  lemma ChainedStep(s: State, s': State, c: nat, ks: seq<nat>)
    requires Chained(s, c, ks) && c != 0 && Inv(s, 0) && Inv(s', 0) && Shrunk(s, s', {c})
    ensures c in s.links && Chained(s', s.links[c].next, ks[1..])
  {
    hide Inv, Keeps, Thinned, Stay;
    InvFacts(s, 0);
    InvFacts(s', 0);
    var t := ks[1..];
    forall i | 0 <= i < |t| ensures t[i] in s'.links && t[i] in s'.own && s'.own[t[i]] == 0 && s'.links[t[i]] == s.links[t[i]] {
      StaysPut(s, s', c, ks[i + 1]);
    }
    forall i | 0 <= i < |t| ensures s'.links[t[i]].next == After(t, i) {
      assert t[i] == ks[i + 1] && s.links[ks[i + 1]].next == After(ks, i + 1);
    }
    assert ks[0] == c && s.links[ks[0]].next == After(ks, 0);
    if |ks| > 1 { assert ks[1] in s.links && ks[1] != 0; }
  }

  lemma StaysPut(s: State, s': State, c: nat, l: nat)
    requires Thinned(s, s') && Stay(s, s', {c}) && l in s.links && l in s.own && s.own[l] == 0 && l != c && s'.own.Keys == s'.links.Keys
    ensures l in s'.links && s'.links[l] == s.links[l] && l in s'.own && s'.own[l] == 0
  {
  }

  lemma ChainedFacts(s: State, c: nat, ks: seq<nat>)
    requires Chained(s, c, ks)
    ensures c == 0 <==> ks == []
    ensures c != 0 ==> ks != [] && c == ks[0] && c in s.links && c in s.own && s.own[c] == 0
  {
  }

  /** The children of a buried variable are such a chain. */
  lemma BuriedChain(s: State, v: nat)
    requires Inv(s, 0) && v in s.vars && v != s.loose
    ensures Chained(Buried(s, v), s.vars[v].first, s.kids[v])
  {
    var ks := s.kids[v];
    assert Listed(s.links, ks, s.vars[v].first, s.vars[v].last);
    forall i | 0 <= i < |ks| ensures ks[i] in s.own && s.own[ks[i]] == v { assert ks[i] in ks; }
    if ks != [] { assert ks[0] in s.links; }
  }

  /** A count that stays positive. */
  lemma Decreased(s: State, v: nat)
    requires v in s.vars && s.vars[v].refs > 1
    ensures Shrunk(s, s.(vars := s.vars[v := s.vars[v].(refs := s.vars[v].refs - 1)]), {})
  {
    hide Backed;
    var s' := s.(vars := s.vars[v := s.vars[v].(refs := s.vars[v].refs - 1)]);
    forall g, xs | Backed(s, g + {}, xs) ensures Backed(s', g, xs) {
      assert g + {} == g;
      DecreasedBacked(s, s', v, g, xs);
    }
  }

  lemma DecreasedBacked(s: State, s': State, v: nat, g: set<nat>, xs: set<nat>)
    requires v in s.vars && s.vars[v].refs > 1 && s' == s.(vars := s.vars[v := s.vars[v].(refs := s.vars[v].refs - 1)])
    requires Backed(s, g, xs)
    ensures Backed(s', g, xs)
  {
    forall x | x in xs ensures Kept(s', g, xs, x) {
      assert Kept(s, g, xs, x);
      if l :| Support(s, g, xs, x, l) { assert Support(s', g, xs, x, l); }
    }
  }

  lemma InvFacts(s: State, owed: nat)
    requires Inv(s, owed)
    ensures s.own.Keys == s.links.Keys && s.kids.Keys == s.vars.Keys && s.held.Keys == s.vars.Keys && 0 !in s.links && 0 !in s.vars
  {
  }

  lemma BuriedIs(s: State, v: nat)
    requires v in s.kids
    ensures Buried(s, v) == State(s.vars - {v}, s.links, s.kids - {v}, Freed(s.own, v), s.held - {v}, s.loose)
  {
  }

  lemma EndedIs(s: State, v: nat)
    requires v in s.vars && v in s.kids
    ensures Ended(s, v) == Buried(s.(vars := s.vars[v := s.vars[v].(refs := 0)]), v)
  {
  }

  lemma DroppedIs(s: State, c: nat)
    ensures Dropped(s, c) == s.(links := s.links - {c}, own := s.own - {c})
  {
  }

  lemma NoneTaken(ks: seq<nat>)
    ensures SetOf(ks[..0]) == {}
  {
  }

  lemma TakeOneMore(ks: seq<nat>, i: nat)
    requires i < |ks|
    ensures SetOf(ks[..i]) + {ks[i]} == SetOf(ks[..i + 1]) && ks[i..][0] == ks[i] && ks[i..][1..] == ks[i + 1..]
    ensures SetOf(ks[i..]) == SetOf(ks[i + 1..]) + {ks[i]}
  {
    assert ks[i..] == [ks[i]] + ks[i + 1..];
    assert ks[..i + 1] == ks[..i] + [ks[i]];
  }

  /** Shrinking leaves exactly what is kept alive: the variables left keep each other alive without the links in gone,
      and every set of variables that do so is left. */
  lemma LiveExactly(a: State, owed: nat, b: State, gone: set<nat>)
    requires Inv(a, owed) && Inv(b, 0) && Shrunk(a, b, gone)
    ensures Backed(a, gone, b.vars.Keys)
    ensures forall xs :: Backed(a, gone, xs) ==> xs <= b.vars.Keys
  {
    hide Inv, Keeps, Kept, Backed;
    InvFacts(a, owed);
    InvFacts(b, 0);
    assert Backed(a, gone, b.vars.Keys) by { LiveBacked(a, owed, b, gone); }
    forall xs | Backed(a, gone, xs) ensures xs <= b.vars.Keys { BackedLive(a, b, gone, xs); }
  }

  lemma BackedLive(a: State, b: State, gone: set<nat>, xs: set<nat>)
    requires Keeps(a, b, gone) && Backed(a, gone, xs)
    ensures xs <= b.vars.Keys
  {
    assert {} + gone == gone;
    assert Backed(b, {}, xs);
    forall x | x in xs ensures x in b.vars { assert Kept(b, {}, xs, x); }
  }

  lemma LiveBacked(a: State, owed: nat, b: State, gone: set<nat>)
    requires Inv(a, owed) && Inv(b, 0) && Thinned(a, b) && Stay(a, b, gone)
    ensures Backed(a, gone, b.vars.Keys)
  {
    hide Inv, Kept;
    InvFacts(a, owed);
    InvFacts(b, 0);
    forall x | x in b.vars.Keys ensures Kept(a, gone, b.vars.Keys, x) { LiveKept(a, b, gone, x); }
  }

  lemma LiveKept(a: State, b: State, gone: set<nat>, x: nat)
    requires Inv(b, 0) && Thinned(a, b) && Stay(a, b, gone) && x in b.vars && x in a.vars && x in a.held && x in b.held
    ensures Kept(a, gone, b.vars.Keys, x)
  {
    hide Inv, Into;
    InvFacts(b, 0);
    RefsIs(b, x);
    if a.vars[x].refs != 0 && a.held[x] == 0 {
      var l :| l in Into(b.links, x);
      InInto(b.links, x, l);
      OwnerLives(b, l);
      assert Support(a, gone, b.vars.Keys, x, l);
    }
  }

  lemma RefsIs(s: State, v: nat)
    requires Inv(s, 0) && v in s.vars
    ensures v in s.held && s.vars[v].refs == |Into(s.links, v)| + s.held[v]
  {
  }

  lemma InInto(links: map<nat, Link>, v: nat, l: nat)
    ensures l in Into(links, v) <==> l in links && links[l].target == v
  {
  }

  /** The links left are those in no list and those in the lists of variables left, apart from the ones in gone. */
  lemma LinksExactly(a: State, owed: nat, b: State, gone: set<nat>)
    requires Inv(a, owed) && Inv(b, 0) && Shrunk(a, b, gone)
    ensures a.own.Keys == a.links.Keys
    ensures forall l :: l in b.links <==> l in a.links && l !in gone && (a.own[l] == 0 || a.own[l] in b.vars)
  {
    hide Inv, Keeps;
    InvFacts(a, owed);
    InvFacts(b, 0);
    forall l | l in a.links && l !in gone && a.own[l] in b.vars ensures l in b.links {
      OwnIs(a, a.own[l], owed);
      InList(b, a.own[l], l);
    }
    forall l | l in b.links ensures a.own[l] == 0 || a.own[l] in b.vars { OwnerLives(b, l); }
  }

  lemma InList(b: State, v: nat, l: nat)
    requires Inv(b, 0) && v in b.vars && v in b.kids && l in b.kids[v]
    ensures l in b.links
  {
    var i :| 0 <= i < |b.kids[v]| && b.kids[v][i] == l;
    assert v != b.loose;
    assert Listed(b.links, b.kids[v], b.vars[v].first, b.vars[v].last);
  }

  lemma OwnerLives(b: State, l: nat)
    requires Inv(b, 0) && l in b.links && l in b.own
    ensures b.own[l] == 0 || b.own[l] in b.vars
  {
  }

  /** So what is left is determined, in whatever order links and variables went. */
  lemma Determined(a: State, owed: nat, b: State, c: State, gone: set<nat>)
    requires Inv(a, owed) && Inv(b, 0) && Inv(c, 0) && Shrunk(a, b, gone) && Shrunk(a, c, gone)
    ensures b == c
  {
    hide Inv, Keeps, Backed, Stay;
    LiveExactly(a, owed, b, gone);
    LiveExactly(a, owed, c, gone);
    assert b.vars.Keys <= c.vars.Keys && c.vars.Keys <= b.vars.Keys;
    LinksExactly(a, owed, b, gone);
    LinksExactly(a, owed, c, gone);
    InvFacts(b, 0);
    InvFacts(c, 0);
    SameRest(a, b, c);
    SameVars(b, c);
  }

  lemma SameRest(a: State, b: State, c: State)
    requires Thinned(a, b) && Thinned(a, c) && b.links.Keys == c.links.Keys && b.held.Keys == c.held.Keys
    requires b.kids.Keys == c.kids.Keys && b.own.Keys == c.own.Keys
    ensures b.links == c.links && b.held == c.held && b.kids == c.kids && b.own == c.own && b.loose == c.loose
  {
  }

  lemma SameVars(b: State, c: State)
    requires Inv(b, 0) && Inv(c, 0) && b.links == c.links && b.held == c.held && b.vars.Keys == c.vars.Keys
    requires forall v :: v in b.vars ==> b.vars[v].first == c.vars[v].first && b.vars[v].last == c.vars[v].last
    ensures b.vars == c.vars
  {
    hide Inv, Into;
    forall v | v in b.vars ensures b.vars[v] == c.vars[v] {
      RefsIs(b, v);
      RefsIs(c, v);
    }
  }
}
