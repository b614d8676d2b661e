/** The interpreter's variables and links as its code changes them. */
module JsGraph {
  import opened JsRefs
  import opened JsLinks

  lemma StateIs(g: Graph)
    ensures g.S() == State(g.vars, g.links, g.kids, g.own, g.held, g.loose)
  {
  }

  class Graph {
    var vars: map<nat, Var>
    var links: map<nat, Link>
    ghost var kids: map<nat, seq<nat>>
    ghost var own: map<nat, nat>
    var held: map<nat, nat>
    ghost var loose: nat

    constructor ()
      ensures Settled(S()) && vars == map[] && links == map[]
    {
      vars, links, kids, own, held, loose := map[], map[], map[], map[], map[], 0;
    }

    ghost function S(): State
      reads this
    {
      State(vars, links, kids, own, held, loose)
    }

    /** CScriptVar::unref, while v counts a reference that is gone. At zero v is deleted, with all its child links,
        whose targets lose a reference in turn. The number of variables bounds the depth. */
    method Unref(v: nat)
      requires Inv(S(), v) && v in vars && Safe(S(), {})
      modifies this
      ensures Inv(S(), 0) && Shrunk(old(S()), S(), {})
      ensures v in vars <==> old(vars)[v].refs > 1
      ensures |vars| <= old(|vars|)
      decreases |vars|, 1
    {
      hide *;
      ghost var s := S();
      StateIs(this);
      Decremented(s, v);
      InvFacts(s, v);
      vars := vars[v := vars[v].(refs := vars[v].refs - 1)];
      StateIs(this);
      if vars[v].refs == 0 {
        var first := vars[v].first;
        ghost var m, ks := S(), kids[v];
        LooseStays(s, v);
        EndedIs(s, v);
        BuriedInv(m, v);
        BuriedChain(m, v);
        BuriedIs(m, v);
        SmallerMap(vars, v);
        SubMap(s.vars, vars);
        vars := vars - {v};
        kids, held, own := kids - {v}, held - {v}, Freed(own, v);
        StateIs(this);
        DeleteLinks(first, ks);
        StateIs(this);
        BuriedShrinks(s, v, S());
      } else {
        Decreased(s, v);
        SubMap(s.vars, vars);
      }
    }

    /** The links of a list whose variable is gone, in order: next is read before the link is deleted. */
    method DeleteLinks(first: nat, ghost ks: seq<nat>)
      requires Inv(S(), 0) && Chained(S(), first, ks) && Safe(S(), SetOf(ks))
      modifies this
      ensures Inv(S(), 0) && Shrunk(old(S()), S(), SetOf(ks))
      ensures |vars| <= old(|vars|)
      decreases |vars|, 3
    {
      hide *;
      var c := first;
      ghost var s, i := S(), 0;
      StateIs(this);
      ShrunkRefl(s);
      assert ks[0..] == ks;
      NoneTaken(ks);
      while c != 0
        invariant 0 <= i <= |ks| && Inv(S(), 0) && Chained(S(), c, ks[i..]) && |vars| <= old(|vars|)
        invariant Shrunk(s, S(), SetOf(ks[..i])) && Safe(S(), SetOf(ks[i..]))
        decreases |ks| - i
      {
        ghost var m := S();
        StateIs(this);
        ChainedFacts(m, c, ks[i..]);
        var t := links[c].next;
        TakeOneMore(ks, i);
        SafeLess(m, SetOf(ks[i..]), {c});
        DeleteLink(c);
        SafeKept(m, S(), {c}, SetOf(ks[i + 1..]));
        ChainedStep(m, S(), c, ks[i..]);
        InvFacts(s, 0);
        InvFacts(m, 0);
        ShrunkTrans(s, m, S(), SetOf(ks[..i]), {c});
        c := t;
        i := i + 1;
      }
      ChainedFacts(S(), c, ks[i..]);
      assert ks[..i] == ks;
    }

    /** CScriptVarLink's destructor. */
    method DeleteLink(c: nat)
      requires Inv(S(), 0) && c in links && c in own && own[c] == 0 && Safe(S(), {c})
      modifies this
      ensures Inv(S(), 0) && Shrunk(old(S()), S(), {c})
      ensures |vars| <= old(|vars|)
      decreases |vars|, 2
    {
      hide *;
      ghost var s := S();
      StateIs(this);
      DroppedInv(s, c);
      DroppedIs(s, c);
      InvFacts(s, 0);
      DroppedShrinks(s, c);
      var v := links[c].target;
      links := links - {c};
      own := own - {c};
      StateIs(this);
      ghost var m := S();
      InvFacts(m, v);
      assert {} + {c} == {c};
      SafeKept(s, m, {c}, {});
      Unref(v);
      ShrunkTrans(s, m, S(), {c}, {});
      assert {c} + {} == {c};
    }

    /** A new CScriptVar, at the address that the allocator gave. */
    method NewVar(at: nat)
      requires Settled(S()) && at != 0 && at !in vars
      modifies this
      ensures Settled(S()) && S() == Born(old(S()), at)
    {
      hide *;
      StateIs(this);
      BornSettled(S(), at);
      BornIs(S(), at);
      vars, kids, held := vars[at := Var(0, 0, 0)], kids[at := []], held[at := 0];
      StateIs(this);
    }

    /** CScriptVarLink's constructor: the link is in no list and counts as a reference. */
    method NewLink(at: nat, name: string, v: nat)
      requires Settled(S()) && at != 0 && at !in links && v in vars
      modifies this
      ensures Settled(S()) && S() == Pointed(old(S()), at, name, v)
    {
      hide *;
      StateIs(this);
      PointedSettled(S(), at, name, v);
      PointedFacts(S(), at, name, v);
      vars := vars[v := vars[v].(refs := vars[v].refs + 1)];
      links := links[at := Link(name, v, 0, 0, false)];
      own := own[at := 0];
      StateIs(this);
    }

    /** CLEAN: a link is deleted when no list owns it. */
    method Clean(l: nat)
      requires Settled(S()) && (l != 0 ==> l in links)
      modifies this
      ensures Settled(S())
      ensures if l != 0 && !old(links)[l].owned then Shrunk(old(S()), S(), {l}) else S() == old(S())
    {
      hide *;
      ghost var s := S();
      StateIs(this);
      SettledFacts(s);
      if l != 0 && !links[l].owned {
        Unowned(s, l);
        SafeIdle(s, {l});
        MarkedLess(s, {l});
        DeleteLink(l);
        SettledAfter(s, S(), {l}, 0);
      }
    }

    /** CScriptVar::ref, outside of links. */
    method Ref(v: nat)
      requires Settled(S()) && v in vars
      modifies this
      ensures Settled(S()) && v in old(S()).held && S() == Raised(old(S()), v)
    {
      hide *;
      StateIs(this);
      SettledFacts(S());
      InvFacts(S(), 0);
      RaisedSettled(S(), v);
      RaisedIs(S(), v);
      vars, held := vars[v := vars[v].(refs := vars[v].refs + 1)], held[v := held[v] + 1];
      StateIs(this);
    }

    /** CScriptVar::unref, outside of links. */
    method Release(v: nat)
      requires Settled(S()) && v in vars && v in held && held[v] > 0
      modifies this
      ensures Settled(S()) && Shrunk(Lowered(old(S()), v), S(), {})
      ensures v in vars <==> old(vars)[v].refs > 1
    {
      hide *;
      StateIs(this);
      LoweredInv(S(), v);
      LoweredIs(S(), v);
      held := held[v := held[v] - 1];
      ghost var m := S();
      StateIs(this);
      SafeIdle(m, {});
      Unref(v);
      SettledAfter(m, S(), {}, v);
    }

    /** CScriptVarLink::replaceWith: the new target is referenced before the old one is let go. */
    method ReplaceWith(l: nat, v: nat)
      requires Settled(S()) && l in links && v in vars
      modifies this
      ensures Settled(S()) && Shrunk(Retargeted(old(S()), l, v), S(), {})
    {
      hide *;
      StateIs(this);
      RetargetedInv(S(), l, v);
      RetargetedIs(S(), l, v);
      var before := links[l].target;
      vars := vars[v := vars[v].(refs := vars[v].refs + 1)];
      links := links[l := links[l].(target := v)];
      ghost var m := S();
      StateIs(this);
      SafeIdle(m, {});
      Unref(before);
      SettledAfter(m, S(), {}, before);
    }

    /** CScriptVar::findChild: the first link of the list with that name. */
    method FindChild(v: nat, name: string) returns (l: nat, ghost i: nat)
      requires Settled(S()) && v in vars
      ensures v in kids && i <= |kids[v]| && l == (if i < |kids[v]| then kids[v][i] else 0)
      ensures l != 0 <==> i < |kids[v]|
      ensures l != 0 ==> l in links && links[l].name == name
      ensures forall j :: 0 <= j < i ==> kids[v][j] in links && links[kids[v][j]].name != name
    {
      hide *;
      StateIs(this);
      i := 0;
      l := vars[v].first;
      Walk(S(), v, 0);
      while l != 0
        invariant v in kids && 0 <= i <= |kids[v]| && l == (if i < |kids[v]| then kids[v][i] else 0)
        invariant forall j :: 0 <= j < i ==> kids[v][j] in links && links[kids[v][j]].name != name
        decreases |kids[v]| - i
      {
        Walk(S(), v, i);
        if links[l].name == name { return; }
        l := links[l].next;
        AfterIs(kids[v], i);
        i := i + 1;
      }
      Walk(S(), v, i);
    }

    /** CScriptVar::addChild: a new link at the end of v's list, to child or, if there is none, to a new variable. */
    method AddChild(v: nat, name: string, child: nat, at: nat, atVar: nat)
      requires Settled(S()) && v in vars && at != 0 && at !in links
      requires if child == 0 then atVar != 0 && atVar !in vars else child in vars
      modifies this
      ensures Settled(S()) && v in Given(old(S()), child, atVar).vars && Target(child, atVar) in Given(old(S()), child, atVar).vars
      ensures Attachable(Pointed(Given(old(S()), child, atVar), at, name, Target(child, atVar)), v, at)
      ensures S() == Attached(Pointed(Given(old(S()), child, atVar), at, name, Target(child, atVar)), v, at)
    {
      hide *;
      ghost var s := S();
      StateIs(this);
      GivenIs(s, child, atVar);
      BornIs(s, atVar);
      var to := child;
      if child == 0 {
        NewVar(atVar);
        to := atVar;
      }
      StateIs(this);
      PointedFacts(S(), at, name, to);
      NewLink(at, name, to);
      StateIs(this);
      Join(v, at);
    }

    /** CScriptVar::addChildNoDup: a link of that name is redirected, and made when there is none. */
    method AddChildNoDup(v: nat, name: string, child: nat, at: nat, atVar: nat) returns (l: nat, ghost i: nat)
      requires Settled(S()) && v in vars && at != 0 && at !in links
      requires if child == 0 then atVar != 0 && atVar !in vars else child in vars
      modifies this
      ensures Settled(S()) && v in old(kids) && i <= |old(kids)[v]|
      ensures forall j :: 0 <= j < i ==> old(kids)[v][j] in old(links) && old(links)[old(kids)[v][j]].name != name
      ensures v in Given(old(S()), child, atVar).vars && Target(child, atVar) in Given(old(S()), child, atVar).vars
      ensures if i < |old(kids)[v]| then
                && l == old(kids)[v][i] && l in old(links) && old(links)[l].name == name && l in Given(old(S()), child, atVar).links
                && Shrunk(Retargeted(Given(old(S()), child, atVar), l, Target(child, atVar)), S(), {})
              else
                && l == at && Attachable(Pointed(Given(old(S()), child, atVar), at, name, Target(child, atVar)), v, at)
                && S() == Attached(Pointed(Given(old(S()), child, atVar), at, name, Target(child, atVar)), v, at)
    {
      hide *;
      ghost var s := S();
      StateIs(this);
      GivenIs(s, child, atVar);
      BornIs(s, atVar);
      var to := child;
      if child == 0 {
        NewVar(atVar);
        to := atVar;
      }
      StateIs(this);
      SettledFacts(s);
      InvFacts(s, 0);
      GivenIs(S(), to, 0);
      l, i := FindChild(v, name);
      if l != 0 {
        ReplaceWith(l, to);
      } else {
        AddChild(v, name, to, at, 0);
        l := at;
      }
    }

    /** The end of addChild. */
    method Join(v: nat, l: nat)
      requires Settled(S()) && v in vars && l in links && l in own && own[l] == 0 && links[l].next == 0 && links[l].prev == 0
      modifies this
      ensures Settled(S()) && Attachable(old(S()), v, l) && S() == Attached(old(S()), v, l)
    {
      hide *;
      ghost var s := S();
      StateIs(this);
      SettledFacts(s);
      InvFacts(s, 0);
      AttachedSettled(s, v, l);
      LastIn(s, v);
      NotItself(s, v, l);
      CanAttach(s, v, l);
      AttachedIs(s, v, l);
      links := links[l := links[l].(owned := true)];
      var last := vars[v].last;
      if last != 0 {
        links := links[last := links[last].(next := l)];
        links := links[l := links[l].(prev := last)];
        vars := vars[v := vars[v].(last := l)];
      } else {
        vars := vars[v := vars[v].(first := l)];
        vars := vars[v := vars[v].(last := l)];
        assert vars == s.vars[v := s.vars[v].(first := l, last := l)];
      }
      kids, own := kids[v := kids[v] + [l]], own[l := v];
      StateIs(this);
    }

    /** CScriptVar::removeLink: the link leaves v's list and is deleted. Nothing of v is used after that, so v itself may
        go with it. */
    method RemoveLink(v: nat, l: nat) returns (ghost i: nat)
      requires Settled(S()) && (l != 0 ==> v in vars && l in own && own[l] == v)
      modifies this
      ensures Settled(S())
      ensures l == 0 ==> S() == old(S())
      ensures l != 0 ==> v in old(S()).kids && i < |old(S()).kids[v]| && old(S()).kids[v][i] == l && HasNeighbours(old(S()).links, l)
      ensures l != 0 ==> Shrunk(Unlinked(old(S()), v, i), S(), {l})
    {
      hide *;
      i := 0;
      if l == 0 { return; }
      ghost var s := S();
      StateIs(this);
      SettledFacts(s);
      i := Position(s, v, l);
      Unlink(v, l, i);
      ghost var m := S();
      UnlinkedInv(s, v, i);
      StateIs(this);
      SafeIdle(m, {l});
      DeleteLink(l);
      SettledAfter(m, S(), {l}, 0);
    }

    method Unlink(v: nat, l: nat, ghost i: nat)
      requires Settled(S()) && v in vars && v in kids && i < |kids[v]| && kids[v][i] == l
      modifies this
      ensures HasNeighbours(old(S()).links, l) && S() == Unlinked(old(S()), v, i)
    {
      hide *;
      ghost var s := S();
      StateIs(this);
      UnlinkedInv(s, v, i);
      UnlinkedIs(s, v, i);
      UnlinkOrder(s, v, i);
      var next, prev := links[l].next, links[l].prev;
      if next != 0 { links := links[next := links[next].(prev := prev)]; }
      if prev != 0 { links := links[prev := links[prev].(next := next)]; }
      if vars[v].last == l { vars := vars[v := vars[v].(last := prev)]; }
      if vars[v].first == l { vars := vars[v := vars[v].(first := next)]; }
      kids, own := kids[v := Without(kids[v], i)], own[l := 0];
      assert vars == s.vars[v := vars[v]];
      StateIs(this);
    }

    /** CScriptVar::removeAllChildren of a variable that survives it. firstChild is read once, and cleared at the end. */
    method RemoveAllChildren(v: nat) returns (ghost mid: State)
      requires Settled(S()) && v in vars && v in kids && Survives(S(), v)
      modifies this
      ensures Settled(S()) && v in vars && v in kids && kids[v] == [] && Inv(mid, 0) && v in mid.vars
      ensures Shrunk(Loosened(old(S()), v), mid, SetOf(old(kids)[v])) && S() == Closed(mid, v)
    {
      hide *;
      ghost var s, ks := S(), kids[v];
      StateIs(this);
      LoosenedInv(s, v);
      LoosenedIs(s, v);
      var c := vars[v].first;
      kids, own, loose := kids[v := []], Freed(own, v), v;
      StateIs(this);
      ghost var m := S();
      SettledFacts(s);
      InvFacts(s, 0);
      InvFacts(m, 0);
      DeleteLinks(c, ks);
      mid := S();
      StateIs(this);
      assert {} + SetOf(ks) == SetOf(ks);
      SafeKept(m, mid, SetOf(ks), {});
      ThinnedLoose(m, mid, SetOf(ks));
      SafeLive(mid, {});
      MarkedKept(m, mid, SetOf(ks));
      ClosedSettled(mid, v);
      ClosedIs(mid, v);
      vars := vars[v := vars[v].(first := 0, last := 0)];
      loose := 0;
      StateIs(this);
      SettledFacts(S());
      InvFacts(S(), 0);
      StillEmpty(m, mid, SetOf(ks), v);
    }

    /** The deletions of removeAllChildren on a list that is detached beforehand, for any variable: v lives to see the end
        if and only if it survives. The code detaches the list afterwards, and needs v for that. */
    method DeleteChildren(v: nat)
      requires Settled(S()) && v in vars && v in kids
      modifies this
      ensures Inv(S(), 0) && Shrunk(Closed(Loosened(old(S()), v), v), S(), SetOf(old(kids)[v]))
      ensures v in vars <==> Survives(old(S()), v)
    {
      hide *;
      ghost var s, ks := S(), kids[v];
      StateIs(this);
      SettledFacts(s);
      DetachedInv(s, v);
      LoosenedIs(s, v);
      ClosedIs(Loosened(s, v), v);
      LoosenedDetached(s, v);
      var c := vars[v].first;
      vars := vars[v := vars[v].(first := 0, last := 0)];
      kids, own := kids[v := []], Freed(own, v);
      StateIs(this);
      ghost var m := S();
      SafeIdle(m, SetOf(ks));
      DeleteLinks(c, ks);
      StateIs(this);
      LivesIff(s, v, m, S());
    }
  }

  /** The child that addChild links to, and the store that holds it. */
  function Target(child: nat, atVar: nat): nat { if child == 0 then atVar else child }

  ghost function Given(s: State, child: nat, atVar: nat): State {
    if child == 0 then Born(s, atVar) else s
  }

  lemma GivenIs(s: State, child: nat, atVar: nat)
    ensures Given(s, child, atVar) == (if child == 0 then Born(s, atVar) else s) && Target(child, atVar) == (if child == 0 then atVar else child)
  {
  }

  lemma AfterIs(ks: seq<nat>, i: nat)
    ensures After(ks, i) == if i + 1 < |ks| then ks[i + 1] else 0
  {
  }

  lemma Unowned(s: State, l: nat)
    requires Settled(s) && l in s.links && !s.links[l].owned
    ensures l in s.own && s.own[l] == 0
  {
  }

  ghost predicate Attachable(s: State, v: nat, l: nat) {
    l in s.links && v in s.vars && v in s.kids && (s.vars[v].last != 0 ==> s.vars[v].last in s.links)
  }

  lemma CanAttach(s: State, v: nat, l: nat)
    requires l in s.links && v in s.vars && v in s.kids && (s.vars[v].last != 0 ==> s.vars[v].last in s.links)
    ensures Attachable(s, v, l)
  {
  }

  lemma NotItself(s: State, v: nat, l: nat)
    requires Settled(s) && v in s.vars && l in s.links && l in s.own && s.own[l] == 0
    ensures s.vars[v].last != l
  {
    SettledFacts(s);
    InvFacts(s, 0);
    if s.vars[v].last != 0 { LastOwned(s, v); }
  }

  lemma AttachedIs(s: State, v: nat, l: nat)
    requires Attachable(s, v, l) && s.vars[v].last != l
    ensures Attached(s, v, l).kids == s.kids[v := s.kids[v] + [l]] && Attached(s, v, l).own == s.own[l := v]
    ensures Attached(s, v, l).held == s.held && Attached(s, v, l).loose == s.loose
    ensures s.vars[v].last == 0 ==> Attached(s, v, l).links == s.links[l := s.links[l].(owned := true)]
    ensures s.vars[v].last == 0 ==> Attached(s, v, l).vars == s.vars[v := s.vars[v].(first := l, last := l)]
    ensures s.vars[v].last != 0 ==> Attached(s, v, l).vars == s.vars[v := s.vars[v].(last := l)]
    ensures s.vars[v].last != 0 ==> Attached(s, v, l).links ==
                                    s.links[l := s.links[l].(owned := true)][s.vars[v].last := s.links[s.vars[v].last].(next := l)]
                                    [l := s.links[l].(owned := true, prev := s.vars[v].last)]
  {
  }

  lemma ThinnedLoose(a: State, b: State, gone: set<nat>)
    requires Shrunk(a, b, gone)
    ensures b.loose == a.loose
  {
  }

  lemma StillEmpty(a: State, b: State, gone: set<nat>, v: nat)
    requires Shrunk(a, b, gone) && v in a.kids && a.kids[v] == [] && v in b.kids
    ensures b.kids[v] == []
  {
  }

  lemma Position(s: State, v: nat, l: nat) returns (i: nat)
    requires Settled(s) && v in s.vars && l in s.own && s.own[l] == v
    ensures v in s.kids && i < |s.kids[v]| && s.kids[v][i] == l
  {
    hide Listed;
    SettledFacts(s);
    InvFacts(s, 0);
    OwnIs(s, v, 0);
    i :| 0 <= i < |s.kids[v]| && s.kids[v][i] == l;
  }

  lemma UnlinkedIs(s: State, v: nat, i: nat)
    requires v in s.vars && v in s.kids && i < |s.kids[v]| && HasNeighbours(s.links, s.kids[v][i])
    ensures s.kids[v][i] in s.links
    ensures Unlinked(s, v, i) == s.(links := Cut(s.links, s.kids[v][i]), kids := s.kids[v := Without(s.kids[v], i)], own := s.own[s.kids[v][i] := 0],
                                 vars := s.vars[v := Shorter(s.vars[v], s.links[s.kids[v][i]], s.kids[v][i])])
  {
  }

  lemma UnlinkOrder(s: State, v: nat, i: nat)
    requires v in s.vars && v in s.kids && i < |s.kids[v]| && HasNeighbours(s.links, s.kids[v][i])
    ensures var l := s.kids[v][i];
      && (s.links[l].next != 0 ==> s.links[l].next in s.links) && (s.links[l].prev != 0 ==> s.links[l].prev in s.links)
      && Cut(s.links, l) ==
         (var a := if s.links[l].next != 0 then s.links[s.links[l].next := s.links[s.links[l].next].(prev := s.links[l].prev)] else s.links;
          if s.links[l].prev != 0 then a[s.links[l].prev := a[s.links[l].prev].(next := s.links[l].next)] else a)
      && Shorter(s.vars[v], s.links[l], l) ==
         s.vars[v].(last := if s.vars[v].last == l then s.links[l].prev else s.vars[v].last, first := if s.vars[v].first == l then s.links[l].next else s.vars[v].first)
  {
  }
}
