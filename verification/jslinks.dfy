/** What creating, attaching, redirecting and unlinking do to the store. */
module JsLinks {
  import opened JsRefs

  /** A new variable at address v. */
  ghost function Born(s: State, v: nat): State {
    s.(vars := s.vars[v := Var(0, 0, 0)], kids := s.kids[v := []], held := s.held[v := 0])
  }

  lemma BornSettled(s: State, v: nat)
    requires Settled(s) && v != 0 && v !in s.vars
    ensures Settled(Born(s, v))
  {
    hide Owners, Lists, Counts, Targets, Inv;
    InvFacts(s, 0);
    InvParts(s, 0);
    BornCounts(s, v);
    BornOwners(s, v);
    BornLists(s, v);
    InvWhole(Born(s, v), 0);
  }

  lemma BornCounts(s: State, v: nat)
    requires Counts(s, 0) && Targets(s) && v != 0 && v !in s.vars && 0 !in s.vars
    ensures Counts(Born(s, v), 0) && Targets(Born(s, v))
  {
    hide Into;
    var b := Born(s, v);
    NoneInto(s.links, v);
  }

  lemma NoneInto(links: map<nat, Link>, v: nat)
    requires forall l :: l in links ==> links[l].target != v
    ensures |Into(links, v)| == 0
  {
    assert Into(links, v) == {};
  }

  lemma BornLists(s: State, v: nat)
    requires Lists(s) && v !in s.vars && s.loose == 0
    ensures Lists(Born(s, v))
  {
    hide Listed;
    EmptyListed(s.links);
  }

  lemma EmptyListed(links: map<nat, Link>)
    ensures Listed(links, [], 0, 0)
  {
  }

  lemma BornOwners(s: State, v: nat)
    requires Owners(s) && v != 0 && v !in s.vars
    ensures Owners(Born(s, v))
  {
    var b := Born(s, v);
    forall u, l | u in b.vars && l in b.links ensures b.own[l] == u <==> l in b.kids[u] {
      if u != v { assert s.own[l] == u <==> l in s.kids[u]; }
    }
  }

  /** A new link at address l, in no list, that points to v. */
  ghost function Pointed(s: State, l: nat, name: string, v: nat): State
    requires v in s.vars
  {
    s.(links := s.links[l := Link(name, v, 0, 0, false)], own := s.own[l := 0],
    vars := s.vars[v := s.vars[v].(refs := s.vars[v].refs + 1)])
  }

  lemma PointedSettled(s: State, l: nat, name: string, v: nat)
    requires Settled(s) && l != 0 && l !in s.links && v in s.vars
    ensures Settled(Pointed(s, l, name, v))
  {
    hide Owners, Lists, Counts, Targets, Inv;
    InvFacts(s, 0);
    InvParts(s, 0);
    PointedCounts(s, l, name, v);
    PointedOwners(s, l, name, v);
    PointedLists(s, l, name, v);
    InvWhole(Pointed(s, l, name, v), 0);
  }

  lemma PointedCounts(s: State, l: nat, name: string, v: nat)
    requires Counts(s, 0) && Targets(s) && l !in s.links && v in s.vars
    ensures Counts(Pointed(s, l, name, v), 0) && Targets(Pointed(s, l, name, v))
  {
    hide Into;
    var p := Pointed(s, l, name, v);
    forall u | u in p.vars ensures p.vars[u].refs == |Into(p.links, u)| + p.held[u] + (if u == 0 then 1 else 0) { OneMore(s.links, l, p.links[l], u); }
  }

  lemma OneMore(links: map<nat, Link>, l: nat, k: Link, u: nat)
    requires l !in links
    ensures |Into(links[l := k], u)| == |Into(links, u)| + if k.target == u then 1 else 0
  {
    DropCounts(links[l := k], l, u);
    assert links[l := k] - {l} == links;
  }

  lemma PointedOwners(s: State, l: nat, name: string, v: nat)
    requires Owners(s) && Lists(s) && s.loose == 0 && 0 !in s.vars && v in s.vars && l !in s.links
    ensures Owners(Pointed(s, l, name, v))
  {
    hide Listed;
    var p := Pointed(s, l, name, v);
    forall u, k | u in p.vars && k in p.links ensures p.own[k] == u <==> k in p.kids[u] {
      if k == l { ListIn(s.links, s.kids[u], s.vars[u].first, s.vars[u].last); } else { assert s.own[k] == u <==> k in s.kids[u]; }
    }
  }

  lemma PointedLists(s: State, l: nat, name: string, v: nat)
    requires Lists(s) && l !in s.links && v in s.vars
    ensures Lists(Pointed(s, l, name, v))
  {
    hide Listed;
    var p := Pointed(s, l, name, v);
    forall u | u in p.vars && u != p.loose ensures Listed(p.links, p.kids[u], p.vars[u].first, p.vars[u].last) {
      ListIn(s.links, s.kids[u], s.vars[u].first, s.vars[u].last);
      ListedSame(s.links, p.links, s.kids[u], s.vars[u].first, s.vars[u].last);
    }
  }

  lemma ListIn(links: map<nat, Link>, ks: seq<nat>, first: nat, last: nat)
    requires Listed(links, ks, first, last)
    ensures forall k :: k in ks ==> k in links
  {
  }

  /** A list does not depend on other links. */
  lemma ListedSame(links: map<nat, Link>, links': map<nat, Link>, ks: seq<nat>, first: nat, last: nat)
    requires Listed(links, ks, first, last) && forall k :: k in ks ==> k in links && k in links' && links'[k] == links[k]
    ensures Listed(links', ks, first, last)
  {
    forall i | 0 <= i < |ks| ensures ks[i] in links' && links'[ks[i]] == links[ks[i]] { assert ks[i] in ks; }
  }

  /** A link joins the end of v's list: the links, and v. */
  ghost function Joined(links: map<nat, Link>, p: nat, l: nat): map<nat, Link>
    requires l in links && (p != 0 ==> p in links)
  {
    var marked := links[l := links[l].(owned := true)];
    if p == 0 then marked else marked[p := marked[p].(next := l)][l := links[l].(owned := true, prev := p)]
  }

  ghost function Longer(x: Var, l: nat): Var {
    if x.last == 0 then x.(first := l, last := l) else x.(last := l)
  }

  ghost function Attached(s: State, v: nat, l: nat): State
    requires l in s.links && v in s.vars && v in s.kids && (s.vars[v].last != 0 ==> s.vars[v].last in s.links)
  {
    s.(links := Joined(s.links, s.vars[v].last, l), vars := s.vars[v := Longer(s.vars[v], l)],
    kids := s.kids[v := s.kids[v] + [l]], own := s.own[l := v])
  }

  lemma LastIn(s: State, v: nat)
    requires Settled(s) && v in s.vars
    ensures v in s.kids && Listed(s.links, s.kids[v], s.vars[v].first, s.vars[v].last)
    ensures s.vars[v].last == 0 <==> s.kids[v] == []
    ensures s.vars[v].first == 0 <==> s.kids[v] == []
    ensures s.kids[v] != [] ==> s.vars[v].last in s.links && s.vars[v].first in s.links
  {
    assert Listed(s.links, s.kids[v], s.vars[v].first, s.vars[v].last);
    if s.kids[v] != [] { assert s.kids[v][0] in s.links && s.kids[v][|s.kids[v]| - 1] in s.links; }
  }

  lemma JoinedListed(links: map<nat, Link>, ks: seq<nat>, x: Var, l: nat)
    requires Listed(links, ks, x.first, x.last) && l in links && l !in ks && 0 !in links && links[l].next == 0 && links[l].prev == 0
    ensures x.last != 0 ==> x.last in links
    ensures Listed(Joined(links, x.last, l), ks + [l], Longer(x, l).first, Longer(x, l).last)
  {
    hide Listed, Joined;
    Ended(links, ks, x);
    var ks' := ks + [l];
    if ks == [] {
      JoinedOnly(links, x, l);
      assert ks' == [l];
    } else {
      var after := Joined(links, x.last, l);
      forall i: nat | i < |ks'|
        ensures ks'[i] in after && after[ks'[i]].owned && after[ks'[i]].next == After(ks', i) && after[ks'[i]].prev == Before(ks', i)
      {
        JoinedAt(links, ks, x, l, i);
      }
      Distinct(links, ks, x.first, x.last);
      forall i, j | 0 <= i < j < |ks'| ensures ks'[i] != ks'[j] { assert ks[i] in ks; }
      ListedWhen(after, ks');
    }
  }

  lemma Ended(links: map<nat, Link>, ks: seq<nat>, x: Var)
    requires Listed(links, ks, x.first, x.last) && 0 !in links
    ensures if ks == [] then x.first == 0 && x.last == 0 else x.first == ks[0] && x.last == ks[|ks| - 1] && x.last in links && x.last != 0
  {
    if ks != [] { assert ks[|ks| - 1] in links; }
  }

  lemma JoinedOnly(links: map<nat, Link>, x: Var, l: nat)
    requires x.last == 0 && l in links && links[l].next == 0 && links[l].prev == 0
    ensures Listed(Joined(links, x.last, l), [l], Longer(x, l).first, Longer(x, l).last)
  {
  }

  lemma JoinedAt(links: map<nat, Link>, ks: seq<nat>, x: Var, l: nat, i: nat)
    requires Listed(links, ks, x.first, x.last) && ks != [] && l in links && l !in ks && 0 !in links && links[l].next == 0
    requires i <= |ks|
    ensures x.last in links && (ks + [l])[i] in Joined(links, x.last, l) && Joined(links, x.last, l)[(ks + [l])[i]].owned
    ensures Joined(links, x.last, l)[(ks + [l])[i]].next == After(ks + [l], i)
    ensures Joined(links, x.last, l)[(ks + [l])[i]].prev == Before(ks + [l], i)
  {
    assert ks[|ks| - 1] in links;
    if i < |ks| {
      assert ks[i] in ks && links[ks[i]].next == After(ks, i) && links[ks[i]].prev == Before(ks, i);
    }
  }

  lemma AttachedSettled(s: State, v: nat, l: nat)
    requires Settled(s) && v in s.vars && l in s.links && s.own[l] == 0 && s.links[l].next == 0 && s.links[l].prev == 0
    ensures v in s.kids && (s.vars[v].last != 0 ==> s.vars[v].last in s.links)
    ensures Settled(Attached(s, v, l))
  {
    hide Listed, Owners, Lists, Counts, Targets, Inv, Attached;
    LastIn(s, v);
    InvFacts(s, 0);
    InvParts(s, 0);
    NoList(s, l);
    if s.vars[v].last != 0 { LastOwned(s, v); }
    AttachedLists(s, v, l);
    AttachedOwners(s, v, l);
    AttachedRest(s, v, l);
    SamePoints(s, Attached(s, v, l), 0);
    InvWhole(Attached(s, v, l), 0);
  }

  lemma AttachedRest(s: State, v: nat, l: nat)
    requires v in s.vars && v in s.kids && l in s.links && v != 0 && s.own.Keys == s.links.Keys && Marked(s, {})
    requires s.vars[v].last != 0 ==> s.vars[v].last in s.links && s.own[s.vars[v].last] == v
    ensures var t := Attached(s, v, l);
      && t.held == s.held && t.loose == s.loose && t.links.Keys == s.links.Keys && t.vars.Keys == s.vars.Keys
      && (forall k :: k in s.links ==> t.links[k].target == s.links[k].target)
      && (forall u :: u in s.vars ==> t.vars[u].refs == s.vars[u].refs) && Marked(t, {})
  {
  }

  lemma LastOwned(s: State, v: nat)
    requires Settled(s) && v in s.vars && s.vars[v].last != 0
    ensures s.vars[v].last in s.own && s.own[s.vars[v].last] == v
  {
    LastIn(s, v);
    var ks := s.kids[v];
    assert ks[|ks| - 1] in ks;
  }

  lemma InvParts(s: State, owed: nat)
    requires Inv(s, owed)
    ensures Owners(s) && Lists(s) && Counts(s, owed) && Targets(s)
  {
  }

  lemma InvWhole(s: State, owed: nat)
    requires 0 !in s.vars && 0 !in s.links && Owners(s) && Lists(s) && Counts(s, owed) && Targets(s)
    ensures Inv(s, owed)
  {
  }

  /** Links in no list are in no list. */
  lemma NoList(s: State, l: nat)
    requires Inv(s, 0) && l in s.links && s.own[l] == 0
    ensures forall u :: u in s.vars ==> l !in s.kids[u]
  {
    forall u | u in s.vars ensures l !in s.kids[u] { assert s.own[l] == u <==> l in s.kids[u]; }
  }

  /** Counts depend on the targets only. */
  lemma SamePoints(s: State, t: State, owed: nat)
    requires Counts(s, owed) && Targets(s) && t.held == s.held && t.links.Keys == s.links.Keys && t.vars.Keys == s.vars.Keys
    requires forall l :: l in s.links ==> t.links[l].target == s.links[l].target
    requires forall v :: v in s.vars ==> t.vars[v].refs == s.vars[v].refs
    ensures Counts(t, owed) && Targets(t)
  {
    forall v | v in t.vars ensures Into(t.links, v) == Into(s.links, v) { }
  }

  lemma AttachedOwners(s: State, v: nat, l: nat)
    requires Owners(s) && v in s.vars && v in s.kids && l in s.links && (s.vars[v].last != 0 ==> s.vars[v].last in s.links) && v != 0
    requires forall u :: u in s.vars ==> l !in s.kids[u]
    ensures Owners(Attached(s, v, l))
  {
    hide Longer;
    var t := Attached(s, v, l);
    assert t.links.Keys == s.links.Keys && t.vars.Keys == s.vars.Keys;
    forall u, k | u in t.vars && k in t.links ensures t.own[k] == u <==> k in t.kids[u] {
      assert s.own[k] == u <==> k in s.kids[u];
      InLonger(s.kids[v], l, k);
    }
  }

  lemma InLonger(ks: seq<nat>, l: nat, k: nat)
    ensures k in ks + [l] <==> k in ks || k == l
  {
  }

  lemma AttachedLists(s: State, v: nat, l: nat)
    requires Owners(s) && Lists(s) && s.loose == 0 && v in s.vars && l in s.links && v in s.kids && 0 !in s.links && 0 !in s.vars
    requires s.links[l].next == 0 && s.links[l].prev == 0 && forall u :: u in s.vars ==> l !in s.kids[u]
    requires s.vars[v].last != 0 ==> s.vars[v].last in s.links && s.vars[v].last in s.own && s.own[s.vars[v].last] == v
    ensures Lists(Attached(s, v, l))
  {
    hide Listed;
    var t := Attached(s, v, l);
    JoinedListed(s.links, s.kids[v], s.vars[v], l);
    forall u | u in t.vars ensures Listed(t.links, t.kids[u], t.vars[u].first, t.vars[u].last) {
      if u != v {
        ListIn(s.links, s.kids[u], s.vars[u].first, s.vars[u].last);
        forall k | k in s.kids[u] ensures k in s.links && t.links[k] == s.links[k] { assert s.own[k] == u; }
        ListedSame(s.links, t.links, s.kids[u], s.vars[u].first, s.vars[u].last);
      }
    }
  }

  ghost function Without(ks: seq<nat>, i: nat): seq<nat>
    requires i < |ks|
  {
    ks[..i] + ks[i + 1..]
  }

  ghost predicate HasNeighbours(links: map<nat, Link>, l: nat) {
    && l in links && (links[l].next != 0 ==> links[l].next in links) && (links[l].prev != 0 ==> links[l].prev in links)
  }

  /** The neighbours of l point to each other. */
  ghost function Cut(links: map<nat, Link>, l: nat): map<nat, Link>
    requires HasNeighbours(links, l)
  {
    var n, p := links[l].next, links[l].prev;
    var a := if n != 0 then links[n := links[n].(prev := p)] else links;
    if p != 0 then a[p := a[p].(next := n)] else a
  }

  ghost function Shorter(x: Var, k: Link, l: nat): Var {
    x.(last := if x.last == l then k.prev else x.last, first := if x.first == l then k.next else x.first)
  }

  /** Link i of v's list leaves it. */
  ghost function Unlinked(s: State, v: nat, i: nat): State
    requires v in s.vars && v in s.kids && i < |s.kids[v]| && HasNeighbours(s.links, s.kids[v][i])
  {
    var l := s.kids[v][i];
    s.(links := Cut(s.links, l), vars := s.vars[v := Shorter(s.vars[v], s.links[l], l)],
    kids := s.kids[v := Without(s.kids[v], i)], own := s.own[l := 0])
  }

  lemma Neighbours(links: map<nat, Link>, ks: seq<nat>, first: nat, last: nat, i: nat)
    requires Listed(links, ks, first, last) && i < |ks|
    ensures HasNeighbours(links, ks[i])
  {
    assert links[ks[i]].next == After(ks, i) && links[ks[i]].prev == Before(ks, i);
    if i + 1 < |ks| { assert ks[i + 1] in links; }
    if i > 0 { assert ks[i - 1] in links; }
  }

  /** Where the j-th link of the shorter list was. */
  ghost function Was(i: nat, j: nat): nat { if j < i then j else j + 1 }

  lemma CutAt(links: map<nat, Link>, ks: seq<nat>, first: nat, last: nat, i: nat, j: nat)
    requires Listed(links, ks, first, last) && i < |ks| && j < |ks| && j != i && 0 !in links && HasNeighbours(links, ks[i])
    ensures var c := Cut(links, ks[i]);
      && ks[j] in c && ks[j] in links && c[ks[j]].owned
      && c[ks[j]].next == (if j + 1 == i then links[ks[i]].next else links[ks[j]].next)
      && c[ks[j]].prev == (if j == i + 1 then links[ks[i]].prev else links[ks[j]].prev)
  {
    assert links[ks[i]].next == After(ks, i) && links[ks[i]].prev == Before(ks, i) && ks[j] in links && ks[i] in links;
    if i + 1 < |ks| { assert ks[i + 1] in links; }
    if i > 0 { assert ks[i - 1] in links; }
  }

  lemma CutLink(links: map<nat, Link>, ks: seq<nat>, first: nat, last: nat, i: nat, j: nat)
    requires Listed(links, ks, first, last) && i < |ks| && j < |ks| - 1 && 0 !in links && HasNeighbours(links, ks[i])
    ensures var c, rest := Cut(links, ks[i]), Without(ks, i);
      rest[j] == ks[Was(i, j)] && rest[j] in c && c[rest[j]].owned && c[rest[j]].next == After(rest, j) && c[rest[j]].prev == Before(rest, j)
  {
    hide Cut, Listed;
    CutAt(links, ks, first, last, i, Was(i, j));
    NeighbourIs(links, ks, first, last, i);
    NeighbourIs(links, ks, first, last, Was(i, j));
  }

  lemma NeighbourIs(links: map<nat, Link>, ks: seq<nat>, first: nat, last: nat, i: nat)
    requires Listed(links, ks, first, last) && i < |ks|
    ensures ks[i] in links && links[ks[i]].next == After(ks, i) && links[ks[i]].prev == Before(ks, i)
  {
  }

  lemma CutListed(links: map<nat, Link>, ks: seq<nat>, x: Var, i: nat)
    requires Listed(links, ks, x.first, x.last) && i < |ks| && 0 !in links && HasNeighbours(links, ks[i])
    ensures var y := Shorter(x, links[ks[i]], ks[i]); Listed(Cut(links, ks[i]), Without(ks, i), y.first, y.last)
  {
    hide Cut, Listed;
    var c, rest := Cut(links, ks[i]), Without(ks, i);
    forall j | 0 <= j < |rest|
      ensures rest[j] in c && c[rest[j]].owned && c[rest[j]].next == After(rest, j) && c[rest[j]].prev == Before(rest, j)
    {
      CutLink(links, ks, x.first, x.last, i, j);
    }
    CutEnds(links, ks, x, i);
    Distinct(links, ks, x.first, x.last);
    WithoutDistinct(ks, i);
    ListedWhen(c, rest);
  }

  lemma ListedWhen(links: map<nat, Link>, ks: seq<nat>)
    requires forall j :: 0 <= j < |ks| ==> ks[j] in links && links[ks[j]].owned && links[ks[j]].next == After(ks, j) && links[ks[j]].prev == Before(ks, j)
    requires forall a, b :: 0 <= a < b < |ks| ==> ks[a] != ks[b]
    ensures Listed(links, ks, if ks == [] then 0 else ks[0], if ks == [] then 0 else ks[|ks| - 1])
  {
  }

  lemma CutEnds(links: map<nat, Link>, ks: seq<nat>, x: Var, i: nat)
    requires Listed(links, ks, x.first, x.last) && i < |ks|
    ensures var y, rest := Shorter(x, links[ks[i]], ks[i]), Without(ks, i);
      y.first == (if rest == [] then 0 else rest[0]) && y.last == (if rest == [] then 0 else rest[|rest| - 1])
  {
    hide Listed;
    Ends(links, ks, x.first, x.last, i);
    NeighbourIs(links, ks, x.first, x.last, i);
    var rest := Without(ks, i);
    if rest != [] {
      WithoutAt(ks, i, 0);
      WithoutAt(ks, i, |rest| - 1);
    }
    hide Without;
  }

  lemma Ends(links: map<nat, Link>, ks: seq<nat>, first: nat, last: nat, i: nat)
    requires Listed(links, ks, first, last) && i < |ks|
    ensures first == ks[0] && last == ks[|ks| - 1] && (first == ks[i] <==> i == 0) && (last == ks[i] <==> i == |ks| - 1)
  {
  }

  lemma WithoutAt(ks: seq<nat>, i: nat, j: nat)
    requires i < |ks| && j < |ks| - 1
    ensures Without(ks, i)[j] == ks[Was(i, j)]
  {
  }

  lemma WithoutDistinct(ks: seq<nat>, i: nat)
    requires i < |ks| && forall a, b :: 0 <= a < b < |ks| ==> ks[a] != ks[b]
    ensures var rest := Without(ks, i); forall a, b :: 0 <= a < b < |rest| ==> rest[a] != rest[b]
  {
    var rest := Without(ks, i);
    assert |rest| == |ks| - 1;
    hide Without;
    forall a: nat, b: nat | a < b < |rest| ensures rest[a] != rest[b] {
      WithoutAt(ks, i, a);
      WithoutAt(ks, i, b);
    }
  }

  lemma UnlinkedInv(s: State, v: nat, i: nat)
    requires Settled(s) && v in s.vars && v in s.kids && i < |s.kids[v]|
    ensures HasNeighbours(s.links, s.kids[v][i])
    ensures var t, l := Unlinked(s, v, i), s.kids[v][i];
      Inv(t, 0) && t.loose == 0 && l in t.links && l in t.own && t.own[l] == 0 && Marked(t, {l})
  {
    hide Listed, Owners, Lists, Counts, Targets, Inv, Unlinked;
    LastIn(s, v);
    InvFacts(s, 0);
    InvParts(s, 0);
    Neighbours(s.links, s.kids[v], s.vars[v].first, s.vars[v].last, i);
    NeighboursOwned(s, v, i);
    UnlinkedLists(s, v, i);
    UnlinkedOwners(s, v, i);
    UnlinkedRest(s, v, i);
    SamePoints(s, Unlinked(s, v, i), 0);
    InvWhole(Unlinked(s, v, i), 0);
  }

  lemma NeighboursOwned(s: State, v: nat, i: nat)
    requires Settled(s) && v in s.vars && v in s.kids && i < |s.kids[v]|
    ensures var l := s.kids[v][i];
      && l in s.links && l in s.own && s.own[l] == v
      && (s.links[l].next != 0 ==> s.links[l].next in s.own && s.own[s.links[l].next] == v)
      && (s.links[l].prev != 0 ==> s.links[l].prev in s.own && s.own[s.links[l].prev] == v)
  {
    hide Listed;
    LastIn(s, v);
    var ks := s.kids[v];
    NeighbourIs(s.links, ks, s.vars[v].first, s.vars[v].last, i);
    ListIn(s.links, ks, s.vars[v].first, s.vars[v].last);
    assert forall k :: k in ks ==> s.own[k] == v;
  }

  lemma UnlinkedLists(s: State, v: nat, i: nat)
    requires Owners(s) && Lists(s) && s.loose == 0 && v in s.vars && v in s.kids && i < |s.kids[v]| && 0 !in s.links && 0 !in s.vars
    requires HasNeighbours(s.links, s.kids[v][i])
    requires var k := s.links[s.kids[v][i]]; (k.next != 0 ==> k.next in s.own && s.own[k.next] == v) && (k.prev != 0 ==> k.prev in s.own && s.own[k.prev] == v)
    ensures Lists(Unlinked(s, v, i))
  {
    hide Listed;
    var t := Unlinked(s, v, i);
    CutListed(s.links, s.kids[v], s.vars[v], i);
    forall u | u in t.vars ensures Listed(t.links, t.kids[u], t.vars[u].first, t.vars[u].last) {
      if u != v {
        ListIn(s.links, s.kids[u], s.vars[u].first, s.vars[u].last);
        forall k | k in s.kids[u] ensures k in s.links && t.links[k] == s.links[k] { assert s.own[k] == u; }
        ListedSame(s.links, t.links, s.kids[u], s.vars[u].first, s.vars[u].last);
      }
    }
  }

  lemma InWithout(ks: seq<nat>, i: nat, k: nat)
    requires i < |ks| && forall a, b :: 0 <= a < b < |ks| ==> ks[a] != ks[b]
    ensures k in Without(ks, i) <==> k in ks && k != ks[i]
  {
    assert ks == ks[..i] + [ks[i]] + ks[i + 1..];
    if k in Without(ks, i) {
      var j :| 0 <= j < |Without(ks, i)| && Without(ks, i)[j] == k;
      assert ks[Was(i, j)] == k;
    }
  }

  lemma Distinct(links: map<nat, Link>, ks: seq<nat>, first: nat, last: nat)
    requires Listed(links, ks, first, last)
    ensures forall a, b :: 0 <= a < b < |ks| ==> ks[a] != ks[b]
  {
  }

  lemma UnlinkedOwners(s: State, v: nat, i: nat)
    requires Owners(s) && Lists(s) && s.loose == 0 && v in s.vars && v in s.kids && i < |s.kids[v]| && 0 !in s.vars
    requires HasNeighbours(s.links, s.kids[v][i])
    ensures Owners(Unlinked(s, v, i))
  {
    hide Listed, Shorter, Without;
    var t, l := Unlinked(s, v, i), s.kids[v][i];
    assert t.links.Keys == s.links.Keys && t.vars.Keys == s.vars.Keys;
    Distinct(s.links, s.kids[v], s.vars[v].first, s.vars[v].last);
    forall u, k | u in t.vars && k in t.links ensures t.own[k] == u <==> k in t.kids[u] {
      assert s.own[k] == u <==> k in s.kids[u];
      InWithout(s.kids[v], i, k);
      assert l in s.kids[v] && s.own[l] == v;
    }
  }

  lemma UnlinkedRest(s: State, v: nat, i: nat)
    requires v in s.vars && v in s.kids && i < |s.kids[v]| && s.own.Keys == s.links.Keys && Marked(s, {}) && HasNeighbours(s.links, s.kids[v][i])
    ensures var t := Unlinked(s, v, i);
      && t.held == s.held && t.loose == s.loose && t.links.Keys == s.links.Keys && t.vars.Keys == s.vars.Keys
      && (forall k :: k in s.links ==> t.links[k].target == s.links[k].target)
      && (forall u :: u in s.vars ==> t.vars[u].refs == s.vars[u].refs)
      && Marked(t, {s.kids[v][i]}) && s.kids[v][i] in t.own && t.own[s.kids[v][i]] == 0
  {
    hide Without;
  }

  /** l points to v instead; its old target is owed a count. */
  ghost function Retargeted(s: State, l: nat, v: nat): State
    requires l in s.links && v in s.vars
  {
    s.(links := s.links[l := s.links[l].(target := v)], vars := s.vars[v := s.vars[v].(refs := s.vars[v].refs + 1)])
  }

  lemma RetargetedInv(s: State, l: nat, v: nat)
    requires Settled(s) && l in s.links && v in s.vars
    ensures var t := Retargeted(s, l, v);
      Inv(t, s.links[l].target) && t.loose == 0 && s.links[l].target in t.vars && Marked(t, {})
  {
    hide Owners, Lists, Counts, Targets, Inv;
    InvFacts(s, 0);
    InvParts(s, 0);
    RetargetedCounts(s, l, v);
    RetargetedLists(s, l, v);
    InvWhole(Retargeted(s, l, v), s.links[l].target);
    TargetIn(s, l);
  }

  lemma TargetIn(s: State, l: nat)
    requires Targets(s) && l in s.links
    ensures s.links[l].target in s.vars
  {
  }

  lemma RetargetedCounts(s: State, l: nat, v: nat)
    requires Counts(s, 0) && Targets(s) && l in s.links && v in s.vars && 0 !in s.vars
    ensures Counts(Retargeted(s, l, v), s.links[l].target) && Targets(Retargeted(s, l, v))
  {
    hide Into;
    var t := Retargeted(s, l, v);
    assert t.links - {l} == s.links - {l};
    forall u | u in t.vars ensures t.vars[u].refs == |Into(t.links, u)| + t.held[u] + (if u == s.links[l].target then 1 else 0) {
      DropCounts(s.links, l, u);
      DropCounts(t.links, l, u);
    }
  }

  lemma RetargetedLists(s: State, l: nat, v: nat)
    requires Owners(s) && Lists(s) && l in s.links && v in s.vars
    ensures Owners(Retargeted(s, l, v)) && Lists(Retargeted(s, l, v))
  {
    hide Listed;
    var t := Retargeted(s, l, v);
    forall u | u in t.vars && u != t.loose ensures Listed(t.links, t.kids[u], t.vars[u].first, t.vars[u].last) {
      ListedAlike(s.links, t.links, s.kids[u], s.vars[u].first, s.vars[u].last);
    }
  }

  /** A list does not depend on where its links point. */
  lemma ListedAlike(links: map<nat, Link>, links': map<nat, Link>, ks: seq<nat>, first: nat, last: nat)
    requires Listed(links, ks, first, last) && links'.Keys == links.Keys
    requires forall k :: k in links ==> links'[k].next == links[k].next && links'[k].prev == links[k].prev && links'[k].owned == links[k].owned
    ensures Listed(links', ks, first, last)
  {
  }

  /** ref: one more reference from outside of links. */
  ghost function Raised(s: State, v: nat): State
    requires v in s.vars && v in s.held
  {
    s.(vars := s.vars[v := s.vars[v].(refs := s.vars[v].refs + 1)], held := s.held[v := s.held[v] + 1])
  }

  lemma RaisedSettled(s: State, v: nat)
    requires Settled(s) && v in s.vars && v in s.held
    ensures Settled(Raised(s, v))
  {
    hide Owners, Lists, Counts, Targets, Inv;
    InvFacts(s, 0);
    InvParts(s, 0);
    SameShape(s, Raised(s, v));
    RaisedCounts(s, v);
    InvWhole(Raised(s, v), 0);
  }

  lemma RaisedCounts(s: State, v: nat)
    requires Counts(s, 0) && v in s.vars && v in s.held
    ensures Counts(Raised(s, v), 0)
  {
    hide Into;
  }

  /** A reference from outside is given up; v is owed a count. */
  ghost function Lowered(s: State, v: nat): State
    requires v in s.held && s.held[v] > 0
  {
    s.(held := s.held[v := s.held[v] - 1])
  }

  lemma LoweredInv(s: State, v: nat)
    requires Settled(s) && v in s.vars && v in s.held && s.held[v] > 0
    ensures Inv(Lowered(s, v), v) && Lowered(s, v).loose == 0 && Marked(Lowered(s, v), {})
  {
    hide Owners, Lists, Counts, Targets, Inv;
    InvFacts(s, 0);
    InvParts(s, 0);
    SameShape(s, Lowered(s, v));
    LoweredCounts(s, v);
    InvWhole(Lowered(s, v), v);
  }

  lemma LoweredCounts(s: State, v: nat)
    requires Counts(s, 0) && v in s.vars && v in s.held && s.held[v] > 0 && 0 !in s.vars
    ensures Counts(Lowered(s, v), v)
  {
    hide Into;
  }

  /** What is kept alive includes v even when all of its list goes. */
  ghost predicate Survives(s: State, v: nat)
    requires v in s.kids
  {
    exists xs :: Backed(s, SetOf(s.kids[v]), xs) && v in xs
  }

  /** v's list is taken down: its links are in no list any more. */
  ghost function Loosened(s: State, v: nat): State {
    s.(kids := s.kids[v := []], own := Freed(s.own, v), loose := v)
  }

  lemma LoosenedInv(s: State, v: nat)
    requires Settled(s) && v in s.vars && v in s.kids
    ensures var t := Loosened(s, v);
      Inv(t, 0) && Chained(t, s.vars[v].first, s.kids[v]) && Marked(t, SetOf(s.kids[v])) && (Survives(s, v) ==> Safe(t, SetOf(s.kids[v])))
  {
    hide Owners, Lists, Counts, Targets, Inv, Safe, Survives, Chained, Marked, Loosened;
    InvFacts(s, 0);
    InvParts(s, 0);
    LoosenedOwners(s, v);
    LoosenedRest(s, v);
    LoosenedChain(s, v);
    if Survives(s, v) { LoosenedSafe(s, v); }
    SamePoints(s, Loosened(s, v), 0);
    InvWhole(Loosened(s, v), 0);
  }

  lemma LoosenedOwners(s: State, v: nat)
    requires Owners(s) && v in s.vars && 0 !in s.vars
    ensures Owners(Loosened(s, v))
  {
    var b := Loosened(s, v);
    forall u, l | u in b.vars && l in b.links ensures b.own[l] == u <==> l in b.kids[u] {
      assert s.own[l] == u <==> l in s.kids[u];
    }
  }

  lemma LoosenedRest(s: State, v: nat)
    requires Owners(s) && Lists(s) && v in s.vars && s.loose == 0 && Marked(s, {}) && 0 !in s.vars
    ensures var t := Loosened(s, v); t.vars == s.vars && t.links == s.links && t.held == s.held && t.loose == v && Lists(t) && Marked(t, SetOf(s.kids[v]))
  {
    hide Listed;
    var t := Loosened(s, v);
    forall l | l in t.links && l !in SetOf(s.kids[v]) ensures t.own[l] == s.own[l] { assert s.own[l] == v <==> l in s.kids[v]; }
  }

  lemma LoosenedChain(s: State, v: nat)
    requires Settled(s) && v in s.vars && v in s.kids
    ensures Chained(Loosened(s, v), s.vars[v].first, s.kids[v])
  {
    BuriedChain(s, v);
  }

  lemma LoosenedSafe(s: State, v: nat)
    requires Settled(s) && v in s.vars && v in s.kids && Survives(s, v)
    ensures Safe(Loosened(s, v), SetOf(s.kids[v]))
  {
    hide Inv, Backed, Kept;
    InvFacts(s, 0);
    OwnIs(s, v, 0);
    var xs :| Backed(s, SetOf(s.kids[v]), xs) && v in xs;
    assert Backed(Loosened(s, v), SetOf(s.kids[v]), xs) by { LoosenedBacked(s, v, Loosened(s, v), xs); }
  }

  /** m is s with the links of v's list in no list. */
  ghost predicate Detached(s: State, v: nat, m: State) {
    && m.links == s.links && m.own == Freed(s.own, v) && m.held == s.held && m.vars.Keys == s.vars.Keys
    && forall u :: u in s.vars ==> m.vars[u].refs == s.vars[u].refs
  }

  lemma LoosenedBacked(s: State, v: nat, m: State, xs: set<nat>)
    requires v in s.kids && s.own.Keys == s.links.Keys && Detached(s, v, m)
    requires forall l :: l in s.links ==> (s.own[l] == v <==> l in s.kids[v])
    ensures Backed(s, SetOf(s.kids[v]), xs) <==> Backed(m, SetOf(s.kids[v]), xs)
  {
    hide Detached, Kept;
    forall x | x in xs ensures Kept(s, SetOf(s.kids[v]), xs, x) <==> Kept(m, SetOf(s.kids[v]), xs, x) {
      LoosenedKept(s, v, m, xs, x);
    }
  }

  lemma LoosenedKept(s: State, v: nat, m: State, xs: set<nat>, x: nat)
    requires v in s.kids && s.own.Keys == s.links.Keys && Detached(s, v, m)
    requires forall l :: l in s.links ==> (s.own[l] == v <==> l in s.kids[v])
    ensures Kept(s, SetOf(s.kids[v]), xs, x) <==> Kept(m, SetOf(s.kids[v]), xs, x)
  {
    var g := SetOf(s.kids[v]);
    forall l ensures Support(s, g, xs, x, l) <==> Support(m, g, xs, x, l) { }
  }

  /** Whatever the deletion of v's list leaves, v is left if and only if it survives. */
  lemma LivesIff(s: State, v: nat, m: State, b: State)
    requires Settled(s) && v in s.vars && v in s.kids && Detached(s, v, m)
    requires Inv(m, 0) && Inv(b, 0) && Shrunk(m, b, SetOf(s.kids[v]))
    ensures v in b.vars <==> Survives(s, v)
  {
    hide Inv, Backed, Shrunk, Detached;
    InvFacts(s, 0);
    OwnIs(s, v, 0);
    LiveExactly(m, 0, b, SetOf(s.kids[v]));
    forall xs ensures Backed(s, SetOf(s.kids[v]), xs) <==> Backed(m, SetOf(s.kids[v]), xs) { LoosenedBacked(s, v, m, xs); }
  }

  lemma LoosenedDetached(s: State, v: nat)
    requires v in s.vars
    ensures Detached(s, v, Loosened(s, v)) && Detached(s, v, Closed(Loosened(s, v), v))
  {
  }

  /** The list is detached and v is without children, as far as v is concerned. */
  lemma DetachedInv(s: State, v: nat)
    requires Settled(s) && v in s.vars && v in s.kids
    ensures var t := Closed(Loosened(s, v), v); Inv(t, 0) && t.loose == 0 && Chained(t, s.vars[v].first, s.kids[v])
  {
    hide Owners, Lists, Counts, Targets, Inv, Marked;
    LoosenedInv(s, v);
    var t := Loosened(s, v);
    InvFacts(t, 0);
    InvParts(t, 0);
    ClosedLists(t, v);
    SamePoints(t, Closed(t, v), 0);
    InvWhole(Closed(t, v), 0);
  }

  /** v's list is empty. */
  ghost function Closed(s: State, v: nat): State
    requires v in s.vars
  {
    s.(vars := s.vars[v := s.vars[v].(first := 0, last := 0)], loose := 0)
  }

  lemma ClosedSettled(s: State, v: nat)
    requires Inv(s, 0) && s.loose == v && v in s.vars && Marked(s, {})
    ensures Settled(Closed(s, v))
  {
    hide Owners, Lists, Counts, Targets, Inv;
    InvFacts(s, 0);
    InvParts(s, 0);
    ClosedLists(s, v);
    SamePoints(s, Closed(s, v), 0);
    InvWhole(Closed(s, v), 0);
  }

  lemma ClosedLists(s: State, v: nat)
    requires Lists(s) && Owners(s) && s.loose == v && v in s.vars && 0 !in s.vars
    ensures Lists(Closed(s, v)) && Owners(Closed(s, v))
  {
    hide Listed;
    EmptyListed(s.links);
    assert Closed(s, v).vars.Keys == s.vars.Keys;
  }

  lemma MarkedKept(a: State, b: State, gone: set<nat>)
    requires Shrunk(a, b, gone) && Marked(a, gone) && a.own.Keys == a.links.Keys
    ensures Marked(b, {})
  {
    hide Keeps;
  }

  lemma MarkedLess(s: State, gone: set<nat>)
    requires Marked(s, {})
    ensures Marked(s, gone)
  {
  }

  /** Deleting gives a settled store again. */
  lemma SettledAfter(a: State, b: State, gone: set<nat>, owed: nat)
    requires Inv(a, owed) && Shrunk(a, b, gone) && Marked(a, gone) && a.loose == 0 && Inv(b, 0)
    ensures Settled(b)
  {
    hide Inv, Keeps;
    InvFacts(a, owed);
    MarkedKept(a, b, gone);
  }

  /** A variable with a reference from outside of links survives, */
  lemma HeldSurvives(s: State, v: nat)
    requires v in s.kids && v in s.vars && v in s.held && s.held[v] > 0
    ensures Survives(s, v)
  {
    assert Kept(s, SetOf(s.kids[v]), {v}, v);
    assert Backed(s, SetOf(s.kids[v]), {v});
  }

  /** and so does one that was never referenced, */
  lemma NewSurvives(s: State, v: nat)
    requires v in s.kids && v in s.vars && v in s.held && s.vars[v].refs == 0
    ensures Survives(s, v)
  {
    assert Kept(s, SetOf(s.kids[v]), {v}, v);
    assert Backed(s, SetOf(s.kids[v]), {v});
  }

  /** one with a free link, */
  lemma FreeLinkSurvives(s: State, v: nat, l: nat)
    requires Settled(s) && v in s.vars && v in s.kids && l in s.links && l in s.own && s.own[l] == 0 && s.links[l].target == v
    ensures Survives(s, v)
  {
    hide Inv;
    InvFacts(s, 0);
    OwnIs(s, v, 0);
    assert Support(s, SetOf(s.kids[v]), {v}, v, l);
    assert Kept(s, SetOf(s.kids[v]), {v}, v);
    assert Backed(s, SetOf(s.kids[v]), {v});
  }

  /** and one in the list of another variable that is kept alive without v's list. */
  lemma ListedSurvives(s: State, u: nat, v: nat, l: nat, xs: set<nat>)
    requires Settled(s) && v in s.vars && v in s.kids && u != v && u in xs && Backed(s, SetOf(s.kids[v]), xs)
    requires l in s.links && l in s.own && s.own[l] == u && s.links[l].target == v
    ensures Survives(s, v)
  {
    hide Inv, Kept;
    InvFacts(s, 0);
    OwnIs(s, v, 0);
    var g, ys := SetOf(s.kids[v]), xs + {v};
    forall x | x in ys ensures Kept(s, g, ys, x) { MoreKept(s, g, xs, ys, x, v, l); }
    assert Backed(s, g, ys);
  }

  lemma MoreKept(s: State, g: set<nat>, xs: set<nat>, ys: set<nat>, x: nat, v: nat, l: nat)
    requires xs <= ys && (x in xs ==> Kept(s, g, xs, x)) && (x in xs || x == v) && v in s.vars && v in s.held
    requires Support(s, g, xs, v, l)
    ensures Kept(s, g, ys, x)
  {
    assert Support(s, g, ys, v, l);
    if x in xs {
      if k :| Support(s, g, xs, x, k) { assert Support(s, g, ys, x, k); }
    }
  }

  /** A variable that only its own list points to does not. */
  lemma OwnListDies(s: State, v: nat)
    requires Settled(s) && v in s.vars && v in s.kids && v in s.held && s.held[v] == 0 && s.vars[v].refs > 0
    requires forall l :: l in s.links && s.links[l].target == v ==> l in s.kids[v]
    ensures !Survives(s, v)
  {
    hide Inv;
    var g := SetOf(s.kids[v]);
    forall xs ensures !(Backed(s, g, xs) && v in xs) {
      forall l ensures !Support(s, g, xs, v, l) { }
      assert !Kept(s, g, xs, v);
    }
  }

  lemma SafeIdle(s: State, g: set<nat>)
    requires s.loose == 0
    ensures Safe(s, g)
  {
  }

  lemma SafeLive(s: State, g: set<nat>)
    requires Safe(s, g) && s.loose != 0
    ensures s.loose in s.vars
  {
    var xs :| Backed(s, g, xs) && s.loose in xs;
    assert Kept(s, g, xs, s.loose);
  }

  lemma SettledFacts(s: State)
    requires Settled(s)
    ensures Inv(s, 0) && s.loose == 0 && Marked(s, {})
  {
  }

  lemma PointedFacts(s: State, l: nat, name: string, v: nat)
    requires v in s.vars
    ensures var t := Pointed(s, l, name, v);
      && t == s.(links := s.links[l := Link(name, v, 0, 0, false)], own := s.own[l := 0], vars := s.vars[v := s.vars[v].(refs := s.vars[v].refs + 1)])
      && l in t.links && t.links[l].next == 0 && t.links[l].prev == 0 && t.vars.Keys == s.vars.Keys
  {
  }

  lemma BornIs(s: State, v: nat)
    ensures Born(s, v) == s.(vars := s.vars[v := Var(0, 0, 0)], kids := s.kids[v := []], held := s.held[v := 0])
  {
  }

  lemma RaisedIs(s: State, v: nat)
    requires v in s.vars && v in s.held
    ensures Raised(s, v) == s.(vars := s.vars[v := s.vars[v].(refs := s.vars[v].refs + 1)], held := s.held[v := s.held[v] + 1])
  {
  }

  lemma LoweredIs(s: State, v: nat)
    requires v in s.held && s.held[v] > 0
    ensures Lowered(s, v) == s.(held := s.held[v := s.held[v] - 1])
  {
  }

  lemma RetargetedIs(s: State, l: nat, v: nat)
    requires l in s.links && v in s.vars
    ensures Retargeted(s, l, v) ==
            s.(links := s.links[l := s.links[l].(target := v)], vars := s.vars[v := s.vars[v].(refs := s.vars[v].refs + 1)])
  {
  }

  lemma LoosenedIs(s: State, v: nat)
    ensures Loosened(s, v) == s.(kids := s.kids[v := []], own := Freed(s.own, v), loose := v)
  {
  }

  lemma ClosedIs(s: State, v: nat)
    requires v in s.vars
    ensures Closed(s, v) == s.(vars := s.vars[v := s.vars[v].(first := 0, last := 0)], loose := 0)
  {
  }

  /** Walking a list from its first link. */
  lemma Walk(s: State, v: nat, i: nat)
    requires Settled(s) && v in s.vars
    ensures v in s.kids && s.vars[v].first == (if s.kids[v] == [] then 0 else s.kids[v][0])
    ensures i < |s.kids[v]| ==> s.kids[v][i] != 0 && s.kids[v][i] in s.links && s.links[s.kids[v][i]].next == After(s.kids[v], i)
  {
    LastIn(s, v);
    if i < |s.kids[v]| { assert s.kids[v][i] in s.links; }
  }

  /** One variable in its own list, and nothing else. */
  const LOOP := State(map[1 := Var(1, 1, 1)], map[1 := Link("self", 1, 0, 0, true)], map[1 := [1]], map[1 := 1], map[1 := 0], 0)

  /** removeAllChildren of that variable: the variable goes with its only link, in the middle of the loop. */
  lemma LoopDies()
    ensures Settled(LOOP) && !Survives(LOOP, 1)
    ensures Inv(Loosened(LOOP, 1), 0) && var b := State(map[], map[], map[], map[], map[], 1);
      Inv(b, 0) && Shrunk(Loosened(LOOP, 1), b, {1}) && 1 !in b.vars
  {
    LoopSettled();
    LoopAlone();
    hide Settled, Survives, Inv, Loosened, Shrunk;
    OwnListDies(LOOP, 1);
    LoosenedInv(LOOP, 1);
    EmptyInv(1);
    LoopShrinks();
  }

  lemma LoopAlone()
    ensures LOOP.loose == 0 && 1 in LOOP.vars && 1 in LOOP.kids && 1 in LOOP.held && LOOP.held[1] == 0 && LOOP.vars[1].refs > 0
    ensures forall l :: l in LOOP.links && LOOP.links[l].target == 1 ==> l in LOOP.kids[1]
  {
  }

  lemma LoopShrinks()
    ensures Shrunk(Loosened(LOOP, 1), State(map[], map[], map[], map[], map[], 1), {1})
  {
    hide Backed;
    var m, b := Loosened(LOOP, 1), State(map[], map[], map[], map[], map[], 1);
    forall g, xs | Backed(m, g + {1}, xs) ensures Backed(b, g, xs) {
      LoopUnbacked(m, g, xs);
      NoneBacked(b, g);
    }
  }

  lemma NoneBacked(s: State, g: set<nat>)
    ensures Backed(s, g, {})
  {
  }

  lemma EmptyInv(loose: nat)
    ensures Inv(State(map[], map[], map[], map[], map[], loose), 0)
  {
  }

  lemma LoopSettled()
    ensures Settled(LOOP)
  {
    assert Into(LOOP.links, 1) == {1};
    assert Listed(LOOP.links, [1], 1, 1);
  }

  lemma LoopUnbacked(m: State, g: set<nat>, xs: set<nat>)
    requires m == Loosened(LOOP, 1) && Backed(m, g + {1}, xs)
    ensures xs == {}
  {
    forall x ensures !Kept(m, g + {1}, xs, x) { }
  }
}
