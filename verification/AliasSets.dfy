/**
 Alias sets (alias.c): `get_alias_set` for types, `record_alias_subset`,
 `record_component_aliases` and `alias_sets_conflict_p`, with strict aliasing
 (section 6.5, paragraph 7, of ISO C99).
 */
module AliasSets {
  import opened AliasTypes

  class AliasAnalysis {
    const ts: seq<Node>
    /** `TYPE_ALIAS_SET`, where it is known. */
    var alias: map<nat, nat>
    /** `alias_sets` */
    var entries: map<nat, Entry>
    var last: nat
    /** The types whose components are being recorded. */
    ghost var busy: set<nat>

    constructor (ts: seq<Node>)
      requires Acyclic(ts)
      ensures this.ts == ts && busy == {} && Valid()
    {
      this.ts, alias, entries, last, busy := ts, map[], map[], 0, {};
    }

    ghost predicate Valid()
      reads this
    {
      Table(ts, alias, entries, last, busy)
    }

    /** `get_alias_set` of a type. The entries of busy types stay. */
    method GetAliasSet(t: nat) returns (s: nat)
      requires Valid() && t < |ts| && forall p :: p in busy ==> t < p
      modifies this
      ensures Valid() && busy == old(busy) && s == SetOf(ts, alias, t)
      ensures Grew(old(alias), alias, t + 1)
      ensures forall p :: p in busy ==> EntryOf(entries, alias[p]) == old(EntryOf(entries, alias[p]))
      decreases t, 2
    {
      hide Table, Exact, Parts;
      AcyclicAt(ts, alias, entries, last, busy, t);
      if t in alias {
        s := alias[t];
        return;
      }
      var n := ts[t];
      if n.hook.Zero? {
        return 0;
      }
      if n.hook.Same? {
        s := GetAliasSet(n.hook.other);
        return;
      }
      match n.kind {
        case Function =>
          s := 0;
          TableShared(ts, alias, entries, last, busy, t, s);
          alias := alias[t := s];
        case Vector(u) =>
          s := GetAliasSet(u);
          TableShared(ts, alias, entries, last, busy, t, s);
          alias := alias[t := s];
        case _ =>
          s := OwnAliasSet(t);
      }
    }

    /** A new alias set for type `t`, and the entry that its components make. */
    method OwnAliasSet(t: nat) returns (s: nat)
      requires Valid() && t < |ts| && (forall p :: p in busy ==> t < p)
      requires ts[t].hook.NoHook? && (ts[t].kind.Scalar? || ts[t].kind.Aggregate?) && t !in alias
      modifies this
      ensures Valid() && busy == old(busy) && t in alias && s == alias[t]
      ensures Grew(old(alias), alias, t + 1)
      ensures forall p :: p in busy ==> EntryOf(entries, alias[p]) == old(EntryOf(entries, alias[p]))
      decreases t, 1
    {
      hide Table, Exact, Parts;
      AcyclicAt(ts, alias, entries, last, busy, t);
      TableNew(ts, alias, entries, last, busy, t);
      last, alias, busy := last + 1, alias[t := last + 1], busy + {t};
      s := last;
      if ts[t].kind.Aggregate? {
        RecordComponents(t, s);
      } else {
        ScalarExact(ts, alias, t);
      }
      TableDone(ts, alias, entries, last, busy, t);
      busy := busy - {t};
      assert busy == old(busy);
    }

    /** `record_alias_subset` */
    method RecordSubset(superset: nat, subset: nat)
      requires superset != 0
      modifies `entries
      ensures entries == if superset == subset then old(entries)
                         else old(entries)[superset := Extended(EntryOf(old(entries), superset), subset,
                                                                EntryOf(old(entries), subset))]
    {
      if superset == subset {
        return;
      }
      var e := EntryOf(entries, superset);
      if subset == 0 {
        e := e.(zero := true);
      } else {
        var f := EntryOf(entries, subset);
        if f.zero {
          e := e.(zero := true);
        }
        e := e.(children := e.children + f.children);
        e := e.(children := e.children + {subset});
      }
      entries := entries[superset := e];
    }

    /** `record_component_aliases` */
    method RecordComponents(t: nat, superset: nat)
      requires Valid() && t < |ts| && t in busy && (forall p :: p in busy ==> t <= p)
      requires ts[t].hook.NoHook? && ts[t].kind.Aggregate? && t in alias && superset == alias[t]
               && EntryOf(entries, superset) == Entry({}, false)
      modifies this
      ensures Valid() && busy == old(busy) && Grew(old(alias), alias, t)
      ensures t in alias && alias[t] == superset && Acyclic(ts)
              && Exact(ts, alias, EntryOf(entries, superset), Parts(ts, t))
      ensures forall p :: p in busy && p != t ==> EntryOf(entries, alias[p]) == old(EntryOf(entries, alias[p]))
      decreases t, 0
    {
      hide Table, Exact, Parts, PartsOf;
      AcyclicAt(ts, alias, entries, last, busy, t);
      var ps := ts[t].kind.parts;
      NoParts(ts, alias, t);
      for i := 0 to |ps|
        invariant Valid() && busy == old(busy) && Grew(old(alias), alias, t) && t in alias && alias[t] == superset
        invariant Exact(ts, alias, EntryOf(entries, superset), PartsOf(ts, t, ps[..i]))
        invariant forall p :: p in busy && p != t ==> EntryOf(entries, alias[p]) == old(EntryOf(entries, alias[p]))
      {
        AcyclicAt(ts, alias, entries, last, busy, t);
        ghost var alias0 := alias;
        var sub := GetAliasSet(ps[i]);
        ExactKept(ts, alias0, alias, EntryOf(entries, superset), PartsOf(ts, t, ps[..i]));
        AddPart(ts, alias, entries, last, busy, t, i);
        RecordSubset(superset, sub);
      }
      AllParts(ts, t);
    }

    /** `alias_sets_conflict_p` */
    method SetsConflict(set1: nat, set2: nat) returns (r: bool)
      ensures r <==> Conflict(entries, set1, set2)
    {
      if set1 == 0 || set2 == 0 || set1 == set2 {
        return true;
      }
      if set1 in entries && (entries[set1].zero || set2 in entries[set1].children) {
        return true;
      }
      if set2 in entries && (entries[set2].zero || set1 in entries[set2].children) {
        return true;
      }
      r := false;
    }

    /** The alias sets of two types in conflict: exactly if objects of the types
        may share storage, whatever was asked before. */
    method TypesConflict(t: nat, u: nat) returns (r: bool)
      requires Valid() && busy == {} && t < |ts| && u < |ts|
      modifies this
      ensures Valid() && busy == {} && Acyclic(ts) && (r <==> MayAlias(ts, t, u))
    {
      hide Table, Parts, MayAlias, Conflict, Acyclic;
      AcyclicAt(ts, alias, entries, last, busy, t);
      var s1 := GetAliasSet(t);
      ghost var alias1 := alias;
      var s2 := GetAliasSet(u);
      SetKept(ts, alias1, alias, t);
      ConflictExact(ts, alias, entries, last, t, u);
      r := SetsConflict(s1, s2);
    }
  }

  /** One alias set is zero, or an ancestor of the other or of zero. */
  predicate Conflict(entries: map<nat, Entry>, s: nat, u: nat) {
    || s == 0 || u == 0 || s == u
    || EntryOf(entries, s).zero || u in EntryOf(entries, s).children
    || EntryOf(entries, u).zero || s in EntryOf(entries, u).children
  }

  /** Nothing recorded is changed, and only types below `n` are added. */
  ghost predicate Grew(alias: map<nat, nat>, alias': map<nat, nat>, n: nat) {
    && (forall x :: x in alias ==> x in alias' && alias'[x] == alias[x])
    && (forall x :: x in alias' ==> x in alias || x < n)
  }

  lemma ScalarExact(ts: seq<Node>, alias: map<nat, nat>, t: nat)
    requires Acyclic(ts) && t < |ts| && ts[t].hook.NoHook? && ts[t].kind.Scalar?
    ensures Exact(ts, alias, Entry({}, false), Parts(ts, t))
  {
  }

  lemma NoParts(ts: seq<Node>, alias: map<nat, nat>, t: nat)
    requires Acyclic(ts) && t < |ts|
    ensures PartsOf(ts, t, []) == {} && Exact(ts, alias, Entry({}, false), {})
  {
  }

  lemma AllParts(ts: seq<Node>, t: nat)
    requires Acyclic(ts) && t < |ts| && ts[t].hook.NoHook? && ts[t].kind.Aggregate?
    ensures var ps := ts[t].kind.parts; Parts(ts, t) == PartsOf(ts, t, ps[..|ps|])
  {
    var ps := ts[t].kind.parts;
    assert ps[..|ps|] == ps;
  }

  /** Recording component `i` of the busy type `t`. */
  lemma AddPart(ts: seq<Node>, alias: map<nat, nat>, entries: map<nat, Entry>, last: nat, busy: set<nat>, t: nat,
                i: nat)
    requires Table(ts, alias, entries, last, busy) && t < |ts| && t in busy && t in alias
             && (forall p :: p in busy ==> t <= p)
    requires ts[t].hook.NoHook? && ts[t].kind.Aggregate? && i < |ts[t].kind.parts|
    requires Exact(ts, alias, EntryOf(entries, alias[t]), PartsOf(ts, t, ts[t].kind.parts[..i]))
    requires SetOf(ts, alias, ts[t].kind.parts[i]) >= 0
    ensures var ps, sub := ts[t].kind.parts, SetOf(ts, alias, ts[t].kind.parts[i]);
            var e := Extended(EntryOf(entries, alias[t]), sub, EntryOf(entries, sub));
            && alias[t] != 0 && sub != alias[t] && Exact(ts, alias, e, PartsOf(ts, t, ps[..i + 1]))
            && Table(ts, alias, entries[alias[t] := e], last, busy)
            && forall p :: p in busy && p != t ==>
                 p in alias && EntryOf(entries[alias[t] := e], alias[p]) == EntryOf(entries, alias[p])
  {
    hide Exact, Parts;
    var ps, c := ts[t].kind.parts, ts[t].kind.parts[i];
    var sub := SetOf(ts, alias, c);
    var e := Extended(EntryOf(entries, alias[t]), sub, EntryOf(entries, sub));
    SetIsBases(ts, alias, entries, last, busy, c);
    assert Placed(ts, alias, last, t);
    if Base(ts, c) != -1 {
      assert Placed(ts, alias, last, Base(ts, c));
    }
    TableExact(ts, alias, entries, last, busy, c);
    PartsBefore(ts, c);
    assert ps[..i + 1][..i] == ps[..i];
    ExactMore(ts, alias, EntryOf(entries, alias[t]), PartsOf(ts, t, ps[..i]), c, EntryOf(entries, sub));
    TableEntry(ts, alias, entries, last, busy, t, e);
  }

  lemma AcyclicAt(ts: seq<Node>, alias: map<nat, nat>, entries: map<nat, Entry>, last: nat, busy: set<nat>, t: nat)
    requires Table(ts, alias, entries, last, busy) && t < |ts|
    ensures Acyclic(ts) && (t in alias ==> ts[t].hook.NoHook?) && forall p :: p in busy ==> p in alias
  {
    if t in alias {
      assert Placed(ts, alias, last, t);
    }
  }

  // ----- what the answers mean -----

  /** `t` may alias anything. */
  ghost predicate Universal(ts: seq<Node>, t: nat)
    requires Acyclic(ts) && t < |ts|
  {
    Base(ts, t) == -1
  }

  /** `t` has a component, at any depth, that may alias anything or shares its
      alias set with `u`. */
  ghost predicate Holds(ts: seq<Node>, t: nat, u: nat)
    requires Acyclic(ts) && t < |ts| && u < |ts|
  {
    exists d :: d in Parts(ts, t) && d < |ts| && (Universal(ts, d) || Base(ts, d) == Base(ts, u))
  }

  /** Objects of the types may share storage: one may alias anything, the types
      share an alias set, or one holds the other or something universal. */
  ghost predicate MayAlias(ts: seq<Node>, t: nat, u: nat)
    requires Acyclic(ts) && t < |ts| && u < |ts|
  {
    Universal(ts, t) || Universal(ts, u) || Base(ts, t) == Base(ts, u) || Holds(ts, t, u) || Holds(ts, u, t)
  }

  lemma ConflictSymmetric(entries: map<nat, Entry>, s: nat, u: nat)
    ensures Conflict(entries, s, u) <==> Conflict(entries, u, s)
  {
  }

  /** One-level lookup answers the question about components at any depth. */
  lemma ConflictExact(ts: seq<Node>, alias: map<nat, nat>, entries: map<nat, Entry>, last: nat, t: nat, u: nat)
    requires Table(ts, alias, entries, last, {}) && t < |ts| && u < |ts| && SetOf(ts, alias, t) >= 0
             && SetOf(ts, alias, u) >= 0
    ensures Conflict(entries, SetOf(ts, alias, t), SetOf(ts, alias, u)) <==> MayAlias(ts, t, u)
  {
    hide Table, Exact, Parts, Base, Holds, Acyclic;
    AcyclicAt(ts, alias, entries, last, {}, t);
    SetIsBases(ts, alias, entries, last, {}, t);
    SetIsBases(ts, alias, entries, last, {}, u);
    SameSets(ts, alias, entries, last, t, u);
    SameSets(ts, alias, entries, last, u, t);
    if !Universal(ts, t) && !Universal(ts, u) {
      LookupExact(ts, alias, entries, last, t, u);
      LookupExact(ts, alias, entries, last, u, t);
    }
  }

  /** Types have the same set exactly if they have the same base type. */
  lemma SameSets(ts: seq<Node>, alias: map<nat, nat>, entries: map<nat, Entry>, last: nat, t: nat, u: nat)
    requires Table(ts, alias, entries, last, {}) && t < |ts| && u < |ts| && SetOf(ts, alias, t) >= 0
             && SetOf(ts, alias, u) >= 0
    ensures SetOf(ts, alias, t) == SetOf(ts, alias, u) <==> Base(ts, t) == Base(ts, u)
    ensures SetOf(ts, alias, t) == 0 <==> Universal(ts, t)
  {
    hide Exact, Parts, SetOf;
    SetIsBases(ts, alias, entries, last, {}, t);
    SetIsBases(ts, alias, entries, last, {}, u);
    if Base(ts, t) != -1 && Base(ts, u) != -1 {
      assert Placed(ts, alias, last, Base(ts, t));
      assert Placed(ts, alias, last, Base(ts, u));
    }
  }

  lemma LookupExact(ts: seq<Node>, alias: map<nat, nat>, entries: map<nat, Entry>, last: nat, t: nat, u: nat)
    requires Table(ts, alias, entries, last, {}) && t < |ts| && u < |ts| && SetOf(ts, alias, t) >= 0
             && SetOf(ts, alias, u) >= 0
    requires !Universal(ts, u)
    ensures var e := EntryOf(entries, SetOf(ts, alias, t)); e.zero || SetOf(ts, alias, u) in e.children <==>
              Holds(ts, t, u)
  {
    hide Table, Parts, Base, SetOf, Universal;
    AcyclicAt(ts, alias, entries, last, {}, t);
    TableExact(ts, alias, entries, last, {}, t);
    SameSets(ts, alias, entries, last, u, u);
    forall d | d in Parts(ts, t)
      ensures d < |ts| && (SetOf(ts, alias, d) == 0 <==> Universal(ts, d))
              && (SetOf(ts, alias, d) == SetOf(ts, alias, u) <==> Base(ts, d) == Base(ts, u))
    {
      SameSets(ts, alias, entries, last, d, u);
    }
    var e, s := EntryOf(entries, SetOf(ts, alias, t)), SetOf(ts, alias, u);
    assert s in e.children <==> Present(ts, alias, Parts(ts, t), s);
    if Holds(ts, t, u) {
      var d :| d in Parts(ts, t) && d < |ts| && (Universal(ts, d) || Base(ts, d) == Base(ts, u));
      assert SetOf(ts, alias, d) == 0 || SetOf(ts, alias, d) == s;
    }
    if Present(ts, alias, Parts(ts, t), 0) {
      var d :| d in Parts(ts, t) && d < |ts| && SetOf(ts, alias, d) == 0;
      assert Universal(ts, d);
    }
    if Present(ts, alias, Parts(ts, t), s) {
      var d :| d in Parts(ts, t) && d < |ts| && SetOf(ts, alias, d) == s;
      assert Base(ts, d) == Base(ts, u);
    }
  }
}
