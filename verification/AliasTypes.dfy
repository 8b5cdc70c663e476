/**
 Types as alias analysis sees them (alias.c, `get_alias_set`): which types make
 up a type, and what a table of alias sets must say about them.
 */
module AliasTypes {

  /** `parts` are the addressable components: fields and base classes, or the element. */
  datatype Kind = Scalar | Function | Vector(elem: nat) | Aggregate(parts: seq<nat>)

  /** What the language says about a type: nothing, that it may alias anything,
      or that it shares the alias set of another type. */
  datatype Hook = NoHook | Zero | Same(other: nat)

  datatype Node = Node(kind: Kind, hook: Hook)

  /** Types are numbered after the types they are made of. */
  ghost predicate Acyclic(ts: seq<Node>) {
    forall t {:trigger ts[t]} :: 0 <= t < |ts| ==>
      && (ts[t].hook.Same? ==> ts[t].hook.other < t)
      && (ts[t].kind.Vector? ==> ts[t].kind.elem < t)
      && (ts[t].kind.Aggregate? ==> Before(ts[t].kind.parts, t))
  }

  ghost predicate Before(ps: seq<nat>, t: nat) {
    forall i :: 0 <= i < |ps| ==> ps[i] < t
  }

  /** The type whose own alias set `t` has, or -1 if that is zero. */
  ghost function Base(ts: seq<Node>, t: nat): (r: int)
    requires Acyclic(ts) && t < |ts|
    ensures -1 <= r <= t
  {
    var n := ts[t];
    if n.hook.Zero? then -1
    else if n.hook.Same? then Base(ts, n.hook.other)
    else if n.kind.Function? then -1
    else if n.kind.Vector? then Base(ts, n.kind.elem)
    else t
  }

  /** All addressable components of `t`, and theirs. */
  ghost function Parts(ts: seq<Node>, t: nat): set<nat>
    requires Acyclic(ts) && t < |ts|
    decreases t, 0
  {
    var n := ts[t];
    if n.hook.Zero? then {}
    else if n.hook.Same? then Parts(ts, n.hook.other)
    else match n.kind
      case Scalar => {}
      case Function => {}
      case Vector(u) => Parts(ts, u)
      case Aggregate(ps) => PartsOf(ts, t, ps)
  }

  ghost function PartsOf(ts: seq<Node>, t: nat, ps: seq<nat>): set<nat>
    requires Acyclic(ts) && t < |ts| && Before(ps, t)
    decreases t, 0, |ps|
  {
    if ps == [] then {}
    else
      var n := |ps| - 1;
      PartsOf(ts, t, ps[..n]) + {ps[n]} + Parts(ts, ps[n])
  }

  lemma {:induction false} PartsBefore(ts: seq<Node>, t: nat)
    requires Acyclic(ts) && t < |ts|
    ensures forall d :: d in Parts(ts, t) ==> d < t
    ensures Base(ts, t) == -1 ==> Parts(ts, t) == {}
    decreases t, 1
  {
    var n := ts[t];
    if n.hook.Same? {
      PartsBefore(ts, n.hook.other);
    } else if n.hook.NoHook? && n.kind.Vector? {
      PartsBefore(ts, n.kind.elem);
    } else if n.hook.NoHook? && n.kind.Aggregate? {
      PartsOfBefore(ts, t, n.kind.parts);
    }
  }

  lemma {:induction false} PartsOfBefore(ts: seq<Node>, t: nat, ps: seq<nat>)
    requires Acyclic(ts) && t < |ts| && Before(ps, t)
    ensures forall d :: d in PartsOf(ts, t, ps) ==> d < t
    decreases t, 0, |ps|
  {
    if ps != [] {
      PartsOfBefore(ts, t, ps[..|ps| - 1]);
      PartsBefore(ts, ps[|ps| - 1]);
    }
  }

  // ----- tables of alias sets -----

  /** `struct alias_set_entry` */
  datatype Entry = Entry(children: set<nat>, zero: bool)

  function EntryOf(entries: map<nat, Entry>, s: nat): Entry {
    if s in entries then entries[s] else Entry({}, false)
  }

  /** The alias set of `t` as far as it is known, else -1. */
  ghost function SetOf(ts: seq<Node>, alias: map<nat, nat>, t: nat): (r: int)
    requires Acyclic(ts) && t < |ts|
    ensures r >= -1
  {
    if ts[t].hook.Zero? then 0
    else if ts[t].hook.Same? then SetOf(ts, alias, ts[t].hook.other)
    else if t in alias then alias[t] else -1
  }

  /** Some type in `ps` has alias set `x`. */
  ghost predicate Present(ts: seq<Node>, alias: map<nat, nat>, ps: set<nat>, x: int)
    requires Acyclic(ts)
  {
    exists d :: d in ps && d < |ts| && SetOf(ts, alias, d) == x
  }

  /** The entry lists exactly the alias sets of the types `ps`. */
  ghost predicate Exact(ts: seq<Node>, alias: map<nat, nat>, e: Entry, ps: set<nat>)
    requires Acyclic(ts)
  {
    && (forall d :: d in ps ==> d < |ts| && SetOf(ts, alias, d) >= 0)
    && (forall x {:trigger x in e.children} :: x in e.children <==> x > 0 && Present(ts, alias, ps, x))
    && (e.zero <==> Present(ts, alias, ps, 0))
  }

  /** What is known stays, when more types are recorded. */
  lemma {:induction false} SetKept(ts: seq<Node>, alias: map<nat, nat>, alias': map<nat, nat>, t: nat)
    requires Acyclic(ts) && t < |ts| && (forall x :: x in alias ==> x in alias' && alias'[x] == alias[x])
    ensures SetOf(ts, alias, t) >= 0 ==> SetOf(ts, alias', t) == SetOf(ts, alias, t)
  {
    if ts[t].hook.Same? {
      SetKept(ts, alias, alias', ts[t].hook.other);
    }
  }

  lemma ExactKept(ts: seq<Node>, alias: map<nat, nat>, alias': map<nat, nat>, e: Entry, ps: set<nat>)
    requires Acyclic(ts) && Exact(ts, alias, e, ps) && (forall x :: x in alias ==> x in alias' && alias'[x] == alias[x])
    ensures Exact(ts, alias', e, ps)
  {
    forall d | d in ps
      ensures d < |ts| && SetOf(ts, alias', d) == SetOf(ts, alias, d) >= 0
    {
      SetKept(ts, alias, alias', d);
    }
    forall x
      ensures Present(ts, alias', ps, x) <==> Present(ts, alias, ps, x)
    {
      if Present(ts, alias, ps, x) {
        var d :| d in ps && d < |ts| && SetOf(ts, alias, d) == x;
        assert SetOf(ts, alias', d) == x;
      }
      if Present(ts, alias', ps, x) {
        var d :| d in ps && d < |ts| && SetOf(ts, alias', d) == x;
        assert SetOf(ts, alias, d) == x;
      }
    }
  }

  /** `record_alias_subset`: what becomes of the entry of the superset. */
  function Extended(e: Entry, sub: nat, f: Entry): Entry {
    if sub == 0 then e.(zero := true)
    else Entry(e.children + f.children + {sub}, e.zero || f.zero)
  }

  /** Adding a component adds it and its components. */
  lemma ExactMore(ts: seq<Node>, alias: map<nat, nat>, e: Entry, ps: set<nat>, c: nat, f: Entry)
    requires Acyclic(ts) && Exact(ts, alias, e, ps) && c < |ts| && SetOf(ts, alias, c) >= 0
    requires Exact(ts, alias, f, Parts(ts, c)) && (SetOf(ts, alias, c) == 0 ==> Parts(ts, c) == {})
    ensures Exact(ts, alias, Extended(e, SetOf(ts, alias, c), f), ps + {c} + Parts(ts, c))
  {
    hide SetOf, Parts, Exact;
    var r := SetOf(ts, alias, c);
    forall x
      ensures Present(ts, alias, ps + {c} + Parts(ts, c), x) <==>
                Present(ts, alias, ps, x) || x == r || Present(ts, alias, Parts(ts, c), x)
    {
      PresentMore(ts, alias, ps, c, x);
    }
    ExactIs(ts, alias, e, ps);
    ExactIs(ts, alias, f, Parts(ts, c));
    ExactIs(ts, alias, Extended(e, r, f), ps + {c} + Parts(ts, c));
    if r == 0 {
      assert !Present(ts, alias, Parts(ts, c), 0) && forall x :: !Present(ts, alias, Parts(ts, c), x);
    }
  }

  lemma ExactIs(ts: seq<Node>, alias: map<nat, nat>, e: Entry, ps: set<nat>)
    requires Acyclic(ts)
    ensures Exact(ts, alias, e, ps) <==>
            && (forall d :: d in ps ==> d < |ts| && SetOf(ts, alias, d) >= 0)
            && (forall x {:trigger x in e.children} :: x in e.children <==> x > 0 && Present(ts, alias, ps, x))
            && (e.zero <==> Present(ts, alias, ps, 0))
  {
  }

  lemma PresentMore(ts: seq<Node>, alias: map<nat, nat>, ps: set<nat>, c: nat, x: int)
    requires Acyclic(ts) && c < |ts|
    ensures Present(ts, alias, ps + {c} + Parts(ts, c), x) <==>
              Present(ts, alias, ps, x) || x == SetOf(ts, alias, c) || Present(ts, alias, Parts(ts, c), x)
  {
    hide SetOf, Parts;
    var qs := ps + {c} + Parts(ts, c);
    if Present(ts, alias, ps, x) {
      var d :| d in ps && d < |ts| && SetOf(ts, alias, d) == x;
      assert d in qs;
    }
    if Present(ts, alias, Parts(ts, c), x) {
      var d :| d in Parts(ts, c) && d < |ts| && SetOf(ts, alias, d) == x;
      assert d in qs;
    }
    assert c in qs;
  }

  // ----- a whole table -----

  ghost predicate Own(ts: seq<Node>, t: nat)
    requires Acyclic(ts)
  {
    t < |ts| && Base(ts, t) == t
  }

  /** Types have the alias sets of their base types, different base types have
      different ones, and the entries of all but the `busy` types are exact. */
  ghost predicate Table(ts: seq<Node>, alias: map<nat, nat>, entries: map<nat, Entry>, last: nat, busy: set<nat>) {
    && Acyclic(ts)
    && (forall b {:trigger Placed(ts, alias, last, b)} :: b in alias ==> Placed(ts, alias, last, b))
    && (forall x, y {:trigger Placed(ts, alias, last, x), Placed(ts, alias, last, y)} ::
          Placed(ts, alias, last, x) && Placed(ts, alias, last, y) && alias[x] == alias[y] != 0 ==>
              Base(ts, x) == Base(ts, y))
    && (forall s :: s in entries ==> 0 < s <= last)
    && (forall p :: p in busy ==> p in alias && Own(ts, p))
    && (forall x :: x in alias && Own(ts, x) && x !in busy ==>
          Exact(ts, alias, EntryOf(entries, alias[x]), Parts(ts, x)))
  }

  ghost predicate Placed(ts: seq<Node>, alias: map<nat, nat>, last: nat, b: nat)
    requires Acyclic(ts)
  {
    && b < |ts| && b in alias && ts[b].hook.NoHook?
    && var x := Base(ts, b);
    if x == -1 then alias[b] == 0 else x in alias && alias[b] == alias[x] && 0 < alias[b] <= last
  }

  lemma {:induction false} SetIsBases(ts: seq<Node>, alias: map<nat, nat>, entries: map<nat, Entry>, last: nat,
                                      busy: set<nat>, t: nat)
    requires Table(ts, alias, entries, last, busy) && t < |ts| && SetOf(ts, alias, t) >= 0
    ensures if Base(ts, t) == -1 then SetOf(ts, alias, t) == 0
            else Base(ts, t) in alias && Own(ts, Base(ts, t)) && SetOf(ts, alias, t) == alias[Base(ts, t)] > 0
  {
    if ts[t].hook.Same? {
      SetIsBases(ts, alias, entries, last, busy, ts[t].hook.other);
    } else if ts[t].hook.NoHook? {
      BaseOwn(ts, t);
      assert Placed(ts, alias, last, t);
    }
  }

  lemma {:induction false} BaseOwn(ts: seq<Node>, t: nat)
    requires Acyclic(ts) && t < |ts|
    ensures Base(ts, t) != -1 ==>
              Own(ts, Base(ts, t)) && Parts(ts, t) == Parts(ts, Base(ts, t)) && ts[Base(ts, t)].hook.NoHook?
  {
    if ts[t].hook.Same? {
      BaseOwn(ts, ts[t].hook.other);
    } else if ts[t].hook.NoHook? && ts[t].kind.Vector? {
      BaseOwn(ts, ts[t].kind.elem);
    }
  }

  /** A type whose set is known has an exact entry. */
  lemma TableExact(ts: seq<Node>, alias: map<nat, nat>, entries: map<nat, Entry>, last: nat, busy: set<nat>, t: nat)
    requires Table(ts, alias, entries, last, busy) && t < |ts| && SetOf(ts, alias, t) >= 0 && Base(ts, t) !in busy
    ensures Exact(ts, alias, EntryOf(entries, SetOf(ts, alias, t)), Parts(ts, t))
  {
    hide Exact;
    SetIsBases(ts, alias, entries, last, busy, t);
    BaseOwn(ts, t);
    PartsBefore(ts, t);
    if Base(ts, t) == -1 {
      ExactNone(ts, alias);
    }
  }

  lemma ExactNone(ts: seq<Node>, alias: map<nat, nat>)
    requires Acyclic(ts)
    ensures Exact(ts, alias, Entry({}, false), {})
  {
  }

  /** Recording the set of a type that has none of its own. */
  lemma TableShared(ts: seq<Node>, alias: map<nat, nat>, entries: map<nat, Entry>, last: nat, busy: set<nat>, t: nat,
                    s: nat)
    requires Table(ts, alias, entries, last, busy) && t < |ts| && ts[t].hook.NoHook? && t !in alias
    requires if ts[t].kind.Vector? then SetOf(ts, alias, ts[t].kind.elem) == s else ts[t].kind.Function? && s == 0
    ensures Table(ts, alias[t := s], entries, last, busy)
  {
    hide Exact;
    var alias' := alias[t := s];
    if ts[t].kind.Vector? {
      SetIsBases(ts, alias, entries, last, busy, ts[t].kind.elem);
      BaseOwn(ts, ts[t].kind.elem);
    }
    TableGrown(ts, alias, entries, last, last, busy, busy, t, s);
  }

  /** A new set for a type of its own, which is busy until its components are recorded. */
  lemma TableNew(ts: seq<Node>, alias: map<nat, nat>, entries: map<nat, Entry>, last: nat, busy: set<nat>, t: nat)
    requires Table(ts, alias, entries, last, busy) && t < |ts| && ts[t].hook.NoHook? && t !in alias
             && !ts[t].kind.Vector? && !ts[t].kind.Function?
    ensures Table(ts, alias[t := last + 1], entries, last + 1, busy + {t})
    ensures EntryOf(entries, last + 1) == Entry({}, false)
  {
    TableGrown(ts, alias, entries, last, last + 1, busy, busy + {t}, t, last + 1);
  }

  lemma TableGrown(ts: seq<Node>, alias: map<nat, nat>, entries: map<nat, Entry>, last: nat, last': nat, busy: set<nat>,
                   busy': set<nat>, t: nat, s: nat)
    requires Table(ts, alias, entries, last, busy) && t < |ts| && ts[t].hook.NoHook? && t !in alias && last <= last'
    requires if Base(ts, t) == t then busy' == busy + {t} && s == last' == last + 1
             else
               && busy' == busy
               && (if Base(ts, t) == -1 then s == 0
                   else Base(ts, t) in alias && s == alias[Base(ts, t)] > 0 && Own(ts, Base(ts, t)))
    ensures Table(ts, alias[t := s], entries, last', busy')
  {
    hide Exact, Base, Parts, Acyclic;
    var alias' := alias[t := s];
    forall b | b in alias'
      ensures Placed(ts, alias', last', b)
    {
      if b != t {
        assert Placed(ts, alias, last, b);
      } else if Base(ts, t) != -1 && Base(ts, t) != t {
        assert Placed(ts, alias, last, Base(ts, t));
      }
    }
    forall x, y {:trigger Placed(ts, alias', last', x), Placed(ts, alias', last', y)} |
      Placed(ts, alias', last', x) && Placed(ts, alias', last', y) && alias'[x] == alias'[y] != 0
      ensures Base(ts, x) == Base(ts, y)
    {
      if Base(ts, t) != -1 && Base(ts, t) != t {
        assert Placed(ts, alias, last, Base(ts, t));
      }
      assert x in alias ==> Placed(ts, alias, last, x);
      assert y in alias ==> Placed(ts, alias, last, y);
    }
    forall x | x in alias' && Own(ts, x) && x !in busy'
      ensures Exact(ts, alias', EntryOf(entries, alias'[x]), Parts(ts, x))
    {
      assert x in alias;
      ExactKept(ts, alias, alias', EntryOf(entries, alias[x]), Parts(ts, x));
    }
  }

  /** Changing the entry of a busy type. */
  lemma TableEntry(ts: seq<Node>, alias: map<nat, nat>, entries: map<nat, Entry>, last: nat, busy: set<nat>, t: nat,
                   e: Entry)
    requires Table(ts, alias, entries, last, busy) && t in busy
    ensures Table(ts, alias, entries[alias[t] := e], last, busy)
    ensures forall p :: p in busy && p != t ==> EntryOf(entries[alias[t] := e], alias[p]) == EntryOf(entries, alias[p])
  {
    hide Exact, Base, Parts, Acyclic;
    assert Placed(ts, alias, last, t);
    forall x | x in alias && Own(ts, x) && x != t
      ensures alias[x] != alias[t]
    {
      assert Placed(ts, alias, last, x);
    }
  }

  /** Its components are recorded. */
  lemma TableDone(ts: seq<Node>, alias: map<nat, nat>, entries: map<nat, Entry>, last: nat, busy: set<nat>, t: nat)
    requires Table(ts, alias, entries, last, busy) && t in busy
             && Exact(ts, alias, EntryOf(entries, alias[t]), Parts(ts, t))
    ensures Table(ts, alias, entries, last, busy - {t})
  {
    hide Exact;
  }
}
