/**
 Case labels of a switch statement (c-common.c, `c_add_case_label` and
 `case_compare`; section 6.8.4.2 of ISO C99 with the ranges of GNU C).
 */
module CaseLabels {
  import opened Helpers
  import opened IntegerTypes

  /** A key of the table of cases: a low value, or none for the default entry. */
  type Key = Option<int>

  /** `case_compare` */
  function CaseCompare(k: Key, l: Key): (r: int)
  {
    if k.None? then (if l.None? then 0 else -1)
    else if l.None? then 1
    else if k.value < l.value then -1 else if l.value < k.value then 1 else 0
  }

  /** Keys are ordered, the default label first. */
  lemma CaseOrder(k: Key, l: Key, m: Key)
    ensures CaseCompare(k, l) == -CaseCompare(l, k) && (CaseCompare(k, l) == 0 <==> k == l)
    ensures CaseCompare(k, l) <= 0 && CaseCompare(l, m) <= 0 ==> CaseCompare(k, m) <= 0
  {
  }

  /** A label; without a low value it is the default entry, without a high
      value an ordinary one. */
  datatype Label = Label(low: Option<int>, high: Option<int>) {
    /** The label stands for the value; an empty range stands for its low value. */
    predicate Has(v: int) {
      low.Some? && (v == low.value || (high.Some? && low.value <= v <= high.value))
    }

    function Top(): int
      requires low.Some?
    {
      if high.Some? && high.value > low.value then high.value else low.value
    }
  }

  /** Two labels are in conflict: both are default labels, or some value has both. */
  ghost predicate Conflict(a: Label, b: Label) {
    (a.low.None? && b.low.None?) || exists v :: a.Has(v) && b.Has(v)
  }

  lemma ConflictByEnds(a: Label, b: Label)
    ensures Conflict(a, b) <==> if a.low.None? || b.low.None? then a.low == b.low
              else a.low.value <= b.Top() && b.low.value <= a.Top()
  {
    if a.low.Some? && b.low.Some? {
      var v := if a.low.value <= b.low.value then b.low.value else a.low.value;
      if a.low.value <= b.Top() && b.low.value <= a.Top() {
        assert a.Has(v) && b.Has(v);
      }
    }
  }

  /** The label as it is recorded: converted to the type of the condition, and
      without a high value that equals the low one. */
  function Recorded(ty: IntType, low: Option<int>, high: Option<int>): (r: Label)
    requires high.Some? ==> low.Some?
    ensures low.Some? ==> forall v :: r.Has(v) <==>
              v == Wrap(ty, low.value) || (high.Some? && Wrap(ty, low.value) <= v <= Wrap(ty, high.value))
    ensures r.low.Some? <==> low.Some?
    ensures r.high.Some? <==> high.Some? && Wrap(ty, high.value) != Wrap(ty, low.value)
  {
    var l := if low.Some? then Some(Wrap(ty, low.value)) else None;
    var h := if high.Some? then Some(Wrap(ty, high.value)) else None;
    Label(l, if l == h then None else h)
  }

  class Switch {
    /** The type of the condition. */
    const ty: IntType
    /** The splay tree of cases. */
    var cases: map<Key, Label>

    constructor (ty: IntType)
      ensures this.ty == ty && cases == map[] && Valid() && Disjoint()
    {
      this.ty, cases := ty, map[];
    }

    /** Labels are filed under their low values. */
    ghost predicate Valid()
      reads this
    {
      forall k :: k in cases ==> cases[k].low == k && (k.None? ==> cases[k].high.None?)
    }

    ghost predicate Disjoint()
      reads this
    {
      forall k, l {:trigger cases[k], cases[l]} :: k in cases && l in cases && k != l ==> !Conflict(cases[k], cases[l])
    }

    /** `splay_tree_predecessor`: the greatest key before `k`. */
    method Predecessor(k: Key) returns (r: Option<Key>)
      ensures r.Some? ==> r.value in cases && CaseCompare(r.value, k) < 0
      ensures forall l :: l in cases && CaseCompare(l, k) < 0 ==> r.Some? && CaseCompare(l, r.value) <= 0
    {
      r := None;
      var rest := cases.Keys;
      while rest != {}
        invariant rest <= cases.Keys
        invariant r.Some? ==> r.value in cases && CaseCompare(r.value, k) < 0
        invariant forall l :: l in cases && l !in rest && CaseCompare(l, k) < 0 ==>
                    r.Some? && CaseCompare(l, r.value) <= 0
      {
        var l :| l in rest;
        if CaseCompare(l, k) < 0 && (r.None? || CaseCompare(r.value, l) < 0) {
          r := Some(l);
        }
        rest := rest - {l};
      }
    }

    /** `splay_tree_successor`: the least key after `k`. */
    method Successor(k: Key) returns (r: Option<Key>)
      ensures r.Some? ==> r.value in cases && CaseCompare(k, r.value) < 0
      ensures forall l :: l in cases && CaseCompare(k, l) < 0 ==> r.Some? && CaseCompare(r.value, l) <= 0
    {
      r := None;
      var rest := cases.Keys;
      while rest != {}
        invariant rest <= cases.Keys
        invariant r.Some? ==> r.value in cases && CaseCompare(k, r.value) < 0
        invariant forall l :: l in cases && l !in rest && CaseCompare(k, l) < 0 ==>
                    r.Some? && CaseCompare(r.value, l) <= 0
      {
        var l :| l in rest;
        if CaseCompare(k, l) < 0 && (r.None? || CaseCompare(l, r.value) < 0) {
          r := Some(l);
        }
        rest := rest - {l};
      }
    }

    /** The search for an overlap: an exact match, else the neighbours of the
        low value. As long as the recorded labels are disjoint it finds one exactly if the new
        label is in conflict with any of them. */
    method FindOverlap(entry: Label) returns (node: Option<Key>)
      requires Valid() && (entry.high.Some? ==> entry.low.Some?)
      ensures node.Some? ==> node.value in cases && Conflict(entry, cases[node.value])
      ensures node.None? && Disjoint() ==> forall k :: k in cases ==> !Conflict(entry, cases[k])
      ensures node.None? ==> entry.low !in cases
    {
      hide Conflict;
      node := if entry.low in cases then Some(entry.low) else None;
      if node.None? && entry.low.Some? {
        node := CheckNeighbours(entry);
      } else if node.Some? {
        ConflictByEnds(entry, cases[entry.low]);
      } else {
        forall k | k in cases
          ensures !Conflict(entry, cases[k])
        {
          ConflictByEnds(entry, cases[k]);
        }
      }
    }

    method CheckNeighbours(entry: Label) returns (node: Option<Key>)
      requires Valid() && entry.low.Some? && entry.low !in cases
      ensures node.Some? ==> node.value in cases && Conflict(entry, cases[node.value])
      ensures node.None? && Disjoint() ==> forall k :: k in cases ==> !Conflict(entry, cases[k])
    {
      hide Conflict, Disjoint;
      var lowBound := Predecessor(entry.low);
      var highBound := Successor(entry.low);
      node := None;
      if lowBound.Some? {
        ConflictByEnds(entry, cases[lowBound.value]);
      }
      if highBound.Some? {
        ConflictByEnds(entry, cases[highBound.value]);
      }
      if lowBound.Some? && cases[lowBound.value].high.Some? && cases[lowBound.value].high.value >= entry.low.value {
        node := lowBound;
      } else if highBound.Some? && entry.high.Some? && highBound.value.value <= entry.high.value {
        node := highBound;
      }
      if Disjoint() {
        DisjointCases();
        Neighbours(cases, entry, lowBound, highBound);
      }
    }

    lemma DisjointCases()
      requires Disjoint()
      ensures forall k, l {:trigger cases[k], cases[l]} :: k in cases && l in cases && k != l ==>
                !Conflict(cases[k], cases[l])
    {
    }

    /** `c_add_case_label`: reports whether the label is in conflict with an
        earlier one, and records it in any case. */
    method AddCase(low: Option<int>, high: Option<int>) returns (overlap: bool)
      requires Valid() && (high.Some? ==> low.Some?)
      modifies this
      ensures Valid() && cases == old(cases)[Recorded(ty, low, high).low := Recorded(ty, low, high)]
      ensures old(Disjoint()) ==>
                (overlap <==> exists k :: k in old(cases) && Conflict(Recorded(ty, low, high), old(cases)[k]))
      ensures !overlap ==> Recorded(ty, low, high).low !in old(cases) && (old(Disjoint()) ==> Disjoint())
    {
      var entry := Recorded(ty, low, high);
      var node := FindOverlap(entry);
      overlap := node.Some?;
      cases := cases[entry.low := entry];
    }

    /** Adds the labels of a whole switch in turn. No error is reported exactly if
        no two of them are in conflict. */
    method AddCases(labels: seq<Written>) returns (ok: bool)
      requires cases == map[]
      modifies this
      ensures ok <==> Separate(ty, labels, |labels|)
      ensures ok ==> Valid() && Disjoint() && |cases| == |labels|
    {
      hide Conflict, Separate, Listed;
      ok := true;
      NoneAdded(ty, labels);
      for n := 0 to |labels|
        invariant Valid() && (ok ==> Disjoint() && |cases| == n && Listed(ty, labels, n, cases))
        invariant ok <==> Separate(ty, labels, n)
      {
        OneAdded(ty, labels, n, cases);
        var overlap := AddCase(labels[n].low, labels[n].high);
        ok := ok && !overlap;
      }
    }
  }

  /** A label as it is written. */
  type Written = l: Label | l.high.Some? ==> l.low.Some? witness Label(None, None)

  ghost function Entry(ty: IntType, w: Written): Label {
    Recorded(ty, w.low, w.high)
  }

  /** No two of the first `n` labels are in conflict. */
  ghost predicate Separate(ty: IntType, labels: seq<Written>, n: nat)
    requires n <= |labels|
  {
    forall i, j {:trigger labels[i], labels[j]} :: 0 <= i < j < n ==>
        !Conflict(Entry(ty, labels[i]), Entry(ty, labels[j]))
  }

  /** The table holds exactly the first `n` labels. */
  ghost predicate Listed(ty: IntType, labels: seq<Written>, n: nat, cases: map<Key, Label>)
    requires n <= |labels|
  {
    && (forall i {:trigger labels[i]} :: 0 <= i < n ==>
          Entry(ty, labels[i]).low in cases && cases[Entry(ty, labels[i]).low] == Entry(ty, labels[i]))
    && (forall k :: k in cases ==> exists i :: 0 <= i < n && Entry(ty, labels[i]) == cases[k])
  }

  lemma NoneAdded(ty: IntType, labels: seq<Written>)
    ensures Separate(ty, labels, 0) && Listed(ty, labels, 0, map[])
  {
  }

  lemma OneListed(ty: IntType, labels: seq<Written>, n: nat, cases: map<Key, Label>)
    requires n < |labels| && Listed(ty, labels, n, cases) && Entry(ty, labels[n]).low !in cases
    ensures var e := Entry(ty, labels[n]); Listed(ty, labels, n + 1, cases[e.low := e])
  {
    hide Entry;
    var e := Entry(ty, labels[n]);
    var cases' := cases[e.low := e];
    forall k | k in cases'
      ensures exists i :: 0 <= i < n + 1 && Entry(ty, labels[i]) == cases'[k]
    {
      if k != e.low {
        var i :| 0 <= i < n && Entry(ty, labels[i]) == cases[k];
      } else {
        assert Entry(ty, labels[n]) == cases'[k];
      }
    }
  }

  lemma ConflictSym(a: Label, b: Label)
    ensures Conflict(a, b) <==> Conflict(b, a)
  {
  }

  lemma OneSeparate(ty: IntType, labels: seq<Written>, n: nat, cases: map<Key, Label>)
    requires n < |labels| && Listed(ty, labels, n, cases) && Separate(ty, labels, n)
    ensures Separate(ty, labels, n + 1) <==> !exists k :: k in cases && Conflict(Entry(ty, labels[n]), cases[k])
  {
    hide Conflict, Entry;
    var e := Entry(ty, labels[n]);
    if k :| k in cases && Conflict(e, cases[k]) {
      var i :| 0 <= i < n && Entry(ty, labels[i]) == cases[k];
      ConflictSym(Entry(ty, labels[i]), e);
    } else {
      forall i, j {:trigger labels[i], labels[j]} | 0 <= i < j < n + 1
        ensures !Conflict(Entry(ty, labels[i]), Entry(ty, labels[j]))
      {
        if j == n {
          ConflictSym(Entry(ty, labels[i]), e);
        }
      }
    }
  }

  lemma OneAdded(ty: IntType, labels: seq<Written>, n: nat, cases: map<Key, Label>)
    requires n < |labels|
    ensures !Separate(ty, labels, n) ==> !Separate(ty, labels, n + 1)
    ensures Separate(ty, labels, n) && Listed(ty, labels, n, cases) ==>
              (Separate(ty, labels, n + 1) <==> !exists k :: k in cases && Conflict(Entry(ty, labels[n]), cases[k]))
    ensures var e := Entry(ty, labels[n]); Listed(ty, labels, n, cases) && e.low !in cases ==>
              Listed(ty, labels, n + 1, cases[e.low := e])
  {
    hide Listed, Conflict, Entry;
    if Listed(ty, labels, n, cases) && Entry(ty, labels[n]).low !in cases {
      OneListed(ty, labels, n, cases);
    }
    if Separate(ty, labels, n) && Listed(ty, labels, n, cases) {
      OneSeparate(ty, labels, n, cases);
    }
  }

  /** An overlap shows in a neighbour of the low value. */
  lemma Neighbours(cases: map<Key, Label>, entry: Label, pred: Option<Key>, succ: Option<Key>)
    requires (forall k :: k in cases ==> cases[k].low == k) && entry.low.Some? && entry.low !in cases
    requires forall k, l {:trigger cases[k], cases[l]} :: k in cases && l in cases && k != l ==>
               !Conflict(cases[k], cases[l])
    requires pred.Some? ==> pred.value in cases && CaseCompare(pred.value, entry.low) < 0
    requires forall l :: l in cases && CaseCompare(l, entry.low) < 0 ==> pred.Some? && CaseCompare(l, pred.value) <= 0
    requires succ.Some? ==> succ.value in cases && CaseCompare(entry.low, succ.value) < 0
    requires forall l :: l in cases && CaseCompare(entry.low, l) < 0 ==> succ.Some? && CaseCompare(succ.value, l) <= 0
    ensures forall k :: k in cases && Conflict(entry, cases[k]) ==>
              (pred.Some? && Conflict(entry, cases[pred.value])) || (succ.Some? && Conflict(entry, cases[succ.value]))
  {
    hide Conflict;
    forall k | k in cases && Conflict(entry, cases[k])
      ensures (pred.Some? && Conflict(entry, cases[pred.value])) || (succ.Some? && Conflict(entry, cases[succ.value]))
    {
      ConflictByEnds(entry, cases[k]);
      if CaseCompare(k, entry.low) < 0 {
        ConflictByEnds(entry, cases[pred.value]);
        ConflictByEnds(cases[k], cases[pred.value]);
      } else {
        ConflictByEnds(entry, cases[succ.value]);
      }
    }
  }
}
