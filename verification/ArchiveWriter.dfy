/**
 The writing side of ar370.c: `read_inputs`, `scan_esd` and `create`.
 */
module ArchiveWriter {
  import opened ArchiveFormat
  import opened ArchiveReader

  datatype Obj = Obj(member: Bytes, data: Bytes, lnoff: int)
  datatype Sym = Sym(name: Bytes, obj: nat)

  // ----- the long names -----

  /** A name that does not fit a header with its slash. */
  predicate Long(name: Bytes) {
    |name| > 15
  }

  function LongLength(os: seq<Obj>): nat {
    if os == [] then 0
    else LongLength(os[..|os| - 1]) + (if Long(os[|os| - 1].member) then |os[|os| - 1].member| + 2 else 0)
  }

  /** Long names have places one after the other. */
  ghost predicate Laid(os: seq<Obj>) {
    forall i {:trigger os[i]} :: 0 <= i < |os| ==> os[i].lnoff == if Long(os[i].member) then LongLength(os[..i]) else -1
  }

  function LongData(os: seq<Obj>): Bytes {
    if os == [] then []
    else LongData(os[..|os| - 1]) + (if os[|os| - 1].lnoff >= 0 then os[|os| - 1].member + [SLASH, NEWLINE] else [])
  }

  lemma LaidInit(os: seq<Obj>, n: nat)
    requires Laid(os) && n <= |os|
    ensures Laid(os[..n])
  {
    forall i {:trigger os[..n][i]} | 0 <= i < n
      ensures os[..n][i].lnoff == if Long(os[..n][i].member) then LongLength(os[..n][..i]) else -1
    {
      assert os[..n][..i] == os[..i];
      assert os[i].lnoff == if Long(os[i].member) then LongLength(os[..i]) else -1;
    }
  }

  lemma {:induction false} LongDataLength(os: seq<Obj>)
    requires Laid(os)
    ensures |LongData(os)| == LongLength(os)
  {
    if os != [] {
      LaidInit(os, |os| - 1);
      LongDataLength(os[..|os| - 1]);
      assert os[|os| - 1].lnoff >= 0 <==> Long(os[|os| - 1].member);
    }
  }

  /** A long name stands at its place, and a slash after it. */
  lemma {:induction false} LongDataStands(os: seq<Obj>, i: nat)
    requires Laid(os) && i < |os| && Long(os[i].member)
    ensures 0 <= os[i].lnoff && Stands(LongData(os), os[i].lnoff, os[i].member + [SLASH, NEWLINE])
  {
    var n := |os| - 1;
    LaidInit(os, n);
    LongDataLength(os[..n]);
    var s := os[i].member + [SLASH, NEWLINE];
    if i == n {
      assert LongData(os) == LongData(os[..n]) + s;
      assert LongData(os)[|LongData(os[..n])|..] == s;
    } else {
      assert os[..n][i] == os[i];
      LongDataStands(os[..n], i);
      var d := LongData(os[..n]);
      assert d <= LongData(os);
      assert LongData(os)[os[i].lnoff..os[i].lnoff + |s|] == d[os[i].lnoff..os[i].lnoff + |s|];
    }
  }

  // ----- the archive -----

  /** `mvs_put32` */
  function Put32(v: nat): (r: Bytes)
    ensures |r| == 4
  {
    [v / 0x100_0000 % 256, v / 0x1_0000 % 256, v / 0x100 % 256, v % 256]
  }

  lemma Get32Reads(a: Bytes, i: nat, v: nat)
    requires Stands(a, i, Put32(v)) && v < 0x1_0000_0000
    ensures Get32(a, i) == v
  {
    hide Stands, Put32;
    var b := Put32(v);
    StandsAt(a, i, b, 0);
    StandsAt(a, i, b, 1);
    StandsAt(a, i, b, 2);
    StandsAt(a, i, b, 3);
    FourBytes(v);
  }

  lemma FourBytes(v: nat)
    requires v < 0x1_0000_0000
    ensures var b := Put32(v); ((b[0] as int * 256 + b[1]) * 256 + b[2]) * 256 + b[3] == v
  {
    var u := v / 256;
    var t := u / 256;
    assert v / 0x1_0000 == t && v / 0x100_0000 == t / 256;
  }

  function NameField(o: Obj): Bytes {
    if 0 <= o.lnoff <= AR_SIZE_MAX then [SLASH] + Digits(o.lnoff) else Cut(o.member, 15) + [SLASH]
  }

  function Entries(os: seq<Obj>): (es: seq<Entry>)
    ensures |es| == |os| && forall i :: 0 <= i < |os| ==> es[i] == Entry(NameField(os[i]), os[i].data)
  {
    seq(|os|, i requires 0 <= i < |os| => Entry(NameField(os[i]), os[i].data))
  }

  function SymOffsets(ss: seq<Sym>, offs: seq<nat>): (r: Bytes)
    requires forall s :: 0 <= s < |ss| ==> ss[s].obj < |offs|
    ensures |r| == 4 * |ss|
  {
    if ss == [] then [] else SymOffsets(ss[..|ss| - 1], offs) + Put32(offs[ss[|ss| - 1].obj])
  }

  function SymNames(ss: seq<Sym>): Bytes {
    if ss == [] then [] else SymNames(ss[..|ss| - 1]) + (ss[|ss| - 1].name + [0])
  }

  function SymData(ss: seq<Sym>, offs: seq<nat>): (r: Bytes)
    requires forall s :: 0 <= s < |ss| ==> ss[s].obj < |offs|
    ensures |r| == 4 + 4 * |ss| + |SymNames(ss)|
  {
    Put32(|ss|) + SymOffsets(ss, offs) + SymNames(ss)
  }

  function Padded(n: nat): nat {
    60 + n + n % 2
  }

  /** Where the first object's header goes. */
  function Base(os: seq<Obj>, ss: seq<Sym>): nat {
    8 + Padded(4 + 4 * |ss| + |SymNames(ss)|) + (if LongLength(os) > 0 then Padded(LongLength(os)) else 0)
  }

  function ObjOffset(os: seq<Obj>, base: nat, i: nat): nat
    requires i <= |os|
  {
    if i == 0 then base else ObjOffset(os, base, i - 1) + Padded(|os[i - 1].data|)
  }

  function ObjOffsets(os: seq<Obj>, base: nat): (r: seq<nat>)
    ensures |r| == |os| && forall i :: 0 <= i < |os| ==> r[i] == ObjOffset(os, base, i)
  {
    seq(|os|, i requires 0 <= i < |os| => ObjOffset(os, base, i))
  }

  ghost predicate Owned(os: seq<Obj>, ss: seq<Sym>) {
    forall s :: 0 <= s < |ss| ==> ss[s].obj < |os|
  }

  /** The members that go before the objects. */
  function Front(os: seq<Obj>, ss: seq<Sym>): (r: seq<Entry>)
    requires forall s :: 0 <= s < |ss| ==> ss[s].obj < |os|
    ensures |r| == if LongLength(os) > 0 then 2 else 1
  {
    [Entry([SLASH], SymData(ss, ObjOffsets(os, Base(os, ss))))]
    + (if LongLength(os) > 0 then [Entry([SLASH, SLASH], LongData(os))] else [])
  }

  function AllEntries(os: seq<Obj>, ss: seq<Sym>): seq<Entry>
    requires forall s :: 0 <= s < |ss| ==> ss[s].obj < |os|
  {
    Front(os, ss) + Entries(os)
  }

  function Archive(os: seq<Obj>, ss: seq<Sym>): Bytes
    requires forall s :: 0 <= s < |ss| ==> ss[s].obj < |os|
  {
    MAGIC + Image(AllEntries(os, ss))
  }

  lemma ObjOffsetFirst(os: seq<Obj>, base: nat)
    ensures ObjOffset(os, base, 0) == base
  {
  }

  lemma ObjOffsetNext(os: seq<Obj>, base: nat, i: nat)
    requires i < |os|
    ensures ObjOffset(os, base, i + 1) == ObjOffset(os, base, i) + Padded(|os[i].data|)
  {
  }

  /** The offsets that are written are those of the headers. */
  lemma {:induction false} OffsetsMatch(os: seq<Obj>, ss: seq<Sym>, i: nat)
    requires Owned(os, ss) && Laid(os) && i <= |os|
    ensures Offset(AllEntries(os, ss), |Front(os, ss)| + i) == ObjOffset(os, Base(os, ss), i)
  {
    hide Laid, AllEntries, Padded, Offset, ObjOffset, Base, Front, NameField;
    EntryAt(os, ss, i - 1);
    if i == 0 {
      FrontOffset(os, ss);
      ObjOffsetFirst(os, Base(os, ss));
    } else {
      OffsetsMatch(os, ss, i - 1);
      OffsetNext(AllEntries(os, ss), |Front(os, ss)| + i - 1);
      ObjOffsetNext(os, Base(os, ss), i - 1);
    }
  }

  lemma EntryAt(os: seq<Obj>, ss: seq<Sym>, i: int)
    requires Owned(os, ss)
    ensures |AllEntries(os, ss)| == |Front(os, ss)| + |os|
    ensures 0 <= i < |os| ==> AllEntries(os, ss)[|Front(os, ss)| + i] == Entry(NameField(os[i]), os[i].data)
  {
    hide Front, NameField;
  }

  lemma OffsetNext(es: seq<Entry>, k: nat)
    requires k < |es|
    ensures Offset(es, k + 1) == Offset(es, k) + Padded(|es[k].data|)
  {
  }

  lemma FrontOffset(os: seq<Obj>, ss: seq<Sym>)
    requires Owned(os, ss) && Laid(os)
    ensures Offset(AllEntries(os, ss), |Front(os, ss)|) == Base(os, ss)
  {
    hide Laid, LongData, Entries, Padded, LongLength;
    var es := AllEntries(os, ss);
    LongDataLength(os);
    OffsetNext(es, 0);
    if LongLength(os) > 0 {
      OffsetNext(es, 1);
    }
  }
}
