/**
 Reading undoes writing (ar370.c): `list` shows the members and symbols that
 `create` was given.
 */
module ArchiveRoundTrip {
  import opened ArchiveFormat
  import opened ArchiveWalk
  import opened ArchiveReader
  import opened ArchiveWriter

  /** A name that can be read back: not empty, no longer than the reader's
      buffer, without the bytes at which the reader stops. */
  predicate Readable(name: Bytes) {
    0 < |name| <= MEMBER_NAME_MAX && SLASH !in name && (if Long(name) then NEWLINE !in name else SPACE !in name)
  }

  /** What an archive is made of: names that fit the reader's buffer and hold
      no slash, members that fit their headers. */
  ghost predicate Formed(os: seq<Obj>, ss: seq<Sym>) {
    && Laid(os) && Owned(os, ss) && Sized(AllEntries(os, ss))
    && NamesFit(os)
    && (forall s {:trigger ss[s]} :: 0 <= s < |ss| ==> 0 !in ss[s].name)
  }

  ghost predicate NamesFit(os: seq<Obj>) {
    forall i {:trigger os[i]} :: 0 <= i < |os| ==> |os[i].member| <= MEMBER_NAME_MAX && SLASH !in os[i].member
  }

  ghost predicate AllReadable(os: seq<Obj>) {
    forall i {:trigger os[i]} :: 0 <= i < |os| ==> Readable(os[i].member)
  }

  ghost predicate Fits(os: seq<Obj>, ss: seq<Sym>) {
    Formed(os, ss) && AllReadable(os)
  }

  /** What the walks see at a header. */
  ghost predicate Seen(a: Bytes, q: nat, e: Entry) {
    && q + 60 <= |a| && SizeAt(a, q) == |e.data| && Stands(a, q, Pad(Cut(e.nameField, 16), 16))
    && Stands(a, q + 60, e.data)
    && e.nameField != [] && At(a, q) == e.nameField[0] && At(a, q + 1) == if |e.nameField| > 1 then e.nameField[1]
         else SPACE
  }

  lemma EntryReads(a: Bytes, es: seq<Entry>, k: nat)
    requires k < |es| && Sized(es) && Stands(a, 8, Image(es)) && |a| == 8 + |Image(es)| && es[k].nameField != []
    ensures Seen(a, Offset(es, k), es[k]) && Offset(es, k + 1) == Offset(es, k) + Stride(|es[k].data|)
  {
    hide Header, Chunk, Image, SizeAt;
    var q, e := Offset(es, k), es[k];
    ImageStands(a, es, k);
    ChunkReads(a, q, e.nameField, e.data);
    var p := Pad(Cut(e.nameField, 16), 16);
    StandsAt(a, q, p, 0);
    StandsAt(a, q, p, 1);
  }

  /** The name field of an object: only an empty name makes it look like a table. */
  lemma Plain(os: seq<Obj>, ss: seq<Sym>, i: nat)
    requires Formed(os, ss) && i < |os|
    ensures var nf := NameField(os[i]);
            && nf != [] && os[i].lnoff <= AR_SIZE_MAX
            && if Long(os[i].member) then 0 <= os[i].lnoff && nf == [SLASH] + Digits(os[i].lnoff)
               else nf == os[i].member + [SLASH] && (os[i].member != [] ==> nf[0] != SLASH)
  {
    var name := os[i].member;
    assert |name| <= MEMBER_NAME_MAX && SLASH !in name;
    assert os[i].lnoff == if Long(name) then LongLength(os[..i]) else -1;
    if Long(name) {
      LongDataStands(os, i);
      LongDataLength(os);
      assert Front(os, ss)[1] == AllEntries(os, ss)[1];
      assert |AllEntries(os, ss)[1].data| <= AR_SIZE_MAX;
    } else if name != [] {
      assert name[0] in name;
    }
  }

  function TablesOf(os: seq<Obj>, ss: seq<Sym>): Tables
    requires forall s :: 0 <= s < |ss| ==> ss[s].obj < |os|
  {
    if LongLength(os) > 0
    then Tables(68, Offset(AllEntries(os, ss), 1) + 60, LongLength(os))
    else Tables(68, -1, 0)
  }

  /** `a` is the archive. */
  ghost predicate IsArchive(a: Bytes, os: seq<Obj>, ss: seq<Sym>)
    requires Owned(os, ss)
  {
    a == Archive(os, ss) && Stands(a, 8, Image(AllEntries(os, ss))) && |a| == 8 + |Image(AllEntries(os, ss))|
  }

  /** Where the header of object `i` is. */
  function Pos(os: seq<Obj>, ss: seq<Sym>, i: nat): nat
    requires i <= |os| && forall s :: 0 <= s < |ss| ==> ss[s].obj < |os|
  {
    Offset(AllEntries(os, ss), |Front(os, ss)| + i)
  }

  /** What the walks see at the header of object `i`. */
  lemma ObjectReads(a: Bytes, os: seq<Obj>, ss: seq<Sym>, i: nat)
    requires Formed(os, ss) && IsArchive(a, os, ss) && i < |os|
    ensures var q := Pos(os, ss, i);
            && Seen(a, q, Entry(NameField(os[i]), os[i].data)) && Pos(os, ss, i + 1) == q + Stride(|os[i].data|)
            && (Shown(a, q) <==> os[i].member != []) && (os[i].member != [] ==> forall t :: Noted(a, q, t) == t)
            && forall t :: Noted(a, q, t).longNames == t.longNames && Noted(a, q, t).longLength == t.longLength
  {
    hide Formed, IsArchive, Pos, SizeAt, Stands, Pad, Cut, Digits, NameField;
    ObjectSeen(a, os, ss, i);
    Plain(os, ss, i);
  }

  lemma ObjectSeen(a: Bytes, os: seq<Obj>, ss: seq<Sym>, i: nat)
    requires Formed(os, ss) && IsArchive(a, os, ss) && i < |os|
    ensures var q := Pos(os, ss, i);
            Seen(a, q, Entry(NameField(os[i]), os[i].data)) && Pos(os, ss, i + 1) == q + Stride(|os[i].data|)
  {
    hide Image, NameField, SizeAt, Stands, Laid, Sized, NamesFit, AllEntries, Digits, Seen, Front;
    EntryAt(os, ss, i);
    Plain(os, ss, i);
    EntryReads(a, AllEntries(os, ss), |Front(os, ss)| + i);
  }

  lemma EndReads(a: Bytes, os: seq<Obj>, ss: seq<Sym>)
    requires Formed(os, ss) && IsArchive(a, os, ss)
    ensures Pos(os, ss, |os|) == |a|
  {
    hide Image, Front, Entries, Stands, Laid, Sized, NamesFit;
    ImageEnds(a, AllEntries(os, ss));
  }

  lemma ImageEnds(a: Bytes, es: seq<Entry>)
    requires Sized(es) && Stands(a, 8, Image(es)) && |a| == 8 + |Image(es)|
    ensures Offset(es, |es|) == |a|
  {
    hide Stands, Sized, Offset;
    ImageStands(a, es, |es|);
    assert es[|es|..] == [];
  }

  /** The headers of the objects from the `i`-th on. */
  function Headers(os: seq<Obj>, ss: seq<Sym>, i: nat): seq<nat>
    requires i <= |os| && forall s :: 0 <= s < |ss| ==> ss[s].obj < |os|
    decreases |os| - i
  {
    if i == |os| then [] else [Pos(os, ss, i)] + Headers(os, ss, i + 1)
  }

  lemma HeadersStep(os: seq<Obj>, ss: seq<Sym>, i: nat)
    requires Owned(os, ss) && i <= |os|
    ensures i == |os| ==> Headers(os, ss, i) == []
    ensures i < |os| ==>
              Headers(os, ss, i) != [] && Headers(os, ss, i)[0] == Pos(os, ss, i)
              && Headers(os, ss, i)[1..] == Headers(os, ss, i + 1)
  {
    hide Pos;
  }

  lemma TablesStep(a: Bytes, hs: seq<nat>, t: Tables)
    ensures FindTables(a, [], t) == t
    ensures hs != [] ==> FindTables(a, hs, t) == FindTables(a, hs[1..], Noted(a, hs[0], t))
  {
  }

  /** The headers before them. */
  function FrontHeaders(os: seq<Obj>, ss: seq<Sym>): seq<nat>
    requires forall s :: 0 <= s < |ss| ==> ss[s].obj < |os|
  {
    if LongLength(os) > 0 then [8, Offset(AllEntries(os, ss), 1)] else [8]
  }

  /** The walk goes from header to header. */
  lemma {:induction false} WalkObjects(a: Bytes, os: seq<Obj>, ss: seq<Sym>, i: nat, seen: set<int>)
    requires Owned(os, ss) && Formed(os, ss) && IsArchive(a, os, ss) && i <= |os|
    requires forall x :: x in seen ==> x < Pos(os, ss, i)
    ensures Walk(a, Pos(os, ss, i), seen) == Past(Headers(os, ss, i))
    decreases |os| - i
  {
    hide Formed, IsArchive, Pos, Stands, SizeAt, Noted, Shown;
    if i < |os| {
      ObjectReads(a, os, ss, i);
      WalkObjects(a, os, ss, i + 1, seen + {Pos(os, ss, i)});
    } else {
      EndReads(a, os, ss);
    }
  }

  lemma WalkAll(a: Bytes, os: seq<Obj>, ss: seq<Sym>)
    requires Owned(os, ss) && Formed(os, ss) && IsArchive(a, os, ss)
    ensures FrontReads(a, os, ss) && Walk(a, 8, {}) == Past(FrontHeaders(os, ss) + Headers(os, ss, 0))
  {
    hide Formed, IsArchive, Pos, Stands, SizeAt, Headers, AllEntries, LongLength;
    FrontSeen(a, os, ss);
    FrontStarts(os, ss);
    var o := Offset(AllEntries(os, ss), 1);
    var hs := Headers(os, ss, 0);
    if LongLength(os) > 0 {
      WalkObjects(a, os, ss, 0, {8, o});
      assert {8} + {o} == {8, o};
      assert Walk(a, o, {8}) == Past([o] + hs);
      assert [8] + ([o] + hs) == [8, o] + hs;
    } else {
      WalkObjects(a, os, ss, 0, {8});
    }
    var none: set<int> := {};
    assert none + {8} == {8};
  }

  lemma FrontStarts(os: seq<Obj>, ss: seq<Sym>)
    requires Owned(os, ss)
    ensures |AllEntries(os, ss)| >= 1
  {
  }

  lemma FrontSeen(a: Bytes, os: seq<Obj>, ss: seq<Sym>)
    requires Formed(os, ss) && IsArchive(a, os, ss)
    ensures FrontReads(a, os, ss)
  {
    hide Image, SizeAt, Stands, LongData, Laid, Sized, NamesFit, AllEntries, LongLength;
    var es := AllEntries(os, ss);
    FrontEntries(os, ss);
    EntryReads(a, es, 0);
    LongDataLength(os);
    if LongLength(os) > 0 {
      EntryReads(a, es, 1);
    }
  }

  lemma FrontEntries(os: seq<Obj>, ss: seq<Sym>)
    requires Owned(os, ss)
    ensures var es := AllEntries(os, ss);
            && |es| >= |Front(os, ss)| >= 1 && es[0].nameField == [SLASH]
            && |Front(os, ss)| == (if LongLength(os) > 0 then 2 else 1)
            && (LongLength(os) > 0 ==> es[1] == Entry([SLASH, SLASH], LongData(os)))
  {
    hide SymData, LongData, Entries, LongLength;
  }

  lemma {:induction false} ObjectTables(a: Bytes, os: seq<Obj>, ss: seq<Sym>, i: nat, t: Tables)
    requires Owned(os, ss) && Fits(os, ss) && IsArchive(a, os, ss) && i <= |os|
    ensures FindTables(a, Headers(os, ss, i), t) == t
    decreases |os| - i
  {
    hide Formed, AllReadable, IsArchive, Pos, Stands, SizeAt, Noted, Shown, Headers, FindTables;
    HeadersStep(os, ss, i);
    TablesStep(a, Headers(os, ss, i), t);
    if i < |os| {
      ObjectReads(a, os, ss, i);
      FitsParts(os, ss, i);
      ObjectTables(a, os, ss, i + 1, t);
    }
  }

  /** The tables are found. */
  lemma TablesFound(a: Bytes, os: seq<Obj>, ss: seq<Sym>)
    requires Owned(os, ss) && Fits(os, ss) && IsArchive(a, os, ss) && FrontReads(a, os, ss)
    ensures FindTables(a, FrontHeaders(os, ss) + Headers(os, ss, 0), Tables(-1, -1, 0)) == TablesOf(os, ss)
  {
    hide Fits, IsArchive, Pos, Stands, SizeAt, Headers, AllEntries, LongLength, LongData;
    var t, hs := TablesOf(os, ss), Headers(os, ss, 0);
    FrontStarts(os, ss);
    ObjectTables(a, os, ss, 0, t);
    if LongLength(os) > 0 {
      var o := Offset(AllEntries(os, ss), 1);
      assert ([8, o] + hs)[1..] == [o] + hs && ([o] + hs)[1..] == hs;
      assert FindTables(a, [o] + hs, Tables(68, -1, 0)) == FindTables(a, hs, t);
    } else {
      assert ([8] + hs)[1..] == hs;
    }
  }

  /** What the walks see before the objects. */
  ghost predicate FrontReads(a: Bytes, os: seq<Obj>, ss: seq<Sym>)
    requires Owned(os, ss)
  {
    var es := AllEntries(os, ss);
    && Stands(a, 68, es[0].data) && 68 <= |a| && Offset(es, 1) == 8 + Stride(SizeAt(a, 8)) && SizeAt(a, 8) >= 0
    && At(a, 8) == SLASH && At(a, 9) == SPACE
    && (LongLength(os) == 0 ==> Pos(os, ss, 0) == Offset(es, 1))
    && (LongLength(os) > 0 ==> Stands(a, Offset(es, 1) + 60, LongData(os)) && Offset(es, 1) + 60 <= |a|
                               && At(a, Offset(es, 1)) == SLASH && At(a, Offset(es, 1) + 1) == SLASH
                               && SizeAt(a, Offset(es, 1)) == LongLength(os)
                               && Pos(os, ss, 0) == Offset(es, 1) + Stride(SizeAt(a, Offset(es, 1))))
  }

  // ----- names -----

  /** The name of an object that has one is read back from its header exactly
      if it is readable. */
  lemma NameReads(a: Bytes, os: seq<Obj>, ss: seq<Sym>, i: nat, t: Tables)
    requires Owned(os, ss) && Formed(os, ss) && IsArchive(a, os, ss) && FrontReads(a, os, ss) && i < |os|
    requires t.longNames == TablesOf(os, ss).longNames && t.longLength == TablesOf(os, ss).longLength
    ensures os[i].member != [] ==> (MemberName(a, Pos(os, ss, i), t) == os[i].member <==> Readable(os[i].member))
  {
    hide IsArchive, SizeAt, Stands, Front, Entries, Laid, Sized, Scan, Atol, LongData, LongLength, Pos, Shown, Noted,
        AllEntries;
    ObjectReads(a, os, ss, i);
    Plain(os, ss, i);
    var q, name := Pos(os, ss, i), os[i].member;
    assert |name| <= MEMBER_NAME_MAX && SLASH !in name;
    if Long(name) {
      LongNameReads(a, os, ss, i);
      OffsetReads(a, q, os[i].lnoff);
    } else if name != [] {
      ShortReads(a, q, name);
    }
  }

  lemma LongNameReads(a: Bytes, os: seq<Obj>, ss: seq<Sym>, i: nat)
    requires Owned(os, ss) && Formed(os, ss) && FrontReads(a, os, ss) && i < |os| && Long(os[i].member)
    ensures var t, o := TablesOf(os, ss), os[i].lnoff;
            && t.longNames >= 0 && t.longLength > 0 && 0 <= o
            && var name := Scan(a, t.longNames + o, t.longNames + t.longLength, SLASH, NEWLINE, MEMBER_NAME_MAX);
            name == os[i].member <==> Readable(os[i].member)
  {
    hide SizeAt, Stands, Front, Entries, Sized, Scan, LongData, AllEntries, LongLength, Pos;
    var name := os[i].member;
    assert |name| <= MEMBER_NAME_MAX && SLASH !in name;
    LongDataStands(os, i);
    LongDataLength(os);
    StandsLength(LongData(os), os[i].lnoff, name + [SLASH, NEWLINE]);
    FrontStarts(os, ss);
    LongReads(a, Offset(AllEntries(os, ss), 1) + 60, LongData(os), os[i].lnoff, name);
  }

  lemma ShortReads(a: Bytes, q: nat, name: Bytes)
    requires Stands(a, q, Pad(Cut(name + [SLASH], 16), 16)) && q + 60 <= |a| && !Long(name) && name != []
             && SLASH !in name
    ensures Scan(a, q, q + 16, SLASH, SPACE, MEMBER_NAME_MAX) == name <==> Readable(name)
  {
    hide Stands, Scan;
    ScanClean(a, q, q + 16, SLASH, SPACE, MEMBER_NAME_MAX);
    if Readable(name) {
      ReadableShort(a, q, name);
    }
  }

  lemma ReadableShort(a: Bytes, q: nat, name: Bytes)
    requires Stands(a, q, Pad(Cut(name + [SLASH], 16), 16)) && q + 60 <= |a| && Readable(name) && !Long(name)
    ensures Scan(a, q, q + 16, SLASH, SPACE, MEMBER_NAME_MAX) == name
  {
    var p := Pad(name + [SLASH], 16);
    assert p == name + ([SLASH] + p[|name| + 1..]);
    StandsParts(a, q, name, [SLASH] + p[|name| + 1..]);
    StandsAt(a, q, p, |name|);
    ScanReads(a, q, q + 16, SLASH, SPACE, MEMBER_NAME_MAX, name);
  }

  lemma OffsetReads(a: Bytes, q: nat, n: nat)
    requires Stands(a, q, Pad(Cut([SLASH] + Digits(n), 16), 16)) && n <= AR_SIZE_MAX
    ensures Atol(a, q + 1) == n
  {
    var d := Digits(n);
    assert Pow10(10) == AR_SIZE_MAX + 1;
    DigitsLength(n, 10);
    var p := Pad([SLASH] + d, 16);
    assert p == [SLASH] + (d + p[|d| + 1..]);
    StandsParts(a, q, [SLASH], d + p[|d| + 1..]);
    StandsParts(a, q + 1, d, p[|d| + 1..]);
    StandsAt(a, q, p, |d| + 1);
    AtolReads(a, q + 1, n);
  }

  lemma LongReads(a: Bytes, ln: nat, data: Bytes, o: nat, name: Bytes)
    requires Stands(a, ln, data) && Stands(data, o, name + [SLASH, NEWLINE]) && Long(name) && |name| <= MEMBER_NAME_MAX
             && SLASH !in name
    ensures Scan(a, ln + o, ln + |data|, SLASH, NEWLINE, MEMBER_NAME_MAX) == name <==> Readable(name)
  {
    hide Stands, Scan;
    ScanClean(a, ln + o, ln + |data|, SLASH, NEWLINE, MEMBER_NAME_MAX);
    if Readable(name) {
      ReadableLong(a, ln, data, o, name);
    }
  }

  lemma ReadableLong(a: Bytes, ln: nat, data: Bytes, o: nat, name: Bytes)
    requires Stands(a, ln, data) && Stands(data, o, name + [SLASH, NEWLINE]) && Readable(name) && Long(name)
    ensures Scan(a, ln + o, ln + |data|, SLASH, NEWLINE, MEMBER_NAME_MAX) == name
  {
    hide Stands, Scan;
    var s := name + [SLASH, NEWLINE];
    StandsIn(a, ln, data, o, s);
    StandsLength(data, o, s);
    StandsLength(a, ln + o, s);
    StandsParts(a, ln + o, name, [SLASH, NEWLINE]);
    StandsAt(a, ln + o, s, |name|);
    ScanReads(a, ln + o, ln + |data|, SLASH, NEWLINE, MEMBER_NAME_MAX, name);
  }

  // ----- members -----

  function MembersOf(os: seq<Obj>, i: nat): seq<Member>
    requires i <= |os|
    decreases |os| - i
  {
    if i == |os| then [] else [Member(os[i].member, |os[i].data|)] + MembersOf(os, i + 1)
  }

  /** What is shown of an object: its name and size, exactly if the name is readable. */
  lemma ObjectShown(a: Bytes, os: seq<Obj>, ss: seq<Sym>, i: nat, t: Tables)
    requires Owned(os, ss) && Formed(os, ss) && IsArchive(a, os, ss) && FrontReads(a, os, ss) && i < |os|
    requires t.longNames == TablesOf(os, ss).longNames && t.longLength == TablesOf(os, ss).longLength
    ensures ShownAt(a, Pos(os, ss, i), t) == [Member(os[i].member, |os[i].data|)] <==> Readable(os[i].member)
    ensures os[i].member == [] ==> ShownAt(a, Pos(os, ss, i), t) == []
  {
    hide Formed, IsArchive, FrontReads, Pos, Stands, SizeAt, Noted, Shown, MemberName, TablesOf;
    ObjectReads(a, os, ss, i);
    NameReads(a, os, ss, i, t);
  }

  lemma {:induction false} ObjectMembers(a: Bytes, os: seq<Obj>, ss: seq<Sym>, i: nat, t: Tables)
    requires Owned(os, ss) && Formed(os, ss) && IsArchive(a, os, ss) && FrontReads(a, os, ss) && i <= |os|
    requires t.longNames == TablesOf(os, ss).longNames && t.longLength == TablesOf(os, ss).longLength
    ensures |MembersFrom(a, Headers(os, ss, i), t)| <= |os| - i
    ensures MembersFrom(a, Headers(os, ss, i), t) == MembersOf(os, i) <==>
              forall k {:trigger os[k]} :: i <= k < |os| ==> Readable(os[k].member)
    decreases |os| - i
  {
    hide Formed, IsArchive, FrontReads, Pos, Stands, SizeAt, Noted, Shown, MemberName, TablesOf, ShownAt, Readable,
        Headers, MembersFrom;
    HeadersStep(os, ss, i);
    MembersStep(a, Headers(os, ss, i), t);
    ListingLength(os, i);
    if i < |os| {
      ObjectShown(a, os, ss, i, t);
      ObjectMembers(a, os, ss, i + 1, t);
      ListingLength(os, i + 1);
      var p, rest := ShownAt(a, Pos(os, ss, i), t), MembersFrom(a, Headers(os, ss, i + 1), t);
      HeadAndTail(p, rest, Member(os[i].member, |os[i].data|), MembersOf(os, i + 1));
    }
  }

  lemma HeadAndTail(p: seq<Member>, rest: seq<Member>, m: Member, ms: seq<Member>)
    requires |p| <= 1 && |rest| <= |ms|
    ensures p + rest == [m] + ms <==> p == [m] && rest == ms
  {
    if p + rest == [m] + ms {
      assert |p| == 1 && (p + rest)[0] == p[0] && (p + rest)[1..] == rest && ([m] + ms)[1..] == ms;
    }
  }

  /** The objects are shown as they were given exactly if all names are readable. */
  lemma MembersFound(a: Bytes, os: seq<Obj>, ss: seq<Sym>, t: Tables)
    requires Owned(os, ss) && Formed(os, ss) && IsArchive(a, os, ss) && FrontReads(a, os, ss)
    requires t.longNames == TablesOf(os, ss).longNames && t.longLength == TablesOf(os, ss).longLength
    ensures MembersFrom(a, FrontHeaders(os, ss) + Headers(os, ss, 0), t) == MembersOf(os, 0) <==> AllReadable(os)
  {
    hide Formed, IsArchive, Pos, Stands, SizeAt, MemberName, TablesOf, AllEntries, LongLength, LongData, Headers,
        MembersOf, Readable;
    ObjectMembers(a, os, ss, 0, t);
    FrontStarts(os, ss);
    var hs := Headers(os, ss, 0);
    if LongLength(os) > 0 {
      var o := Offset(AllEntries(os, ss), 1);
      assert ([8, o] + hs)[1..] == [o] + hs && ([o] + hs)[1..] == hs;
      assert MembersFrom(a, [o] + hs, t) == MembersFrom(a, hs, t);
    } else {
      assert ([8] + hs)[1..] == hs;
    }
  }

  // ----- symbols -----

  function SymbolsOf(os: seq<Obj>, ss: seq<Sym>, s: nat): seq<Symbol>
    requires s <= |ss| && forall s :: 0 <= s < |ss| ==> ss[s].obj < |os|
    decreases |ss| - s
  {
    if s == |ss| then []
    else [Symbol(ss[s].name, Pos(os, ss, ss[s].obj), os[ss[s].obj].member)] + SymbolsOf(os, ss, s + 1)
  }

  lemma {:induction false} OffsetStands(ss: seq<Sym>, offs: seq<nat>, s: nat)
    requires (forall s :: 0 <= s < |ss| ==> ss[s].obj < |offs|) && s < |ss|
    ensures Stands(SymOffsets(ss, offs), 4 * s, Put32(offs[ss[s].obj]))
  {
    var n := |ss| - 1;
    var init, r := SymOffsets(ss[..n], offs), SymOffsets(ss, offs);
    assert r == init + Put32(offs[ss[n].obj]);
    if s == n {
      assert r[4 * n..4 * n + 4] == Put32(offs[ss[n].obj]);
    } else {
      OffsetStands(ss[..n], offs, s);
      assert r[4 * s..4 * s + 4] == init[4 * s..4 * s + 4];
    }
  }

  lemma {:induction false} SymNameStands(ss: seq<Sym>, s: nat)
    requires s < |ss|
    ensures Stands(SymNames(ss), |SymNames(ss[..s])|, ss[s].name + [0])
            && |SymNames(ss[..s + 1])| == |SymNames(ss[..s])| + |ss[s].name| + 1
  {
    var n := |ss| - 1;
    var init, r := SymNames(ss[..n]), SymNames(ss);
    assert r == init + (ss[n].name + [0]);
    assert ss[..s + 1][..s] == ss[..s];
    if s == n {
      assert r[|init|..] == ss[n].name + [0];
      assert ss[..s + 1] == ss;
    } else {
      SymNameStands(ss[..n], s);
      assert ss[..n][..s] == ss[..s];
      var o, t := |SymNames(ss[..s])|, ss[s].name + [0];
      assert r[o..o + |t|] == init[o..o + |t|];
    }
  }

  /** `s` stands in what stands in `a`. */
  lemma StandsIn(a: Bytes, i: nat, d: Bytes, o: nat, s: Bytes)
    requires Stands(a, i, d) && Stands(d, o, s)
    ensures Stands(a, i + o, s)
  {
    assert d == d[..o] + (s + d[o + |s|..]);
    StandsParts(a, i, d[..o], s + d[o + |s|..]);
    StandsParts(a, i + o, s, d[o + |s|..]);
  }

  lemma {:induction false} WalkSymbols(a: Bytes, os: seq<Obj>, ss: seq<Sym>, s: nat, names: nat)
    requires Owned(os, ss) && Fits(os, ss) && IsArchive(a, os, ss) && FrontReads(a, os, ss) && s <= |ss|
             && |a| < 0x1_0000_0000
    requires Stands(a, 72, SymOffsets(ss, ObjOffsets(os, Base(os, ss)))) && Stands(a, 72 + 4 * |ss|, SymNames(ss))
    requires names == 72 + 4 * |ss| + |SymNames(ss[..s])|
    ensures SymbolsFrom(a, TablesOf(os, ss), s, |ss|, names) == SymbolsOf(os, ss, s)
    decreases |ss| - s
  {
    hide Fits, IsArchive, FrontReads, Pos, Stands, Scan, SymOffsets, SymNames, ObjOffsets, Base, TablesOf, Owner, Get32;
    TablesStart(os, ss);
    if s < |ss| {
      SymbolReads(a, os, ss, s, names);
      SymNameStands(ss, s);
      WalkSymbols(a, os, ss, s + 1, names + |ss[s].name| + 1);
    }
  }

  lemma TablesStart(os: seq<Obj>, ss: seq<Sym>)
    requires Owned(os, ss)
    ensures TablesOf(os, ss).symtab == 68
  {
  }

  /** One symbol: its name, and the header of the object that defines it. */
  lemma SymbolReads(a: Bytes, os: seq<Obj>, ss: seq<Sym>, s: nat, names: nat)
    requires Fits(os, ss) && IsArchive(a, os, ss) && FrontReads(a, os, ss) && s < |ss| && |a| < 0x1_0000_0000
    requires Stands(a, 72, SymOffsets(ss, ObjOffsets(os, Base(os, ss)))) && Stands(a, 72 + 4 * |ss|, SymNames(ss))
    requires names == 72 + 4 * |ss| + |SymNames(ss[..s])|
    ensures ss[s].obj < |os| && Get32(a, 72 + 4 * s) == Pos(os, ss, ss[s].obj)
    ensures Scan(a, names, |a|, 0, 0, |a|) == ss[s].name
    ensures Owner(a, Pos(os, ss, ss[s].obj), TablesOf(os, ss)) == os[ss[s].obj].member
  {
    hide Fits, IsArchive, FrontReads, Stands, Scan, MemberName, SymOffsets, SymNames, Base, ObjOffset, Get32, Pos,
        TablesOf, Owner, Put32;
    var k := ss[s].obj;
    FitsParts(os, ss, s);
    OwnerReads(a, os, ss, k);
    OffsetEntryReads(a, ss, ObjOffsets(os, Base(os, ss)), s);
    PosIs(os, ss, k);
    SymNameStands(ss, s);
    StandsIn(a, 72 + 4 * |ss|, SymNames(ss), |SymNames(ss[..s])|, ss[s].name + [0]);
    SymNameReads(a, names, ss[s].name);
  }

  lemma FitsParts(os: seq<Obj>, ss: seq<Sym>, i: nat)
    requires Fits(os, ss)
    ensures Owned(os, ss) && Laid(os) && Formed(os, ss)
    ensures i < |os| ==> Readable(os[i].member)
    ensures i < |ss| ==> ss[i].obj < |os| && 0 !in ss[i].name
  {
  }

  lemma OffsetEntryReads(a: Bytes, ss: seq<Sym>, offs: seq<nat>, s: nat)
    requires (forall s :: 0 <= s < |ss| ==> ss[s].obj < |offs|) && s < |ss| && Stands(a, 72, SymOffsets(ss, offs))
    ensures offs[ss[s].obj] < 0x1_0000_0000 ==> Get32(a, 72 + 4 * s) == offs[ss[s].obj]
  {
    hide Stands, SymOffsets, Get32, Put32;
    var v := offs[ss[s].obj];
    OffsetStands(ss, offs, s);
    StandsIn(a, 72, SymOffsets(ss, offs), 4 * s, Put32(v));
    if v < 0x1_0000_0000 {
      Get32Reads(a, 72 + 4 * s, v);
    }
  }

  lemma OwnerReads(a: Bytes, os: seq<Obj>, ss: seq<Sym>, k: nat)
    requires Owned(os, ss) && Fits(os, ss) && IsArchive(a, os, ss) && FrontReads(a, os, ss) && k < |os|
    ensures Pos(os, ss, k) + 60 <= |a| && Owner(a, Pos(os, ss, k), TablesOf(os, ss)) == os[k].member
  {
    hide Fits, IsArchive, FrontReads, Stands, SizeAt, MemberName, Pos, TablesOf, Shown, Noted;
    FitsParts(os, ss, k);
    ObjectReads(a, os, ss, k);
    NameReads(a, os, ss, k, TablesOf(os, ss));
    PosLarge(os, ss, k);
  }

  lemma PosLarge(os: seq<Obj>, ss: seq<Sym>, k: nat)
    requires Owned(os, ss) && k <= |os|
    ensures Pos(os, ss, k) >= 8
  {
  }

  lemma PosIs(os: seq<Obj>, ss: seq<Sym>, k: nat)
    requires Laid(os) && Owned(os, ss) && k < |os|
    ensures Pos(os, ss, k) == ObjOffset(os, Base(os, ss), k) && Pos(os, ss, k) >= 8
  {
    OffsetsMatch(os, ss, k);
  }

  lemma SymNameReads(a: Bytes, i: nat, name: Bytes)
    requires Stands(a, i, name + [0]) && 0 !in name
    ensures Scan(a, i, |a|, 0, 0, |a|) == name
  {
    StandsParts(a, i, name, [0]);
    StandsAt(a, i, name + [0], |name|);
    ScanReads(a, i, |a|, 0, 0, |a|, name);
  }

  /** Listing an archive shows the members it was made from, in order, with their names
      and sizes, and each symbol with the header of the member that defines it. */
  lemma ListCreated(os: seq<Obj>, ss: seq<Sym>)
    requires Fits(os, ss) && |Archive(os, ss)| < 0x1_0000_0000
    ensures List(Archive(os, ss)) == Listed(Listing(MembersOf(os, 0), SymbolsOf(os, ss, 0)))
  {
    hide Image, SizeAt, Front, Entries, Laid, Sized, SymNames, Base, Get32, Walk, FindTables, MembersFrom, FrontReads,
    SymbolsFrom,
      SymOffsets, Headers, FrontHeaders, AllReadable;
    var a := Archive(os, ss);
    ArchiveIs(os, ss);
    WalkAll(a, os, ss);
    TablesFound(a, os, ss);
    MembersFound(a, os, ss, TablesOf(os, ss));
    SymDataReads(a, os, ss);
    assert ss[..0] == [];
    TablesStart(os, ss);
    WalkSymbols(a, os, ss, 0, 72 + 4 * |ss|);
  }

  lemma ArchiveIs(os: seq<Obj>, ss: seq<Sym>)
    requires Owned(os, ss)
    ensures var a := Archive(os, ss); |a| >= 8 && a[..8] == MAGIC && IsArchive(a, os, ss)
  {
    hide Image, AllEntries;
    assert Archive(os, ss)[8..] == Image(AllEntries(os, ss));
  }

  /** The members are shown as they were given if and only if all names are readable. */
  lemma ListMembersExactly(os: seq<Obj>, ss: seq<Sym>)
    requires Formed(os, ss)
    ensures List(Archive(os, ss)).Listed?
    ensures List(Archive(os, ss)).listing.members == MembersOf(os, 0) <==> AllReadable(os)
  {
    hide Image, SizeAt, Front, Entries, Laid, Sized, Walk, FindTables, MembersFrom, FrontReads, SymbolList, Headers,
    FrontHeaders,
      AllReadable, TablesOf;
    var a := Archive(os, ss);
    ArchiveIs(os, ss);
    WalkAll(a, os, ss);
    var t := FindTables(a, FrontHeaders(os, ss) + Headers(os, ss, 0), Tables(-1, -1, 0));
    LongTables(a, os, ss);
    MembersFound(a, os, ss, t);
  }

  /** Whatever the names, the long names are found. */
  lemma LongTables(a: Bytes, os: seq<Obj>, ss: seq<Sym>)
    requires Owned(os, ss) && Formed(os, ss) && IsArchive(a, os, ss) && FrontReads(a, os, ss)
    ensures var t := FindTables(a, FrontHeaders(os, ss) + Headers(os, ss, 0), Tables(-1, -1, 0));
            t.longNames == TablesOf(os, ss).longNames && t.longLength == TablesOf(os, ss).longLength
  {
    hide Formed, IsArchive, Pos, Stands, SizeAt, Headers, AllEntries, LongLength, LongData;
    var t, hs := TablesOf(os, ss), Headers(os, ss, 0);
    FrontStarts(os, ss);
    ObjectsKeepLong(a, os, ss, 0, t);
    if LongLength(os) > 0 {
      var o := Offset(AllEntries(os, ss), 1);
      assert ([8, o] + hs)[1..] == [o] + hs && ([o] + hs)[1..] == hs;
      assert FindTables(a, [o] + hs, Tables(68, -1, 0)) == FindTables(a, hs, t);
    } else {
      assert ([8] + hs)[1..] == hs;
    }
  }

  lemma {:induction false} ObjectsKeepLong(a: Bytes, os: seq<Obj>, ss: seq<Sym>, i: nat, t: Tables)
    requires Owned(os, ss) && Formed(os, ss) && IsArchive(a, os, ss) && i <= |os|
    ensures var t' := FindTables(a, Headers(os, ss, i), t); t'.longNames == t.longNames && t'.longLength == t.longLength
    decreases |os| - i
  {
    hide Formed, IsArchive, Pos, Stands, SizeAt, Shown, Noted, Headers, FindTables;
    HeadersStep(os, ss, i);
    TablesStep(a, Headers(os, ss, i), t);
    if i < |os| {
      ObjectReads(a, os, ss, i);
      ObjectsKeepLong(a, os, ss, i + 1, Noted(a, Pos(os, ss, i), t));
    }
  }

  /** The parts of the symbol table. */
  lemma SymDataReads(a: Bytes, os: seq<Obj>, ss: seq<Sym>)
    requires Owned(os, ss) && FrontReads(a, os, ss) && |a| < 0x1_0000_0000
    ensures Get32(a, 68) == |ss| && |SymNames([])| == 0
    ensures Stands(a, 72, SymOffsets(ss, ObjOffsets(os, Base(os, ss)))) && Stands(a, 72 + 4 * |ss|, SymNames(ss))
  {
    hide Stands, SymOffsets, Base, Get32, SizeAt;
    var offs := ObjOffsets(os, Base(os, ss));
    assert AllEntries(os, ss)[0].data == Put32(|ss|) + SymOffsets(ss, offs) + SymNames(ss);
    StandsParts(a, 68, Put32(|ss|) + SymOffsets(ss, offs), SymNames(ss));
    StandsParts(a, 68, Put32(|ss|), SymOffsets(ss, offs));
    StandsLength(a, 72, SymOffsets(ss, offs));
    Get32Reads(a, 68, |ss|);
  }

  lemma StandsLength(a: Bytes, i: nat, s: Bytes)
    requires Stands(a, i, s)
    ensures i + |s| <= |a|
  {
  }

  lemma {:induction false} ListingLength(os: seq<Obj>, i: nat)
    requires i <= |os|
    ensures |MembersOf(os, i)| == |os| - i
    decreases |os| - i
  {
    if i < |os| {
      ListingLength(os, i + 1);
    }
  }

  /** What the listing shows, entry by entry. */
  lemma {:induction false} ListingMember(os: seq<Obj>, i: nat, k: nat)
    requires i <= k < |os|
    ensures |MembersOf(os, i)| == |os| - i && MembersOf(os, i)[k - i] == Member(os[k].member, |os[k].data|)
    decreases |os| - i
  {
    ListingLength(os, i);
    if i < k {
      ListingMember(os, i + 1, k);
    }
  }

  lemma ListingMembers(os: seq<Obj>)
    ensures |MembersOf(os, 0)| == |os|
    ensures forall k :: 0 <= k < |os| ==> MembersOf(os, 0)[k] == Member(os[k].member, |os[k].data|)
  {
    ListingLength(os, 0);
    forall k | 0 <= k < |os|
      ensures MembersOf(os, 0)[k] == Member(os[k].member, |os[k].data|)
    {
      ListingMember(os, 0, k);
    }
  }

  lemma {:induction false} ListingSymbol(os: seq<Obj>, ss: seq<Sym>, s: nat, k: nat)
    requires s <= k <= |ss| && Owned(os, ss)
    ensures |SymbolsOf(os, ss, s)| == |ss| - s
    ensures k < |ss| ==> SymbolsOf(os, ss, s)[k - s] == Symbol(ss[k].name, Pos(os, ss, ss[k].obj), os[ss[k].obj].member)
    decreases |ss| - s
  {
    hide Pos;
    if s < |ss| {
      ListingSymbol(os, ss, s + 1, if k > s then k else |ss|);
    }
  }

  lemma ListingSymbols(os: seq<Obj>, ss: seq<Sym>)
    requires Owned(os, ss)
    ensures |SymbolsOf(os, ss, 0)| == |ss|
    ensures forall k :: 0 <= k < |ss| ==>
              SymbolsOf(os, ss, 0)[k] == Symbol(ss[k].name, Pos(os, ss, ss[k].obj), os[ss[k].obj].member)
  {
    hide Pos, SymbolsOf;
    ListingSymbol(os, ss, 0, |ss|);
    forall k | 0 <= k < |ss|
      ensures SymbolsOf(os, ss, 0)[k] == Symbol(ss[k].name, Pos(os, ss, ss[k].obj), os[ss[k].obj].member)
    {
      ListingSymbol(os, ss, 0, k);
    }
  }
}
