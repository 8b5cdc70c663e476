/**
 ar370.c, the operation `rc`: inputs are checked, their ESD cards scanned, and
 the archive written.
 */
module Archiver {
  import opened Helpers
  import opened ArchiveFormat
  import opened ArchiveReader
  import opened ArchiveWriter
  import opened ArchiveRoundTrip
  import opened ObjectDecks

  const BACKSLASH: Byte := 92

  /** A path and what reading the file gave, if it could be read. */
  datatype Input = Input(path: Bytes, data: Option<Bytes>)

  // ----- names of members -----

  predicate Separator(b: Byte) {
    b == SLASH || b == BACKSLASH
  }

  /** Where the part of the first `n` bytes behind the last separator starts. */
  function Start(path: Bytes, n: nat): (r: nat)
    requires n <= |path|
    ensures r <= n && (r > 0 ==> Separator(path[r - 1])) && forall i :: r <= i < n ==> !Separator(path[i])
  {
    if n == 0 then 0 else if Separator(path[n - 1]) then n else Start(path, n - 1)
  }

  function Basename(path: Bytes): Bytes {
    path[Start(path, |path|)..]
  }

  /** It is what follows the last separator. */
  lemma BasenameLast(path: Bytes)
    ensures var r := Basename(path);
            && |r| <= |path| && r == path[|path| - |r|..] && SLASH !in r && BACKSLASH !in r
            && (|r| < |path| ==> Separator(path[|path| - |r| - 1]))
  {
    hide Start;
    var k := Start(path, |path|);
    forall i | 0 <= i < |path[k..]|
      ensures !Separator(path[k..][i])
    {
      assert path[k..][i] == path[k + i];
    }
  }

  /** `basename_of` */
  method BasenameOf(path: Bytes) returns (r: Bytes)
    ensures r == Basename(path)
  {
    var s := 0;
    for q := 0 to |path|
      invariant s == Start(path, q)
    {
      if path[q] == SLASH || path[q] == BACKSLASH {
        s := q + 1;
      }
    }
    r := path[s..];
  }

  ghost predicate Accepted(inp: Input) {
    inp.data.Some? && Deck(inp.data.value) && |Basename(inp.path)| <= MEMBER_NAME_MAX
  }

  class Archiver {
    const e2a: Table
    var objs: seq<Obj>
    var syms: seq<Sym>

    constructor (e2a: Table)
      ensures this.e2a == e2a && objs == [] && syms == []
    {
      this.e2a, objs, syms := e2a, [], [];
    }

    /** `scan_esd` for object number `obj` */
    method ScanEsd(d: Bytes, obj: nat)
      modifies `syms
      ensures syms == old(syms) + DeckSyms(e2a, d, |d| / 80, obj)
    {
      hide CardSyms, ItemSyms;
      var i := 0;
      while 80 * i + 80 <= |d|
        invariant 80 * i <= |d| && i <= |d| / 80 && syms == old(syms) + DeckSyms(e2a, d, i, obj)
      {
        ScanCard(d[80 * i..80 * i + 80], obj);
        i := i + 1;
      }
    }

    /** The items of one card. */
    method ScanCard(c: Bytes, obj: nat)
      requires |c| == 80
      modifies `syms
      ensures syms == old(syms) + CardSyms(e2a, c, obj)
    {
      hide ItemName, Named;
      if !(c[0] == 0x02 && c[1] == 0xC5 && c[2] == 0xE2 && c[3] == 0xC4) {
        return;
      }
      var count, k := 256 * c[10] as int + c[11], 0;
      while k * 16 < count && 16 + (k + 1) * 16 <= 80
        invariant 0 <= k <= Items(c) && syms == old(syms) + ItemSyms(e2a, c, k, obj)
        decreases 4 - k
      {
        var t := c[16 + 16 * k + 8] % 16;
        if t == 0x00 || t == 0x01 || t == 0x04 || t == 0x05 {
          var named, name := EsdName(e2a, c, k);
          if named {
            syms := syms + [Sym(name, obj)];
          }
        }
        k := k + 1;
      }
    }

    /** `read_inputs`: the length of the long names, or -1 if an input is refused. */
    method ReadInputs(inputs: seq<Input>) returns (lndata: int)
      requires objs == [] && syms == []
      modifies `objs, `syms
      ensures lndata >= 0 <==> forall i :: 0 <= i < |inputs| ==> Accepted(inputs[i])
      ensures lndata >= 0 ==>
                lndata == LongLength(objs) && Laid(objs) && syms == AllSyms(e2a, objs) && |objs| == |inputs|
      ensures lndata >= 0 ==> forall i :: 0 <= i < |inputs| ==>
                objs[i].member == Basename(inputs[i].path) && Some(objs[i].data) == inputs[i].data
    {
      hide Deck, Basename, Laid, LongLength, AllSyms, DeckSyms;
      lndata := 0;
      NoObjs(e2a);
      for i := 0 to |inputs|
        invariant |objs| == i && lndata == LongLength(objs) && Laid(objs) && syms == AllSyms(e2a, objs)
        invariant forall j :: 0 <= j < i ==>
                    Accepted(inputs[j]) && objs[j].member == Basename(inputs[j].path)
                    && Some(objs[j].data) == inputs[j].data
      {
        var inp := inputs[i];
        if inp.data.None? {
          return -1;
        }
        var deck := IsDeck(inp.data.value);
        if !deck {
          return -1;
        }
        var member := BasenameOf(inp.path);
        if |member| > MEMBER_NAME_MAX {
          return -1;
        }
        var o := Obj(member, inp.data.value, if Long(member) then lndata else -1);
        ObjAdded(e2a, objs, o);
        ScanEsd(o.data, i);
        objs := objs + [o];
        if Long(member) {
          lndata := lndata + |member| + 2;
        }
      }
    }

    /** `create`: the archive, unless an input is refused or a member is too
        large for its header. */
    method Create(inputs: seq<Input>) returns (r: Option<Bytes>)
      requires objs == [] && syms == []
      modifies `objs, `syms
      ensures r.Some? ==>
                (forall i :: 0 <= i < |inputs| ==> Accepted(inputs[i])) && Laid(objs) && syms == AllSyms(e2a, objs)
                && |objs| == |inputs|
      ensures r.Some? ==> forall i :: 0 <= i < |inputs| ==>
                objs[i].member == Basename(inputs[i].path) && Some(objs[i].data) == inputs[i].data
      ensures r.Some? ==> NamesFit(objs) && r.value == Archive(objs, syms) && Sized(AllEntries(objs, syms))
      ensures r.Some? ==> HeadersStamped(r.value, AllEntries(objs, syms))
      ensures r.None? ==>
                (exists i :: 0 <= i < |inputs| && !Accepted(inputs[i]))
                || (Owned(objs, syms) && !Sized(AllEntries(objs, syms)))
    {
      var lndata := ReadInputs(inputs);
      if lndata < 0 {
        return None;
      }
      AcceptedNames(inputs, objs);
      hide Accepted, Laid, LongLength, AllSyms, Archive, AllEntries, SymNames, ObjOffsets, Sized, Padded, Base;
      var stringtab := NamesLength(syms);
      var symdata := 4 + 4 * |syms| + stringtab;
      var base := 8 + Padded(symdata) + (if lndata > 0 then Padded(lndata) else 0);
      BaseIs(objs, syms, stringtab, symdata, base);
      var objoff := PlaceObjects(objs, base);
      r := WriteArchive(objs, syms, objoff);
      if r.Some? {
        AllStamped(objs, syms);
      }
    }
  }

  /** The header of each member holds date, owner and group 0 and mode 100644,
      and members of odd length are followed by a newline. */
  ghost predicate HeadersStamped(a: Bytes, es: seq<Entry>) {
    forall k {:trigger Offset(es, k)} :: 0 <= k < |es| ==>
      Stamped(a, Offset(es, k)) && Evened(a, Offset(es, k), |es[k].data|)
  }

  lemma AllStamped(os: seq<Obj>, ss: seq<Sym>)
    requires Owned(os, ss) && Sized(AllEntries(os, ss))
    ensures HeadersStamped(Archive(os, ss), AllEntries(os, ss))
  {
    hide Stamped, Evened, Offset, AllEntries, Image;
    var es := AllEntries(os, ss);
    forall k {:trigger Offset(es, k)} | 0 <= k < |es|
      ensures Stamped(Archive(os, ss), Offset(es, k)) && Evened(Archive(os, ss), Offset(es, k), |es[k].data|)
    {
      MembersStamped(Archive(os, ss), es, k);
    }
  }

  /** Names of accepted inputs fit the reader's buffer and hold no slash. */
  lemma AcceptedNames(inputs: seq<Input>, os: seq<Obj>)
    requires |os| == |inputs|
    requires forall i :: 0 <= i < |inputs| ==> Accepted(inputs[i]) && os[i].member == Basename(inputs[i].path)
    ensures NamesFit(os)
  {
    forall i {:trigger os[i]} | 0 <= i < |os|
      ensures |os[i].member| <= MEMBER_NAME_MAX && SLASH !in os[i].member
    {
      assert Accepted(inputs[i]);
      BasenameLast(inputs[i].path);
    }
  }

  lemma BaseIs(os: seq<Obj>, ss: seq<Sym>, stringtab: nat, symdata: nat, base: nat)
    requires stringtab == |SymNames(ss)| && symdata == 4 + 4 * |ss| + stringtab
    requires base == 8 + Padded(symdata) + if LongLength(os) > 0 then Padded(LongLength(os)) else 0
    ensures base == Base(os, ss)
  {
    hide Padded, LongLength, SymNames;
  }

  lemma NoObjs(e2a: Table)
    ensures Laid([]) && LongLength([]) == 0 && AllSyms(e2a, []) == []
  {
  }

  lemma ObjAdded(e2a: Table, os: seq<Obj>, o: Obj)
    requires Laid(os) && o.lnoff == if Long(o.member) then LongLength(os) else -1
    ensures Laid(os + [o]) && LongLength(os + [o]) == LongLength(os) + if Long(o.member) then |o.member| + 2 else 0
    ensures AllSyms(e2a, os + [o]) == AllSyms(e2a, os) + DeckSyms(e2a, o.data, |o.data| / 80, |os|)
  {
    var os' := os + [o];
    assert os'[..|os|] == os;
    forall i {:trigger os'[i]} | 0 <= i < |os'|
      ensures os'[i].lnoff == if Long(os'[i].member) then LongLength(os'[..i]) else -1
    {
      if i < |os| {
        assert os'[..i] == os[..i];
        assert os[i].lnoff == if Long(os[i].member) then LongLength(os[..i]) else -1;
      }
    }
  }

  /** The length of the string table. */
  method NamesLength(ss: seq<Sym>) returns (n: nat)
    ensures n == |SymNames(ss)|
  {
    n := 0;
    for s := 0 to |ss|
      invariant n == |SymNames(ss[..s])|
    {
      assert ss[..s + 1][..s] == ss[..s];
      n := n + |ss[s].name| + 1;
    }
    assert ss[..|ss|] == ss;
  }

  /** The loop that computes where headers go. */
  method PlaceObjects(os: seq<Obj>, base: nat) returns (offs: seq<nat>)
    ensures offs == ObjOffsets(os, base)
  {
    hide Padded, ObjOffset;
    offs := [];
    var off := base;
    ObjOffsetFirst(os, base);
    for i := 0 to |os|
      invariant |offs| == i && off == ObjOffset(os, base, i)
      invariant forall j :: 0 <= j < i ==> offs[j] == ObjOffset(os, base, j)
    {
      offs := offs + [off];
      off := off + Padded(|os[i].data|);
      ObjOffsetNext(os, base, i);
    }
  }

  /** `ar_hdr` and the data of a member; `None` if the size does not fit. */
  method WriteChunk(nameField: Bytes, data: Bytes) returns (r: Option<Bytes>)
    ensures r == if |data| <= AR_SIZE_MAX then Some(Chunk(nameField, data)) else None
  {
    if |data| > AR_SIZE_MAX {
      return None;
    }
    hide Header;
    var f := Header(nameField, |data|) + data;
    if |data| % 2 == 1 {
      f := f + [NEWLINE];
    } else {
      assert f + [] == f;
    }
    r := Some(f);
  }

  /** The data of the symbol table, from `write_symtab`. */
  method SymTable(ss: seq<Sym>, offs: seq<nat>) returns (b: Bytes)
    requires forall s :: 0 <= s < |ss| ==> ss[s].obj < |offs|
    ensures b == SymData(ss, offs)
  {
    hide Put32, SymOffsets, SymNames;
    b := Put32(|ss|);
    SymStep(ss, offs, 0);
    for s := 0 to |ss|
      invariant b == Put32(|ss|) + SymOffsets(ss[..s], offs)
    {
      SymStep(ss, offs, s);
      b := b + Put32(offs[ss[s].obj]);
    }
    assert ss[..|ss|] == ss;
    for s := 0 to |ss|
      invariant b == Put32(|ss|) + SymOffsets(ss, offs) + SymNames(ss[..s])
    {
      SymStep(ss, offs, s);
      b := b + (ss[s].name + [0]);
    }
  }

  lemma SymStep(ss: seq<Sym>, offs: seq<nat>, s: nat)
    requires (forall s :: 0 <= s < |ss| ==> ss[s].obj < |offs|) && s <= |ss|
    ensures SymOffsets(ss[..0], offs) == [] && SymNames(ss[..0]) == []
    ensures s < |ss| ==> SymOffsets(ss[..s + 1], offs) == SymOffsets(ss[..s], offs) + Put32(offs[ss[s].obj])
    ensures s < |ss| ==> SymNames(ss[..s + 1]) == SymNames(ss[..s]) + (ss[s].name + [0])
  {
    if s < |ss| {
      assert ss[..s + 1][..s] == ss[..s];
    }
  }

  method LongNames(os: seq<Obj>) returns (b: Bytes)
    ensures b == LongData(os)
  {
    b := [];
    for i := 0 to |os|
      invariant b == LongData(os[..i])
    {
      assert os[..i + 1][..i] == os[..i];
      if os[i].lnoff >= 0 {
        b := b + (os[i].member + [SLASH, NEWLINE]);
      }
    }
    assert os[..|os|] == os;
  }

  /** The tables, then `write_members`. */
  method WriteArchive(os: seq<Obj>, ss: seq<Sym>, offs: seq<nat>) returns (r: Option<Bytes>)
    requires Owned(os, ss) && Laid(os) && offs == ObjOffsets(os, Base(os, ss))
    ensures r == if Sized(AllEntries(os, ss)) then Some(Archive(os, ss)) else None
  {
    hide Chunk, SymData, LongData, NameField, Image, Laid, Entries, Base, LongLength;
    ghost var es := AllEntries(os, ss);
    var b := SymTable(ss, offs);
    var c := WriteChunk([SLASH], b);
    if c.None? {
      assert |es[0].data| > AR_SIZE_MAX;
      return None;
    }
    ImageMore(es, 0);
    NoImage(es);
    var f := MAGIC + c.value;
    if LongLength(os) > 0 {
      var l := LongNames(os);
      assert es[1] == Entry([SLASH, SLASH], LongData(os));
      c := WriteChunk([SLASH, SLASH], l);
      if c.None? {
        return None;
      }
      ImageMore(es, 1);
      f := f + c.value;
    }
    r := WriteMembers(os, ss, f);
  }

  lemma NoImage(es: seq<Entry>)
    ensures Image(es[..0]) == []
  {
  }

  /** `write_members` */
  method WriteMembers(os: seq<Obj>, ss: seq<Sym>, f0: Bytes) returns (r: Option<Bytes>)
    requires Owned(os, ss) && f0 == MAGIC + Image(AllEntries(os, ss)[..|Front(os, ss)|])
    requires forall k {:trigger AllEntries(os, ss)[k]} :: 0 <= k < |Front(os, ss)| ==>
               |AllEntries(os, ss)[k].data| <= AR_SIZE_MAX
    ensures r == if Sized(AllEntries(os, ss)) then Some(Archive(os, ss)) else None
  {
    hide Chunk, NameField, Image, Front, AllEntries, Sized;
    ghost var es, n := AllEntries(os, ss), |Front(os, ss)|;
    EntryAt(os, ss, 0);
    var f := f0;
    for i := 0 to |os|
      invariant f == MAGIC + Image(es[..n + i])
      invariant forall k {:trigger es[k]} :: 0 <= k < n + i ==> |es[k].data| <= AR_SIZE_MAX
    {
      EntryAt(os, ss, i);
      var c := WriteChunk(NameField(os[i]), os[i].data);
      if c.None? {
        NotSized(es, n + i);
        return None;
      }
      ImageMore(es, n + i);
      f := f + c.value;
    }
    assert es[..n + |os|] == es;
    AllSized(es);
    r := Some(f);
  }

  lemma NotSized(es: seq<Entry>, k: nat)
    requires k < |es| && |es[k].data| > AR_SIZE_MAX
    ensures !Sized(es)
  {
  }

  lemma AllSized(es: seq<Entry>)
    requires forall k {:trigger es[k]} :: 0 <= k < |es| ==> |es[k].data| <= AR_SIZE_MAX
    ensures Sized(es)
  {
  }

  /** The listing shows the objects' names and sizes in order, and each symbol
      with the header of the object that defines it. */
  ghost predicate Shows(l: Listing, os: seq<Obj>, ss: seq<Sym>)
    requires forall s :: 0 <= s < |ss| ==> ss[s].obj < |os|
  {
    && |l.members| == |os| && |l.symbols| == |ss|
    && (forall i :: 0 <= i < |os| ==> l.members[i] == Member(os[i].member, |os[i].data|))
    && (forall s :: 0 <= s < |ss| ==> l.symbols[s] == Symbol(ss[s].name, Pos(os, ss, ss[s].obj), os[ss[s].obj].member))
  }

  /** Listing what `Create` writes of accepted inputs shows what it was given, if
      and only if all names are readable. */
  lemma RoundTrip(e2a: Table, os: seq<Obj>)
    requires Laid(os) && NamesFit(os) && Sized(AllEntries(os, AllSyms(e2a, os)))
    requires |Archive(os, AllSyms(e2a, os))| < 0x1_0000_0000
    ensures var ss, r := AllSyms(e2a, os), List(Archive(os, AllSyms(e2a, os)));
            r.Listed? && (Shows(r.listing, os, ss) <==> AllReadable(os))
  {
    hide Laid, AllSyms, Archive, AllEntries, List, Pos, MembersOf, SymbolsOf, AllReadable;
    var ss := AllSyms(e2a, os);
    assert Formed(os, ss);
    ListMembersExactly(os, ss);
    ListingMembers(os);
    ListingSymbols(os, ss);
    var r := List(Archive(os, ss));
    if AllReadable(os) {
      ListCreated(os, ss);
    } else {
      assert r.listing.members != MembersOf(os, 0);
    }
  }
}
