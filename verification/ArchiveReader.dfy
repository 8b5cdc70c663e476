/**
 The reading side of ar370.c: `member_name`, `list` and `list_symbols`.
 */
module ArchiveReader {
  import opened ArchiveFormat
  import opened ArchiveWalk

  /** Where the symbol table and the long names are, -1 if there are none. */
  datatype Tables = Tables(symtab: int, longNames: int, longLength: int)

  datatype Member = Member(name: Bytes, size: int)
  datatype Symbol = Symbol(name: Bytes, offset: nat, member: Bytes)
  datatype Listing = Listing(members: seq<Member>, symbols: seq<Symbol>)

  /** Not an archive; the walk goes on for ever; it leaves the file; or a listing. */
  datatype Outcome = NotArchive | NeverEnds | LeavesFile | Listed(listing: Listing)

  // ----- names -----

  /** The bytes from `i` to the first `stop` or `stop'`, before `end` and no more than `room`. */
  function Scan(a: Bytes, i: nat, end: nat, stop: Byte, stop': Byte, room: nat): (s: Bytes)
    decreases room
  {
    if i < end && i < |a| && a[i] != stop && a[i] != stop' && room > 0
    then [a[i]] + Scan(a, i + 1, end, stop, stop', room - 1)
    else []
  }

  /** The loops of `member_name`. */
  method ScanName(a: Bytes, i: nat, end: nat, stop: Byte, stop': Byte, room: nat) returns (s: Bytes)
    ensures s == Scan(a, i, end, stop, stop', room)
  {
    s := [];
    while i + |s| < end && i + |s| < |a| && a[i + |s|] != stop && a[i + |s|] != stop' && |s| < room
      invariant |s| <= room && s + Scan(a, i + |s|, end, stop, stop', room - |s|) == Scan(a, i, end, stop, stop', room)
      decreases room - |s|
    {
      s := s + [a[i + |s|]];
    }
  }

  lemma {:induction false} ScanReads(a: Bytes, i: nat, end: nat, stop: Byte, stop': Byte, room: nat, s: Bytes)
    requires Stands(a, i, s) && i + |s| <= end && |s| <= room && stop !in s && stop' !in s
    requires i + |s| < end && |s| < room ==> At(a, i + |s|) == stop || At(a, i + |s|) == stop'
    requires i + |s| < |a|
    ensures Scan(a, i, end, stop, stop', room) == s
    decreases |s|
  {
    if s != [] {
      StandsAt(a, i, s, 0);
      assert s == [s[0]] + s[1..];
      StandsParts(a, i, [s[0]], s[1..]);
      ScanReads(a, i + 1, end, stop, stop', room - 1, s[1..]);
      assert a[i] in s;
    }
  }

  /** The bytes at which it stops are not among them. */
  lemma {:induction false} ScanClean(a: Bytes, i: nat, end: nat, stop: Byte, stop': Byte, room: nat)
    ensures stop !in Scan(a, i, end, stop, stop', room) && stop' !in Scan(a, i, end, stop, stop', room)
    decreases room
  {
    if room > 0 {
      ScanClean(a, i + 1, end, stop, stop', room - 1);
    }
  }

  /** `member_name` of the header at `h` */
  function MemberName(a: Bytes, h: nat, t: Tables): Bytes {
    if At(a, h) == SLASH && IsDigit(At(a, h + 1)) && t.longNames >= 0 then
      var o := Atol(a, h + 1);
      if o < 0 then []
          else Scan(a, t.longNames + o, t.longNames + (if t.longLength > 0 then t.longLength else 0), SLASH, NEWLINE,
                    MEMBER_NAME_MAX)
    else Scan(a, h, h + 16, SLASH, SPACE, MEMBER_NAME_MAX)
  }

  method ReadName(a: Bytes, h: nat, t: Tables) returns (name: Bytes)
    ensures name == MemberName(a, h, t)
  {
    hide Scan, Atol;
    if At(a, h) == SLASH && IsDigit(At(a, h + 1)) && t.longNames >= 0 {
      var o := Atol(a, h + 1);
      if o < 0 {
        return [];
      }
      name := ScanName(a, t.longNames + o, t.longNames + (if t.longLength > 0 then t.longLength else 0), SLASH, NEWLINE,
                       MEMBER_NAME_MAX);
    } else {
      name := ScanName(a, h, h + 16, SLASH, SPACE, MEMBER_NAME_MAX);
    }
  }

  // ----- the walks -----

  function Noted(a: Bytes, q: nat, t: Tables): Tables {
    if At(a, q) == SLASH && At(a, q + 1) == SPACE then t.(symtab := q + 60)
    else if At(a, q) == SLASH && At(a, q + 1) == SLASH then t.(longNames := q + 60, longLength := SizeAt(a, q))
    else t
  }

  /** What the first walk has found after the headers `hs`. */
  function FindTables(a: Bytes, hs: seq<nat>, t: Tables): Tables {
    if hs == [] then t else FindTables(a, hs[1..], Noted(a, hs[0], t))
  }

  predicate Shown(a: Bytes, p: nat) {
    At(a, p) != SLASH || IsDigit(At(a, p + 1))
  }

  /** What the second walk shows of the headers `hs`. */
  function MembersFrom(a: Bytes, hs: seq<nat>, t: Tables): seq<Member> {
    if hs == [] then [] else ShownAt(a, hs[0], t) + MembersFrom(a, hs[1..], t)
  }

  function ShownAt(a: Bytes, p: nat, t: Tables): (r: seq<Member>)
    ensures |r| <= 1
  {
    if Shown(a, p) then [Member(MemberName(a, p, t), SizeAt(a, p))] else []
  }

  function Get32(a: Bytes, i: nat): nat {
    ((At(a, i) as int * 256 + At(a, i + 1)) * 256 + At(a, i + 2)) * 256 + At(a, i + 3)
  }

  function Owner(a: Bytes, offset: nat, t: Tables): Bytes {
    if offset >= 8 && offset + 60 <= |a| then MemberName(a, offset, t) else [63]
  }

  /** The symbols from the `s`-th on, whose names start at `names`. */
  function SymbolsFrom(a: Bytes, t: Tables, s: nat, count: nat, names: nat): seq<Symbol>
    requires t.symtab >= 0 && s <= count
    decreases count - s
  {
    if s == count then []
    else
      var o, name := Get32(a, t.symtab + 4 + 4 * s), Scan(a, names, |a|, 0, 0, |a|);
      [Symbol(name, o, Owner(a, o, t))] + SymbolsFrom(a, t, s + 1, count, names + |name| + 1)
  }

  function List(a: Bytes): Outcome {
    if |a| < 8 || a[..8] != MAGIC then NotArchive
    else match Walk(a, 8, {})
      case Endless => NeverEnds
      case Before => LeavesFile
      case Past(hs) => Listed(ListingOf(a, hs, FindTables(a, hs, Tables(-1, -1, 0))))
  }

  function ListingOf(a: Bytes, hs: seq<nat>, t: Tables): Listing {
    Listing(MembersFrom(a, hs, t), SymbolList(a, t))
  }

  function SymbolList(a: Bytes, t: Tables): seq<Symbol> {
    if t.symtab < 0 then []
    else
      var count := Get32(a, t.symtab);
      SymbolsFrom(a, t, 0, count, t.symtab + 4 + 4 * count)
  }

  /** `list_symbols` */
  method ReadSymbols(a: Bytes, t: Tables) returns (symbols: seq<Symbol>)
    requires t.symtab >= 0
    ensures var count := Get32(a, t.symtab); symbols == SymbolsFrom(a, t, 0, count, t.symtab + 4 + 4 * count)
  {
    hide Scan, MemberName, Get32;
    var count := Get32(a, t.symtab);
    var names: nat := t.symtab + 4 + 4 * count;
    symbols := [];
    for s := 0 to count
      invariant symbols + SymbolsFrom(a, t, s, count, names) == SymbolsFrom(a, t, 0, count, t.symtab + 4 + 4 * count)
    {
      var o := Get32(a, t.symtab + 4 + 4 * s);
      var member: Bytes := [63];
      if o >= 8 && o + 60 <= |a| {
        member := ReadName(a, o, t);
      }
      var name := ScanName(a, names, |a|, 0, 0, |a|);
      symbols := symbols + [Symbol(name, o, member)];
      names := names + |name| + 1;
    }
  }

  /** `list`. The set `seen` is not in the source: it tells where the source
      would go on for ever. */
  method ListArchive(a: Bytes) returns (r: Outcome)
    ensures r == List(a)
  {
    hide Scan, MemberName, Get32, SymbolsFrom, SizeAt, Shown, Noted, FindTables, MembersFrom;
    if |a| < 8 || a[..8] != MAGIC {
      return NotArchive;
    }
    var q: int := 8;
    var t := Tables(-1, -1, 0);
    var seen: set<int> := {};
    ghost var hs: seq<nat> := [];
    NoHeaders(a, t);
    JoinedNone(Walk(a, 8, {}));
    while q + 60 <= |a|
      invariant Joined(hs, Walk(a, q, seen)) == Walk(a, 8, {}) && t == FindTables(a, hs, Tables(-1, -1, 0))
      decreases Below(|a|) - seen
    {
      if q < 0 {
        return LeavesFile;
      }
      if q in seen {
        return NeverEnds;
      }
      OneHeader(a, q, hs, Tables(-1, -1, 0), t);
      JoinedTwice(hs, [q], Walk(a, Next(a, q), seen + {q}));
      assert q in Below(|a|);
      t, seen, hs := Noted(a, q, t), seen + {q}, hs + [q];
      q := Next(a, q);
    }
    var members := ReadMembers(a, t, hs);
    var symbols: seq<Symbol> := [];
    if t.symtab >= 0 {
      symbols := ReadSymbols(a, t);
    }
    r := Listed(Listing(members, symbols));
  }

  /** The second walk, which goes the way of the first. */
  method ReadMembers(a: Bytes, t: Tables, ghost hs: seq<nat>) returns (members: seq<Member>)
    requires Walk(a, 8, {}) == Past(hs)
    ensures members == MembersFrom(a, hs, t)
  {
    hide MemberName, SizeAt, Shown, Walk, MembersFrom, ShownAt;
    var p: int := 8;
    members := [];
    ghost var rest, seen: set<int> := hs, {};
    while p + 60 <= |a|
      invariant Walk(a, p, seen) == Past(rest) && members + MembersFrom(a, rest, t) == MembersFrom(a, hs, t)
      decreases |rest|
    {
      PastFirst(a, p, seen);
      MembersStep(a, rest, t);
      ShownIs(a, p, t);
      if Shown(a, p) {
        var name := ReadName(a, p, t);
        members := members + [Member(name, SizeAt(a, p))];
      }
      rest, seen := rest[1..], seen + {p};
      p := Next(a, p);
    }
    PastNone(a, p, seen);
    MembersStep(a, rest, t);
  }

  lemma PastNone(a: Bytes, q: int, seen: set<int>)
    requires q + 60 > |a|
    ensures Walk(a, q, seen) == Past([])
  {
  }

  lemma MembersStep(a: Bytes, hs: seq<nat>, t: Tables)
    ensures MembersFrom(a, [], t) == []
    ensures hs != [] ==> MembersFrom(a, hs, t) == ShownAt(a, hs[0], t) + MembersFrom(a, hs[1..], t)
  {
  }

  lemma ShownIs(a: Bytes, p: nat, t: Tables)
    ensures ShownAt(a, p, t) == if Shown(a, p) then [Member(MemberName(a, p, t), SizeAt(a, p))] else []
  {
  }

  lemma PastFirst(a: Bytes, q: int, seen: set<int>)
    requires Walk(a, q, seen).Past? && q + 60 <= |a|
    ensures var hs := Walk(a, q, seen).headers;
            0 <= q && hs != [] && hs[0] == q && Walk(a, Next(a, q), seen + {q}) == Past(hs[1..])
  {
    var rest := Walk(a, Next(a, q), seen + {q});
    assert ([q as nat] + rest.headers)[1..] == rest.headers;
  }

  lemma NoHeaders(a: Bytes, t: Tables)
    ensures FindTables(a, [], t) == t
  {
  }

  lemma JoinedNone(t: Trip)
    ensures Joined([], t) == t
  {
    if t.Past? {
      assert [] + t.headers == t.headers;
    }
  }

  lemma JoinedTwice(hs: seq<nat>, more: seq<nat>, t: Trip)
    ensures Joined(hs + more, t) == Joined(hs, Joined(more, t))
  {
    if t.Past? {
      assert (hs + more) + t.headers == hs + (more + t.headers);
    }
  }

  /** The first walk notes one header after another. */
  lemma {:induction false} OneHeader(a: Bytes, q: nat, hs: seq<nat>, t0: Tables, t: Tables)
    requires t == FindTables(a, hs, t0)
    ensures FindTables(a, hs + [q], t0) == Noted(a, q, t)
    decreases |hs|
  {
    hide Noted;
    if hs == [] {
      assert FindTables(a, [q], t0) == FindTables(a, [], Noted(a, q, t0));
    } else {
      OneHeader(a, q, hs[1..], Noted(a, hs[0], t0), t);
      assert (hs + [q])[1..] == hs[1..] + [q];
    }
  }

  // ----- when the listing ends -----

  /** Of a file that is an archive, `list` never ends exactly if every round of
      its walk finds a header, which is exactly if it comes back to one; it reads before the file
      exactly if a round steps before it; and otherwise it lists. */
  lemma ListExact(a: Bytes)
    requires |a| >= 8 && a[..8] == MAGIC
    ensures List(a) == NeverEnds <==> forall n: nat :: Here(a, After(a, 8, n))
    ensures List(a) == NeverEnds <==> exists i: nat, j: nat :: Revisits(a, 8, i, j)
    ensures List(a) == LeavesFile <==> exists n: nat :: After(a, 8, n) < 0 && After(a, 8, n) + 60 <= |a|
    ensures List(a).Listed? <==> exists n: nat :: After(a, 8, n) + 60 > |a|
    ensures Advances(a, 8) ==> List(a).Listed?
  {
    hide Walk, ListingOf;
    WalkExact(a, 8);
    AdvancesExactly(a, 8);
  }

  /** A file on which it never ends, and one on which it steps back and lists three members. */
  lemma ListExamples()
    ensures List(Standing()) == NeverEnds
    ensures List(Backward()).Listed? && |List(Backward()).listing.members| == 3
  {
    hide Walk, Standing, Backward, MemberName, SizeAt;
    StandingStill(0);
    BackwardEnds();
    BackwardShown();
    var a, hs := Backward(), [8, 128, 98];
    var t := FindTables(a, hs, Tables(-1, -1, 0));
    assert hs[1..] == [128, 98] && hs[1..][1..] == [98] && [98][1..] == [];
    assert |MembersFrom(a, [98], t)| == 1;
    assert |MembersFrom(a, [128, 98], t)| == 2;
  }

  lemma BackwardShown()
    ensures Shown(Backward(), 8) && Shown(Backward(), 128) && Shown(Backward(), 98)
  {
  }
}
