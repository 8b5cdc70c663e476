/**
 Object decks (ar370.c): what makes one, and the symbols its ESD cards define.
 */
module ObjectDecks {
  import opened ArchiveFormat
  import opened ArchiveWriter

  /** Card `c` of a deck begins with X'02'. */
  predicate CardOk(d: Bytes, c: nat) {
    80 * c < |d| && d[80 * c] == 0x02
  }

  predicate EndCard(d: Bytes, c: nat) {
    80 * c + 80 <= |d| && d[80 * c + 1] == 0xC5 && d[80 * c + 2] == 0xD5 && d[80 * c + 3] == 0xC4
  }

  /** Cards of 80 bytes that all begin with X'02', an END card among them. */
  ghost predicate Deck(d: Bytes) {
    && |d| > 0 && |d| % 80 == 0
    && (forall c: nat {:trigger CardOk(d, c)} :: c < |d| / 80 ==> CardOk(d, c))
    && (exists c: nat :: EndCard(d, c))
  }

  /** `not_a_deck`, with the opposite answer */
  method IsDeck(d: Bytes) returns (r: bool)
    ensures r <==> Deck(d)
  {
    if |d| >= 8 && d[..8] == MAGIC {
      assert d[0] == d[..8][0] == 33;
      assert |d| / 80 > 0 ==> !CardOk(d, 0);
      return false;
    }
    if |d| == 0 || |d| % 80 != 0 {
      return false;
    }
    var end, c := false, 0;
    while 80 * c < |d|
      invariant 0 <= c <= |d| / 80
      invariant forall k: nat {:trigger CardOk(d, k)} :: k < c ==> CardOk(d, k)
      invariant end <==> exists k: nat :: k < c && EndCard(d, k)
    {
      if d[80 * c] != 0x02 {
        assert !CardOk(d, c);
        return false;
      }
      if EndCard(d, c) {
        end := true;
      }
      c := c + 1;
    }
    r := end;
  }

  // ----- symbols -----

  /** The EBCDIC table of the toolchain, which gives printable characters. */
  type Table = t: Bytes | |t| == 256 && forall i :: 0 <= i < 256 ==> 0x20 <= t[i] < 0x7f witness seq(256, _ => 0x3f)

  /** Without the blanks at the end. */
  function Trim(s: Bytes): (r: Bytes)
    ensures r <= s
  {
    if s != [] && s[|s| - 1] == SPACE then Trim(s[..|s| - 1]) else s
  }

  lemma {:induction false} TrimIs(s: Bytes)
    ensures Trim(s) <= s && (Trim(s) != [] ==> Trim(s)[|Trim(s)| - 1] != SPACE)
    ensures forall i :: |Trim(s)| <= i < |s| ==> s[i] == SPACE
  {
    if s != [] && s[|s| - 1] == SPACE {
      TrimIs(s[..|s| - 1]);
    }
  }

  predicate EsdCard(c: Bytes) {
    |c| == 80 && c[0] == 0x02 && c[1] == 0xC5 && c[2] == 0xE2 && c[3] == 0xC4
  }

  /** ESD item `k` of a card is a section, label, private code or common block. */
  predicate Exported(c: Bytes, k: nat)
    requires |c| == 80 && k < 4
  {
    c[24 + 16 * k] % 16 in {0x00, 0x01, 0x04, 0x05}
  }

  function NameByte(c: Bytes, k: nat, j: nat): Byte
    requires |c| == 80 && k < 4 && j < 8
  {
    c[16 + 16 * k + j]
  }

  /** It has a name: a byte of it is not the EBCDIC blank. */
  predicate Named(c: Bytes, k: nat)
    requires |c| == 80 && k < 4
  {
    exists j: nat :: j < 8 && NameByte(c, k, j) != 0x40
  }

  function ItemText(e2a: Table, c: Bytes, k: nat, n: nat): (r: Bytes)
    requires |c| == 80 && k < 4 && n <= 8
    ensures |r| == n && forall j :: 0 <= j < n ==> r[j] != 0
  {
    seq(n, j requires 0 <= j < n => e2a[NameByte(c, k, j)])
  }

  function ItemName(e2a: Table, c: Bytes, k: nat): (r: Bytes)
    requires |c| == 80 && k < 4
    ensures 0 !in r && |r| <= 8
  {
    Trim(ItemText(e2a, c, k, 8))
  }

  /** `esd_name` */
  method EsdName(e2a: Table, c: Bytes, k: nat) returns (named: bool, name: Bytes)
    requires |c| == 80 && k < 4
    ensures named == Named(c, k) && name == ItemName(e2a, c, k)
  {
    named, name := false, [];
    for j := 0 to 8
      invariant name == ItemText(e2a, c, k, j)
      invariant named <==> exists i: nat :: i < j && NameByte(c, k, i) != 0x40
    {
      name := name + [e2a[NameByte(c, k, j)]];
      if NameByte(c, k, j) != 0x40 {
        named := true;
      }
    }
    while name != [] && name[|name| - 1] == SPACE
      invariant Trim(name) == ItemName(e2a, c, k)
      decreases |name|
    {
      name := name[..|name| - 1];
    }
  }

  /** The symbols of the first `k` items of a card. */
  function ItemSyms(e2a: Table, c: Bytes, k: nat, obj: nat): (r: seq<Sym>)
    requires |c| == 80 && k <= 4
    ensures forall s :: s in r ==> s.obj == obj && 0 !in s.name
  {
    if k == 0 then []
    else
      ItemSyms(e2a, c, k - 1, obj)
      + (if Exported(c, k - 1) && Named(c, k - 1) then [Sym(ItemName(e2a, c, k - 1), obj)] else [])
  }

  /** How many items a card holds. */
  function Items(c: Bytes): (n: nat)
    requires |c| == 80
    ensures n <= 4
  {
    var count := 256 * c[10] as int + c[11];
    if (count + 15) / 16 < 4 then (count + 15) / 16 else 4
  }

  function CardSyms(e2a: Table, c: Bytes, obj: nat): (r: seq<Sym>)
    requires |c| == 80
    ensures forall s :: s in r ==> s.obj == obj && 0 !in s.name
  {
    if EsdCard(c) then ItemSyms(e2a, c, Items(c), obj) else []
  }

  function Card(d: Bytes, n: nat): (c: Bytes)
    requires 80 * n + 80 <= |d|
    ensures |c| == 80
  {
    d[80 * n..80 * n + 80]
  }

  /** The symbols of the first `n` cards. */
  function DeckSyms(e2a: Table, d: Bytes, n: nat, obj: nat): (r: seq<Sym>)
    requires 80 * n <= |d|
    ensures forall s :: s in r ==> s.obj == obj && 0 !in s.name
  {
    if n == 0 then [] else DeckSyms(e2a, d, n - 1, obj) + CardSyms(e2a, Card(d, n - 1), obj)
  }

  function AllSyms(e2a: Table, os: seq<Obj>): (r: seq<Sym>)
    ensures forall s :: s in r ==> s.obj < |os| && 0 !in s.name
    ensures forall i {:trigger r[i]} :: 0 <= i < |r| ==> r[i].obj < |os| && 0 !in r[i].name
  {
    if os == [] then []
    else
      var n := |os| - 1;
      AllSyms(e2a, os[..n]) + DeckSyms(e2a, os[n].data, |os[n].data| / 80, n)
  }

  // ----- which symbols these are -----

  /** Item `k` of card `c` is listed under `name`. */
  predicate Lists(e2a: Table, c: Bytes, k: nat, name: Bytes) {
    EsdCard(c) && k < Items(c) && Exported(c, k) && Named(c, k) && name == ItemName(e2a, c, k)
  }

  /** Some item of card `n` of a deck is. */
  ghost predicate CardLists(e2a: Table, d: Bytes, n: nat, name: Bytes) {
    80 * n + 80 <= |d| && exists k: nat :: Lists(e2a, Card(d, n), k, name)
  }

  lemma {:induction false} InItems(e2a: Table, c: Bytes, k: nat, obj: nat, name: Bytes)
    requires EsdCard(c) && k <= Items(c)
    ensures Sym(name, obj) in ItemSyms(e2a, c, k, obj) <==> exists j: nat :: j < k && Lists(e2a, c, j, name)
  {
    hide Exported, Named, ItemName;
    if k > 0 {
      InItems(e2a, c, k - 1, obj, name);
      var last := if Exported(c, k - 1) && Named(c, k - 1) then [Sym(ItemName(e2a, c, k - 1), obj)] else [];
      assert ItemSyms(e2a, c, k, obj) == ItemSyms(e2a, c, k - 1, obj) + last;
      assert Sym(name, obj) in last <==> Lists(e2a, c, k - 1, name);
      if j: nat :| j < k && Lists(e2a, c, j, name) {
        assert j == k - 1 || j < k - 1;
      }
    }
  }

  lemma {:induction false} InDeck(e2a: Table, d: Bytes, n: nat, obj: nat, name: Bytes)
    requires 80 * n <= |d|
    ensures Sym(name, obj) in DeckSyms(e2a, d, n, obj) <==> exists m: nat :: m < n && CardLists(e2a, d, m, name)
  {
    hide ItemSyms, Lists, Card;
    if n > 0 {
      InDeck(e2a, d, n - 1, obj, name);
      InCard(e2a, d, n - 1, obj, name);
    }
  }

  lemma InCard(e2a: Table, d: Bytes, n: nat, obj: nat, name: Bytes)
    requires 80 * n + 80 <= |d|
    ensures Sym(name, obj) in CardSyms(e2a, Card(d, n), obj) <==> CardLists(e2a, d, n, name)
  {
    var c := Card(d, n);
    if EsdCard(c) {
      InItems(e2a, c, Items(c), obj, name);
    }
  }

  /** A symbol of object `obj` is recorded if and only if an item of an ESD card of
      that object's deck has a listed type, a name that is not blank, and that name
      without its trailing blanks. */
  lemma {:induction false} SymbolsExactly(e2a: Table, os: seq<Obj>, obj: nat, name: Bytes)
    ensures Sym(name, obj) in AllSyms(e2a, os) <==> obj < |os| && exists n: nat :: CardLists(e2a, os[obj].data, n, name)
  {
    hide DeckSyms, CardLists;
    if os != [] {
      var n := |os| - 1;
      SymbolsExactly(e2a, os[..n], obj, name);
      DeckExactly(e2a, os[n].data, obj, name);
      if obj == n {
        assert Sym(name, obj) !in AllSyms(e2a, os[..n]);
      }
    }
  }

  lemma DeckExactly(e2a: Table, d: Bytes, obj: nat, name: Bytes)
    ensures Sym(name, obj) in DeckSyms(e2a, d, |d| / 80, obj) <==> exists n: nat :: CardLists(e2a, d, n, name)
  {
    hide DeckSyms, Lists;
    InDeck(e2a, d, |d| / 80, obj, name);
  }
}
