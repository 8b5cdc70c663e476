/**
 The layout of `ar` archives as ar370 writes and reads it (ar370.c): decimal
 fields, member headers, and a walk from header to header.
 */
module ArchiveFormat {

  type Byte = b: int | 0 <= b < 256
  type Bytes = seq<Byte>

  const SLASH: Byte := 47
  const SPACE: Byte := 32
  const NEWLINE: Byte := 10
  const MAGIC: Bytes := [33, 60, 97, 114, 99, 104, 62, 10]
  const AR_SIZE_MAX: int := 9_999_999_999
  const MEMBER_NAME_MAX: nat := 63

  /** A byte of the file; there is a NUL after its end. */
  function At(a: Bytes, i: nat): Byte {
    if i < |a| then a[i] else 0
  }

  /** `s` stands in `a` at `i`. */
  predicate Stands(a: Bytes, i: nat, s: Bytes) {
    i + |s| <= |a| && a[i..i + |s|] == s
  }

  lemma StandsAt(a: Bytes, i: nat, s: Bytes, k: nat)
    requires Stands(a, i, s) && k < |s|
    ensures i + k < |a| && a[i + k] == s[k]
  {
    assert a[i..i + |s|][k] == s[k];
  }

  /** The parts of what stands there stand there. */
  lemma StandsParts(a: Bytes, i: nat, s: Bytes, t: Bytes)
    requires Stands(a, i, s + t)
    ensures Stands(a, i, s) && Stands(a, i + |s|, t)
  {
    assert a[i..i + |s|] == a[i..i + |s + t|][..|s|];
    assert a[i + |s|..i + |s| + |t|] == a[i..i + |s + t|][|s|..];
  }

  // ----- decimal numbers -----

  predicate IsDigit(b: Byte) {
    48 <= b <= 57
  }

  function Digits(n: nat): (s: Bytes)
    ensures s != [] && forall i :: 0 <= i < |s| ==> IsDigit(s[i])
  {
    if n < 10 then [48 + n] else Digits(n / 10) + [48 + n % 10]
  }

  function Value(s: Bytes): int
    requires forall i :: 0 <= i < |s| ==> IsDigit(s[i])
  {
    if s == [] then 0 else Value(s[..|s| - 1]) * 10 + s[|s| - 1] as int - 48
  }

  lemma {:induction false} DigitsValue(n: nat)
    ensures Value(Digits(n)) == n
  {
    if n >= 10 {
      DigitsValue(n / 10);
      assert Digits(n)[..|Digits(n)| - 1] == Digits(n / 10);
    } else {
      assert Digits(n)[..|Digits(n)| - 1] == [];
    }
  }

  function Pow10(k: nat): int {
    if k == 0 then 1 else 10 * Pow10(k - 1)
  }

  lemma {:induction false} DigitsLength(n: nat, k: nat)
    requires k > 0 && n < Pow10(k)
    ensures |Digits(n)| <= k
  {
    if n >= 10 {
      DigitsLength(n / 10, k - 1);
    }
  }

  function SkipBlanks(a: Bytes, i: nat): (j: nat)
    ensures j >= i
    decreases |a| - i
  {
    if i < |a| && (a[i] == SPACE || 9 <= a[i] <= 13) then SkipBlanks(a, i + 1) else i
  }

  function Number(a: Bytes, i: nat, acc: int): int
    decreases |a| - i
  {
    if i < |a| && IsDigit(a[i]) then Number(a, i + 1, acc * 10 + (a[i] - 48)) else acc
  }

  /** `atol` */
  function Atol(a: Bytes, i: nat): int {
    var j := SkipBlanks(a, i);
    if At(a, j) == 45 then -Number(a, j + 1, 0)
    else if At(a, j) == 43 then Number(a, j + 1, 0)
    else Number(a, j, 0)
  }

  lemma {:induction false} NumberReads(a: Bytes, i: nat, s: Bytes, k: nat)
    requires Stands(a, i, s) && k <= |s| && (forall j :: 0 <= j < |s| ==> IsDigit(s[j])) && !IsDigit(At(a, i + |s|))
    ensures Number(a, i + k, Value(s[..k])) == Value(s)
    decreases |s| - k
  {
    if k < |s| {
      StandsAt(a, i, s, k);
      NumberReads(a, i, s, k + 1);
      assert s[..k + 1][..k] == s[..k];
    } else {
      assert s[..k] == s;
    }
  }

  lemma AtolReads(a: Bytes, i: nat, n: nat)
    requires Stands(a, i, Digits(n)) && !IsDigit(At(a, i + |Digits(n)|))
    ensures Atol(a, i) == n
  {
    StandsAt(a, i, Digits(n), 0);
    NumberReads(a, i, Digits(n), 0);
    DigitsValue(n);
    assert Digits(n)[..0] == [];
  }

  // ----- headers -----

  /** A field of width `w`, blank on the right. */
  function Pad(s: Bytes, w: nat): (r: Bytes)
    ensures |r| == (if |s| < w then w else |s|) && s <= r
    ensures forall i :: |s| <= i < |r| ==> r[i] == SPACE
  {
    if |s| < w then s + seq(w - |s|, _ => SPACE) else s
  }

  function Cut(s: Bytes, w: nat): Bytes {
    if |s| <= w then s else s[..w]
  }

  /** `ar_hdr`, for a size that fits its field. */
  function Header(nameField: Bytes, size: nat): Bytes {
    Pad(Cut(nameField, 16),
        16) + (Pad([48], 12) + Pad([48], 6) + Pad([48], 6) + Pad([49, 48, 48, 54, 52, 52], 8)) + (Pad(Digits(size),
              10) + [96, 10])
  }

  lemma HeaderFields(nameField: Bytes, size: nat)
    requires size <= AR_SIZE_MAX
    ensures |Header(nameField, size)| == 60 && Header(nameField, size)[..16] == Pad(Cut(nameField, 16), 16)
    ensures Header(nameField, size)[48..] == Pad(Digits(size), 10) + [96, 10] && |Digits(size)| <= 10
  {
    assert Pow10(10) == AR_SIZE_MAX + 1;
    DigitsLength(size, 10);
  }

  /** A member: header, data, and a byte that keeps the next header even. */
  function Chunk(nameField: Bytes, data: Bytes): Bytes {
    Header(nameField, |data|) + data + (if |data| % 2 == 1 then [NEWLINE] else [])
  }

  function SizeAt(a: Bytes, q: nat): int {
    Atol(a, q + 48)
  }

  /** How far it is from one header to the next. */
  function Stride(size: int): int {
    60 + size + size % 2
  }

  /** The fields of the header at `q` that no walk looks at: date, owner and
      group 0, mode 100644, and the end mark. */
  ghost predicate Stamped(a: Bytes, q: nat) {
    && q + 60 <= |a| && Atol(a, q + 16) == 0 && Atol(a, q + 28) == 0 && Atol(a, q + 34) == 0
    && a[q + 40..q + 48] == [49, 48, 48, 54, 52, 52, SPACE, SPACE] && a[q + 58..q + 60] == [96, 10]
  }

  /** After data of odd length comes a newline. */
  ghost predicate Evened(a: Bytes, q: nat, size: nat) {
    size % 2 == 1 ==> q + 60 + size < |a| && a[q + 60 + size] == NEWLINE
  }

  /** Where a member stands, the reader finds its name field, size and data, and
      the header's other fields are as they should be. */
  lemma ChunkReads(a: Bytes, q: nat, nameField: Bytes, data: Bytes)
    requires Stands(a, q, Chunk(nameField, data)) && |data| <= AR_SIZE_MAX
    ensures |Chunk(nameField, data)| == Stride(|data|) && SizeAt(a, q) == |data|
    ensures q + 60 <= |a| && Stands(a, q, Pad(Cut(nameField, 16), 16)) && Stands(a, q + 60, data)
    ensures Stamped(a, q) && Evened(a, q, |data|)
  {
    var h, tail := Header(nameField, |data|), (if |data| % 2 == 1 then [NEWLINE] else []);
    HeaderFields(nameField, |data|);
    StandsParts(a, q, h + data, tail);
    StandsParts(a, q, h, data);
    StampReads(a, q, nameField, |data|);
    if |data| % 2 == 1 {
      StandsAt(a, q + |h + data|, tail, 0);
    }
    assert h == h[..16] + h[16..48] + h[48..];
    StandsParts(a, q, h[..16] + h[16..48], h[48..]);
    StandsParts(a, q, h[..16], h[16..48]);
    FieldReads(a, q + 48, |data|);
  }

  lemma StampReads(a: Bytes, q: nat, nameField: Bytes, size: nat)
    requires Stands(a, q, Header(nameField, size)) && size <= AR_SIZE_MAX
    ensures Stamped(a, q)
  {
    hide Stands, Atol, Digits, Pad;
    HeaderParts(nameField, size);
    var name, long, short, mode :=
        Pad(Cut(nameField, 16), 16), Pad([48], 12), Pad([48], 6), Pad([49, 48, 48, 54, 52, 52], 8);
    var end := Pad(Digits(size), 10);
    StandsParts(a, q, name, long + (short + (short + (mode + (end + [96, 10])))));
    StandsParts(a, q + 16, long, short + (short + (mode + (end + [96, 10]))));
    StandsParts(a, q + 28, short, short + (mode + (end + [96, 10])));
    StandsParts(a, q + 34, short, mode + (end + [96, 10]));
    StandsParts(a, q + 40, mode, end + [96, 10]);
    StandsParts(a, q + 48, end, [96, 10]);
    ZeroReads(a, q + 16, 12);
    ZeroReads(a, q + 28, 6);
    ZeroReads(a, q + 34, 6);
    ModeReads(a, q + 40);
    EndReads(a, q + 58);
  }

  lemma HeaderParts(nameField: Bytes, size: nat)
    requires size <= AR_SIZE_MAX
    ensures var short := Pad([48], 6);
            Header(nameField, size) == Pad(Cut(nameField, 16), 16) + (Pad([48], 12) + (short + (short
                + (Pad([49, 48, 48, 54, 52, 52], 8) + (Pad(Digits(size), 10) + [96, 10])))))
    ensures |Pad(Cut(nameField, 16), 16)| == 16 && |Pad([48], 12)| == 12 && |Pad([48], 6)| == 6
            && |Pad([49, 48, 48, 54, 52, 52], 8)| == 8 && |Pad(Digits(size), 10)| == 10
  {
    HeaderFields(nameField, size);
  }

  lemma ZeroReads(a: Bytes, i: nat, w: nat)
    requires Stands(a, i, Pad([48], w)) && w > 1
    ensures Atol(a, i) == 0
  {
    var f := Pad([48], w);
    assert f == [48] + f[1..];
    StandsParts(a, i, [48], f[1..]);
    StandsAt(a, i, f, 1);
    assert Digits(0) == [48];
    AtolReads(a, i, 0);
  }

  lemma ModeReads(a: Bytes, i: nat)
    requires Stands(a, i, Pad([49, 48, 48, 54, 52, 52], 8))
    ensures i + 8 <= |a| && a[i..i + 8] == [49, 48, 48, 54, 52, 52, SPACE, SPACE]
  {
    assert Pad([49, 48, 48, 54, 52, 52], 8) == [49, 48, 48, 54, 52, 52, SPACE, SPACE];
  }

  lemma EndReads(a: Bytes, i: nat)
    requires Stands(a, i, [96, 10])
    ensures i + 2 <= |a| && a[i..i + 2] == [96, 10]
  {
  }

  lemma FieldReads(a: Bytes, i: nat, size: nat)
    requires Stands(a, i, Pad(Digits(size), 10) + [96, 10]) && |Digits(size)| <= 10
    ensures Atol(a, i) == size
  {
    var d, f := Digits(size), Pad(Digits(size), 10);
    StandsParts(a, i, f, [96, 10]);
    assert f == d + f[|d|..];
    StandsParts(a, i, d, f[|d|..]);
    if |d| < 10 {
      StandsAt(a, i, f, |d|);
    } else {
      StandsAt(a, i + 10, [96, 10], 0);
    }
    AtolReads(a, i, size);
  }

  // ----- sequences of members -----

  /** What a header names, and the data. */
  datatype Entry = Entry(nameField: Bytes, data: Bytes)

  function Image(es: seq<Entry>): Bytes {
    if es == [] then [] else Chunk(es[0].nameField, es[0].data) + Image(es[1..])
  }

  /** Members can be written one by one. */
  lemma {:induction false} ImageMore(es: seq<Entry>, k: nat)
    requires k < |es|
    ensures Image(es[..k + 1]) == Image(es[..k]) + Chunk(es[k].nameField, es[k].data)
  {
    hide Chunk;
    if k == 0 {
      assert es[..1][1..] == [] && es[..0] == [];
    } else {
      ImageMore(es[1..], k - 1);
      assert es[..k + 1][1..] == es[1..][..k] && es[..k][1..] == es[1..][..k - 1];
      var c := Chunk(es[0].nameField, es[0].data);
      assert c + (Image(es[1..][..k - 1]) + Chunk(es[k].nameField,
                                                  es[k].data)) == (c + Image(es[1..][..k - 1])) + Chunk(es[k].nameField,
                                                      es[k].data);
    }
  }

  /** Where the header of the `k`-th member stands. */
  function Offset(es: seq<Entry>, k: nat): (r: nat)
    requires k <= |es|
    ensures r >= 8
  {
    if k == 0 then 8 else Offset(es, k - 1) + 60 + |es[k - 1].data| + |es[k - 1].data| % 2
  }

  ghost predicate Sized(es: seq<Entry>) {
    forall k {:trigger es[k]} :: 0 <= k < |es| ==> |es[k].data| <= AR_SIZE_MAX
  }

  /** Each member stands at its offset. */
  lemma {:induction false} ImageStands(a: Bytes, es: seq<Entry>, k: nat)
    requires k <= |es| && Sized(es) && Stands(a, 8, Image(es)) && |a| == 8 + |Image(es)|
    ensures Offset(es, k) <= |a| && Stands(a, Offset(es, k), Image(es[k..])) && Offset(es, k) + |Image(es[k..])| == |a|
    ensures k < |es| ==> Stands(a, Offset(es, k), Chunk(es[k].nameField, es[k].data))
  {
    hide Chunk, Stands;
    if k == 0 {
      assert es[0..] == es;
      assert Offset(es, 0) == 8;
    } else {
      ImageStands(a, es, k - 1);
      var rest := es[k - 1..];
      assert rest[1..] == es[k..];
      StandsParts(a, Offset(es, k - 1), Chunk(rest[0].nameField, rest[0].data), Image(rest[1..]));
      ChunkReads(a, Offset(es, k - 1), es[k - 1].nameField, es[k - 1].data);
    }
    if k < |es| {
      var rest := es[k..];
      StandsParts(a, Offset(es, k), Chunk(rest[0].nameField, rest[0].data), Image(rest[1..]));
    }
  }

  /** Every header of an archive has its fields as they should be. */
  lemma MembersStamped(a: Bytes, es: seq<Entry>, k: nat)
    requires k < |es| && Sized(es) && a == MAGIC + Image(es)
    ensures Stamped(a, Offset(es, k)) && Evened(a, Offset(es, k), |es[k].data|)
  {
    hide Chunk, Image, Stamped, Evened, Offset;
    assert a[8..] == Image(es);
    ImageStands(a, es, k);
    ChunkReads(a, Offset(es, k), es[k].nameField, es[k].data);
  }
}
