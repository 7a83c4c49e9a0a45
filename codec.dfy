/**
 * The byte layout of one table row: how FillBuf turns a datum's values into
 * the packed fields of a row (hdf5_back.cc, lines 376-436), and how Query turns
 * a packed field back into a value (lines 130-187).
 */
module Codec {
  import opened Bytes
  import opened Schema
  import opened VLStore

  /* ---- Fixed-width strings ---- */

  predicate NulFree(s: Str) {
    forall i :: 0 <= i < |s| ==> s[i] != 0
  }

  /** The first `min(len, width)` bytes of a string. */
  function Truncate(s: Str, width: nat): (r: Str)
    ensures |r| <= width && r <= s
    ensures |r| == width || r == s
  {
    if |s| < width then s else s[..width]
  }

  /** A STRING field as FillBuf writes it: the truncated string, then NUL padding. */
  function PadFixed(s: Str, width: nat): (r: Str)
    ensures |r| == width
  {
    var t := Truncate(s, width);
    t + Zeros(width - |t|)
  }

  /** `std::string::find('\0')`: where the first NUL is, if anywhere. */
  function FindNul(b: Str): (r: Option<nat>)
    ensures r.Some? ==> r.value < |b| && b[r.value] == 0 && NulFree(b[..r.value])
    ensures r.None? ==> NulFree(b)
  {
    if b == [] then None
    else if b[0] == 0 then Some(0)
    else match FindNul(b[1..])
      case None => None
      case Some(p) =>
        assert b[..p + 1] == [b[0]] + b[1..][..p];
        Some(p + 1)
  }

  /**
   * Decoding a STRING field: the bytes before the first NUL, or the whole
   * field when it holds none. The result is the longest NUL-free prefix.
   */
  function DecodeFixed(b: Str): (r: Str)
    ensures NulFree(r) && r <= b
    ensures |r| < |b| ==> b[|r|] == 0
  {
    match FindNul(b)
    case Some(p) => b[..p]
    case None => b
  }

  /**
   * The decode as the source writes it: `nullpos >= 0` always holds, so a field
   * with no NUL is resized to `npos`, which throws `std::length_error`.
   */
  function DecodeFixedAsWritten(b: Str): (r: Result<Str>)
    ensures r.Ok? ==> r.value == DecodeFixed(b)
  {
    match FindNul(b)
    case Some(p) => Ok(b[..p])
    case None => Err(LengthError)
  }

  /** The longest NUL-free prefix is unique. */
  lemma DecodeFixedUnique(b: Str, r: Str)
    requires NulFree(r) && r <= b && (|r| < |b| ==> b[|r|] == 0)
    ensures DecodeFixed(b) == r
  {
  }

  /** Padding adds only NULs after the truncated string, so decoding ignores it. */
  lemma PadThenDecode(s: Str, width: nat)
    ensures DecodeFixed(PadFixed(s, width)) == DecodeFixed(Truncate(s, width))
  {
    var t := Truncate(s, width);
    var p := PadFixed(s, width);
    var d := DecodeFixed(t);
    assert p[..|t|] == t;
    if |d| == |t| && |t| < width {
      assert p[|d|] == 0;
    }
    DecodeFixedUnique(p, d);
  }

  /**
   * The fixed-string round trip: a NUL-free string comes back truncated to the
   * field width, hence exactly when it fits.
   */
  lemma FixedStringRoundTrip(s: Str, width: nat)
    requires NulFree(s)
    ensures DecodeFixed(PadFixed(s, width)) == Truncate(s, width)
    ensures |s| <= width ==> DecodeFixed(PadFixed(s, width)) == s
  {
    PadThenDecode(s, width);
    DecodeFixedUnique(Truncate(s, width), Truncate(s, width));
  }

  /**
   * The decode as written fails on every NUL-free string at least as wide as
   * its field, which the intended decode returns truncated to the width.
   */
  lemma FullWidthStringAsWrittenFails(s: Str, width: nat)
    requires NulFree(s) && |s| >= width
    ensures DecodeFixedAsWritten(PadFixed(s, width)) == Err(LengthError)
    ensures DecodeFixed(PadFixed(s, width)) == s[..width]
  {
    FixedStringRoundTrip(s, width);
    assert PadFixed(s, width) == s[..width];
  }

  /* ---- Cells: one value bound for one column ---- */

  /** The value of one field together with the column tag and width it is written with. */
  datatype Cell = Cell(dbtype: DbType, size: nat, value: Value)

  predicate CellOk(c: Cell) {
    WidthOk(c.dbtype, c.size) && Admits(c.dbtype, c.value) && WellFormedValue(c.value)
  }

  /** The value-store category of a VL_STRING or BLOB column. */
  function KindOf(t: DbType): Option<VLKind> {
    match t
    case VlString => Some(StringKind)
    case Blob => Some(BlobKind)
    case _ => None
  }

  /** The bytes a VL_STRING or BLOB value stores. */
  function Payload(v: Value): Str {
    match v
    case StrV(s) => s
    case BlobV(b) => b
    case _ => []
  }

  /**
   * The packed bytes of one field: numbers and UUIDs verbatim, fixed strings
   * padded, and variable-length values replaced by their digest.
   */
  function EncodeCell(c: Cell, hasher: Str -> Digest): (r: Str)
    requires CellOk(c) && c.dbtype != Bool
    ensures |r| == c.size
  {
    match c.dbtype
    case Int => EncodeInt32(c.value.i)
    case Float => c.value.fbits
    case Double => c.value.dbits
    case String => PadFixed(c.value.s, c.size)
    case VlString => hasher(c.value.s)
    case Blob => hasher(c.value.blob)
    case Uuid => c.value.uuid
  }

  /** `VLRead`'s exception for a digest outside the value dataset. */
  const HYPERSLAB_MESSAGE: string := "could not select hyperslab of value array for reading."

  /**
   * The value a field reads back as, given the value store: `VLRead` looks a
   * variable-length field's digest up in the value dataset of its category.
   */
  function DecodeField(t: DbType, field: Str, st: VLState): (r: Result<Value>)
    requires WidthOk(t, |field|)
    ensures r.Ok? ==> Admits(t, r.value) && WellFormedValue(r.value)
    ensures r.Err? <==> t == Bool || (KindOf(t).Some? && Lookup(st, KindOf(t).value, field).None?)
    ensures t == Bool ==> r == Err(IOError("booleans not yet implemented for HDF5."))
    ensures r.Err? && t != Bool ==> r == Err(IOError(HYPERSLAB_MESSAGE))
  {
    match t
    case Bool => Err(IOError("booleans not yet implemented for HDF5."))
    case Int => Ok(IntV(DecodeInt32(field)))
    case Float => Ok(FloatV(field))
    case Double => Ok(DoubleV(field))
    case String => Ok(StrV(DecodeFixed(field)))
    case VlString =>
      (match Lookup(st, StringKind, field)
       case None => Err(IOError(HYPERSLAB_MESSAGE))
       case Some(x) => Ok(StrV(x)))
    case Blob =>
      (match Lookup(st, BlobKind, field)
       case None => Err(IOError(HYPERSLAB_MESSAGE))
       case Some(x) => Ok(BlobV(x)))
    case Uuid => Ok(UuidV(field))
  }

  /**
   * What a written cell reads back as: its own value, except that a fixed
   * string is truncated to the width and cut at its first NUL.
   */
  function Readback(c: Cell): Value {
    if c.dbtype == String && c.value.StrV? then StrV(DecodeFixed(Truncate(c.value.s, c.size)))
    else c.value
  }

  /** The store holds the content of a variable-length cell under its digest. */
  predicate Retrievable(c: Cell, st: VLState, hasher: Str -> Digest) {
    KindOf(c.dbtype).Some? ==>
      Lookup(st, KindOf(c.dbtype).value, hasher(Payload(c.value))) == Some(Payload(c.value))
  }

  /** Decoding an encoded field gives back the cell's value. */
  lemma CellRoundTrip(c: Cell, st: VLState, hasher: Str -> Digest)
    requires CellOk(c) && c.dbtype != Bool
    requires Retrievable(c, st, hasher)
    ensures DecodeField(c.dbtype, EncodeCell(c, hasher), st) == Ok(Readback(c))
  {
    match c.dbtype
    case Int => Int32RoundTrip(c.value.i);
    case String => PadThenDecode(c.value.s, c.size);
    case _ =>
  }

  /** A NUL-free fixed string that fits its width, and every other value, reads back unchanged. */
  lemma ReadbackExact(c: Cell)
    requires CellOk(c)
    requires c.dbtype == String ==> NulFree(c.value.s) && |c.value.s| <= c.size
    ensures Readback(c) == c.value
  {
    if c.dbtype == String {
      DecodeFixedUnique(Truncate(c.value.s, c.size), c.value.s);
    }
  }

  /* ---- Rows and groups ---- */

  /** The cells of one datum under a table's cached tags and widths. */
  function RowCells(types: seq<DbType>, sizes: seq<nat>, d: Datum): (cs: seq<Cell>)
    requires |types| == |sizes| == |d.vals|
    ensures |cs| == |types|
    ensures forall c :: 0 <= c < |cs| ==> cs[c] == Cell(types[c], sizes[c], d.vals[c].value)
  {
    seq(|types|, c requires 0 <= c < |types| => Cell(types[c], sizes[c], d.vals[c].value))
  }

  predicate Shaped(types: seq<DbType>, sizes: seq<nat>, group: seq<Datum>) {
    |types| == |sizes| && forall k :: 0 <= k < |group| ==> |group[k].vals| == |types|
  }

  /** The cells of a whole group, row after row, in the order FillBuf visits them. */
  function GroupCells(types: seq<DbType>, sizes: seq<nat>, group: seq<Datum>): (cs: seq<Cell>)
    requires Shaped(types, sizes, group)
  {
    if group == [] then []
    else GroupCells(types, sizes, group[..|group| - 1]) + RowCells(types, sizes, group[|group| - 1])
  }

  /** A group of `n` datums of `m` columns has `n * m` cells. */
  lemma {:induction false} GroupCellsLength(types: seq<DbType>, sizes: seq<nat>, group: seq<Datum>)
    requires Shaped(types, sizes, group)
    ensures |GroupCells(types, sizes, group)| == |group| * |types|
    decreases |group|
  {
    if group != [] {
      var init := group[..|group| - 1];
      assert Shaped(types, sizes, init);
      GroupCellsLength(types, sizes, init);
      assert |group| * |types| == |init| * |types| + |types|;
    }
  }

  predicate AllEncodable(cs: seq<Cell>) {
    forall i :: 0 <= i < |cs| ==> CellOk(cs[i]) && cs[i].dbtype != Bool
  }

  /** The packed bytes of each cell. */
  function Fields(cs: seq<Cell>, hasher: Str -> Digest): (fs: seq<Str>)
    requires AllEncodable(cs)
    ensures |fs| == |cs| && forall i :: 0 <= i < |cs| ==> fs[i] == EncodeCell(cs[i], hasher)
  {
    seq(|cs|, i requires 0 <= i < |cs| => EncodeCell(cs[i], hasher))
  }

  /** The packed bytes of a sequence of cells, one field after the other. */
  function EncodeCells(cs: seq<Cell>, hasher: Str -> Digest): Str
    requires AllEncodable(cs)
  {
    Concat(Fields(cs, hasher))
  }

  function CellSizes(cs: seq<Cell>): (w: seq<nat>)
    ensures |w| == |cs| && forall i :: 0 <= i < |cs| ==> w[i] == cs[i].size
  {
    seq(|cs|, i requires 0 <= i < |cs| => cs[i].size)
  }

  /** The position of the first BOOL cell, where FillBuf throws; `|cs|` if none. */
  function FirstBool(cs: seq<Cell>): (r: nat)
    ensures r <= |cs|
    ensures forall i :: 0 <= i < r ==> cs[i].dbtype != Bool
    ensures r < |cs| ==> cs[r].dbtype == Bool
  {
    if cs == [] then 0
    else if cs[0].dbtype == Bool then 0
    else 1 + FirstBool(cs[1..])
  }

  /** The values a sequence of cells sends to the value store, in order. */
  function VLItems(cs: seq<Cell>): seq<Item> {
    if cs == [] then []
    else
      var c := cs[|cs| - 1];
      VLItems(cs[..|cs| - 1]) + (if KindOf(c.dbtype).Some? then [Item(KindOf(c.dbtype).value, Payload(c.value))] else [])
  }

  /* ---- Layout of the packed bytes ---- */

  /** Byte strings laid end to end. */
  function Concat(parts: seq<Str>): Str {
    if parts == [] then [] else Concat(parts[..|parts| - 1]) + parts[|parts| - 1]
  }

  function Lengths(parts: seq<Str>): (w: seq<nat>)
    ensures |w| == |parts| && forall i :: 0 <= i < |parts| ==> w[i] == |parts[i]|
  {
    seq(|parts|, i requires 0 <= i < |parts| => |parts[i]|)
  }

  lemma {:induction false} ConcatAppend(a: seq<Str>, b: seq<Str>)
    ensures Concat(a + b) == Concat(a) + Concat(b)
    decreases |b|
  {
    if b == [] {
      assert a + b == a;
    } else {
      var b' := b[..|b| - 1];
      ConcatAppend(a, b');
      assert (a + b)[..|a + b| - 1] == a + b';
    }
  }

  lemma {:induction false} ConcatLength(parts: seq<Str>)
    ensures |Concat(parts)| == Sum(Lengths(parts))
    decreases |parts|
  {
    if parts != [] {
      ConcatLength(parts[..|parts| - 1]);
      assert Lengths(parts)[..|parts| - 1] == Lengths(parts[..|parts| - 1]);
    }
  }

  /** Part `i` occupies the bytes from its offset to its offset plus its length. */
  lemma ConcatPlacement(parts: seq<Str>, i: nat)
    requires i < |parts|
    ensures Offsets(Lengths(parts))[i] + |parts[i]| <= |Concat(parts)|
    ensures Concat(parts)[Offsets(Lengths(parts))[i]..Offsets(Lengths(parts))[i] + |parts[i]|] == parts[i]
  {
    var pre, rest := parts[..i + 1], parts[i + 1..];
    assert parts == pre + rest;
    ConcatAppend(pre, rest);
    assert pre[..i] == parts[..i];
    ConcatLength(parts[..i]);
    assert Lengths(parts)[..i] == Lengths(parts[..i]);
    ConcatLength(parts);
    FieldInsideRow(Lengths(parts), i);
  }

  lemma AllEncodableConcat(a: seq<Cell>, b: seq<Cell>)
    requires AllEncodable(a) && AllEncodable(b)
    ensures AllEncodable(a + b)
  {
    forall i | 0 <= i < |a + b| ensures CellOk((a + b)[i]) && (a + b)[i].dbtype != Bool {
      if i >= |a| {
        assert (a + b)[i] == b[i - |a|];
      }
    }
  }

  lemma EncodeCellsAppend(a: seq<Cell>, b: seq<Cell>, hasher: Str -> Digest)
    requires AllEncodable(a) && AllEncodable(b)
    ensures AllEncodable(a + b)
    ensures EncodeCells(a + b, hasher) == EncodeCells(a, hasher) + EncodeCells(b, hasher)
  {
    AllEncodableConcat(a, b);
    assert Fields(a + b, hasher) == Fields(a, hasher) + Fields(b, hasher);
    ConcatAppend(Fields(a, hasher), Fields(b, hasher));
  }

  /** The packed bytes are as long as the widths add up to. */
  lemma EncodeCellsLength(cs: seq<Cell>, hasher: Str -> Digest)
    requires AllEncodable(cs)
    ensures |EncodeCells(cs, hasher)| == Sum(CellSizes(cs))
  {
    ConcatLength(Fields(cs, hasher));
    assert Lengths(Fields(cs, hasher)) == CellSizes(cs);
  }

  /** Cell `i` occupies the bytes from its offset to its offset plus its width. */
  lemma EncodeCellsPlacement(cs: seq<Cell>, i: nat, hasher: Str -> Digest)
    requires AllEncodable(cs) && i < |cs|
    ensures Offsets(CellSizes(cs))[i] + cs[i].size <= |EncodeCells(cs, hasher)|
    ensures EncodeCells(cs, hasher)[Offsets(CellSizes(cs))[i]..Offsets(CellSizes(cs))[i] + cs[i].size]
         == EncodeCell(cs[i], hasher)
  {
    ConcatPlacement(Fields(cs, hasher), i);
    assert Lengths(Fields(cs, hasher)) == CellSizes(cs);
  }

  /** The rows of a buffer of `n` rows of `rowsize` bytes each. */
  function Split(flat: Str, rowsize: nat, n: nat): (rows: seq<Str>)
    requires |flat| == n * rowsize
    ensures |rows| == n
    ensures forall k :: 0 <= k < n ==> |rows[k]| == rowsize
  {
    if n == 0 then []
    else Split(flat[..(n - 1) * rowsize], rowsize, n - 1) + [flat[(n - 1) * rowsize..]]
  }

  /** Appending one more row to a buffer of rows appends it to the split. */
  lemma SplitSnoc(flat: Str, row: Str, rowsize: nat, n: nat)
    requires |flat| == n * rowsize && |row| == rowsize
    ensures |flat + row| == (n + 1) * rowsize
    ensures Split(flat + row, rowsize, n + 1) == Split(flat, rowsize, n) + [row]
  {
    assert (n + 1) * rowsize == n * rowsize + rowsize;
    assert (flat + row)[..n * rowsize] == flat;
    assert (flat + row)[n * rowsize..] == row;
  }

  /** Every value of a datum can be written under the table's tags and widths. */
  predicate RowEncodable(types: seq<DbType>, sizes: seq<nat>, d: Datum) {
    && |types| == |sizes| == |d.vals|
    && forall c :: 0 <= c < |types| ==> types[c] != Bool && CellOk(Cell(types[c], sizes[c], d.vals[c].value))
  }

  /** The tags and widths of a group's cells repeat the columns' row after row. */
  predicate GroupEncodable(types: seq<DbType>, sizes: seq<nat>, group: seq<Datum>) {
    |types| == |sizes| && forall k :: 0 <= k < |group| ==> RowEncodable(types, sizes, group[k])
  }

  /** The packed bytes of one row. */
  function EncodeRow(types: seq<DbType>, sizes: seq<nat>, d: Datum, hasher: Str -> Digest): (r: Str)
    requires RowEncodable(types, sizes, d)
  {
    EncodeCells(RowCells(types, sizes, d), hasher)
  }

  lemma EncodeRowLength(types: seq<DbType>, sizes: seq<nat>, d: Datum, hasher: Str -> Digest)
    requires RowEncodable(types, sizes, d)
    ensures |EncodeRow(types, sizes, d, hasher)| == Sum(sizes)
  {
    EncodeCellsLength(RowCells(types, sizes, d), hasher);
    assert CellSizes(RowCells(types, sizes, d)) == sizes;
  }

  lemma GroupCellsEncodable(types: seq<DbType>, sizes: seq<nat>, group: seq<Datum>)
    requires GroupEncodable(types, sizes, group)
    ensures AllEncodable(GroupCells(types, sizes, group))
    decreases |group|
  {
    if group != [] {
      var init := group[..|group| - 1];
      assert forall k :: 0 <= k < |init| ==> init[k] == group[k];
      GroupCellsEncodable(types, sizes, init);
      var cs := GroupCells(types, sizes, group);
      var a, b := GroupCells(types, sizes, init), RowCells(types, sizes, group[|group| - 1]);
      assert cs == a + b;
      forall i | 0 <= i < |cs| ensures CellOk(cs[i]) && cs[i].dbtype != Bool {
        if i >= |a| {
          assert cs[i] == b[i - |a|];
        } else {
          assert cs[i] == a[i];
        }
      }
    }
  }

  lemma GroupEncodablePrefix(types: seq<DbType>, sizes: seq<nat>, group: seq<Datum>, n: nat)
    requires GroupEncodable(types, sizes, group) && n <= |group|
    ensures GroupEncodable(types, sizes, group[..n])
  {
    assert forall k :: 0 <= k < n ==> group[..n][k] == group[k];
  }

  /** The packed rows of a group, one per datum in group order. */
  function EncodedRows(types: seq<DbType>, sizes: seq<nat>, group: seq<Datum>, hasher: Str -> Digest): (rows: seq<Str>)
    requires GroupEncodable(types, sizes, group)
    ensures |rows| == |group|
    ensures forall k :: 0 <= k < |group| ==> rows[k] == EncodeRow(types, sizes, group[k], hasher)
  {
    if group == [] then []
    else
      GroupEncodablePrefix(types, sizes, group, |group| - 1);
      EncodedRows(types, sizes, group[..|group| - 1], hasher) + [EncodeRow(types, sizes, group[|group| - 1], hasher)]
  }

  /** The buffer of a group is that of all but its last datum followed by the last row. */
  lemma GroupSnoc(types: seq<DbType>, sizes: seq<nat>, group: seq<Datum>, hasher: Str -> Digest)
    requires GroupEncodable(types, sizes, group) && group != []
    ensures GroupEncodable(types, sizes, group[..|group| - 1])
    ensures AllEncodable(GroupCells(types, sizes, group))
    ensures AllEncodable(GroupCells(types, sizes, group[..|group| - 1]))
    ensures EncodeCells(GroupCells(types, sizes, group), hasher)
         == EncodeCells(GroupCells(types, sizes, group[..|group| - 1]), hasher) + EncodeRow(types, sizes, group[|group| - 1], hasher)
    ensures |EncodeRow(types, sizes, group[|group| - 1], hasher)| == Sum(sizes)
  {
    var init := group[..|group| - 1];
    var last := group[|group| - 1];
    GroupEncodablePrefix(types, sizes, group, |group| - 1);
    GroupCellsEncodable(types, sizes, group);
    GroupCellsEncodable(types, sizes, init);
    EncodeCellsAppend(GroupCells(types, sizes, init), RowCells(types, sizes, last), hasher);
    EncodeRowLength(types, sizes, last, hasher);
  }

  /**
   * The group buffer is the rows' packed bytes one after the other: splitting
   * it at the row size gives back each datum's encoded row, in group order.
   */
  lemma {:induction false} GroupRows(types: seq<DbType>, sizes: seq<nat>, group: seq<Datum>, hasher: Str -> Digest)
    requires GroupEncodable(types, sizes, group)
    ensures AllEncodable(GroupCells(types, sizes, group))
    ensures |EncodeCells(GroupCells(types, sizes, group), hasher)| == |group| * Sum(sizes)
    ensures Split(EncodeCells(GroupCells(types, sizes, group), hasher), Sum(sizes), |group|)
         == EncodedRows(types, sizes, group, hasher)
    decreases |group|
  {
    GroupCellsEncodable(types, sizes, group);
    if group != [] {
      var n := |group|;
      GroupSnoc(types, sizes, group, hasher);
      GroupRows(types, sizes, group[..n - 1], hasher);
      SplitSnoc(EncodeCells(GroupCells(types, sizes, group[..n - 1]), hasher),
                EncodeRow(types, sizes, group[n - 1], hasher), Sum(sizes), n - 1);
    }
  }

  /** Where row `k` starts in a buffer of rows of `rowsize` bytes. */
  function RowStart(k: nat, rowsize: nat): nat {
    if k == 0 then 0 else RowStart(k - 1, rowsize) + rowsize
  }

  /** Row `k` starts `k` row widths in. */
  lemma {:induction false} RowStartMul(k: nat, rowsize: nat)
    ensures RowStart(k, rowsize) == k * rowsize
  {
    if k > 0 {
      RowStartMul(k - 1, rowsize);
      assert k * rowsize == (k - 1) * rowsize + rowsize;
    }
  }

  /** A row before the last ends inside the buffer. */
  lemma {:induction false} RowStartWithin(k: nat, n: nat, rowsize: nat)
    requires k < n
    ensures RowStart(k, rowsize) + rowsize <= RowStart(n, rowsize)
    decreases n
  {
    if k < n - 1 {
      RowStartWithin(k, n - 1, rowsize);
    }
  }

  lemma MulStep(k: nat, n: nat, r: nat)
    requires k < n
    ensures k * r + r <= n * r
  {
    var d := n - k;
    assert n * r == k * r + d * r;
    assert d * r == r + (d - 1) * r;
  }

  /** Row `k` of a split buffer is the `k`-th run of `rowsize` bytes. */
  lemma {:induction false} SplitRow(flat: Str, rowsize: nat, n: nat, k: nat)
    requires |flat| == n * rowsize && k < n
    ensures RowStart(k, rowsize) + rowsize <= |flat|
    ensures Split(flat, rowsize, n)[k] == flat[RowStart(k, rowsize)..RowStart(k, rowsize) + rowsize]
    decreases n
  {
    RowStartMul(k, rowsize);
    MulStep(k, n, rowsize);
    MulStep(n - 1, n, rowsize);
    if k < n - 1 {
      var init := flat[..(n - 1) * rowsize];
      SplitRow(init, rowsize, n - 1, k);
      assert init[k * rowsize..k * rowsize + rowsize] == flat[k * rowsize..k * rowsize + rowsize];
    } else {
      assert (n - 1) * rowsize + rowsize == n * rowsize;
    }
  }

  /** Row `k` of the group buffer is the encoding of the `k`-th datum. */
  lemma RowInGroup(types: seq<DbType>, sizes: seq<nat>, rowsize: nat, group: seq<Datum>, hasher: Str -> Digest, k: nat)
    requires GroupEncodable(types, sizes, group) && rowsize == Sum(sizes) && k < |group|
    ensures AllEncodable(GroupCells(types, sizes, group))
    ensures |EncodeCells(GroupCells(types, sizes, group), hasher)| == RowStart(|group|, rowsize)
    ensures RowStart(k, rowsize) + rowsize <= RowStart(|group|, rowsize)
    ensures EncodeCells(GroupCells(types, sizes, group), hasher)[RowStart(k, rowsize)..RowStart(k, rowsize) + rowsize]
         == EncodeRow(types, sizes, group[k], hasher)
  {
    GroupRows(types, sizes, group, hasher);
    RowStartMul(|group|, rowsize);
    SplitRow(EncodeCells(GroupCells(types, sizes, group), hasher), rowsize, |group|, k);
  }

  /** Column `c` of an encoded row sits at the column's offset. */
  lemma RowPlacement(types: seq<DbType>, sizes: seq<nat>, d: Datum, hasher: Str -> Digest, c: nat)
    requires RowEncodable(types, sizes, d) && c < |types|
    ensures Offsets(sizes)[c] + sizes[c] <= |EncodeRow(types, sizes, d, hasher)|
    ensures EncodeRow(types, sizes, d, hasher)[Offsets(sizes)[c]..Offsets(sizes)[c] + sizes[c]]
         == EncodeCell(Cell(types[c], sizes[c], d.vals[c].value), hasher)
  {
    var cs := RowCells(types, sizes, d);
    EncodeCellsPlacement(cs, c, hasher);
    assert CellSizes(cs) == sizes;
  }

  /* ---- FillBuf's walk over the cells ---- */

  /** Every cell of a datum is well formed under the tags and widths (BOOL cells included). */
  predicate RowOk(types: seq<DbType>, sizes: seq<nat>, d: Datum) {
    && |types| == |sizes| == |d.vals|
    && forall c :: 0 <= c < |types| ==> CellOk(Cell(types[c], sizes[c], d.vals[c].value))
  }

  /** A datum of a table's schema is well formed under the table's tags and widths. */
  lemma ConformsRowOk(cols: seq<Column>, d: Datum)
    requires ColumnsOk(cols) && Conforms(d, cols)
    ensures RowOk(Types(cols), Sizes(cols), d)
  {
    forall c | 0 <= c < |cols| ensures CellOk(Cell(Types(cols)[c], Sizes(cols)[c], d.vals[c].value)) {
      assert ColumnOk(cols[c]) && Admits(cols[c].dbtype, d.vals[c].value) && WellFormedValue(d.vals[c].value);
    }
  }

  /** The cells of the first rows of a group come first. */
  lemma {:induction false} GroupCellsPrefix(types: seq<DbType>, sizes: seq<nat>, group: seq<Datum>, k: nat)
    requires Shaped(types, sizes, group) && k <= |group|
    ensures Shaped(types, sizes, group[..k])
    ensures GroupCells(types, sizes, group[..k]) <= GroupCells(types, sizes, group)
    decreases |group|
  {
    assert forall j :: 0 <= j < k ==> group[..k][j] == group[j];
    if k < |group| {
      var init := group[..|group| - 1];
      assert forall j :: 0 <= j < |init| ==> init[j] == group[j];
      GroupCellsPrefix(types, sizes, init, k);
      assert init[..k] == group[..k];
    } else {
      assert group[..k] == group;
    }
  }

  lemma CellSizesAppend(a: seq<Cell>, b: seq<Cell>)
    ensures CellSizes(a + b) == CellSizes(a) + CellSizes(b)
  {
  }

  /** Row `k + 1` starts a row after row `k`. */
  lemma RowStartStep(k: nat, rowsize: nat)
    ensures RowStart(k + 1, rowsize) == RowStart(k, rowsize) + rowsize
  {
  }

  /** The cells of the first `k + 1` datums are those of the first `k` followed by datum `k`'s. */
  lemma GroupCellsStep(types: seq<DbType>, sizes: seq<nat>, group: seq<Datum>, k: nat)
    requires Shaped(types, sizes, group) && k < |group|
    ensures Shaped(types, sizes, group[..k]) && Shaped(types, sizes, group[..k + 1])
    ensures GroupCells(types, sizes, group[..k + 1]) == GroupCells(types, sizes, group[..k]) + RowCells(types, sizes, group[k])
  {
    assert group[..k + 1][..k] == group[..k];
  }

  lemma {:induction false} VLItemsAppend(a: seq<Cell>, b: seq<Cell>)
    ensures VLItems(a + b) == VLItems(a) + VLItems(b)
    decreases |b|
  {
    if b == [] {
      assert a + b == a;
    } else {
      var b' := b[..|b| - 1];
      VLItemsAppend(a, b');
      assert (a + b)[..|a + b| - 1] == a + b';
    }
  }

  lemma {:induction false} FirstBoolAppend(a: seq<Cell>, b: seq<Cell>)
    requires forall i :: 0 <= i < |a| ==> a[i].dbtype != Bool
    ensures FirstBool(a + b) == |a| + FirstBool(b)
    decreases |a|
  {
    if a != [] {
      assert (a + b)[1..] == a[1..] + b;
      FirstBoolAppend(a[1..], b);
    } else {
      assert a + b == b;
    }
  }

  /** Once a prefix holds a BOOL cell, the first BOOL cell of the whole is that of the prefix. */
  lemma FirstBoolPrefix(p: seq<Cell>, cs: seq<Cell>)
    requires p <= cs && FirstBool(p) < |p|
    ensures FirstBool(cs) == FirstBool(p)
  {
    assert cs[FirstBool(p)] == p[FirstBool(p)];
  }

  /**
   * What one pass of the row loop adds, both ways it can end: a row without
   * BOOL extends the packed bytes and the stored values by its own, and a
   * row with one ends the whole group's walk at that cell.
   */
  lemma PackRowFacts(types: seq<DbType>, sizes: seq<nat>, group: seq<Datum>, k: nat, done: seq<Cell>,
                     st0: VLState, hasher: Str -> Digest)
    requires Shaped(types, sizes, group) && k < |group| && RowOk(types, sizes, group[k])
    requires Shaped(types, sizes, group[..k]) && done == GroupCells(types, sizes, group[..k]) && AllEncodable(done)
    ensures Shaped(types, sizes, group[..k + 1])
    ensures var row := RowCells(types, sizes, group[k]); var cs := GroupCells(types, sizes, group[..k + 1]);
      FirstBool(row) == |row| ==>
        && AllEncodable(row) && AllEncodable(cs)
        && EncodeCells(cs, hasher) == EncodeCells(done, hasher) + EncodeCells(row, hasher)
        && PutAll(PutAll(st0, VLItems(done), hasher), VLItems(row[..FirstBool(row)]), hasher) == PutAll(st0, VLItems(cs), hasher)
    ensures var row := RowCells(types, sizes, group[k]); var cells := GroupCells(types, sizes, group);
      FirstBool(row) < |row| ==>
        && FirstBool(cells) < |cells|
        && PutAll(PutAll(st0, VLItems(done), hasher), VLItems(row[..FirstBool(row)]), hasher)
           == PutAll(st0, VLItems(cells[..FirstBool(cells)]), hasher)
  {
    var row := RowCells(types, sizes, group[k]);
    GroupCellsStep(types, sizes, group, k);
    if FirstBool(row) < |row| {
      GroupFailsAt(types, sizes, group, k);
      PutAllAppend(st0, VLItems(done), VLItems(row[..FirstBool(row)]), hasher);
    } else {
      assert row[..FirstBool(row)] == row;
      assert AllEncodable(row);
      EncodeCellsAppend(done, row, hasher);
      VLItemsAppend(done, row);
      PutAllAppend(st0, VLItems(done), VLItems(row), hasher);
    }
  }

  /**
   * FillBuf stops in datum `k` at the row's first BOOL cell: that is the
   * first BOOL cell of the group, and the values stored before it are those
   * of the earlier datums and of the row up to it.
   */
  lemma GroupFailsAt(types: seq<DbType>, sizes: seq<nat>, group: seq<Datum>, k: nat)
    requires Shaped(types, sizes, group) && k < |group|
    requires AllEncodable(GroupCells(types, sizes, group[..k]))
    requires FirstBool(RowCells(types, sizes, group[k])) < |types|
    ensures var cs := GroupCells(types, sizes, group); var row := RowCells(types, sizes, group[k]);
      && FirstBool(cs) < |cs|
      && VLItems(cs[..FirstBool(cs)])
         == VLItems(GroupCells(types, sizes, group[..k])) + VLItems(row[..FirstBool(row)])
  {
    var cs := GroupCells(types, sizes, group);
    var a, row := GroupCells(types, sizes, group[..k]), RowCells(types, sizes, group[k]);
    GroupCellsStep(types, sizes, group, k);
    GroupCellsPrefix(types, sizes, group, k + 1);
    StopsInRow(a, row, cs);
  }

  /** The first BOOL cell of `cs` lies in `row` when `cs` starts with `a + row` and `a` has none. */
  lemma StopsInRow(a: seq<Cell>, row: seq<Cell>, cs: seq<Cell>)
    requires AllEncodable(a) && a + row <= cs && FirstBool(row) < |row|
    ensures FirstBool(cs) == |a| + FirstBool(row)
    ensures VLItems(cs[..FirstBool(cs)]) == VLItems(a) + VLItems(row[..FirstBool(row)])
  {
    var p := a + row;
    FirstBoolAppend(a, row);
    FirstBoolPrefix(p, cs);
    var j := FirstBool(row);
    var f := FirstBool(cs);
    assert cs[..f] == p[..f];
    assert p[..f] == a + row[..j];
    VLItemsAppend(a, row[..j]);
  }

  /** The item a cell sends to the value store, if any. */
  function CellItems(c: Cell): seq<Item> {
    if KindOf(c.dbtype).Some? then [Item(KindOf(c.dbtype).value, Payload(c.value))] else []
  }

  /** Packing one more cell: its bytes follow the bytes so far, and its value joins the store's items. */
  lemma CellStep(cs: seq<Cell>, i: nat, hasher: Str -> Digest)
    requires i < |cs| && AllEncodable(cs[..i]) && CellOk(cs[i]) && cs[i].dbtype != Bool
    ensures AllEncodable(cs[..i + 1])
    ensures EncodeCells(cs[..i + 1], hasher) == EncodeCells(cs[..i], hasher) + EncodeCell(cs[i], hasher)
    ensures Sum(CellSizes(cs[..i + 1])) == Sum(CellSizes(cs[..i])) + cs[i].size
    ensures VLItems(cs[..i + 1]) == VLItems(cs[..i]) + CellItems(cs[i])
  {
    var a, b := cs[..i], [cs[i]];
    assert cs[..i + 1] == a + b;
    EncodeOne(cs[i], hasher);
    EncodeCellsAppend(a, b, hasher);
    CellSizesAppend(a, b);
    SumAppend(CellSizes(a), CellSizes(b));
    assert (a + b)[..i] == a;
  }

  lemma EncodeOne(c: Cell, hasher: Str -> Digest)
    requires CellOk(c) && c.dbtype != Bool
    ensures AllEncodable([c]) && EncodeCells([c], hasher) == EncodeCell(c, hasher)
  {
    var f := Fields([c], hasher);
    assert f == [EncodeCell(c, hasher)];
    assert f[..|f| - 1] == [];
    assert Concat(f) == Concat([]) + f[0];
  }
}
