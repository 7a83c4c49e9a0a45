/**
 * The backend's small type system: the `DbTypes` tags, the typed values a
 * datum carries, and the table layout `CreateTable` derives from the first
 * datum of a title (hdf5_back.cc, lines 264-358).
 */
module Schema {
  import opened Bytes

  /** CYCLUS_SHA1_SIZE: a SHA-1 digest is 160 bits, five 32-bit words. */
  const DIGEST_SIZE: nat := 20
  /** CYCLUS_UUID_SIZE. */
  const UUID_SIZE: nat := 16
  const BOOL_SIZE: nat := 1
  const INT_SIZE: nat := 4
  const FLOAT_SIZE: nat := 4
  const DOUBLE_SIZE: nat := 8

  /** The content hash of a variable-length value. */
  type Digest = d: seq<byte> | |d| == DIGEST_SIZE witness seq(20, _ => 0)

  /** The `DbTypes` tags (BOOL, INT, FLOAT, DOUBLE, STRING, VL_STRING, BLOB, UUID). */
  datatype DbType = Bool | Int | Float | Double | String | VlString | Blob | Uuid

  /**
   * The value held by a datum field. Floating-point values are opaque byte
   * tokens of their native width: nothing here computes with them.
   */
  datatype Value =
    | BoolV(b: bool)
    | IntV(i: int)
    | FloatV(fbits: seq<byte>)
    | DoubleV(dbits: seq<byte>)
    | StrV(s: Str)
    | BlobV(blob: Str)
    | UuidV(uuid: seq<byte>)

  /** What the C++ types guarantee of a value: widths of the fixed-size kinds. */
  predicate WellFormedValue(v: Value) {
    match v
    case IntV(i) => IsInt32(i)
    case FloatV(f) => |f| == FLOAT_SIZE
    case DoubleV(d) => |d| == DOUBLE_SIZE
    case UuidV(u) => |u| == UUID_SIZE
    case _ => true
  }

  /** One field of a datum: its name, value and optional shape (first extent only). */
  datatype Entry = Entry(name: string, value: Value, shape: Option<int>)

  /** A record bound for the table named by its title. */
  datatype Datum = Datum(title: string, vals: seq<Entry>)

  /** One column of a table: name, tag and its fixed byte width. */
  datatype Column = Column(name: string, dbtype: DbType, size: nat)

  /** The width each tag must have: the reference table of column widths. */
  predicate WidthOk(t: DbType, size: nat) {
    match t
    case Bool => size == BOOL_SIZE
    case Int => size == INT_SIZE
    case Float => size == FLOAT_SIZE
    case Double => size == DOUBLE_SIZE
    case String => size >= 1
    case VlString => size == DIGEST_SIZE
    case Blob => size == DIGEST_SIZE
    case Uuid => size == UUID_SIZE
  }

  predicate ColumnOk(c: Column) {
    WidthOk(c.dbtype, c.size)
  }

  predicate ColumnsOk(cols: seq<Column>) {
    forall i :: 0 <= i < |cols| ==> ColumnOk(cols[i])
  }

  /** Which values a column of a given tag stores. */
  predicate Admits(t: DbType, v: Value) {
    match t
    case Bool => v.BoolV?
    case Int => v.IntV?
    case Float => v.FloatV?
    case Double => v.DoubleV?
    case String => v.StrV?
    case VlString => v.StrV?
    case Blob => v.BlobV?
    case Uuid => v.UuidV?
  }

  /** A string whose shape is absent or below 1 has no usable fixed width. */
  predicate VariableLength(shape: Option<int>) {
    shape.None? || shape.value < 1
  }

  /**
   * The column CreateTable derives for one field: the tag follows the value's
   * type, a string with a usable shape becomes a fixed-width STRING and any
   * other string a VL_STRING stored as its digest.
   */
  function ColumnOf(e: Entry): (c: Column)
    requires WellFormedValue(e.value)
    ensures c.name == e.name && ColumnOk(c) && Admits(c.dbtype, e.value)
    ensures c.dbtype == VlString <==> e.value.StrV? && VariableLength(e.shape)
    ensures c.dbtype == String <==> e.value.StrV? && !VariableLength(e.shape)
    ensures c.dbtype == String ==> c.size == e.shape.value
  {
    match e.value
    case BoolV(_) => Column(e.name, Bool, BOOL_SIZE)
    case IntV(_) => Column(e.name, Int, INT_SIZE)
    case FloatV(_) => Column(e.name, Float, FLOAT_SIZE)
    case DoubleV(_) => Column(e.name, Double, DOUBLE_SIZE)
    case StrV(_) =>
      if VariableLength(e.shape) then Column(e.name, VlString, DIGEST_SIZE)
      else Column(e.name, String, e.shape.value)
    case BlobV(_) => Column(e.name, Blob, DIGEST_SIZE)
    case UuidV(_) => Column(e.name, Uuid, UUID_SIZE)
  }

  predicate WellFormedDatum(d: Datum) {
    forall i :: 0 <= i < |d.vals| ==> WellFormedValue(d.vals[i].value)
  }

  /** The schema derived from a datum: one column per field, in field order. */
  function Columns(d: Datum): (cols: seq<Column>)
    requires WellFormedDatum(d)
    ensures |cols| == |d.vals| && ColumnsOk(cols)
    ensures forall i :: 0 <= i < |cols| ==> cols[i] == ColumnOf(d.vals[i])
  {
    seq(|d.vals|, i requires 0 <= i < |d.vals| => ColumnOf(d.vals[i]))
  }

  function Sizes(cols: seq<Column>): (w: seq<nat>)
    ensures |w| == |cols| && forall i :: 0 <= i < |cols| ==> w[i] == cols[i].size
  {
    seq(|cols|, i requires 0 <= i < |cols| => cols[i].size)
  }

  function Types(cols: seq<Column>): (ts: seq<DbType>)
    ensures |ts| == |cols| && forall i :: 0 <= i < |cols| ==> ts[i] == cols[i].dbtype
  {
    seq(|cols|, i requires 0 <= i < |cols| => cols[i].dbtype)
  }

  function Names(cols: seq<Column>): (ns: seq<string>)
    ensures |ns| == |cols| && forall i :: 0 <= i < |cols| ==> ns[i] == cols[i].name
  {
    seq(|cols|, i requires 0 <= i < |cols| => cols[i].name)
  }

  /** The sum of a sequence of widths. */
  function Sum(w: seq<nat>): nat {
    if w == [] then 0 else Sum(w[..|w| - 1]) + w[|w| - 1]
  }

  /** Field offsets: each field starts where the widths before it end. */
  function Offsets(w: seq<nat>): seq<nat> {
    seq(|w|, i requires 0 <= i < |w| => Sum(w[..i]))
  }

  /** The packed row width of a table. */
  function RowSize(cols: seq<Column>): nat {
    Sum(Sizes(cols))
  }

  /** Splitting a width sequence splits its sum. */
  lemma {:induction false} SumAppend(a: seq<nat>, b: seq<nat>)
    ensures Sum(a + b) == Sum(a) + Sum(b)
    decreases |b|
  {
    if b == [] {
      assert a + b == a;
    } else {
      var b' := b[..|b| - 1];
      assert (a + b)[..|a + b| - 1] == a + b';
      SumAppend(a, b');
    }
  }

  /**
   * The layout tiles the row: the first field starts at 0, each next field
   * starts where the previous one ends, and the last one ends at the row
   * size, so the fields are disjoint, in schema order, with nothing left out.
   */
  lemma LayoutTiles(w: seq<nat>)
    ensures |Offsets(w)| == |w|
    ensures |w| > 0 ==> Offsets(w)[0] == 0
    ensures forall i :: 0 <= i < |w| - 1 ==> Offsets(w)[i + 1] == Offsets(w)[i] + w[i]
    ensures |w| > 0 ==> Offsets(w)[|w| - 1] + w[|w| - 1] == Sum(w)
  {
    forall i | 0 <= i < |w| - 1
      ensures Offsets(w)[i + 1] == Offsets(w)[i] + w[i]
    {
      assert w[..i + 1][..i] == w[..i];
    }
    if |w| > 0 {
      assert w[..|w|][..|w| - 1] == w[..|w| - 1];
      assert w[..|w|] == w;
    }
  }

  /** Adding a column puts its field at the end of the row: the layout grows by one field. */
  lemma LayoutSnoc(cols: seq<Column>, c: Column)
    ensures Sizes(cols + [c]) == Sizes(cols) + [c.size]
    ensures Types(cols + [c]) == Types(cols) + [c.dbtype]
    ensures RowSize(cols + [c]) == RowSize(cols) + c.size
    ensures Offsets(Sizes(cols + [c])) == Offsets(Sizes(cols)) + [RowSize(cols)]
  {
    var w, w' := Sizes(cols), Sizes(cols + [c]);
    assert w' == w + [c.size];
    assert w'[..|w|] == w;
    forall i | 0 <= i < |w| ensures w'[..i] == w[..i] {
    }
  }

  /** The running sum of the widths grows by one width per field and stays within the row. */
  lemma SumPrefixStep(w: seq<nat>, i: nat)
    requires i < |w|
    ensures Sum(w[..i + 1]) == Sum(w[..i]) + w[i] && Sum(w[..i + 1]) <= Sum(w)
  {
    var a := w[..i + 1];
    assert a[..i] == w[..i];
    assert Sum(a) == Sum(w[..i]) + w[i];
    assert a + w[i + 1..] == w;
    SumAppend(a, w[i + 1..]);
  }

  /** Every field lies inside the row. */
  lemma FieldInsideRow(w: seq<nat>, i: nat)
    requires i < |w|
    ensures Offsets(w)[i] + w[i] <= Sum(w)
  {
    assert Offsets(w)[i] == Sum(w[..i]);
    SumPrefixStep(w, i);
  }

  lemma AllFieldsInsideRow(w: seq<nat>)
    ensures forall i :: 0 <= i < |w| ==> Offsets(w)[i] + w[i] <= Sum(w)
  {
    forall i | 0 <= i < |w| ensures Offsets(w)[i] + w[i] <= Sum(w) {
      FieldInsideRow(w, i);
    }
  }

  /** A datum conforms to a schema: one value per column, each of the column's kind. */
  predicate Conforms(d: Datum, cols: seq<Column>) {
    && WellFormedDatum(d)
    && |d.vals| == |cols|
    && forall i :: 0 <= i < |cols| ==> Admits(cols[i].dbtype, d.vals[i].value)
  }

  /** The datum a schema was derived from conforms to it. */
  lemma DatumConformsToOwnSchema(d: Datum)
    requires WellFormedDatum(d)
    ensures Conforms(d, Columns(d))
  {
  }
}
