/**
 * The HDF5 back end as the object it is: `Hdf5Back` holds the contents of
 * the file it writes (tables, their records, and the key and value datasets
 * of the value store) and its in-memory caches (`tbl_offset_`, `tbl_size_`,
 * `tbl_sizes_`, `tbl_types_`, `vlkeys_`, `vldatasets_`), and its methods
 * update them step by step as hdf5_back.cc does. Each method is proved
 * against the value-level definitions of the modules `Tables`, `VLStore`
 * and `Scan`, where the properties of those definitions are proved.
 */
module Hdf5 {
  import opened Bytes
  import opened Schema
  import opened VLStore
  import opened Codec
  import opened Scan
  import opened LexOrder
  import opened Tables

  class Hdf5Back {
    /** The content digest (the SHA-1 hasher of the back end). */
    const hasher: Str -> Digest

    // The file.
    var tables: map<string, Table>
    var records: map<string, seq<Str>>
    var keyData: map<VLKind, seq<Digest>>
    var valData: map<VLKind, seq<Str>>

    // In memory.
    var vlkeys: map<VLKind, set<Digest>>
    var vldatasets: set<Dataset>
    var tblOffset: map<string, seq<nat>>
    var tblSize: map<string, nat>
    var tblSizes: map<string, seq<nat>>
    var tblTypes: map<string, seq<DbType>>

    /** The value store: its datasets in the file and its in-memory bookkeeping. */
    function Store(): VLState
      reads this`keyData, this`valData, this`vlkeys, this`vldatasets
    {
      VLState(keyData, valData, vlkeys, vldatasets)
    }

    function CacheOf(): Cache
      reads this`tblOffset, this`tblSize, this`tblSizes, this`tblTypes
    {
      Cache(tblOffset, tblSize, tblSizes, tblTypes)
    }

    /** The whole back end as a value. */
    function StateOf(): State
      reads this
    {
      State(tables, records, Store(), CacheOf())
    }

    /** The object invariant: the state invariant and the value-store invariant. */
    ghost predicate Valid()
      reads this
    {
      StateOk(StateOf()) && VLStore.Valid(Store(), hasher)
    }

    /**
     * Opening a file: its tables, records and value datasets are those given
     * (all empty for a new file); nothing is cached and no dataset is open.
     */
    constructor (hasher: Str -> Digest, tables: map<string, Table>, records: map<string, seq<Str>>,
                 keyData: map<VLKind, seq<Digest>>, valData: map<VLKind, seq<Str>>)
      requires TablesOk(tables) && RecordsOk(tables, records)
      requires VLStore.Valid(VLState(keyData, valData, map[], {}), hasher)
      ensures this.hasher == hasher
      ensures StateOf() == State(tables, records, VLState(keyData, valData, map[], {}), Cache(map[], map[], map[], map[]))
      ensures Valid()
    {
      this.hasher := hasher;
      this.tables := tables;
      this.records := records;
      this.keyData := keyData;
      this.valData := valData;
      vlkeys := map[];
      vldatasets := {};
      tblOffset := map[];
      tblSize := map[];
      tblSizes := map[];
      tblTypes := map[];
    }

    /* ---- Notify ---- */

    /**
     * `Notify(data)`: the first loop makes the table of each title with no
     * cached row size, from the first datum of that title, and groups the
     * datums by title in input order; the second loop writes the groups in
     * the ascending order of their titles (the order of a `std::map`), and an
     * exception from a group ends the call. `failing` is the set of titles
     * whose `H5TBappend_records` fails.
     */
    method Notify(data: seq<Datum>, failing: set<string>) returns (r: Result<()>)
      requires Valid() && NotifyReady(StateOf(), data)
      modifies this`tables, this`records, this`tblOffset, this`tblSize, this`tblSizes, this`tblTypes
      modifies this`keyData, this`valData, this`vlkeys, this`vldatasets
      ensures (StateOf(), r) == Tables.Notify(old(StateOf()), data, failing, hasher)
      ensures Valid()
    {
      ghost var s0 := StateOf();
      var groups := CreateAndGroup(data);
      CreatedReady(s0, data, StateOf(), groups, failing, hasher);
      r := WriteGroups(groups, failing);
    }

    /**
     * Notify's first loop: `CreateTable` for each datum whose title has no
     * cached row size, and `groups[name].push_back(d)`.
     */
    method CreateAndGroup(data: seq<Datum>) returns (groups: map<string, seq<Datum>>)
      requires AllWellFormed(data)
      modifies this`tables, this`records, this`tblOffset, this`tblSize, this`tblSizes, this`tblTypes
      ensures StateOf() == CreateAll(old(StateOf()), data) && groups == Groups(data)
    {
      groups := map[];
      for i := 0 to |data|
        invariant AllWellFormed(data[..i]) && StateOf() == CreateAll(old(StateOf()), data[..i])
        invariant groups == Groups(data[..i])
      {
        var d := data[i];
        CreateStep(old(StateOf()), data, i, StateOf());
        if d.title !in tblSize {
          CreateTable(d);
        }
        GroupsSnoc(data[..i], d);
        groups := groups[d.title := (if d.title in groups then groups[d.title] else []) + [d]];
      }
      assert data[..|data|] == data;
    }

    /**
     * Notify's second loop: the groups written in the ascending order of
     * their titles, the first exception ending the loop.
     */
    method WriteGroups(groups: map<string, seq<Datum>>, failing: set<string>) returns (r: Result<()>)
      requires Valid() && GroupsReady(StateOf(), groups)
      modifies this`records, this`tblTypes, this`keyData, this`valData, this`vlkeys, this`vldatasets
      ensures (StateOf(), r) == WriteAll(old(StateOf()), Ascending(groups.Keys), groups, failing, hasher)
      ensures Valid()
    {
      ghost var c := StateOf();
      ghost var order := Ascending(groups.Keys);
      var remaining := groups.Keys;
      ghost var written: seq<string> := [];
      r := Ok(());
      while remaining != {}
        invariant remaining <= groups.Keys && written + Ascending(remaining) == order
        invariant forall x :: x in written ==> x in groups
        invariant StateOf() == WriteAll(c, written, groups, failing, hasher).0 && r == WriteAll(c, written, groups, failing, hasher).1
        invariant r.Ok? && Valid()
        decreases |remaining|
      {
        LeastExists(remaining);
        var t :| t in remaining && IsLeast(t, remaining);
        VisitStep(written, t, remaining, groups.Keys);
        r := WriteNext(c, written, t, groups, failing);
        written, remaining := written + [t], remaining - {t};
        if r.Err? {
          ghost var rest := Ascending(remaining);
          WriteAllStops(c, written, rest, groups, failing, hasher);
          assert written + rest == order;
          return;
        }
      }
      AscendingEmpty(remaining);
      assert written == order;
      assert (StateOf(), r) == WriteAll(c, written, groups, failing, hasher);
    }

    /** One pass of the second loop: write the group of `t` after those of `written`. */
    method WriteNext(ghost c: State, ghost written: seq<string>, t: string, groups: map<string, seq<Datum>>, failing: set<string>)
      returns (r: Result<()>)
      requires StateOk(c) && GroupsReady(c, groups) && t in groups
      requires forall x :: x in written ==> x in groups
      requires StateOf() == WriteAll(c, written, groups, failing, hasher).0 && WriteAll(c, written, groups, failing, hasher).1.Ok?
      requires Valid()
      modifies this`records, this`tblTypes, this`keyData, this`valData, this`vlkeys, this`vldatasets
      ensures (StateOf(), r) == WriteAll(c, written + [t], groups, failing, hasher)
      ensures Valid()
    {
      WriteStep(c, written, t, groups, failing, hasher);
      r := WriteGroup(groups[t], t in failing);
    }

    /* ---- CreateTable ---- */

    /**
     * `CreateTable(d)`: derive one column per field, the tag and width from
     * the value's type (a string's from its shape), the offsets as running
     * sums of the widths; make the table and cache the layout.
     */
    method CreateTable(d: Datum)
      requires WellFormedDatum(d)
      modifies this`tables, this`records, this`tblOffset, this`tblSize, this`tblSizes, this`tblTypes
      ensures StateOf() == Create(old(StateOf()), d)
    {
      var columns, dstOffset, dstSize, dstSizes, dbtypes := Layout(d);
      var title := d.title;
      ghost var s := StateOf();
      CreateExplicit(s, d, columns, dstOffset, dstSize, dstSizes, dbtypes);
      if title !in tables {
        // H5TBmake_table fails, changing nothing, when the dataset exists.
        MakeTable(title, columns);
      }
      CacheLayout(title, dstOffset, dstSize, dstSizes, dbtypes);
    }

    /** `H5TBmake_table`: a new table of the given columns and no records. */
    method MakeTable(title: string, columns: seq<Column>)
      modifies this`tables, this`records
      ensures tables == old(tables)[title := Table(columns, CHUNK_SIZE)] && records == old(records)[title := []]
      ensures unchanged(this`tblOffset, this`tblSize, this`tblSizes, this`tblTypes)
      ensures unchanged(this`keyData, this`valData, this`vlkeys, this`vldatasets)
    {
      tables := tables[title := Table(columns, CHUNK_SIZE)];
      records := records[title := []];
    }

    /** The layout caches `tbl_offset_`, `tbl_size_`, `tbl_sizes_` and `tbl_types_` of a table. */
    method CacheLayout(title: string, offsets: seq<nat>, rowsize: nat, sizes: seq<nat>, types: seq<DbType>)
      modifies this`tblOffset, this`tblSize, this`tblSizes, this`tblTypes
      ensures CacheOf() == Cache(old(tblOffset)[title := offsets], old(tblSize)[title := rowsize],
                                 old(tblSizes)[title := sizes], old(tblTypes)[title := types])
      ensures unchanged(this`tables, this`records)
      ensures unchanged(this`keyData, this`valData, this`vlkeys, this`vldatasets)
    {
      tblOffset := tblOffset[title := offsets];
      tblSize := tblSize[title := rowsize];
      tblSizes := tblSizes[title := sizes];
      tblTypes := tblTypes[title := types];
    }

    /**
     * CreateTable's loop over the fields: each field's tag and width, its
     * offset the running sum of the widths before it (`dst_offset`), the
     * widths (`dst_sizes`), the tags (`dbtypes`) and the row size (`dst_size`).
     */
    static method Layout(d: Datum) returns (columns: seq<Column>, offsets: seq<nat>, rowsize: nat, sizes: seq<nat>, types: seq<DbType>)
      requires WellFormedDatum(d)
      ensures columns == Columns(d)
      ensures offsets == Offsets(Sizes(Columns(d))) && rowsize == RowSize(Columns(d))
      ensures sizes == Sizes(Columns(d)) && types == Types(Columns(d))
    {
      var vals := d.vals;
      var nvals := |vals|;
      ghost var cols := Columns(d);
      columns, offsets, rowsize, sizes, types := [], [], 0, [], [];
      for i := 0 to nvals
        invariant columns == cols[..i]
        invariant offsets == Offsets(Sizes(columns)) && rowsize == RowSize(columns)
        invariant sizes == Sizes(columns) && types == Types(columns)
      {
        offsets := offsets + [rowsize];
        var t, size := FieldType(vals[i]);
        types := types + [t];
        sizes := sizes + [size];
        LayoutSnoc(columns, Column(vals[i].name, t, size));
        rowsize := rowsize + size;
        columns := columns + [Column(vals[i].name, t, size)];
        assert cols[..i + 1] == cols[..i] + [cols[i]];
      }
      assert cols[..nvals] == cols;
    }

    /** The tag and width CreateTable gives a field: from the value's type, and for a string from its shape. */
    static method FieldType(e: Entry) returns (t: DbType, size: nat)
      requires WellFormedValue(e.value)
      ensures Column(e.name, t, size) == ColumnOf(e)
    {
      match e.value {
        case BoolV(_) => t, size := Bool, BOOL_SIZE;
        case IntV(_) => t, size := Int, INT_SIZE;
        case FloatV(_) => t, size := Float, FLOAT_SIZE;
        case DoubleV(_) => t, size := Double, DOUBLE_SIZE;
        case StrV(_) =>
          var shape := e.shape;
          if shape.None? || shape.value < 1 {
            t, size := VlString, DIGEST_SIZE;
          } else {
            t, size := String, shape.value;
          }
        case BlobV(_) => t, size := Blob, DIGEST_SIZE;
        case UuidV(_) => t, size := Uuid, UUID_SIZE;
      }
    }

    /* ---- LoadTableTypes and GetTableInfo ---- */

    /**
     * `LoadTableTypes(title, ncols)`: cache the tags of a table from its
     * `cyclus_dbtypes` attribute, unless they are cached already.
     */
    method LoadTableTypes(title: string, ncols: nat)
      requires title in tables && ncols == |tables[title].columns|
      requires Consistent(tables, CacheOf())
      modifies this`tblTypes
      ensures StateOf() == old(StateOf()).(cache := old(CacheOf()).(types := tblTypes))
      ensures tblTypes == if title in old(tblTypes) then old(tblTypes) else old(tblTypes)[title := Types(tables[title].columns)]
      ensures title in tblTypes && tblTypes[title] == Types(tables[title].columns)
      ensures Consistent(tables, CacheOf())
    {
      if title in tblTypes {
        return;
      }
      var dbtypes := ReadTypes(Types(tables[title].columns));
      tblTypes := tblTypes[title := dbtypes];
    }

    /** `GetTableInfo(title)`: the field names and tags of a table, in column order. */
    method GetTableInfo(title: string) returns (fields: seq<string>, types: seq<DbType>)
      requires title in tables && Consistent(tables, CacheOf())
      modifies this`tblTypes
      ensures StateOf() == old(StateOf()).(cache := old(CacheOf()).(types := tblTypes))
      ensures fields == Names(tables[title].columns) && types == Types(tables[title].columns)
      ensures tblTypes == if title in old(tblTypes) then old(tblTypes) else old(tblTypes)[title := Types(tables[title].columns)]
      ensures Consistent(tables, CacheOf())
    {
      var cols := tables[title].columns;
      var ncols := |cols|;
      LoadTableTypes(title, ncols);
      var dbtypes := tblTypes[title];
      fields, types := [], [];
      for i := 0 to ncols
        invariant fields == Names(cols)[..i] && types == Types(cols)[..i]
      {
        fields := fields + [cols[i].name];
        types := types + [dbtypes[i]];
      }
    }

    /* ---- Query ---- */

    /**
     * `Query(title, conds)`: group the conditions by field, read the table's
     * field names and tags, then read the table chunk by chunk and keep each
     * row whose every field passes its conditions, in on-disk order. A BOOL
     * field, or a digest the value store lacks, throws. Field widths come
     * from `tbl_sizes_`, so the table's layout must be cached.
     */
    method Query(title: string, conds: seq<Cond>, holds: (Cond, Value) -> bool) returns (r: Result<QueryResult>)
      requires Valid() && title in tables && title in tblSizes
      modifies this`tblTypes, this`keyData, this`valData, this`vlkeys, this`vldatasets
      ensures tables == old(tables) && records == old(records)
      ensures r == QueryOf(tables[title].columns, records[title], conds, old(Store()), holds)
      ensures ReadOnly(old(Store()), Store())
      ensures CacheOf() == old(CacheOf()).(types := tblTypes) && Valid()
    {
      ghost var st := Store();
      assert VLStore.Valid(st, hasher);
      var byField := CondsByField(conds);
      var fields, types := GetTableInfo(title);
      var fieldConds := WithFields(conds, byField, fields);
      r := ReadTable(title, fields, types, fieldConds, conds, st, holds);
    }

    /** Query once its field conditions are grouped: the table read chunk by chunk. */
    method ReadTable(title: string, fields: seq<string>, types: seq<DbType>, fieldConds: map<string, seq<Cond>>,
                     ghost conds: seq<Cond>, ghost st: VLState, holds: (Cond, Value) -> bool)
      returns (r: Result<QueryResult>)
      requires TablesOk(tables) && RecordsOk(tables, records) && Consistent(tables, CacheOf())
      requires title in tables && title in tblSizes
      requires fields == Names(tables[title].columns) && types == Types(tables[title].columns)
      requires forall f :: f in fieldConds ==> fieldConds[f] == CondsFor(conds, f)
      requires forall f :: f in fields ==> f in fieldConds
      requires VLStore.Valid(st, hasher) && st == Store()
      modifies this`keyData, this`valData, this`vlkeys, this`vldatasets
      ensures unchanged(this`tables, this`records, this`tblOffset, this`tblSize, this`tblSizes, this`tblTypes)
      ensures r == QueryOf(tables[title].columns, records[title], conds, st, holds)
      ensures ReadOnly(st, Store()) && VLStore.Valid(Store(), hasher)
    {
      var cols := tables[title].columns;
      var recs := records[title];
      var chunk := tables[title].chunk;
      var sizes := tblSizes[title];
      QueryLayout(tables, records, CacheOf(), title);
      NamesIn(cols, fields, fieldConds);
      var rows := ScanChunks(recs, chunk, cols, sizes, fieldConds, conds, st, holds);
      ReadOnlyValid(st, Store(), hasher);
      if rows.Err? {
        return Err(rows.error);
      }
      r := Ok(QueryResult(fields, types, rows.value));
    }

    /**
     * The chunk loop: `nchunks` chunks of `tb_chunksize` rows, the last one
     * holding what remains; each chunk read (`H5Dread`) and scanned in turn.
     */
    method ScanChunks(recs: seq<Str>, chunk: nat, cols: seq<Column>, sizes: seq<nat>, fieldConds: map<string, seq<Cond>>,
                      ghost conds: seq<Cond>, ghost st: VLState, holds: (Cond, Value) -> bool)
      returns (r: Result<seq<seq<Value>>>)
      requires chunk > 0 && ColumnsOk(cols) && sizes == Sizes(cols) && RecordsFit(cols, recs)
      requires forall j :: 0 <= j < |cols| ==> cols[j].name in fieldConds && fieldConds[cols[j].name] == CondsFor(conds, cols[j].name)
      requires ReadOnly(st, Store())
      modifies this`keyData, this`valData, this`vlkeys, this`vldatasets
      ensures unchanged(this`tables, this`records, this`tblOffset, this`tblSize, this`tblSizes, this`tblTypes)
      ensures r == ScanRows(cols, recs, conds, st, holds)
      ensures ReadOnly(st, Store())
    {
      var len := |recs|;
      var nchunks := len / chunk + if len % chunk == 0 then 0 else 1;
      assert nchunks == ChunkCount(len, chunk);
      var rows: seq<seq<Value>> := [];
      var n := 0;
      ghost var done := 0;
      while n < nchunks
        invariant n <= nchunks && done == (if n < nchunks then n * chunk else len) && done <= len
        invariant RecordsFit(cols, recs[..done])
        invariant ScanRows(cols, recs[..done], conds, st, holds) == Ok(rows)
        invariant ReadOnly(st, Store())
        invariant unchanged(this`tables, this`records, this`tblOffset, this`tblSize, this`tblSizes, this`tblTypes)
      {
        var got;
        got, done := NextChunk(recs, chunk, n, cols, sizes, fieldConds, conds, st, holds, rows);
        if got.Err? {
          return got;
        }
        rows := rows + got.value;
        n := n + 1;
      }
      if nchunks == 0 {
        assert len == 0;
      }
      assert recs[..done] == recs;
      r := Ok(rows);
    }

    /** Chunk `n`: its rows selected (`H5Sselect_hyperslab`), read (`H5Dread`) and scanned. */
    method NextChunk(recs: seq<Str>, chunk: nat, n: nat, cols: seq<Column>, sizes: seq<nat>, fieldConds: map<string, seq<Cond>>,
                     ghost conds: seq<Cond>, ghost st: VLState, holds: (Cond, Value) -> bool, ghost rows: seq<seq<Value>>)
      returns (got: Result<seq<seq<Value>>>, ghost done: nat)
      requires chunk > 0 && n < ChunkCount(|recs|, chunk)
      requires ColumnsOk(cols) && sizes == Sizes(cols) && RecordsFit(cols, recs)
      requires forall j :: 0 <= j < |cols| ==> cols[j].name in fieldConds && fieldConds[cols[j].name] == CondsFor(conds, cols[j].name)
      requires ReadOnly(st, Store())
      requires n * chunk <= |recs| && RecordsFit(cols, recs[..n * chunk])
      requires ScanRows(cols, recs[..n * chunk], conds, st, holds) == Ok(rows)
      modifies this`keyData, this`valData, this`vlkeys, this`vldatasets
      ensures unchanged(this`tables, this`records, this`tblOffset, this`tblSize, this`tblSizes, this`tblTypes)
      ensures done == (if n + 1 < ChunkCount(|recs|, chunk) then (n + 1) * chunk else |recs|) && done <= |recs|
      ensures RecordsFit(cols, recs[..done])
      ensures got.Ok? ==> ScanRows(cols, recs[..done], conds, st, holds) == Ok(rows + got.value)
      ensures got.Err? ==> got == ScanRows(cols, recs, conds, st, holds)
      ensures ReadOnly(st, Store())
    {
      var len := |recs|;
      ChunksPartition(len, chunk, n);
      var start := n * chunk;
      var count := if len - start < chunk then len - start else chunk;
      var buf := recs[start..start + count];
      ChunkFits(cols, recs, start, count);
      got := ReadChunk(buf, cols, sizes, fieldConds, conds, st, holds);
      ChunkScanned(cols, recs, start, count, conds, st, holds);
      done := start + count;
    }

    /** One chunk, row by row; a fresh row for each row (see README). */
    method ReadChunk(buf: seq<Str>, cols: seq<Column>, sizes: seq<nat>, fieldConds: map<string, seq<Cond>>,
                     ghost conds: seq<Cond>, ghost st: VLState, holds: (Cond, Value) -> bool)
      returns (r: Result<seq<seq<Value>>>)
      requires ColumnsOk(cols) && sizes == Sizes(cols) && RecordsFit(cols, buf)
      requires forall j :: 0 <= j < |cols| ==> cols[j].name in fieldConds && fieldConds[cols[j].name] == CondsFor(conds, cols[j].name)
      requires ReadOnly(st, Store())
      modifies this`keyData, this`valData, this`vlkeys, this`vldatasets
      ensures unchanged(this`tables, this`records, this`tblOffset, this`tblSize, this`tblSizes, this`tblTypes)
      ensures r == ScanRows(cols, buf, conds, st, holds)
      ensures ReadOnly(st, Store())
    {
      var rows: seq<seq<Value>> := [];
      for i := 0 to |buf|
        invariant RecordsFit(cols, buf[..i])
        invariant ScanRows(cols, buf[..i], conds, st, holds) == Ok(rows)
        invariant ReadOnly(st, Store())
        invariant unchanged(this`tables, this`records, this`tblOffset, this`tblSize, this`tblSizes, this`tblTypes)
      {
        RowScanned(cols, buf, i, conds, st, holds);
        var out := ReadRow(buf[i], cols, sizes, fieldConds, conds, st, holds);
        match out {
          case Accepted(vals) =>
            rows := rows + [vals];
          case Rejected =>
          case Failed(e) =>
            return Err(e);
        }
      }
      assert buf[..|buf|] == buf;
      r := Ok(rows);
    }

    /**
     * One row: its fields left to right at the running offset, each decoded
     * and checked against its conditions; the first rejecting field ends the
     * row and a field that cannot be read throws.
     */
    method ReadRow(row: Str, cols: seq<Column>, sizes: seq<nat>, fieldConds: map<string, seq<Cond>>,
                   ghost conds: seq<Cond>, ghost st: VLState, holds: (Cond, Value) -> bool)
      returns (out: RowOutcome)
      requires ColumnsOk(cols) && sizes == Sizes(cols) && RowSize(cols) <= |row|
      requires forall j :: 0 <= j < |cols| ==> cols[j].name in fieldConds && fieldConds[cols[j].name] == CondsFor(conds, cols[j].name)
      requires ReadOnly(st, Store())
      modifies this`keyData, this`valData, this`vlkeys, this`vldatasets
      ensures unchanged(this`tables, this`records, this`tblOffset, this`tblSize, this`tblSizes, this`tblTypes)
      ensures out == DecodeRecord(cols, row, conds, st, holds)
      ensures ReadOnly(st, Store())
    {
      ghost var fields := FieldSlices(row, sizes);
      SlicesFit(cols, row);
      var vals: seq<Value> := [];
      var offset := 0;
      var j := 0;
      assert cols[0..] == cols && fields[0..] == fields;
      while j < |cols|
        invariant j <= |cols| && offset == Sum(sizes[..j])
        invariant FieldsFit(cols[j..], fields[j..])
        invariant DecodeRow(cols, fields, conds, st, holds) == Continue(vals, DecodeRow(cols[j..], fields[j..], conds, st, holds))
        invariant ReadOnly(st, Store())
        invariant unchanged(this`tables, this`records, this`tblOffset, this`tblSize, this`tblSizes, this`tblTypes)
      {
        RowStep(cols, fields, conds, st, holds, j, vals);
        var x, pass := FieldStep(row, offset, j, cols, sizes, fieldConds, conds, st, holds);
        if x.Err? {
          return Failed(x.error);
        }
        if !pass {
          return Rejected;
        }
        vals := vals + [x.value];
        offset := offset + sizes[j];
        j := j + 1;
      }
      assert cols[j..] == [] && fields[j..] == [];
      assert vals + [] == vals;
      out := Accepted(vals);
    }

    /** Field `j` of a row, read at the running offset and checked against the conditions on its name. */
    method FieldStep(row: Str, offset: nat, j: nat, cols: seq<Column>, sizes: seq<nat>, fieldConds: map<string, seq<Cond>>,
                     ghost conds: seq<Cond>, ghost st: VLState, holds: (Cond, Value) -> bool)
      returns (x: Result<Value>, pass: bool)
      requires ColumnsOk(cols) && sizes == Sizes(cols) && RowSize(cols) <= |row| && j < |cols| && offset == Sum(sizes[..j])
      requires cols[j].name in fieldConds && fieldConds[cols[j].name] == CondsFor(conds, cols[j].name)
      requires ReadOnly(st, Store())
      modifies this`keyData, this`valData, this`vlkeys, this`vldatasets
      ensures unchanged(this`tables, this`records, this`tblOffset, this`tblSize, this`tblSizes, this`tblTypes)
      ensures offset + sizes[j] == Sum(sizes[..j + 1]) <= |row|
      ensures x == DecodeField(cols[j].dbtype, FieldSlices(row, sizes)[j], st)
      ensures pass <==> x.Ok? && CmpConds(x.value, CondsFor(conds, cols[j].name), holds)
      ensures ReadOnly(st, Store())
    {
      SliceBounds(cols, row, j);
      SliceAt(cols, row, j);
      x := ReadField(cols[j].dbtype, row[offset..offset + sizes[j]], st);
      pass := x.Ok? && CmpConds(x.value, fieldConds[cols[j].name], holds);
    }

    /**
     * One field as Query's switch reads it: BOOL throws, numbers and UUIDs
     * are their own bytes, a fixed string is cut at its first NUL, and a
     * variable-length field is read from the value store by its digest.
     */
    method ReadField(t: DbType, field: Str, ghost st: VLState) returns (r: Result<Value>)
      requires WidthOk(t, |field|) && ReadOnly(st, Store())
      modifies this`keyData, this`valData, this`vlkeys, this`vldatasets
      ensures unchanged(this`tables, this`records, this`tblOffset, this`tblSize, this`tblSizes, this`tblTypes)
      ensures r == DecodeField(t, field, st)
      ensures ReadOnly(st, Store())
    {
      match t {
        case Bool =>
          r := Err(IOError(BOOL_MESSAGE));
        case Int =>
          r := Ok(IntV(DecodeInt32(field)));
        case Float =>
          r := Ok(FloatV(field));
        case Double =>
          r := Ok(DoubleV(field));
        case String =>
          r := Ok(StrV(DecodeFixed(field)));
        case VlString =>
          var x := VLRead(StringKind, field, st);
          r := if x.Ok? then Ok(StrV(x.value)) else Err(x.error);
        case Blob =>
          var x := VLRead(BlobKind, field, st);
          r := if x.Ok? then Ok(BlobV(x.value)) else Err(x.error);
        case Uuid =>
          r := Ok(UuidV(field));
      }
    }

    /* ---- The value store ---- */

    /**
     * `VLDataset(kind, forkeys)`: open a dataset of the value store. One
     * already open is left alone; an existing key dataset is read back into
     * `vlkeys_` digest by digest; a missing dataset is created empty.
     */
    method VLDataset(kind: VLKind, forkeys: bool)
      modifies this`keyData, this`valData, this`vlkeys, this`vldatasets
      ensures unchanged(this`tables, this`records, this`tblOffset, this`tblSize, this`tblSizes, this`tblTypes)
      ensures Store() == Open(old(Store()), kind, forkeys)
    {
      var ds := Dataset(kind, forkeys);
      if ds in vldatasets {
        return;
      }
      if forkeys {
        if kind in keyData {
          var persisted := keyData[kind];
          var loaded := Known(Store(), kind);
          for n := 0 to |persisted|
            modifies {}
            invariant loaded == Known(old(Store()), kind) + Elems(persisted[..n])
          {
            assert persisted[..n + 1] == persisted[..n] + [persisted[n]];
            ElemsAppend(persisted[..n], persisted[n]);
            loaded := loaded + {persisted[n]};
          }
          assert persisted[..|persisted|] == persisted;
          vlkeys := vlkeys[kind := loaded];
        } else {
          keyData := keyData[kind := []];
        }
      } else if kind !in valData {
        valData := valData[kind := []];
      }
      vldatasets := vldatasets + {ds};
    }

    /** `AppendVLKey`: extend the key dataset by one slot and write the digest there; record it in `vlkeys_`. */
    method AppendVLKey(kind: VLKind, key: Digest)
      requires kind in keyData
      modifies this`keyData, this`vlkeys
      ensures keyData == old(keyData)[kind := old(keyData)[kind] + [key]]
      ensures vlkeys == old(vlkeys)[kind := Known(old(Store()), kind) + {key}]
      ensures valData == old(valData) && vldatasets == old(vldatasets)
      ensures unchanged(this`tables, this`records, this`tblOffset, this`tblSize, this`tblSizes, this`tblTypes)
    {
      var origlen := |keyData[kind]|;
      keyData := keyData[kind := keyData[kind] + [ZeroDigest]];
      var slots: seq<Digest> := keyData[kind];
      slots := slots[origlen := key];
      assert slots == old(keyData)[kind] + [key];
      keyData := keyData[kind := slots];
      vlkeys := vlkeys[kind := Known(Store(), kind) + {key}];
    }

    /** `InsertVLVal`: store the content at the position of its digest in the key dataset. */
    method InsertVLVal(kind: VLKind, x: Str)
      requires kind in valData
      modifies this`valData
      ensures valData == old(valData)[kind := old(valData)[kind] + [x]]
      ensures keyData == old(keyData) && vlkeys == old(vlkeys) && vldatasets == old(vldatasets)
      ensures unchanged(this`tables, this`records, this`tblOffset, this`tblSize, this`tblSizes, this`tblTypes)
    {
      valData := valData[kind := valData[kind] + [x]];
    }

    /**
     * `VLWrite(x)`: the digest of the content, stored once per category: an
     * unknown digest is appended to the keys and the content to the values.
     */
    method VLWrite(kind: VLKind, x: Str) returns (key: Digest)
      requires VLStore.Valid(Store(), hasher)
      modifies this`keyData, this`valData, this`vlkeys, this`vldatasets
      ensures unchanged(this`tables, this`records, this`tblOffset, this`tblSize, this`tblSizes, this`tblTypes)
      ensures key == hasher(x)
      ensures Store() == Put(old(Store()), kind, x, hasher)
      ensures VLStore.Valid(Store(), hasher) && Extends(old(Store()), Store())
    {
      PutEffect(Store(), kind, x, hasher);
      PutExtends(Store(), kind, x, hasher);
      key := hasher(x);
      VLDataset(kind, true);
      VLDataset(kind, false);
      OpenedForPut(old(Store()), kind, hasher);
      if key in Known(Store(), kind) {
        return;
      }
      AppendVLKey(kind, key);
      InsertVLVal(kind, x);
    }

    /**
     * `VLRead(key)`: open the value dataset of the category and read the
     * content stored under the digest; a digest outside the dataset throws.
     */
    method VLRead(kind: VLKind, key: Str, ghost st: VLState) returns (r: Result<Str>)
      requires ReadOnly(st, Store())
      modifies this`keyData, this`valData, this`vlkeys, this`vldatasets
      ensures unchanged(this`tables, this`records, this`tblOffset, this`tblSize, this`tblSizes, this`tblTypes)
      ensures r == match Lookup(st, kind, key) case Some(x) => Ok(x) case None => Err(IOError(HYPERSLAB_MESSAGE))
      ensures ReadOnly(st, Store())
    {
      OpenForRead(Store(), kind);
      VLDataset(kind, false);
      ReadOnlyLookup(st, Store(), kind, key);
      var found := Lookup(Store(), kind, key);
      if found.None? {
        return Err(IOError(HYPERSLAB_MESSAGE));
      }
      r := Ok(found.value);
    }

    /* ---- Packing a group (FillBuf) and writing it (WriteGroup) ---- */

    /**
     * FillBuf's switch for a non-BOOL cell: the bytes it writes. Numbers and
     * UUIDs are their own bytes, a fixed string is cut to the width and
     * NUL-padded, and a variable-length value goes through `VLWrite` and
     * leaves its digest.
     */
    method FieldBytes(c: Cell) returns (bytes: Str)
      requires CellOk(c) && c.dbtype != Bool
      requires VLStore.Valid(Store(), hasher)
      modifies this`keyData, this`valData, this`vlkeys, this`vldatasets
      ensures unchanged(this`tables, this`records, this`tblOffset, this`tblSize, this`tblSizes, this`tblTypes)
      ensures bytes == EncodeCell(c, hasher)
      ensures Store() == PutAll(old(Store()), CellItems(c), hasher)
    {
      assert PutAll(Store(), [], hasher) == Store();
      match c.dbtype {
        case Int =>
          bytes := EncodeInt32(c.value.i);
        case Float =>
          bytes := c.value.fbits;
        case Double =>
          bytes := c.value.dbits;
        case String =>
          var s := c.value.s;
          var fieldlen := c.size;
          var slen := if |s| < fieldlen then |s| else fieldlen;
          bytes := s[..slen] + Zeros(fieldlen - slen);
        case VlString =>
          assert [Item(StringKind, c.value.s)][..0] == [];
          bytes := VLWrite(StringKind, c.value.s);
        case Blob =>
          assert [Item(BlobKind, c.value.blob)][..0] == [];
          bytes := VLWrite(BlobKind, c.value.blob);
        case Uuid =>
          bytes := c.value.uuid;
      }
    }

    /**
     * `FillBuf(title, buf, group, sizes, rowsize)`: pack the group into the
     * buffer datum after datum, each datum a row of `rowsize` bytes; a BOOL
     * column throws `IOError` at its first cell, with the values met before
     * it already stored.
     */
    method FillBuf(title: string, buf: array<byte>, group: seq<Datum>, sizes: seq<nat>, rowsize: nat) returns (r: Result<()>)
      requires TablesOk(tables) && Consistent(tables, CacheOf()) && GroupFits(tables, title, group)
      requires title in tblSize && title in tblSizes && sizes == tblSizes[title] && rowsize == tblSize[title]
      requires VLStore.Valid(Store(), hasher) && buf.Length == |group| * rowsize
      modifies this`tblTypes, this`keyData, this`valData, this`vlkeys, this`vldatasets, buf
      ensures tables == old(tables) && records == old(records) && CacheOf() == old(CacheOf())
      ensures var cells := GroupCellsOf(tables, title, group);
        && Store() == PutAll(old(Store()), VLItems(cells[..FirstBool(cells)]), hasher)
        && r == (if FirstBool(cells) < |cells| then Err(IOError(BOOL_MESSAGE)) else Ok(()))
        && (r.Ok? ==> AllEncodable(cells) && buf[..] == EncodeCells(cells, hasher))
    {
      GroupLayout(tables, CacheOf(), title, group);
      var ncols := |group[0].vals|;
      LoadTableTypes(title, ncols);
      var dbtypes := tblTypes[title];
      RowStartMul(|group|, rowsize);
      r := FillRows(buf, group, dbtypes, sizes, rowsize);
    }

    /** FillBuf's loop over the rows of a group: row `k` is packed at `k * rowsize`. */
    method FillRows(buf: array<byte>, group: seq<Datum>, dbtypes: seq<DbType>, sizes: seq<nat>, rowsize: nat) returns (r: Result<()>)
      requires Shaped(dbtypes, sizes, group) && forall k :: 0 <= k < |group| ==> RowOk(dbtypes, sizes, group[k])
      requires rowsize == Sum(sizes) && buf.Length == RowStart(|group|, rowsize)
      requires VLStore.Valid(Store(), hasher)
      modifies this`keyData, this`valData, this`vlkeys, this`vldatasets, buf
      ensures unchanged(this`tables, this`records, this`tblOffset, this`tblSize, this`tblSizes, this`tblTypes)
      ensures var cells := GroupCells(dbtypes, sizes, group);
        && Store() == PutAll(old(Store()), VLItems(cells[..FirstBool(cells)]), hasher)
        && r == (if FirstBool(cells) < |cells| then Err(IOError(BOOL_MESSAGE)) else Ok(()))
        && (r.Ok? ==> AllEncodable(cells) && buf[..] == EncodeCells(cells, hasher))
    {
      ghost var cells := GroupCells(dbtypes, sizes, group);
      var offset: nat := 0;
      ghost var done: seq<Cell> := [];
      assert group[..0] == [];
      assert Fields([], hasher) == [];
      for k := 0 to |group|
        invariant offset == RowStart(k, rowsize) <= buf.Length
        invariant Shaped(dbtypes, sizes, group[..k]) && done == GroupCells(dbtypes, sizes, group[..k])
        invariant AllEncodable(done) && buf[..offset] == EncodeCells(done, hasher)
        invariant Store() == PutAll(old(Store()), VLItems(done), hasher)
        invariant unchanged(this`tables, this`records, this`tblOffset, this`tblSize, this`tblSizes, this`tblTypes)
      {
        r, offset := PackRow(buf, offset, group, k, dbtypes, sizes, rowsize, done, old(Store()));
        if r.Err? {
          PutAllEffect(old(Store()), VLItems(cells[..FirstBool(cells)]), hasher);
          return;
        }
        done := GroupCells(dbtypes, sizes, group[..k + 1]);
      }
      GroupCellsWhole(dbtypes, sizes, group, done);
      PutAllEffect(old(Store()), VLItems(done), hasher);
      assert buf[..] == buf[..offset];
      r := Ok(());
    }

    /**
     * One pass of FillBuf's row loop: datum `k` packed at `k * rowsize`, after
     * the rows before it, its values stored on the way; the offset moves on
     * by one row.
     */
    method PackRow(buf: array<byte>, offset: nat, group: seq<Datum>, k: nat, dbtypes: seq<DbType>, sizes: seq<nat>,
                   rowsize: nat, ghost done: seq<Cell>, ghost st0: VLState) returns (r: Result<()>, next: nat)
      requires Shaped(dbtypes, sizes, group) && k < |group| && RowOk(dbtypes, sizes, group[k])
      requires rowsize == Sum(sizes) && buf.Length == RowStart(|group|, rowsize) && offset == RowStart(k, rowsize) <= buf.Length
      requires Shaped(dbtypes, sizes, group[..k]) && done == GroupCells(dbtypes, sizes, group[..k])
      requires AllEncodable(done) && buf[..offset] == EncodeCells(done, hasher)
      requires Store() == PutAll(st0, VLItems(done), hasher) && VLStore.Valid(st0, hasher)
      modifies this`keyData, this`valData, this`vlkeys, this`vldatasets, buf
      ensures unchanged(this`tables, this`records, this`tblOffset, this`tblSize, this`tblSizes, this`tblTypes)
      ensures next == RowStart(k + 1, rowsize) <= buf.Length
      ensures Shaped(dbtypes, sizes, group[..k + 1])
      ensures r.Ok? ==> var cs := GroupCells(dbtypes, sizes, group[..k + 1]);
        && AllEncodable(cs) && buf[..next] == EncodeCells(cs, hasher)
        && Store() == PutAll(st0, VLItems(cs), hasher)
      ensures r.Err? ==> var cells := GroupCells(dbtypes, sizes, group);
        && FirstBool(cells) < |cells| && r == Err(IOError(BOOL_MESSAGE))
        && Store() == PutAll(st0, VLItems(cells[..FirstBool(cells)]), hasher)
    {
      RowStartWithin(k, |group|, rowsize);
      RowStartStep(k, rowsize);
      PutAllEffect(st0, VLItems(done), hasher);
      ghost var before, st := buf[..offset], Store();
      r := FillRow(buf, offset, group[k], dbtypes, sizes);
      next := offset + rowsize;
      RowPacked(dbtypes, sizes, group, k, done, st0, hasher, before, buf[..next], st, Store(), r);
    }

    /**
     * FillBuf's inner loop over the columns of one datum: each cell packed
     * at the running offset, which advances by the column's width; a BOOL
     * column throws `IOError`.
     */
    method FillRow(buf: array<byte>, start: nat, d: Datum, dbtypes: seq<DbType>, sizes: seq<nat>) returns (r: Result<()>)
      requires RowOk(dbtypes, sizes, d) && start + Sum(sizes) <= buf.Length
      requires VLStore.Valid(Store(), hasher)
      modifies this`keyData, this`valData, this`vlkeys, this`vldatasets, buf
      ensures unchanged(this`tables, this`records, this`tblOffset, this`tblSize, this`tblSizes, this`tblTypes)
      ensures var cells := RowCells(dbtypes, sizes, d);
        && Store() == PutAll(old(Store()), VLItems(cells[..FirstBool(cells)]), hasher)
        && r == (if FirstBool(cells) < |cells| then Err(IOError(BOOL_MESSAGE)) else Ok(()))
        && (r.Ok? ==> AllEncodable(cells) && buf[..start + Sum(sizes)] == old(buf[..start]) + EncodeCells(cells, hasher))
    {
      ghost var cells := RowCells(dbtypes, sizes, d);
      ghost var prefix, st0 := buf[..start], Store();
      var offset := start;
      var ncols := |dbtypes|;
      assert cells[..0] == [] && sizes[..0] == [];
      for col := 0 to ncols
        invariant offset == start + Sum(sizes[..col]) && Sum(sizes[..col]) <= Sum(sizes)
        invariant AllEncodable(cells[..col])
        invariant buf[..offset] == prefix + EncodeCells(cells[..col], hasher)
        invariant Store() == PutAll(st0, VLItems(cells[..col]), hasher)
        invariant unchanged(this`tables, this`records, this`tblOffset, this`tblSize, this`tblSizes, this`tblTypes)
      {
        r, offset := PackCell(buf, start, offset, d, dbtypes, sizes, col, cells, prefix, st0);
        if r.Err? {
          return;
        }
      }
      assert cells[..ncols] == cells && sizes[..ncols] == sizes;
      FirstBoolNone(cells);
      r := Ok(());
    }

    /**
     * One pass of FillBuf's column loop: the field's bytes written at the
     * running offset, after the fields before it, its value stored; the
     * offset moves on by the column's width.
     */
    method PackCell(buf: array<byte>, start: nat, offset: nat, d: Datum, dbtypes: seq<DbType>, sizes: seq<nat>, col: nat,
                    ghost cells: seq<Cell>, ghost prefix: Str, ghost st0: VLState) returns (r: Result<()>, next: nat)
      requires RowOk(dbtypes, sizes, d) && start + Sum(sizes) <= buf.Length
      requires cells == RowCells(dbtypes, sizes, d) && col < |cells|
      requires offset == start + Sum(sizes[..col]) && offset <= buf.Length
      requires AllEncodable(cells[..col]) && buf[..offset] == prefix + EncodeCells(cells[..col], hasher)
      requires Store() == PutAll(st0, VLItems(cells[..col]), hasher) && VLStore.Valid(st0, hasher)
      modifies this`keyData, this`valData, this`vlkeys, this`vldatasets, buf
      ensures unchanged(this`tables, this`records, this`tblOffset, this`tblSize, this`tblSizes, this`tblTypes)
      ensures r == (if dbtypes[col] == Bool then Err(IOError(BOOL_MESSAGE)) else Ok(()))
      ensures r.Err? ==> FirstBool(cells) == col && Store() == PutAll(st0, VLItems(cells[..col]), hasher)
      ensures r.Ok? ==>
        && next == start + Sum(sizes[..col + 1]) && Sum(sizes[..col + 1]) <= Sum(sizes)
        && AllEncodable(cells[..col + 1]) && buf[..next] == prefix + EncodeCells(cells[..col + 1], hasher)
        && Store() == PutAll(st0, VLItems(cells[..col + 1]), hasher)
    {
      if dbtypes[col] == Bool {
        FirstBoolAt(cells, col);
        return Err(IOError(BOOL_MESSAGE)), offset;
      }
      r := Ok(());
      next := PutCell(buf, start, offset, d, dbtypes, sizes, col, cells, prefix, st0);
    }

    /** A cell of any tag but BOOL: its bytes copied in at the offset, its value stored. */
    method PutCell(buf: array<byte>, start: nat, offset: nat, d: Datum, dbtypes: seq<DbType>, sizes: seq<nat>, col: nat,
                   ghost cells: seq<Cell>, ghost prefix: Str, ghost st0: VLState) returns (next: nat)
      requires RowOk(dbtypes, sizes, d) && start + Sum(sizes) <= buf.Length
      requires cells == RowCells(dbtypes, sizes, d) && col < |cells| && dbtypes[col] != Bool
      requires offset == start + Sum(sizes[..col]) && offset <= buf.Length
      requires AllEncodable(cells[..col]) && buf[..offset] == prefix + EncodeCells(cells[..col], hasher)
      requires Store() == PutAll(st0, VLItems(cells[..col]), hasher) && VLStore.Valid(st0, hasher)
      modifies this`keyData, this`valData, this`vlkeys, this`vldatasets, buf
      ensures unchanged(this`tables, this`records, this`tblOffset, this`tblSize, this`tblSizes, this`tblTypes)
      ensures next == start + Sum(sizes[..col + 1]) && Sum(sizes[..col + 1]) <= Sum(sizes)
      ensures AllEncodable(cells[..col + 1]) && buf[..next] == prefix + EncodeCells(cells[..col + 1], hasher)
      ensures Store() == PutAll(st0, VLItems(cells[..col + 1]), hasher)
    {
      SumPrefixStep(sizes, col);
      PutAllEffect(st0, VLItems(cells[..col]), hasher);
      ghost var st := Store();
      var bytes := FieldBytes(Cell(dbtypes[col], sizes[col], d.vals[col].value));
      ghost var prev := buf[..];
      CopyInto(buf, offset, bytes);
      next := offset + sizes[col];
      CellPacked(cells, col, hasher, prefix, prev, offset, bytes, st0, st, Store());
    }

    /**
     * `WriteGroup(group)`: a buffer of `|group| * rowsize` bytes, packed by
     * FillBuf and appended to the table as `|group|` records; a failed
     * append (`fails`, the status of `H5TBappend_records`) throws `IOError`.
     */
    method WriteGroup(group: seq<Datum>, fails: bool) returns (r: Result<()>)
      requires Valid() && group != [] && GroupReady(StateOf(), group[0].title, group)
      modifies this`records, this`tblTypes, this`keyData, this`valData, this`vlkeys, this`vldatasets
      ensures (StateOf(), r) == Tables.WriteGroup(old(StateOf()), group, fails, hasher)
      ensures Valid()
    {
      var rowsize := tblSize[group[0].title];
      RowStartMul(|group|, rowsize);
      var buf := new byte[|group| * rowsize];
      r := PackAndAppend(group, fails, buf);
      WriteGroupOk(old(StateOf()), group, fails, hasher);
    }

    /** WriteGroup once its buffer is allocated: FillBuf, then the append. */
    method PackAndAppend(group: seq<Datum>, fails: bool, buf: array<byte>) returns (r: Result<()>)
      requires Valid() && group != [] && GroupReady(StateOf(), group[0].title, group)
      requires buf.Length == |group| * tblSize[group[0].title]
      modifies this`records, this`tblTypes, this`keyData, this`valData, this`vlkeys, this`vldatasets, buf
      ensures (StateOf(), r) == Tables.WriteGroup(old(StateOf()), group, fails, hasher)
    {
      ghost var s := StateOf();
      var title := group[0].title;
      var sizes := tblSizes[title];
      var rowsize := tblSize[title];
      r := FillBuf(title, buf, group, sizes, rowsize);
      PackedGroupWrite(s, group, fails, hasher, Store(), buf[..], r);
      if r.Ok? {
        if fails {
          r := Err(IOError(APPEND_MESSAGE));
        } else {
          AppendRecords(title, Split(buf[..], rowsize, |group|));
        }
      }
    }

    /** `H5TBappend_records`: the rows added after the table's records. */
    method AppendRecords(title: string, rows: seq<Str>)
      requires title in records
      modifies this`records
      ensures records == old(records)[title := old(records)[title] + rows]
      ensures unchanged(this`tables, this`tblOffset, this`tblSize, this`tblSizes, this`tblTypes)
      ensures unchanged(this`keyData, this`valData, this`vlkeys, this`vldatasets)
    {
      records := records[title := records[title] + rows];
    }

    /** `memcpy(buf + at, bytes, |bytes|)`. */
    static method CopyInto(buf: array<byte>, at: nat, bytes: seq<byte>)
      requires at + |bytes| <= buf.Length
      modifies buf
      ensures buf[..] == old(buf[..])[..at] + bytes + old(buf[..])[at + |bytes|..]
    {
      for j := 0 to |bytes|
        invariant forall p :: 0 <= p < buf.Length ==> buf[p] == if at <= p < at + j then bytes[p - at] else old(buf[p])
      {
        buf[at + j] := bytes[j];
      }
      assert buf[..] == old(buf[..])[..at] + bytes + old(buf[..])[at + |bytes|..];
    }
  }

  /** Query's layout: the cached widths are the table's, and every record holds a whole row. */
  lemma QueryLayout(tables: map<string, Table>, records: map<string, seq<Str>>, cache: Cache, t: string)
    requires TablesOk(tables) && RecordsOk(tables, records) && Consistent(tables, cache)
    requires t in tables && t in cache.sizes
    ensures ColumnsOk(tables[t].columns) && tables[t].chunk > 0
    ensures cache.sizes[t] == Sizes(tables[t].columns)
    ensures t in records && RecordsFit(tables[t].columns, records[t])
  {
  }

  /** Every column of a table has an entry once every field name has one. */
  lemma NamesIn(cols: seq<Column>, fields: seq<string>, fieldConds: map<string, seq<Cond>>)
    requires fields == Names(cols) && forall f :: f in fields ==> f in fieldConds
    ensures forall j :: 0 <= j < |cols| ==> cols[j].name in fieldConds
  {
    forall j | 0 <= j < |cols| ensures cols[j].name in fieldConds {
      assert fields[j] == cols[j].name;
    }
  }

  /**
   * Scanning one more record: the rows so far and the record's own outcome;
   * a record that fails ends the whole scan with its error.
   */
  lemma RowScanned(cols: seq<Column>, recs: seq<Str>, i: nat, conds: seq<Cond>, st: VLState, holds: (Cond, Value) -> bool)
    requires ColumnsOk(cols) && RecordsFit(cols, recs) && i < |recs|
    ensures RecordsFit(cols, recs[..i]) && RecordsFit(cols, recs[..i + 1]) && RowSize(cols) <= |recs[i]|
    ensures var before, out := ScanRows(cols, recs[..i], conds, st, holds), DecodeRecord(cols, recs[i], conds, st, holds);
      before.Ok? ==>
        && ScanRows(cols, recs[..i + 1], conds, st, holds)
           == (match out case Accepted(vs) => Ok(before.value + [vs]) case Rejected => before case Failed(e) => Err(e))
        && (out.Failed? ==> ScanRows(cols, recs, conds, st, holds) == Err(out.err))
  {
    RecordsFitPrefix(cols, recs, i);
    RecordsFitPrefix(cols, recs, i + 1);
    assert recs[..i + 1][..i] == recs[..i] && recs[..i + 1][i] == recs[i];
    RecordsFitSuffix(cols, recs, i + 1);
    ScanAppend(cols, recs[..i + 1], recs[i + 1..], conds, st, holds);
    assert recs[..i + 1] + recs[i + 1..] == recs;
  }

  /** A chunk of a table's records holds whole rows. */
  lemma ChunkFits(cols: seq<Column>, recs: seq<Str>, start: nat, count: nat)
    requires RecordsFit(cols, recs) && start + count <= |recs|
    ensures RecordsFit(cols, recs[start..start + count]) && RecordsFit(cols, recs[..start + count])
  {
    assert forall k :: start <= k < start + count ==> recs[start..start + count][k - start] == recs[k];
    RecordsFitPrefix(cols, recs, start + count);
  }

  /** Scanning the records up to a chunk's end: those before it, then the chunk. */
  lemma ChunkScanned(cols: seq<Column>, recs: seq<Str>, start: nat, count: nat, conds: seq<Cond>, st: VLState,
                     holds: (Cond, Value) -> bool)
    requires ColumnsOk(cols) && RecordsFit(cols, recs) && start + count <= |recs|
    ensures RecordsFit(cols, recs[..start]) && RecordsFit(cols, recs[start..start + count]) && RecordsFit(cols, recs[..start + count])
    ensures var before, chunk := ScanRows(cols, recs[..start], conds, st, holds), ScanRows(cols, recs[start..start + count], conds, st, holds);
      before.Ok? ==>
        ScanRows(cols, recs[..start + count], conds, st, holds) ==
          if chunk.Ok? then Ok(before.value + chunk.value) else chunk
    ensures var upto := ScanRows(cols, recs[..start + count], conds, st, holds);
      upto.Err? ==> ScanRows(cols, recs, conds, st, holds) == upto
  {
    ChunkFits(cols, recs, start, count);
    RecordsFitPrefix(cols, recs, start);
    assert recs[..start] + recs[start..start + count] == recs[..start + count];
    ScanAppend(cols, recs[..start], recs[start..start + count], conds, st, holds);
    RecordsFitSuffix(cols, recs, start + count);
    assert recs[..start + count] + recs[start + count..] == recs;
    ScanAppend(cols, recs[..start + count], recs[start + count..], conds, st, holds);
  }

  /**
   * LoadTableTypes' `H5Aread` of the `cyclus_dbtypes` attribute into a fresh
   * array of `ncols` tags, the attribute holding the table's tags.
   */
  method ReadTypes(attr: seq<DbType>) returns (dbtypes: seq<DbType>)
    ensures dbtypes == attr
  {
    var buf := new DbType[|attr|];
    for i := 0 to |attr|
      modifies buf
      invariant forall j :: 0 <= j < i ==> buf[j] == attr[j]
    {
      buf[i] := attr[i];
    }
    dbtypes := buf[..];
  }

  /**
   * What the caches say of a table a group conforms to: its tags and widths
   * are those of its schema, and every datum of the group is a well-formed
   * row under them.
   */
  lemma GroupLayout(tables: map<string, Table>, cache: Cache, t: string, group: seq<Datum>)
    requires TablesOk(tables) && Consistent(tables, cache) && GroupFits(tables, t, group) && t in cache.size
    ensures var cols := tables[t].columns;
      && t in cache.types && cache.types[t] == Types(cols)
      && t in cache.sizes && cache.sizes[t] == Sizes(cols) && cache.size[t] == Sum(Sizes(cols))
      && |group[0].vals| == |cols| && Shaped(Types(cols), Sizes(cols), group)
      && (forall k :: 0 <= k < |group| ==> RowOk(Types(cols), Sizes(cols), group[k]))
      && GroupCellsOf(tables, t, group) == GroupCells(Types(cols), Sizes(cols), group)
  {
    var cols := tables[t].columns;
    forall k | 0 <= k < |group| ensures RowOk(Types(cols), Sizes(cols), group[k]) {
      ConformsRowOk(cols, group[k]);
    }
  }

  /** One pass of Notify's first loop in value form. */
  lemma CreateStep(s0: State, data: seq<Datum>, i: nat, st: State)
    requires AllWellFormed(data) && i < |data| && AllWellFormed(data[..i]) && st == CreateAll(s0, data[..i])
    ensures WellFormedDatum(data[i]) && AllWellFormed(data[..i + 1]) && data[..i + 1] == data[..i] + [data[i]]
    ensures CreateAll(s0, data[..i + 1]) == if data[i].title in st.cache.size then st else Create(st, data[i])
  {
    AllWellFormedPrefix(data, i);
    CreateAllSnoc(s0, data[..i], data[i]);
  }

  /**
   * After Notify's first loop: the state is that of `CreateAll`, which keeps
   * the invariant and the value store, and every group can be written.
   */
  lemma CreatedReady(s0: State, data: seq<Datum>, created: State, groups: map<string, seq<Datum>>,
                     failing: set<string>, hasher: Str -> Digest)
    requires StateOk(s0) && NotifyReady(s0, data)
    requires created == CreateAll(s0, data) && groups == Groups(data)
    ensures StateOk(created) && GroupsReady(created, groups) && created.vl == s0.vl
    ensures Tables.Notify(s0, data, failing, hasher) == WriteAll(created, Ascending(groups.Keys), groups, failing, hasher)
  {
    CreateAllReady(s0, data);
    CreateAllVL(s0, data);
  }

  /**
   * Visiting the keys of Notify's map: the least remaining title is the next
   * one in ascending order.
   */
  lemma VisitStep(written: seq<string>, t: string, remaining: set<string>, keys: set<string>)
    requires remaining <= keys && IsLeast(t, remaining) && written + Ascending(remaining) == Ascending(keys)
    requires forall x :: x in written ==> x in keys
    ensures written + [t] + Ascending(remaining - {t}) == Ascending(keys)
    ensures forall x :: x in written + [t] ==> x in keys
    ensures forall x :: x in Ascending(remaining - {t}) ==> x in keys
  {
    AscendingStep(remaining, t);
    assert written + ([t] + Ascending(remaining - {t})) == written + [t] + Ascending(remaining - {t});
  }

  /**
   * One pass of Notify's second loop in value form: after the groups written
   * so far, the next group can be written, and writing it extends the writes.
   */
  lemma WriteStep(c: State, written: seq<string>, t: string, groups: map<string, seq<Datum>>,
                  failing: set<string>, hasher: Str -> Digest)
    requires StateOk(c) && GroupsReady(c, groups) && t in groups
    requires forall x :: x in written ==> x in groups
    requires WriteAll(c, written, groups, failing, hasher).1.Ok?
    ensures var prev := WriteAll(c, written, groups, failing, hasher).0;
      && StateOk(prev) && groups[t] != [] && groups[t][0].title == t && GroupReady(prev, t, groups[t])
      && WriteAll(c, written + [t], groups, failing, hasher) == Tables.WriteGroup(prev, groups[t], t in failing, hasher)
  {
    WriteAllOk(c, written, groups, failing, hasher);
    WriteAllSnoc(c, written, t, groups, failing, hasher);
  }

  /** `Create` written out field by field. */
  lemma CreateExplicit(s: State, d: Datum, columns: seq<Column>, offsets: seq<nat>, rowsize: nat, sizes: seq<nat>, types: seq<DbType>)
    requires WellFormedDatum(d) && columns == Columns(d)
    requires offsets == Offsets(Sizes(columns)) && rowsize == RowSize(columns) && sizes == Sizes(columns) && types == Types(columns)
    ensures var t := d.title;
      Create(s, d) == State(if t in s.tables then s.tables else s.tables[t := Table(columns, CHUNK_SIZE)],
                            if t in s.tables then s.records else s.records[t := []], s.vl,
                            Cache(s.cache.offset[t := offsets], s.cache.size[t := rowsize],
                                  s.cache.sizes[t := sizes], s.cache.types[t := types]))
  {
  }

  /**
   * One pass of the row loop in value form: FillRow's outcome on datum `k`,
   * after the rows before it, is the outcome of the rows up to and including
   * it, or the group's failure at its first BOOL cell.
   */
  lemma RowPacked(types: seq<DbType>, sizes: seq<nat>, group: seq<Datum>, k: nat, done: seq<Cell>, st0: VLState,
                  hasher: Str -> Digest, before: Str, after: Str, st: VLState, st': VLState, r: Result<()>)
    requires Shaped(types, sizes, group) && k < |group| && RowOk(types, sizes, group[k])
    requires Shaped(types, sizes, group[..k]) && done == GroupCells(types, sizes, group[..k]) && AllEncodable(done)
    requires before == EncodeCells(done, hasher) && st == PutAll(st0, VLItems(done), hasher)
    requires var row := RowCells(types, sizes, group[k]);
      && st' == PutAll(st, VLItems(row[..FirstBool(row)]), hasher)
      && r == (if FirstBool(row) < |row| then Err(IOError(BOOL_MESSAGE)) else Ok(()))
      && (r.Ok? ==> AllEncodable(row) && after == before + EncodeCells(row, hasher))
    ensures Shaped(types, sizes, group[..k + 1])
    ensures r.Ok? ==> var cs := GroupCells(types, sizes, group[..k + 1]);
      && AllEncodable(cs) && after == EncodeCells(cs, hasher)
      && st' == PutAll(st0, VLItems(cs), hasher)
    ensures r.Err? ==> var cells := GroupCells(types, sizes, group);
      && FirstBool(cells) < |cells| && r == Err(IOError(BOOL_MESSAGE))
      && st' == PutAll(st0, VLItems(cells[..FirstBool(cells)]), hasher)
  {
    PackRowFacts(types, sizes, group, k, done, st0, hasher);
  }

  /**
   * What FillBuf leaves (the value store `vl`, the buffer `bytes` and its
   * outcome `fill`) determines the group write: a thrown exception or a
   * failed append leaves the records alone, and otherwise the buffer split
   * into rows is what gets appended.
   */
  lemma PackedGroupWrite(s: State, group: seq<Datum>, fails: bool, hasher: Str -> Digest, vl: VLState, bytes: Str, fill: Result<()>)
    requires StateOk(s) && group != [] && GroupReady(s, group[0].title, group)
    requires var cells := GroupCellsOf(s.tables, group[0].title, group);
      && vl == PutAll(s.vl, VLItems(cells[..FirstBool(cells)]), hasher)
      && fill == (if FirstBool(cells) < |cells| then Err(IOError(BOOL_MESSAGE)) else Ok(()))
      && (fill.Ok? ==> AllEncodable(cells) && bytes == EncodeCells(cells, hasher))
    ensures fill.Err? ==> Tables.WriteGroup(s, group, fails, hasher) == (s.(vl := vl), fill)
    ensures fill.Ok? && fails ==> Tables.WriteGroup(s, group, fails, hasher) == (s.(vl := vl), Err(IOError(APPEND_MESSAGE)))
    ensures fill.Ok? && !fails ==>
      var t := group[0].title;
      && |bytes| == |group| * s.cache.size[t]
      && Tables.WriteGroup(s, group, fails, hasher)
         == (s.(records := s.records[t := s.records[t] + Split(bytes, s.cache.size[t], |group|)], vl := vl), Ok(()))
  {
    if fill.Ok? {
      var cols := s.tables[group[0].title].columns;
      NoBoolEncodable(cols, group);
      GroupRows(Types(cols), Sizes(cols), group, hasher);
    }
  }

  /** One pass of the column loop in value form: the field spliced in after the fields before it. */
  lemma CellPacked(cells: seq<Cell>, col: nat, hasher: Str -> Digest, prefix: Str, prev: Str, offset: nat, bytes: Str,
                   st0: VLState, st: VLState, st': VLState)
    requires col < |cells| && AllEncodable(cells[..col]) && CellOk(cells[col]) && cells[col].dbtype != Bool
    requires offset + |bytes| <= |prev| && prev[..offset] == prefix + EncodeCells(cells[..col], hasher)
    requires st == PutAll(st0, VLItems(cells[..col]), hasher)
    requires bytes == EncodeCell(cells[col], hasher) && st' == PutAll(st, CellItems(cells[col]), hasher)
    ensures AllEncodable(cells[..col + 1])
    ensures (prev[..offset] + bytes + prev[offset + |bytes|..])[..offset + |bytes|] == prefix + EncodeCells(cells[..col + 1], hasher)
    ensures st' == PutAll(st0, VLItems(cells[..col + 1]), hasher)
  {
    CellStep(cells, col, hasher);
    Splice(prev, offset, bytes);
    PutAllAppend(st0, VLItems(cells[..col]), CellItems(cells[col]), hasher);
    AppendAssoc(prefix, EncodeCells(cells[..col], hasher), bytes);
  }

  /** Writing `b` at `off` leaves the bytes before `off` followed by `b`. */
  lemma Splice(a: Str, off: nat, b: Str)
    requires off + |b| <= |a|
    ensures |a[..off] + b + a[off + |b|..]| == |a|
    ensures (a[..off] + b + a[off + |b|..])[..off + |b|] == a[..off] + b
  {
  }

  lemma AppendAssoc(a: Str, b: Str, c: Str)
    ensures (a + b) + c == a + (b + c)
  {
  }

  /** FillBuf throws at the first BOOL cell it meets. */
  lemma FirstBoolAt(cs: seq<Cell>, i: nat)
    requires i < |cs| && AllEncodable(cs[..i]) && cs[i].dbtype == Bool
    ensures FirstBool(cs) == i
  {
    assert forall j :: 0 <= j < i ==> cs[..i][j] == cs[j];
  }

  /** Once every row is packed, the cells visited are the group's and none is BOOL. */
  lemma GroupCellsWhole(types: seq<DbType>, sizes: seq<nat>, group: seq<Datum>, done: seq<Cell>)
    requires Shaped(types, sizes, group) && Shaped(types, sizes, group[..|group|])
    requires done == GroupCells(types, sizes, group[..|group|]) && AllEncodable(done)
    ensures GroupCells(types, sizes, group) == done && FirstBool(done) == |done| && done[..FirstBool(done)] == done
  {
    assert group[..|group|] == group;
    FirstBoolNone(done);
  }

  lemma FirstBoolNone(cs: seq<Cell>)
    requires AllEncodable(cs)
    ensures FirstBool(cs) == |cs|
  {
  }
}
