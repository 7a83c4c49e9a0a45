/**
 * The table writer as values: the tables of the file, the per-title schema
 * caches (`tbl_offset_`, `tbl_size_`, `tbl_sizes_`, `tbl_types_`), and what
 * `CreateTable`, `WriteGroup` and `Notify` do to them (hdf5_back.cc, lines
 * 65-80 and 264-374). The class `Hdf5Back` computes these effects step by
 * step and is proved against them.
 */
module Tables {
  import opened Bytes
  import opened Schema
  import opened VLStore
  import opened Codec
  import opened LexOrder

  /** The chunk size CreateTable gives every table it makes. */
  const CHUNK_SIZE: nat := 1000

  const BOOL_MESSAGE: string := "booleans not yet implemented for HDF5."
  const APPEND_MESSAGE: string := "Failed to write some data to hdf5 output db"

  /**
   * A table dataset's description: its columns (the compound type's member
   * names and widths, and the `cyclus_dbtypes` attribute) and its chunk size.
   */
  datatype Table = Table(columns: seq<Column>, chunk: nat)

  predicate TablesOk(tables: map<string, Table>) {
    forall t :: t in tables ==> ColumnsOk(tables[t].columns) && tables[t].chunk > 0
  }

  /** Every record of a table holds exactly one packed row. */
  predicate RowsFit(cols: seq<Column>, recs: seq<Str>) {
    forall k :: 0 <= k < |recs| ==> |recs[k]| == RowSize(cols)
  }

  /** Each table has its record list, of rows of its width. */
  predicate RecordsOk(tables: map<string, Table>, records: map<string, seq<Str>>) {
    records.Keys == tables.Keys && forall t :: t in records ==> RowsFit(tables[t].columns, records[t])
  }

  /** The four per-title caches of the backend. */
  datatype Cache = Cache(
    offset: map<string, seq<nat>>,
    size: map<string, nat>,
    sizes: map<string, seq<nat>>,
    types: map<string, seq<DbType>>)

  /** The layout of a schema is cached under a title: offsets, row size and widths. */
  predicate LayoutCached(cache: Cache, t: string, cols: seq<Column>) {
    && t in cache.offset && cache.offset[t] == Offsets(Sizes(cols))
    && t in cache.size && cache.size[t] == RowSize(cols)
    && t in cache.sizes && cache.sizes[t] == Sizes(cols)
  }

  /**
   * The caches describe the tables of the file: the layout of a title is
   * cached as a whole, its tags with it or on their own (by a query), and
   * every entry is that of the table's own schema.
   */
  predicate Consistent(tables: map<string, Table>, cache: Cache) {
    && cache.offset.Keys == cache.size.Keys
    && cache.sizes.Keys == cache.size.Keys
    && cache.size.Keys <= cache.types.Keys
    && cache.types.Keys <= tables.Keys
    && forall t :: t in cache.types ==>
         cache.types[t] == Types(tables[t].columns) && (t in cache.size ==> LayoutCached(cache, t, tables[t].columns))
  }

  /**
   * What the backend holds: the tables of the file and their records, the
   * value store (its datasets and `vlkeys_`), and the caches.
   */
  datatype State = State(tables: map<string, Table>, records: map<string, seq<Str>>, vl: VLState, cache: Cache)

  predicate StateOk(s: State) {
    TablesOk(s.tables) && RecordsOk(s.tables, s.records) && Consistent(s.tables, s.cache)
  }

  /* ---- CreateTable ---- */

  /**
   * `CreateTable(d)`: make the table of the derived schema with no records
   * (making a table the file already has fails and changes nothing), and
   * cache the derived layout and tags under the title.
   */
  function Create(s: State, d: Datum): State
    requires WellFormedDatum(d)
  {
    var cols := Columns(d);
    var t := d.title;
    var c := s.cache;
    s.(tables := if t in s.tables then s.tables else s.tables[t := Table(cols, CHUNK_SIZE)],
       records := if t in s.tables then s.records else s.records[t := []],
       cache := Cache(c.offset[t := Offsets(Sizes(cols))], c.size[t := RowSize(cols)],
                      c.sizes[t := Sizes(cols)], c.types[t := Types(cols)]))
  }

  predicate AllWellFormed(data: seq<Datum>) {
    forall i :: 0 <= i < |data| ==> WellFormedDatum(data[i])
  }

  /** Notify's first loop: `CreateTable` for each datum whose title has no cached row size yet. */
  function CreateAll(s: State, data: seq<Datum>): State
    requires AllWellFormed(data)
  {
    if data == [] then s
    else
      var prev := CreateAll(s, data[..|data| - 1]);
      var d := data[|data| - 1];
      if d.title in prev.cache.size then prev else Create(prev, d)
  }

  /* ---- Grouping by title ---- */

  function TitlesOf(data: seq<Datum>): set<string> {
    set i | 0 <= i < |data| :: data[i].title
  }

  /** The position of the first datum of a title. */
  function FirstIndex(data: seq<Datum>, t: string): (i: nat)
    requires t in TitlesOf(data)
    ensures i < |data| && data[i].title == t
    ensures forall j :: 0 <= j < i ==> data[j].title != t
  {
    if data[0].title == t then 0
    else
      assert t in TitlesOf(data[1..]) by {
        var i :| 0 <= i < |data| && data[i].title == t;
        assert data[1..][i - 1] == data[i];
      }
      1 + FirstIndex(data[1..], t)
  }

  /** No datum before position `i` has the title of datum `i`. */
  predicate FirstOfTitle(data: seq<Datum>, i: nat)
    requires i < |data|
  {
    forall j :: 0 <= j < i ==> data[j].title != data[i].title
  }

  /** The positions of the datums of one title, in increasing order, all of them. */
  function TitleIndices(data: seq<Datum>, t: string): (idx: seq<nat>)
    ensures forall p :: 0 <= p < |idx| ==> idx[p] < |data| && data[idx[p]].title == t
    ensures forall p, q :: 0 <= p < q < |idx| ==> idx[p] < idx[q]
    ensures forall i :: 0 <= i < |data| && data[i].title == t ==> i in idx
  {
    if data == [] then []
    else
      var n := |data| - 1;
      var prev := TitleIndices(data[..n], t);
      assert forall p :: 0 <= p < |prev| ==> data[..n][prev[p]] == data[prev[p]];
      assert forall i :: 0 <= i < n ==> data[..n][i] == data[i];
      prev + (if data[n].title == t then [n] else [])
  }

  /** `groups[t]`: the datums of one title, in input order. */
  function GroupOf(data: seq<Datum>, t: string): (g: seq<Datum>)
    ensures |g| == |TitleIndices(data, t)|
    ensures forall p :: 0 <= p < |g| ==> g[p] == data[TitleIndices(data, t)[p]]
  {
    var idx := TitleIndices(data, t);
    seq(|idx|, p requires 0 <= p < |idx| => data[idx[p]])
  }

  /** The map Notify builds: each title of the batch to its datums in input order. */
  function Groups(data: seq<Datum>): map<string, seq<Datum>> {
    map t | t in TitlesOf(data) :: GroupOf(data, t)
  }

  /**
   * Notify's grouping step, `groups[name].push_back(d)`: the datum joins the
   * end of its title's group, which starts empty for a title not seen yet;
   * the other groups are left alone.
   */
  lemma GroupsSnoc(data: seq<Datum>, d: Datum)
    ensures Groups(data + [d]) == Groups(data)[d.title := (if d.title in Groups(data) then Groups(data)[d.title] else []) + [d]]
  {
    var g, g' := Groups(data), Groups(data + [d]);
    var m := g[d.title := (if d.title in g then g[d.title] else []) + [d]];
    TitlesSnoc(data, d);
    assert g'.Keys == m.Keys;
    forall t | t in m ensures g'[t] == m[t] {
      GroupOfSnoc(data, d, t);
      if t !in TitlesOf(data) {
        GroupOfAbsent(data, t);
      }
    }
  }

  /** One group through the grouping step. */
  lemma GroupOfSnoc(data: seq<Datum>, d: Datum, t: string)
    ensures GroupOf(data + [d], t) == GroupOf(data, t) + if t == d.title then [d] else []
  {
    var s, n := data + [d], |data|;
    assert s[..n] == data;
    var prev := TitleIndices(data, t);
    assert TitleIndices(s, t) == prev + if d.title == t then [n] else [];
    var a, b := GroupOf(s, t), GroupOf(data, t) + if t == d.title then [d] else [];
    assert |a| == |b|;
    forall p | 0 <= p < |a| ensures a[p] == b[p] {
      if p < |prev| {
        assert s[prev[p]] == data[prev[p]];
      }
    }
  }

  /** A title with no datum in the batch has no group. */
  lemma GroupOfAbsent(data: seq<Datum>, t: string)
    ensures t !in TitlesOf(data) ==> GroupOf(data, t) == []
  {
    var idx := TitleIndices(data, t);
    if idx != [] {
      assert data[idx[0]].title == t;
    }
  }

  /** The datums of a prefix of a well-formed batch are well formed. */
  lemma AllWellFormedPrefix(data: seq<Datum>, i: nat)
    requires AllWellFormed(data) && i < |data|
    ensures AllWellFormed(data[..i + 1]) && data[..i + 1] == data[..i] + [data[i]]
  {
    assert forall j :: 0 <= j <= i ==> data[..i + 1][j] == data[j];
  }

  /* ---- WriteGroup ---- */

  /** A group ready to be written: non-empty, of one title with a cached layout, each datum of its schema. */
  predicate GroupReady(s: State, t: string, group: seq<Datum>) {
    t in s.cache.size && GroupFits(s.tables, t, group)
  }

  /** A non-empty group of one title, each datum of that table's schema. */
  predicate GroupFits(tables: map<string, Table>, t: string, group: seq<Datum>) {
    && group != []
    && t in tables
    && forall k :: 0 <= k < |group| ==> group[k].title == t && Conforms(group[k], tables[t].columns)
  }

  /** The cells of a group under its table's schema. */
  function GroupCellsOf(tables: map<string, Table>, t: string, group: seq<Datum>): seq<Cell>
    requires GroupFits(tables, t, group)
  {
    var cols := tables[t].columns;
    assert Shaped(Types(cols), Sizes(cols), group);
    GroupCells(Types(cols), Sizes(cols), group)
  }

  /** What writing needs of the state: well-formed schemas, and a record list for each table. */
  predicate Writable(s: State) {
    TablesOk(s.tables) && s.records.Keys == s.tables.Keys
  }

  /** The outcome of a group write: FillBuf's exception at a BOOL cell, else that of the append. */
  function WriteOutcome(tables: map<string, Table>, group: seq<Datum>, fails: bool): (r: Result<()>)
    requires group != [] && GroupFits(tables, group[0].title, group)
    ensures fails ==> r.Err?
    ensures r.Err? ==> r.error.IOError?
  {
    var cells := GroupCellsOf(tables, group[0].title, group);
    if FirstBool(cells) < |cells| then Err(IOError(BOOL_MESSAGE))
    else if fails then Err(IOError(APPEND_MESSAGE))
    else Ok(())
  }

  /** The value store after FillBuf: the variable-length values up to the first BOOL cell stored in order. */
  function WrittenStore(s: State, group: seq<Datum>, hasher: Str -> Digest): VLState
    requires Writable(s) && group != [] && GroupReady(s, group[0].title, group)
  {
    var cells := GroupCellsOf(s.tables, group[0].title, group);
    PutAll(s.vl, VLItems(cells[..FirstBool(cells)]), hasher)
  }

  /** The packed rows of a group without BOOL cells. */
  function GroupRowsOf(tables: map<string, Table>, group: seq<Datum>, hasher: Str -> Digest): seq<Str>
    requires TablesOk(tables) && group != [] && GroupFits(tables, group[0].title, group)
    requires WriteOutcome(tables, group, false).Ok?
  {
    var cols := tables[group[0].title].columns;
    NoBoolEncodable(cols, group);
    EncodedRows(Types(cols), Sizes(cols), group, hasher)
  }

  /**
   * `WriteGroup(group)`: FillBuf stores the variable-length values it meets
   * up to the first BOOL cell, where it throws; otherwise the packed rows are
   * appended to the table, unless the append fails (`fails`), which throws.
   */
  function WriteGroup(s: State, group: seq<Datum>, fails: bool, hasher: Str -> Digest): (r: (State, Result<()>))
    requires Writable(s) && group != [] && GroupReady(s, group[0].title, group)
    ensures r.0.tables == s.tables && r.0.cache == s.cache && r.0.records.Keys == s.records.Keys
    ensures r.1 == WriteOutcome(s.tables, group, fails)
  {
    var title := group[0].title;
    var outcome := WriteOutcome(s.tables, group, fails);
    var vl := WrittenStore(s, group, hasher);
    if outcome.Err? then (s.(vl := vl), outcome)
    else (s.(records := s.records[title := s.records[title] + GroupRowsOf(s.tables, group, hasher)], vl := vl), outcome)
  }

  /**
   * A group write keeps the state invariant, raises only `IOError`, appends
   * nothing when it raises, and only grows the value store.
   */
  lemma WriteGroupOk(s: State, group: seq<Datum>, fails: bool, hasher: Str -> Digest)
    requires StateOk(s) && group != [] && GroupReady(s, group[0].title, group)
    ensures var r := WriteGroup(s, group, fails, hasher);
      && StateOk(r.0)
      && (r.1.Err? ==> r.0.records == s.records && r.1.error.IOError?)
      && (VLStore.Valid(s.vl, hasher) ==> VLStore.Valid(r.0.vl, hasher) && Extends(s.vl, r.0.vl))
  {
    var title := group[0].title;
    var cols := s.tables[title].columns;
    var cells := GroupCellsOf(s.tables, title, group);
    PutAllValid(s.vl, VLItems(cells[..FirstBool(cells)]), hasher);
    if WriteOutcome(s.tables, group, fails).Ok? {
      NoBoolEncodable(cols, group);
      EncodedRowsFit(cols, s.records[title], group, hasher);
      RecordsOkSet(s.tables, s.records, title, s.records[title] + GroupRowsOf(s.tables, group, hasher));
    }
  }

  /** Replacing a table's records by rows of its width keeps every record one row wide. */
  lemma RecordsOkSet(tables: map<string, Table>, records: map<string, seq<Str>>, t: string, recs: seq<Str>)
    requires RecordsOk(tables, records) && t in records && RowsFit(tables[t].columns, recs)
    ensures RecordsOk(tables, records[t := recs])
  {
  }

  /** A group write appends to its own table only, and only when it does not throw. */
  lemma WriteGroupRecords(s: State, group: seq<Datum>, fails: bool, hasher: Str -> Digest, u: string)
    requires Writable(s) && group != [] && GroupReady(s, group[0].title, group) && u in s.records
    ensures var r := WriteGroup(s, group, fails, hasher);
      && (u != group[0].title || r.1.Err? ==> r.0.records[u] == s.records[u])
      && (u == group[0].title && r.1.Ok? ==>
            var cols := s.tables[u].columns;
            && GroupEncodable(Types(cols), Sizes(cols), group)
            && r.0.records[u] == s.records[u] + EncodedRows(Types(cols), Sizes(cols), group, hasher))
  {
    if u == group[0].title && WriteOutcome(s.tables, group, fails).Ok? {
      NoBoolEncodable(s.tables[u].columns, group);
    }
  }

  lemma PutAllValid(st: VLState, items: seq<Item>, hasher: Str -> Digest)
    ensures VLStore.Valid(st, hasher) ==> VLStore.Valid(PutAll(st, items, hasher), hasher) && Extends(st, PutAll(st, items, hasher))
  {
    if VLStore.Valid(st, hasher) {
      PutAllEffect(st, items, hasher);
    }
  }

  /** Appending a group's packed rows keeps every record one row wide. */
  lemma EncodedRowsFit(cols: seq<Column>, recs: seq<Str>, group: seq<Datum>, hasher: Str -> Digest)
    requires GroupEncodable(Types(cols), Sizes(cols), group) && RowsFit(cols, recs)
    ensures RowsFit(cols, recs + EncodedRows(Types(cols), Sizes(cols), group, hasher))
  {
    var rows := EncodedRows(Types(cols), Sizes(cols), group, hasher);
    forall k | 0 <= k < |recs + rows| ensures |(recs + rows)[k]| == RowSize(cols) {
      if k >= |recs| {
        EncodeRowLength(Types(cols), Sizes(cols), group[k - |recs|], hasher);
      }
    }
  }

  /**
   * A group without BOOL cells is encodable: its first row shows that no
   * column is BOOL, and the schema makes every cell well formed.
   */
  lemma NoBoolEncodable(cols: seq<Column>, group: seq<Datum>)
    requires ColumnsOk(cols) && group != []
    requires forall k :: 0 <= k < |group| ==> Conforms(group[k], cols)
    requires Shaped(Types(cols), Sizes(cols), group)
    requires FirstBool(GroupCells(Types(cols), Sizes(cols), group)) == |GroupCells(Types(cols), Sizes(cols), group)|
    ensures GroupEncodable(Types(cols), Sizes(cols), group)
  {
    var types, sizes := Types(cols), Sizes(cols);
    GroupCellsPrefix(types, sizes, group, 1);
    assert group[..1][..0] == [];
    var first := GroupCells(types, sizes, group[..1]);
    assert first == RowCells(types, sizes, group[0]);
    assert forall c :: 0 <= c < |types| ==> types[c] == first[c].dbtype;
  }

  /** Every group fits its table's schema. */
  predicate GroupsFit(tables: map<string, Table>, groups: map<string, seq<Datum>>) {
    forall t :: t in groups ==> GroupFits(tables, t, groups[t])
  }

  /** Every group can be written: it fits its table and the table's layout is cached. */
  predicate GroupsReady(s: State, groups: map<string, seq<Datum>>) {
    groups.Keys <= s.cache.size.Keys && GroupsFit(s.tables, groups)
  }

  /** The outcome of writing the groups of `titles` in turn: that of the first group that throws, if any. */
  function Outcomes(tables: map<string, Table>, titles: seq<string>, groups: map<string, seq<Datum>>, failing: set<string>): Result<()>
    requires GroupsFit(tables, groups)
    requires forall x :: x in titles ==> x in groups
  {
    if titles == [] then Ok(())
    else
      var prev := Outcomes(tables, titles[..|titles| - 1], groups, failing);
      if prev.Err? then prev
      else
        var t := titles[|titles| - 1];
        WriteOutcome(tables, groups[t], t in failing)
  }

  /** Notify's second loop: the groups written one after the other, stopping at the first exception. */
  function WriteAll(s: State, titles: seq<string>, groups: map<string, seq<Datum>>, failing: set<string>, hasher: Str -> Digest): (r: (State, Result<()>))
    requires Writable(s) && GroupsReady(s, groups)
    requires forall x :: x in titles ==> x in groups
    ensures r.0.tables == s.tables && r.0.cache == s.cache && r.0.records.Keys == s.records.Keys
    ensures r.1 == Outcomes(s.tables, titles, groups, failing)
  {
    if titles == [] then (s, Ok(()))
    else
      var prev := WriteAll(s, titles[..|titles| - 1], groups, failing, hasher);
      if prev.1.Err? then prev
      else
        var t := titles[|titles| - 1];
        assert GroupReady(prev.0, t, groups[t]);
        WriteGroup(prev.0, groups[t], t in failing, hasher)
  }

  /** The second loop keeps the state invariant, raises only `IOError`, and only grows the value store. */
  lemma {:induction false} WriteAllOk(s: State, titles: seq<string>, groups: map<string, seq<Datum>>, failing: set<string>, hasher: Str -> Digest)
    requires StateOk(s) && GroupsReady(s, groups)
    requires forall x :: x in titles ==> x in groups
    ensures var r := WriteAll(s, titles, groups, failing, hasher);
      && StateOk(r.0)
      && (r.1.Err? ==> r.1.error.IOError?)
      && (VLStore.Valid(s.vl, hasher) ==> VLStore.Valid(r.0.vl, hasher) && Extends(s.vl, r.0.vl))
    decreases |titles|
  {
    if titles != [] {
      var init := titles[..|titles| - 1];
      WriteAllOk(s, init, groups, failing, hasher);
      var prev := WriteAll(s, init, groups, failing, hasher);
      if prev.1.Ok? {
        var t := titles[|titles| - 1];
        assert GroupReady(prev.0, t, groups[t]);
        WriteGroupOk(prev.0, groups[t], t in failing, hasher);
        if VLStore.Valid(s.vl, hasher) {
          ExtendsTransitive(s.vl, prev.0.vl, WriteAll(s, titles, groups, failing, hasher).0.vl);
        }
      }
    }
  }

  lemma ExtendsTransitive(a: VLState, b: VLState, c: VLState)
    requires Extends(a, b) && Extends(b, c)
    ensures Extends(a, c)
  {
    forall k ensures KeysOf(a, k) <= KeysOf(c, k) && ValsOf(a, k) <= ValsOf(c, k) {
      assert KeysOf(a, k) <= KeysOf(b, k) && ValsOf(a, k) <= ValsOf(b, k);
    }
  }

  /* ---- Notify ---- */

  /**
   * What Notify needs of a batch: well-formed datums; the first datum of a
   * title the file already has but no cache knows derives that table's
   * schema; and each datum conforms to the schema of its table once the
   * tables are made.
   */
  predicate NotifyReady(s: State, data: seq<Datum>) {
    && AllWellFormed(data)
    && (forall i :: 0 <= i < |data| && FirstOfTitle(data, i) && data[i].title !in s.cache.size && data[i].title in s.tables ==>
          s.tables[data[i].title].columns == Columns(data[i]))
    && (forall i :: 0 <= i < |data| ==>
          data[i].title in CreateAll(s, data).tables &&
          Conforms(data[i], CreateAll(s, data).tables[data[i].title].columns))
  }

  /** `Notify(data)`: the new state and the outcome. */
  ghost function Notify(s: State, data: seq<Datum>, failing: set<string>, hasher: Str -> Digest): (r: (State, Result<()>))
    requires StateOk(s) && NotifyReady(s, data)
  {
    var created := CreateAll(s, data);
    var groups := Groups(data);
    CreateAllReady(s, data);
    WriteAll(created, Ascending(groups.Keys), groups, failing, hasher)
  }

  /* ---- Properties of the first loop ---- */

  /** The snoc step of the first loop. */
  lemma CreateAllSnoc(s: State, data: seq<Datum>, d: Datum)
    requires AllWellFormed(data) && WellFormedDatum(d)
    ensures AllWellFormed(data + [d])
    ensures var prev := CreateAll(s, data);
      CreateAll(s, data + [d]) == if d.title in prev.cache.size then prev else Create(prev, d)
  {
    assert (data + [d])[..|data|] == data;
  }

  lemma TitlesSnoc(data: seq<Datum>, d: Datum)
    ensures TitlesOf(data + [d]) == TitlesOf(data) + {d.title}
  {
    var s := data + [d];
    assert s[|data|] == d;
    forall t | t in TitlesOf(s) ensures t in TitlesOf(data) + {d.title} {
      var i :| 0 <= i < |s| && s[i].title == t;
      if i < |data| {
        assert s[i] == data[i];
      }
    }
    forall t | t in TitlesOf(data) ensures t in TitlesOf(s) {
      var i :| 0 <= i < |data| && data[i].title == t;
      assert s[i] == data[i];
    }
  }

  /** The titles with a cached row size after the first loop: the old ones and those of the batch. */
  lemma {:induction false} CreateAllTitles(s: State, data: seq<Datum>)
    requires AllWellFormed(data)
    ensures CreateAll(s, data).cache.size.Keys == s.cache.size.Keys + TitlesOf(data)
    decreases |data|
  {
    if data != [] {
      var init, d := data[..|data| - 1], data[|data| - 1];
      assert data == init + [d];
      CreateAllTitles(s, init);
      CreateAllSnoc(s, init, d);
      TitlesSnoc(init, d);
    }
  }

  /** Two states agree on everything they hold for title `t`. */
  predicate SameFor(a: State, b: State, t: string) {
    && (t in a.tables <==> t in b.tables) && (t in a.tables ==> a.tables[t] == b.tables[t])
    && (t in a.records <==> t in b.records) && (t in a.records ==> a.records[t] == b.records[t])
    && (t in a.cache.offset <==> t in b.cache.offset) && (t in a.cache.offset ==> a.cache.offset[t] == b.cache.offset[t])
    && (t in a.cache.size <==> t in b.cache.size) && (t in a.cache.size ==> a.cache.size[t] == b.cache.size[t])
    && (t in a.cache.sizes <==> t in b.cache.sizes) && (t in a.cache.sizes ==> a.cache.sizes[t] == b.cache.sizes[t])
    && (t in a.cache.types <==> t in b.cache.types) && (t in a.cache.types ==> a.cache.types[t] == b.cache.types[t])
  }

  /** What `CreateTable` leaves for the title of `d`: the schema of `d`, and the table the file had or a new empty one. */
  predicate CreatedFrom(s: State, r: State, t: string, d: Datum)
    requires WellFormedDatum(d) && s.records.Keys == s.tables.Keys
  {
    var cols := Columns(d);
    && t in r.tables && r.tables[t] == (if t in s.tables then s.tables[t] else Table(cols, CHUNK_SIZE))
    && t in r.records && r.records[t] == (if t in s.tables then s.records[t] else [])
    && LayoutCached(r.cache, t, cols)
    && t in r.cache.types && r.cache.types[t] == Types(cols)
  }

  /** The first loop leaves every title alone that is cached already or not in the batch. */
  lemma {:induction false} CreateAllKeeps(s: State, data: seq<Datum>, t: string)
    requires AllWellFormed(data) && RecordsOk(s.tables, s.records)
    requires t in s.cache.size || t !in TitlesOf(data)
    ensures SameFor(CreateAll(s, data), s, t)
    decreases |data|
  {
    if data != [] {
      var init, d := data[..|data| - 1], data[|data| - 1];
      assert data == init + [d];
      TitlesSnoc(init, d);
      CreateAllKeeps(s, init, t);
      CreateAllSnoc(s, init, d);
    }
  }

  /** Every step of the first loop keeps the record lists beside the tables. */
  lemma {:induction false} CreateAllRecords(s: State, data: seq<Datum>)
    requires AllWellFormed(data) && RecordsOk(s.tables, s.records)
    ensures CreateAll(s, data).records.Keys == CreateAll(s, data).tables.Keys
    ensures forall t :: t in s.tables ==> t in CreateAll(s, data).tables
    decreases |data|
  {
    if data != [] {
      var init, d := data[..|data| - 1], data[|data| - 1];
      assert data == init + [d];
      CreateAllRecords(s, init);
      CreateAllSnoc(s, init, d);
    }
  }

  /**
   * The first loop creates a schema only for a title with none cached, from
   * the first datum of that title.
   */
  lemma {:induction false} CreateAllNew(s: State, data: seq<Datum>, t: string)
    requires AllWellFormed(data) && RecordsOk(s.tables, s.records)
    requires t !in s.cache.size && t in TitlesOf(data)
    ensures CreatedFrom(s, CreateAll(s, data), t, data[FirstIndex(data, t)])
    decreases |data|
  {
    var init, d := data[..|data| - 1], data[|data| - 1];
    LastSplit(data);
    TitlesSnoc(init, d);
    CreateAllSnoc(s, init, d);
    CreateAllTitles(s, init);
    if t in TitlesOf(init) {
      CreateAllNew(s, init, t);
      FirstIndexSnoc(init, d, t);
    } else {
      CreateAllKeeps(s, init, t);
      FirstIndexLast(init, d, t);
    }
  }

  /** A title first met at the last datum has its first index there. */
  lemma FirstIndexLast(init: seq<Datum>, d: Datum, t: string)
    requires t !in TitlesOf(init) && d.title == t
    ensures t in TitlesOf(init + [d]) && FirstIndex(init + [d], t) == |init|
  {
    TitlesSnoc(init, d);
    forall j | 0 <= j < |init| ensures (init + [d])[j].title != t {
      assert (init + [d])[j] == init[j];
    }
  }

  lemma FirstIndexSnoc(data: seq<Datum>, d: Datum, t: string)
    requires t in TitlesOf(data)
    ensures t in TitlesOf(data + [d]) && FirstIndex(data + [d], t) == FirstIndex(data, t)
  {
    TitlesSnoc(data, d);
    assert forall j :: 0 <= j < |data| ==> (data + [d])[j] == data[j];
  }

  /** The first datum of a title leads its group. */
  lemma GroupHead(data: seq<Datum>, t: string)
    requires t in TitlesOf(data)
    ensures GroupOf(data, t) != [] && GroupOf(data, t)[0] == data[FirstIndex(data, t)]
  {
    var idx := TitleIndices(data, t);
    var i := FirstIndex(data, t);
    assert i in idx;
    var p :| 0 <= p < |idx| && idx[p] == i;
    assert idx[0] >= i;
    assert p == 0;
  }

  /** After the first loop, the schema of each title of the batch is that of its table. */
  lemma CreateAllConsistentAt(s: State, data: seq<Datum>, t: string)
    requires StateOk(s) && NotifyReady(s, data)
    ensures var r := CreateAll(s, data);
      && (t in r.cache.types ==> t in r.tables && r.cache.types[t] == Types(r.tables[t].columns))
      && (t in r.cache.types && t in r.cache.size ==> LayoutCached(r.cache, t, r.tables[t].columns))
      && (t in r.tables ==> ColumnsOk(r.tables[t].columns) && r.tables[t].chunk > 0 && t in r.records
                            && RowsFit(r.tables[t].columns, r.records[t]))
  {
    CreateAllRecords(s, data);
    if t in s.cache.size || t !in TitlesOf(data) {
      CreateAllKeeps(s, data, t);
    } else {
      CreateAllNew(s, data, t);
      var i := FirstIndex(data, t);
      assert FirstOfTitle(data, i);
    }
  }

  /** The caches stay consistent with the tables through the first loop, and the groups are ready to be written. */
  lemma CreateAllReady(s: State, data: seq<Datum>)
    requires StateOk(s) && NotifyReady(s, data)
    ensures StateOk(CreateAll(s, data)) && GroupsReady(CreateAll(s, data), Groups(data))
  {
    var r := CreateAll(s, data);
    CreateAllRecords(s, data);
    forall t | t in r.cache.types || t in r.tables
      ensures t in r.cache.types ==> t in r.tables && r.cache.types[t] == Types(r.tables[t].columns)
      ensures t in r.cache.types && t in r.cache.size ==> LayoutCached(r.cache, t, r.tables[t].columns)
      ensures t in r.tables ==> ColumnsOk(r.tables[t].columns) && r.tables[t].chunk > 0 && t in r.records
                                && RowsFit(r.tables[t].columns, r.records[t])
    {
      CreateAllConsistentAt(s, data, t);
    }
    CreateAllCacheKeys(s, data);
    CreateAllGroupsReady(s, data);
  }

  /** After the first loop every group of the batch can be written. */
  lemma CreateAllGroupsReady(s: State, data: seq<Datum>)
    requires StateOk(s) && NotifyReady(s, data)
    ensures GroupsReady(CreateAll(s, data), Groups(data))
  {
    CreateAllTitles(s, data);
    forall t | t in Groups(data) ensures GroupFits(CreateAll(s, data).tables, t, Groups(data)[t]) {
      GroupHead(data, t);
    }
  }

  /** The layout caches are filled together, and only for titles with tags cached. */
  lemma {:induction false} CreateAllCacheKeys(s: State, data: seq<Datum>)
    requires AllWellFormed(data) && Consistent(s.tables, s.cache)
    ensures var c := CreateAll(s, data).cache;
      c.offset.Keys == c.size.Keys && c.sizes.Keys == c.size.Keys && c.size.Keys <= c.types.Keys
    decreases |data|
  {
    if data != [] {
      var init, d := data[..|data| - 1], data[|data| - 1];
      assert data == init + [d];
      CreateAllCacheKeys(s, init);
      CreateAllSnoc(s, init, d);
    }
  }

  /* ---- Properties of the second loop ---- */

  /** Once a group throws, the remaining groups are not written. */
  lemma {:induction false} WriteAllStops(s: State, titles: seq<string>, more: seq<string>, groups: map<string, seq<Datum>>, failing: set<string>, hasher: Str -> Digest)
    requires StateOk(s) && GroupsReady(s, groups)
    requires forall x :: x in titles ==> x in groups
    requires forall x :: x in more ==> x in groups
    requires WriteAll(s, titles, groups, failing, hasher).1.Err?
    ensures WriteAll(s, titles + more, groups, failing, hasher) == WriteAll(s, titles, groups, failing, hasher)
    decreases |more|
  {
    if more == [] {
      assert titles + more == titles;
    } else {
      var init := more[..|more| - 1];
      assert (titles + more)[..|titles + more| - 1] == titles + init;
      WriteAllStops(s, titles, init, groups, failing, hasher);
    }
  }

  /** The snoc step of the second loop. */
  lemma WriteAllSnoc(s: State, titles: seq<string>, t: string, groups: map<string, seq<Datum>>, failing: set<string>, hasher: Str -> Digest)
    requires StateOk(s) && GroupsReady(s, groups)
    requires forall x :: x in titles ==> x in groups
    requires t in groups
    ensures var prev := WriteAll(s, titles, groups, failing, hasher);
      WriteAll(s, titles + [t], groups, failing, hasher)
        == if prev.1.Err? then prev else WriteGroup(prev.0, groups[t], t in failing, hasher)
  {
    assert (titles + [t])[..|titles|] == titles;
  }

  /** The second loop leaves the records of every table it does not list as they were. */
  lemma {:induction false} WriteAllKeeps(s: State, titles: seq<string>, groups: map<string, seq<Datum>>, failing: set<string>, hasher: Str -> Digest, t: string)
    requires Writable(s) && GroupsReady(s, groups)
    requires forall x :: x in titles ==> x in groups
    requires t !in titles && t in s.records
    ensures WriteAll(s, titles, groups, failing, hasher).0.records[t] == s.records[t]
    decreases |titles|
  {
    if titles != [] {
      var init, last := titles[..|titles| - 1], titles[|titles| - 1];
      LastSplit(titles);
      WriteAllKeeps(s, init, groups, failing, hasher, t);
      var prev := WriteAll(s, init, groups, failing, hasher);
      if prev.1.Ok? {
        assert GroupReady(prev.0, last, groups[last]);
        WriteGroupRecords(prev.0, groups[last], last in failing, hasher, t);
      }
    }
  }

  /**
   * Each group is appended once: after a successful second loop over
   * distinct titles, each listed table holds its old records followed by its
   * group's packed rows.
   */
  lemma {:induction false} WriteAllAppends(s: State, titles: seq<string>, groups: map<string, seq<Datum>>, failing: set<string>, hasher: Str -> Digest, t: string)
    requires Writable(s) && GroupsReady(s, groups)
    requires forall x :: x in titles ==> x in groups
    requires NoDup(titles) && t in titles
    requires WriteAll(s, titles, groups, failing, hasher).1.Ok?
    ensures var cols := s.tables[t].columns;
      && GroupEncodable(Types(cols), Sizes(cols), groups[t])
      && WriteAll(s, titles, groups, failing, hasher).0.records[t] == s.records[t] + EncodedRows(Types(cols), Sizes(cols), groups[t], hasher)
    decreases |titles|
  {
    var init, last := titles[..|titles| - 1], titles[|titles| - 1];
    LastSplit(titles);
    var prev := WriteAll(s, init, groups, failing, hasher);
    assert GroupReady(prev.0, last, groups[last]);
    WriteGroupRecords(prev.0, groups[last], last in failing, hasher, t);
    NoDupInit(titles);
    if t == last {
      WriteAllKeeps(s, init, groups, failing, hasher, t);
    } else {
      WriteAllAppends(s, init, groups, failing, hasher, t);
    }
  }

  /** Dropping the last element of a sequence without duplicates. */
  lemma NoDupInit(titles: seq<string>)
    requires NoDup(titles) && titles != []
    ensures var init := titles[..|titles| - 1];
      && NoDup(init)
      && titles[|titles| - 1] !in init
  {
  }

  /** The second loop succeeds only if no append of a listed title fails. */
  lemma {:induction false} OutcomesFailing(tables: map<string, Table>, titles: seq<string>, groups: map<string, seq<Datum>>, failing: set<string>, i: nat)
    requires GroupsFit(tables, groups)
    requires forall x :: x in titles ==> x in groups
    requires i < |titles| && Outcomes(tables, titles, groups, failing).Ok?
    ensures titles[i] !in failing
    decreases |titles|
  {
    var init := titles[..|titles| - 1];
    assert forall x :: x in init ==> x in titles;
    assert Outcomes(tables, init, groups, failing).Ok?;
    if i < |init| {
      assert titles[i] == init[i];
      OutcomesFailing(tables, init, groups, failing, i);
    } else {
      assert WriteOutcome(tables, groups[titles[i]], titles[i] in failing).Ok?;
    }
  }

  /** The titles of a batch in map order are distinct. */
  lemma AscendingNoDup(s: set<string>)
    ensures NoDup(Ascending(s))
  {
  }

  /** Notify leaves the records of every table outside the batch as they were. */
  lemma NotifyKeeps(s: State, data: seq<Datum>, failing: set<string>, hasher: Str -> Digest, t: string)
    requires StateOk(s) && NotifyReady(s, data)
    requires t !in TitlesOf(data) && t in s.tables
    ensures var r := Notify(s, data, failing, hasher);
      t in r.0.records && r.0.records[t] == s.records[t]
  {
    CreateAllReady(s, data);
    CreateAllRecords(s, data);
    CreateAllKeeps(s, data, t);
    WriteAllKeepsOutside(CreateAll(s, data), Groups(data), failing, hasher, t);
  }

  /** The second loop over the titles in map order leaves every table without a group alone. */
  lemma WriteAllKeepsOutside(s: State, groups: map<string, seq<Datum>>, failing: set<string>, hasher: Str -> Digest, t: string)
    requires Writable(s) && GroupsReady(s, groups) && t !in groups && t in s.records
    ensures WriteAll(s, Ascending(groups.Keys), groups, failing, hasher).0.records[t] == s.records[t]
  {
    AscendingAvoids(groups.Keys, t);
    WriteAllKeeps(s, Ascending(groups.Keys), groups, failing, hasher, t);
  }

  /** Writing every group succeeds only if no append fails. */
  lemma OutcomesAvoid(tables: map<string, Table>, groups: map<string, seq<Datum>>, failing: set<string>)
    requires GroupsFit(tables, groups)
    ensures Outcomes(tables, Ascending(groups.Keys), groups, failing).Ok? ==> groups.Keys !! failing
  {
    var titles := Ascending(groups.Keys);
    if Outcomes(tables, titles, groups, failing).Ok? {
      forall u | u in groups.Keys ensures u !in failing {
        var i := AscendingPosition(groups.Keys, u);
        OutcomesFailing(tables, titles, groups, failing, i);
      }
    }
  }

  /** Notify succeeds only if the append of no title of the batch fails. */
  lemma NotifyFailing(s: State, data: seq<Datum>, failing: set<string>, hasher: Str -> Digest)
    requires StateOk(s) && NotifyReady(s, data)
    ensures Notify(s, data, failing, hasher).1.Ok? ==> TitlesOf(data) !! failing
  {
    CreateAllReady(s, data);
    OutcomesAvoid(CreateAll(s, data).tables, Groups(data), failing);
  }

  /**
   * After a successful Notify the table of each title of the batch holds,
   * after the records it had once the tables were made, the packed rows of
   * that title's datums in input order, each group appended once.
   */
  lemma NotifyAppends(s: State, data: seq<Datum>, failing: set<string>, hasher: Str -> Digest, t: string)
    requires StateOk(s) && NotifyReady(s, data)
    requires t in TitlesOf(data) && Notify(s, data, failing, hasher).1.Ok?
    ensures var r := Notify(s, data, failing, hasher);
      var created := CreateAll(s, data);
      var cols := created.tables[t].columns;
      && t in r.0.records
      && GroupEncodable(Types(cols), Sizes(cols), GroupOf(data, t))
      && r.0.records[t] == created.records[t] + EncodedRows(Types(cols), Sizes(cols), GroupOf(data, t), hasher)
  {
    CreateAllReady(s, data);
    var groups := Groups(data);
    AscendingNoDup(groups.Keys);
    WriteAllAppends(CreateAll(s, data), Ascending(groups.Keys), groups, failing, hasher, t);
  }

  /** Notify keeps the state invariant and the value store valid, and only grows the store. */
  lemma NotifyValid(s: State, data: seq<Datum>, failing: set<string>, hasher: Str -> Digest)
    requires StateOk(s) && NotifyReady(s, data) && VLStore.Valid(s.vl, hasher)
    ensures var r := Notify(s, data, failing, hasher);
      StateOk(r.0) && VLStore.Valid(r.0.vl, hasher) && Extends(s.vl, r.0.vl)
  {
    CreateAllReady(s, data);
    CreateAllVL(s, data);
    var groups := Groups(data);
    WriteAllOk(CreateAll(s, data), Ascending(groups.Keys), groups, failing, hasher);
  }

  /** The first loop does not touch the value store. */
  lemma {:induction false} CreateAllVL(s: State, data: seq<Datum>)
    requires AllWellFormed(data)
    ensures CreateAll(s, data).vl == s.vl
    decreases |data|
  {
    if data != [] {
      CreateAllVL(s, data[..|data| - 1]);
    }
  }
}
