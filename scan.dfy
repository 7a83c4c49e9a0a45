/**
 * What a query returns (hdf5_back.cc, lines 82-211): the conditions grouped by
 * field, the field-by-field decode of one packed row that stops at the first
 * rejecting field, and the scan that keeps the accepted rows in on-disk order.
 * The chunked loop that computes it is `Hdf5Back.Query`.
 */
module Scan {
  import opened Bytes
  import opened Schema
  import opened VLStore
  import opened Codec

  /** A query condition: the field it constrains, the comparison operator and the operand. */
  datatype Cond = Cond(field: string, op: string, operand: Value)

  /** `field_conds[field]`: the conditions on one field, in the caller's order. */
  function CondsFor(conds: seq<Cond>, field: string): (r: seq<Cond>)
    ensures forall c :: c in r <==> c in conds && c.field == field
    ensures |r| <= |conds|
  {
    if conds == [] then []
    else
      var init := CondsFor(conds[..|conds| - 1], field);
      var last := conds[|conds| - 1];
      assert conds == conds[..|conds| - 1] + [last];
      if last.field == field then init + [last] else init
  }

  /** The fields some condition names. */
  function CondFields(conds: seq<Cond>): (fs: set<string>)
    ensures forall f :: f in fs <==> exists c :: c in conds && c.field == f
  {
    set c | c in conds :: c.field
  }

  /** Adding one condition adds its field to the fields named. */
  lemma CondFieldsSnoc(conds: seq<Cond>, c: Cond)
    ensures CondFields(conds + [c]) == CondFields(conds) + {c.field}
  {
    forall f | f in CondFields(conds) ensures f in CondFields(conds + [c]) {
      var d :| d in conds && d.field == f;
      assert d in conds + [c];
    }
    assert c in conds + [c];
  }

  /** A field no condition names has no conditions. */
  lemma CondsForNone(conds: seq<Cond>, field: string)
    requires field !in CondFields(conds)
    ensures CondsFor(conds, field) == []
  {
  }

  /** Adding one condition extends the conditions of its own field only. */
  lemma CondsForSnoc(conds: seq<Cond>, c: Cond, field: string)
    ensures CondsFor(conds + [c], field) == CondsFor(conds, field) + if c.field == field then [c] else []
  {
    assert (conds + [c])[..|conds|] == conds;
  }

  /** One push of CondsByField keeps its map the conditions by field of the conditions seen. */
  lemma PushCond(fc: map<string, seq<Cond>>, seen: seq<Cond>, c: Cond)
    requires fc.Keys == CondFields(seen)
    requires forall f :: f in fc ==> fc[f] == CondsFor(seen, f)
    ensures var fc1 := if c.field in fc then fc else fc[c.field := []];
      var fc2 := fc1[c.field := fc1[c.field] + [c]];
      && fc2.Keys == CondFields(seen + [c])
      && forall f :: f in fc2 ==> fc2[f] == CondsFor(seen + [c], f)
  {
    var fc1 := if c.field in fc then fc else fc[c.field := []];
    if c.field !in fc {
      CondsForNone(seen, c.field);
    }
    assert fc1[c.field] == CondsFor(seen, c.field);
    var fc2 := fc1[c.field := fc1[c.field] + [c]];
    CondFieldsSnoc(seen, c);
    forall f | f in fc2 ensures fc2[f] == CondsFor(seen + [c], f) {
      CondsForSnoc(seen, c, f);
    }
  }

  /**
   * Query's first loop: `field_conds[cond.field]` gets each condition pushed
   * in turn, the entry made empty the first time its field is met.
   */
  method CondsByField(conds: seq<Cond>) returns (fc: map<string, seq<Cond>>)
    ensures fc.Keys == CondFields(conds)
    ensures forall f :: f in fc ==> fc[f] == CondsFor(conds, f)
  {
    fc := map[];
    for i := 0 to |conds|
      invariant fc.Keys == CondFields(conds[..i])
      invariant forall f :: f in fc ==> fc[f] == CondsFor(conds[..i], f)
    {
      var c := conds[i];
      assert conds[..i + 1] == conds[..i] + [c];
      PushCond(fc, conds[..i], c);
      if c.field !in fc {
        fc := fc[c.field := []];
      }
      fc := fc[c.field := fc[c.field] + [c]];
    }
    assert conds[..|conds|] == conds;
  }

  /**
   * Query's loop over the table's fields: each field without conditions gets
   * an empty entry, so every field of the table has one; with the first loop,
   * the entry of a field is exactly the conditions on it.
   */
  method WithFields(conds: seq<Cond>, fc: map<string, seq<Cond>>, fields: seq<string>) returns (fc': map<string, seq<Cond>>)
    requires fc.Keys == CondFields(conds)
    requires forall f :: f in fc ==> fc[f] == CondsFor(conds, f)
    ensures fc'.Keys == fc.Keys + set f | f in fields
    ensures forall f :: f in fc' ==> fc'[f] == CondsFor(conds, f)
  {
    fc' := fc;
    for i := 0 to |fields|
      invariant fc'.Keys == fc.Keys + set f | f in fields[..i]
      invariant forall f :: f in fc' ==> fc'[f] == CondsFor(conds, f)
    {
      assert fields[..i + 1] == fields[..i] + [fields[i]];
      if fields[i] !in fc' {
        CondsForNone(conds, fields[i]);
        fc' := fc'[fields[i] := []];
      }
    }
    assert fields[..|fields|] == fields;
  }

  /**
   * `CmpConds`: the source does not show it; a value passes when every
   * condition on its field holds, where `holds` is the per-condition test.
   */
  function CmpConds(v: Value, cs: seq<Cond>, holds: (Cond, Value) -> bool): (r: bool)
    ensures r <==> forall i :: 0 <= i < |cs| ==> holds(cs[i], v)
  {
    if cs == [] then true else holds(cs[0], v) && CmpConds(v, cs[1..], holds)
  }

  /** The outcome of decoding one row. */
  datatype RowOutcome = Accepted(vals: seq<Value>) | Rejected | Failed(err: Error)

  /** The bytes of each field of a row, cut at the running offsets. */
  function FieldSlices(row: Str, sizes: seq<nat>): (fs: seq<Str>)
    requires Sum(sizes) <= |row|
    ensures |fs| == |sizes| && forall j :: 0 <= j < |sizes| ==> |fs[j]| == sizes[j]
  {
    AllFieldsInsideRow(sizes);
    seq(|sizes|, j requires 0 <= j < |sizes| => row[Offsets(sizes)[j]..Offsets(sizes)[j] + sizes[j]])
  }

  /** Each field has the width its tag requires. */
  predicate FieldsFit(cols: seq<Column>, fields: seq<Str>) {
    |fields| == |cols| && forall j :: 0 <= j < |cols| ==> WidthOk(cols[j].dbtype, |fields[j]|)
  }

  /**
   * The decode of one row, left to right: a field that fails to decode aborts
   * with its error; a field whose conditions reject it ends the row as
   * rejected and no later field is looked at.
   */
  function DecodeRow(cols: seq<Column>, fields: seq<Str>, conds: seq<Cond>, st: VLState, holds: (Cond, Value) -> bool): (r: RowOutcome)
    requires FieldsFit(cols, fields)
    ensures r.Accepted? ==> |r.vals| == |cols|
    decreases |cols|
  {
    if cols == [] then Accepted([])
    else
      match DecodeField(cols[0].dbtype, fields[0], st)
      case Err(e) => Failed(e)
      case Ok(v) =>
        if !CmpConds(v, CondsFor(conds, cols[0].name), holds) then Rejected
        else
          match DecodeRow(cols[1..], fields[1..], conds, st, holds)
          case Accepted(vs) => Accepted([v] + vs)
          case other => other
  }

  /** Field `j` decodes and passes its conditions. */
  predicate Passes(cols: seq<Column>, fields: seq<Str>, conds: seq<Cond>, st: VLState, holds: (Cond, Value) -> bool, j: nat)
    requires FieldsFit(cols, fields) && j < |cols|
  {
    var d := DecodeField(cols[j].dbtype, fields[j], st);
    d.Ok? && CmpConds(d.value, CondsFor(conds, cols[j].name), holds)
  }

  /** The fields of a whole row each have their column's width. */
  lemma SlicesFit(cols: seq<Column>, row: Str)
    requires ColumnsOk(cols) && RowSize(cols) <= |row|
    ensures FieldsFit(cols, FieldSlices(row, Sizes(cols)))
  {
  }

  /** Field `j` of a row starts at the running offset and ends, inside the row, where field `j + 1` starts. */
  lemma SliceBounds(cols: seq<Column>, row: Str, j: nat)
    requires RowSize(cols) <= |row| && j < |cols|
    ensures var sizes := Sizes(cols);
      && Sum(sizes[..j + 1]) == Sum(sizes[..j]) + sizes[j]
      && Sum(sizes[..j]) + sizes[j] <= |row|
  {
    SumPrefixStep(Sizes(cols), j);
  }

  /** The bytes there are field `j` of the row. */
  lemma SliceAt(cols: seq<Column>, row: Str, j: nat)
    requires RowSize(cols) <= |row| && j < |cols|
    ensures var sizes := Sizes(cols);
      && Sum(sizes[..j]) + sizes[j] <= |row|
      && row[Sum(sizes[..j])..Sum(sizes[..j]) + sizes[j]] == FieldSlices(row, sizes)[j]
  {
    var sizes := Sizes(cols);
    SliceBounds(cols, row, j);
    assert Offsets(sizes)[j] == Sum(sizes[..j]);
  }

  /** The outcome of a row whose first fields decoded to `vals`, given that of the rest. */
  function Continue(vals: seq<Value>, rest: RowOutcome): RowOutcome {
    if rest.Accepted? then Accepted(vals + rest.vals) else rest
  }

  /** Decoding from field `j` on: field `j` first, then the fields after it. */
  lemma DecodeFrom(cols: seq<Column>, fields: seq<Str>, conds: seq<Cond>, st: VLState, holds: (Cond, Value) -> bool, j: nat)
    requires FieldsFit(cols, fields) && j < |cols|
    ensures FieldsFit(cols[j..], fields[j..]) && FieldsFit(cols[j + 1..], fields[j + 1..])
    ensures DecodeRow(cols[j..], fields[j..], conds, st, holds) ==
      match DecodeField(cols[j].dbtype, fields[j], st)
      case Err(e) => Failed(e)
      case Ok(v) =>
        if !CmpConds(v, CondsFor(conds, cols[j].name), holds) then Rejected
        else Continue([v], DecodeRow(cols[j + 1..], fields[j + 1..], conds, st, holds))
  {
    assert cols[j..][0] == cols[j] && cols[j..][1..] == cols[j + 1..];
    assert fields[j..][0] == fields[j] && fields[j..][1..] == fields[j + 1..];
  }

  /** Continuing twice is continuing with both prefixes. */
  lemma ContinueAppend(vals: seq<Value>, v: Value, rest: RowOutcome)
    ensures Continue(vals, Continue([v], rest)) == Continue(vals + [v], rest)
  {
    if rest.Accepted? {
      assert vals + ([v] + rest.vals) == (vals + [v]) + rest.vals;
    }
  }

  /**
   * One step of the left-to-right decode: with the fields before `j` decoded
   * to `vals`, field `j` either ends the row (failing or rejecting it) or
   * extends `vals`.
   */
  lemma RowStep(cols: seq<Column>, fields: seq<Str>, conds: seq<Cond>, st: VLState, holds: (Cond, Value) -> bool, j: nat, vals: seq<Value>)
    requires FieldsFit(cols, fields) && j < |cols|
    requires DecodeRow(cols, fields, conds, st, holds) == Continue(vals, DecodeRow(cols[j..], fields[j..], conds, st, holds))
    ensures FieldsFit(cols[j + 1..], fields[j + 1..])
    ensures var d := DecodeField(cols[j].dbtype, fields[j], st);
      && (d.Err? ==> DecodeRow(cols, fields, conds, st, holds) == Failed(d.error))
      && (d.Ok? && !CmpConds(d.value, CondsFor(conds, cols[j].name), holds) ==> DecodeRow(cols, fields, conds, st, holds) == Rejected)
      && (d.Ok? && CmpConds(d.value, CondsFor(conds, cols[j].name), holds) ==>
            DecodeRow(cols, fields, conds, st, holds) == Continue(vals + [d.value], DecodeRow(cols[j + 1..], fields[j + 1..], conds, st, holds)))
  {
    DecodeFrom(cols, fields, conds, st, holds, j);
    var d := DecodeField(cols[j].dbtype, fields[j], st);
    if d.Ok? {
      ContinueAppend(vals, d.value, DecodeRow(cols[j + 1..], fields[j + 1..], conds, st, holds));
    }
  }

  /**
   * A row is kept exactly when every field decodes and passes its conditions,
   * and then it holds the decoded values in column order.
   */
  lemma {:induction false} AcceptedIff(cols: seq<Column>, fields: seq<Str>, conds: seq<Cond>, st: VLState, holds: (Cond, Value) -> bool)
    requires FieldsFit(cols, fields)
    ensures DecodeRow(cols, fields, conds, st, holds).Accepted? <==>
      forall j :: 0 <= j < |cols| ==> Passes(cols, fields, conds, st, holds, j)
    ensures DecodeRow(cols, fields, conds, st, holds).Accepted? ==>
      forall j :: 0 <= j < |cols| ==>
        DecodeField(cols[j].dbtype, fields[j], st) == Ok(DecodeRow(cols, fields, conds, st, holds).vals[j])
    decreases |cols|
  {
    if cols != [] {
      AcceptedIff(cols[1..], fields[1..], conds, st, holds);
      forall j | 1 <= j < |cols|
        ensures Passes(cols, fields, conds, st, holds, j) == Passes(cols[1..], fields[1..], conds, st, holds, j - 1)
      {
        assert cols[1..][j - 1] == cols[j] && fields[1..][j - 1] == fields[j];
      }
      var d0 := DecodeField(cols[0].dbtype, fields[0], st);
      assert Passes(cols, fields, conds, st, holds, 0) <==> d0.Ok? && CmpConds(d0.value, CondsFor(conds, cols[0].name), holds);
      var sub := DecodeRow(cols[1..], fields[1..], conds, st, holds);
      if forall j :: 0 <= j < |cols| ==> Passes(cols, fields, conds, st, holds, j) {
        assert Passes(cols, fields, conds, st, holds, 0);
        forall j | 0 <= j < |cols| - 1 ensures Passes(cols[1..], fields[1..], conds, st, holds, j) {
          assert Passes(cols, fields, conds, st, holds, j + 1);
        }
        assert sub.Accepted?;
      }
      if DecodeRow(cols, fields, conds, st, holds).Accepted? {
        assert sub.Accepted?;
        forall j | 0 <= j < |cols| ensures Passes(cols, fields, conds, st, holds, j) {
          if j > 0 {
            assert Passes(cols[1..], fields[1..], conds, st, holds, j - 1);
          }
        }
        var v := DecodeField(cols[0].dbtype, fields[0], st).value;
        var vs := DecodeRow(cols[1..], fields[1..], conds, st, holds).vals;
        assert DecodeRow(cols, fields, conds, st, holds).vals == [v] + vs;
        forall j | 1 <= j < |cols|
          ensures DecodeField(cols[j].dbtype, fields[j], st) == Ok(DecodeRow(cols, fields, conds, st, holds).vals[j])
        {
          assert cols[1..][j - 1] == cols[j] && fields[1..][j - 1] == fields[j];
        }
      }
    }
  }

  /**
   * Decoding stops at the first rejecting field: once field `j` rejects after
   * the earlier fields passed, the bytes of the fields after it do not matter,
   * even ones that would fail to decode.
   */
  lemma {:induction false} StopsAtRejection(cols: seq<Column>, fields: seq<Str>, other: seq<Str>, conds: seq<Cond>, st: VLState, holds: (Cond, Value) -> bool, j: nat)
    requires FieldsFit(cols, fields) && FieldsFit(cols, other) && j < |cols|
    requires fields[..j + 1] == other[..j + 1]
    requires forall i :: 0 <= i < j ==> Passes(cols, fields, conds, st, holds, i)
    requires DecodeField(cols[j].dbtype, fields[j], st).Ok? && !Passes(cols, fields, conds, st, holds, j)
    ensures DecodeRow(cols, fields, conds, st, holds) == Rejected
    ensures DecodeRow(cols, other, conds, st, holds) == Rejected
    decreases j
  {
    assert fields[0] == fields[..j + 1][0] == other[0];
    if j > 0 {
      forall i | 0 <= i < j - 1
        ensures Passes(cols[1..], fields[1..], conds, st, holds, i)
      {
        assert Passes(cols, fields, conds, st, holds, i + 1);
        assert cols[1..][i] == cols[i + 1] && fields[1..][i] == fields[i + 1];
      }
      assert fields[1..][..j] == fields[..j + 1][1..] == other[..j + 1][1..] == other[1..][..j];
      assert cols[1..][j - 1] == cols[j] && fields[1..][j - 1] == fields[j];
      StopsAtRejection(cols[1..], fields[1..], other[1..], conds, st, holds, j - 1);
      assert Passes(cols, fields, conds, st, holds, 0);
    }
  }

  /**
   * A field that fails to decode (a BOOL column, a digest the store lacks)
   * aborts the row with its error once the fields before it have passed.
   */
  lemma {:induction false} FailsAt(cols: seq<Column>, fields: seq<Str>, conds: seq<Cond>, st: VLState, holds: (Cond, Value) -> bool, j: nat)
    requires FieldsFit(cols, fields) && j < |cols|
    requires forall i :: 0 <= i < j ==> Passes(cols, fields, conds, st, holds, i)
    requires DecodeField(cols[j].dbtype, fields[j], st).Err?
    ensures DecodeRow(cols, fields, conds, st, holds) == Failed(DecodeField(cols[j].dbtype, fields[j], st).error)
    decreases j
  {
    if j > 0 {
      forall i | 0 <= i < j - 1
        ensures Passes(cols[1..], fields[1..], conds, st, holds, i)
      {
        assert Passes(cols, fields, conds, st, holds, i + 1);
        assert cols[1..][i] == cols[i + 1] && fields[1..][i] == fields[i + 1];
      }
      assert cols[1..][j - 1] == cols[j] && fields[1..][j - 1] == fields[j];
      FailsAt(cols[1..], fields[1..], conds, st, holds, j - 1);
      assert Passes(cols, fields, conds, st, holds, 0);
    }
  }

  /** A field with no conditions accepts every value it decodes to. */
  lemma NoConditionsAccept(cols: seq<Column>, fields: seq<Str>, st: VLState, holds: (Cond, Value) -> bool, j: nat)
    requires FieldsFit(cols, fields) && j < |cols|
    requires DecodeField(cols[j].dbtype, fields[j], st).Ok?
    ensures Passes(cols, fields, [], st, holds, j)
  {
  }

  /* ---- The scan ---- */

  /** Every stored record holds a whole row. */
  predicate RecordsFit(cols: seq<Column>, records: seq<Str>) {
    forall k :: 0 <= k < |records| ==> RowSize(cols) <= |records[k]|
  }

  function DecodeRecord(cols: seq<Column>, record: Str, conds: seq<Cond>, st: VLState, holds: (Cond, Value) -> bool): RowOutcome
    requires ColumnsOk(cols) && RowSize(cols) <= |record|
  {
    DecodeRow(cols, FieldSlices(record, Sizes(cols)), conds, st, holds)
  }

  /**
   * The rows a query returns: the accepted rows in on-disk order, or the
   * first error a row raises.
   */
  function ScanRows(cols: seq<Column>, records: seq<Str>, conds: seq<Cond>, st: VLState, holds: (Cond, Value) -> bool): Result<seq<seq<Value>>>
    requires ColumnsOk(cols) && RecordsFit(cols, records)
  {
    if records == [] then Ok([])
    else
      match ScanRows(cols, records[..|records| - 1], conds, st, holds)
      case Err(e) => Err(e)
      case Ok(rows) =>
        match DecodeRecord(cols, records[|records| - 1], conds, st, holds)
        case Accepted(vs) => Ok(rows + [vs])
        case Rejected => Ok(rows)
        case Failed(e) => Err(e)
  }

  /** What `Query` returns: the table's field names and tags, and the rows kept. */
  datatype QueryResult = QueryResult(fields: seq<string>, types: seq<DbType>, rows: seq<seq<Value>>)

  /** The result of a query on a table of columns `cols` holding `records`. */
  function QueryOf(cols: seq<Column>, records: seq<Str>, conds: seq<Cond>, st: VLState, holds: (Cond, Value) -> bool): (r: Result<QueryResult>)
    requires ColumnsOk(cols) && RecordsFit(cols, records)
    ensures r.Ok? ==> r.value.fields == Names(cols) && r.value.types == Types(cols)
  {
    match ScanRows(cols, records, conds, st, holds)
    case Ok(rows) => Ok(QueryResult(Names(cols), Types(cols), rows))
    case Err(e) => Err(e)
  }

  /**
   * Scanning is compositional: scanning two runs of records one after the
   * other gives the rows of the first followed by those of the second, which
   * is why a chunk-by-chunk scan returns the rows of the whole table in order.
   */
  lemma RecordsFitAppend(cols: seq<Column>, a: seq<Str>, b: seq<Str>)
    requires RecordsFit(cols, a) && RecordsFit(cols, b)
    ensures RecordsFit(cols, a + b)
  {
    assert forall k :: 0 <= k < |a + b| ==> (a + b)[k] == if k < |a| then a[k] else b[k - |a|];
  }

  lemma RecordsFitPrefix(cols: seq<Column>, a: seq<Str>, n: nat)
    requires RecordsFit(cols, a) && n <= |a|
    ensures RecordsFit(cols, a[..n])
  {
    assert forall k :: 0 <= k < n ==> a[..n][k] == a[k];
  }

  lemma RecordsFitSuffix(cols: seq<Column>, a: seq<Str>, n: nat)
    requires RecordsFit(cols, a) && n <= |a|
    ensures RecordsFit(cols, a[n..])
  {
    assert forall k :: 0 <= k < |a| - n ==> a[n..][k] == a[n + k];
  }

  lemma {:induction false} ScanAppend(cols: seq<Column>, a: seq<Str>, b: seq<Str>, conds: seq<Cond>, st: VLState, holds: (Cond, Value) -> bool)
    requires ColumnsOk(cols) && RecordsFit(cols, a) && RecordsFit(cols, b)
    ensures RecordsFit(cols, a + b)
    ensures ScanRows(cols, a, conds, st, holds).Ok? && ScanRows(cols, b, conds, st, holds).Ok? ==>
      ScanRows(cols, a + b, conds, st, holds) == Ok(ScanRows(cols, a, conds, st, holds).value + ScanRows(cols, b, conds, st, holds).value)
    ensures ScanRows(cols, a, conds, st, holds).Err? ==> ScanRows(cols, a + b, conds, st, holds) == ScanRows(cols, a, conds, st, holds)
    ensures ScanRows(cols, a, conds, st, holds).Ok? && ScanRows(cols, b, conds, st, holds).Err? ==>
      ScanRows(cols, a + b, conds, st, holds) == ScanRows(cols, b, conds, st, holds)
    decreases |b|
  {
    RecordsFitAppend(cols, a, b);
    if b == [] {
      assert a + b == a;
      if ScanRows(cols, a, conds, st, holds).Ok? {
        assert ScanRows(cols, a, conds, st, holds).value + [] == ScanRows(cols, a, conds, st, holds).value;
      }
    } else {
      var b' := b[..|b| - 1];
      RecordsFitPrefix(cols, b, |b| - 1);
      ScanAppend(cols, a, b', conds, st, holds);
      assert (a + b)[..|a + b| - 1] == a + b';
      assert (a + b)[|a + b| - 1] == b[|b| - 1];
      if ScanRows(cols, a, conds, st, holds).Ok? && ScanRows(cols, b, conds, st, holds).Ok? {
        var ra, rb' := ScanRows(cols, a, conds, st, holds).value, ScanRows(cols, b', conds, st, holds).value;
        match DecodeRecord(cols, b[|b| - 1], conds, st, holds)
        case Accepted(vs) => assert ra + (rb' + [vs]) == (ra + rb') + [vs];
        case Rejected =>
        case Failed(_) =>
      }
    }
  }

  /** Every row a scan returns is an accepted row of the table, and there are no more rows than records. */
  lemma {:induction false} ScanBounded(cols: seq<Column>, records: seq<Str>, conds: seq<Cond>, st: VLState, holds: (Cond, Value) -> bool)
    requires ColumnsOk(cols) && RecordsFit(cols, records)
    ensures ScanRows(cols, records, conds, st, holds).Ok? ==>
      && |ScanRows(cols, records, conds, st, holds).value| <= |records|
      && forall r :: r in ScanRows(cols, records, conds, st, holds).value ==>
           exists k :: 0 <= k < |records| && DecodeRecord(cols, records[k], conds, st, holds) == Accepted(r)
    decreases |records|
  {
    if records != [] {
      var init := records[..|records| - 1];
      RecordsFitPrefix(cols, records, |records| - 1);
      ScanBounded(cols, init, conds, st, holds);
      var res := ScanRows(cols, records, conds, st, holds);
      if res.Ok? {
        var rows := ScanRows(cols, init, conds, st, holds).value;
        forall r | r in res.value
          ensures exists k :: 0 <= k < |records| && DecodeRecord(cols, records[k], conds, st, holds) == Accepted(r)
        {
          if r in rows {
            var k :| 0 <= k < |init| && DecodeRecord(cols, init[k], conds, st, holds) == Accepted(r);
            assert records[k] == init[k];
          } else {
            assert DecodeRecord(cols, records[|records| - 1], conds, st, holds) == Accepted(r);
          }
        }
      }
    }
  }

  /* ---- Chunks ---- */

  /** `nchunks`: the number of chunks of `chunk` rows that cover `len` rows. */
  function ChunkCount(len: nat, chunk: nat): (n: nat)
    requires chunk > 0
    ensures (n - 1) * chunk < len <= n * chunk || (len == 0 && n == 0)
  {
    var q := len / chunk;
    assert len == q * chunk + len % chunk;
    if len % chunk == 0 then q else q + 1
  }

  /** `count`: the rows of chunk `n`, all that remain when fewer than a chunk do. */
  function ChunkLength(len: nat, chunk: nat, n: nat): nat
    requires n * chunk <= len
  {
    if len - n * chunk < chunk then len - n * chunk else chunk
  }

  /**
   * The chunks partition the table: chunk `n` starts where the previous one
   * ended, every chunk but the last is full, and the last ends at the table's
   * end.
   */
  lemma ChunksPartition(len: nat, chunk: nat, n: nat)
    requires chunk > 0 && n < ChunkCount(len, chunk)
    ensures n * chunk < len
    ensures n * chunk + ChunkLength(len, chunk, n) <= len
    ensures n + 1 < ChunkCount(len, chunk) ==> ChunkLength(len, chunk, n) == chunk
    ensures n + 1 == ChunkCount(len, chunk) ==> n * chunk + ChunkLength(len, chunk, n) == len
    ensures n * chunk + ChunkLength(len, chunk, n) == if n + 1 < ChunkCount(len, chunk) then (n + 1) * chunk else len
  {
    var m := ChunkCount(len, chunk);
    assert (m - 1) * chunk < len;
    MonoMul(n, m - 1, chunk);
    if n + 1 < m {
      MonoMul(n + 1, m - 1, chunk);
      assert (n + 1) * chunk == n * chunk + chunk;
    } else {
      assert len <= m * chunk == n * chunk + chunk;
    }
  }

  lemma MonoMul(a: nat, b: nat, c: nat)
    requires a <= b
    ensures a * c <= b * c
  {
    assert b * c == a * c + (b - a) * c;
  }

  /* ---- Reading back what was written ---- */

  /** The values a row of a datum reads back as, column by column. */
  function ReadbackRow(cols: seq<Column>, d: Datum): (vs: seq<Value>)
    requires |d.vals| == |cols|
    ensures |vs| == |cols|
  {
    seq(|cols|, c requires 0 <= c < |cols| => Readback(Cell(cols[c].dbtype, cols[c].size, d.vals[c].value)))
  }

  /** The value store holds every variable-length value of a datum. */
  predicate RowRetrievable(cols: seq<Column>, d: Datum, st: VLState, hasher: Str -> Digest)
    requires |d.vals| == |cols|
  {
    forall c :: 0 <= c < |cols| ==> Retrievable(Cell(cols[c].dbtype, cols[c].size, d.vals[c].value), st, hasher)
  }

  /** A written row, scanned with no conditions, is accepted and reads back as its datum's values. */
  lemma RowReadBack(cols: seq<Column>, d: Datum, st: VLState, hasher: Str -> Digest, holds: (Cond, Value) -> bool)
    requires ColumnsOk(cols) && RowEncodable(Types(cols), Sizes(cols), d)
    requires RowRetrievable(cols, d, st, hasher)
    ensures |EncodeRow(Types(cols), Sizes(cols), d, hasher)| == RowSize(cols)
    ensures DecodeRecord(cols, EncodeRow(Types(cols), Sizes(cols), d, hasher), [], st, holds) == Accepted(ReadbackRow(cols, d))
  {
    var types, sizes := Types(cols), Sizes(cols);
    var row := EncodeRow(types, sizes, d, hasher);
    EncodeRowLength(types, sizes, d, hasher);
    var fields := FieldSlices(row, sizes);
    forall c | 0 <= c < |cols|
      ensures WidthOk(cols[c].dbtype, |fields[c]|)
      ensures DecodeField(cols[c].dbtype, fields[c], st) == Ok(ReadbackRow(cols, d)[c])
    {
      FieldReadBack(cols, d, st, hasher, c);
    }
    assert FieldsFit(cols, fields);
    AcceptedIff(cols, fields, [], st, holds);
    var out := DecodeRow(cols, fields, [], st, holds);
    assert out.Accepted?;
    assert out.vals == ReadbackRow(cols, d);
  }

  /** One field of a written row decodes to the value its datum holds there. */
  lemma FieldReadBack(cols: seq<Column>, d: Datum, st: VLState, hasher: Str -> Digest, c: nat)
    requires ColumnsOk(cols) && RowEncodable(Types(cols), Sizes(cols), d)
    requires RowRetrievable(cols, d, st, hasher) && c < |cols|
    ensures |EncodeRow(Types(cols), Sizes(cols), d, hasher)| == RowSize(cols)
    ensures var fields := FieldSlices(EncodeRow(Types(cols), Sizes(cols), d, hasher), Sizes(cols));
      && WidthOk(cols[c].dbtype, |fields[c]|)
      && DecodeField(cols[c].dbtype, fields[c], st) == Ok(ReadbackRow(cols, d)[c])
  {
    var types, sizes := Types(cols), Sizes(cols);
    EncodeRowLength(types, sizes, d, hasher);
    var cell := Cell(cols[c].dbtype, cols[c].size, d.vals[c].value);
    RowPlacement(types, sizes, d, hasher, c);
    CellRoundTrip(cell, st, hasher);
  }

  /** The rows a sequence of datums reads back as, in order. */
  function ReadbackRows(cols: seq<Column>, group: seq<Datum>): (rows: seq<seq<Value>>)
    requires forall k :: 0 <= k < |group| ==> |group[k].vals| == |cols|
    ensures |rows| == |group|
    ensures forall k :: 0 <= k < |group| ==> rows[k] == ReadbackRow(cols, group[k])
  {
    if group == [] then []
    else ReadbackRows(cols, group[..|group| - 1]) + [ReadbackRow(cols, group[|group| - 1])]
  }

  lemma EncodedRowsFit(cols: seq<Column>, group: seq<Datum>, hasher: Str -> Digest)
    requires ColumnsOk(cols) && GroupEncodable(Types(cols), Sizes(cols), group)
    ensures RecordsFit(cols, EncodedRows(Types(cols), Sizes(cols), group, hasher))
  {
    forall k | 0 <= k < |group|
      ensures RowSize(cols) <= |EncodedRows(Types(cols), Sizes(cols), group, hasher)[k]|
    {
      EncodeRowLength(Types(cols), Sizes(cols), group[k], hasher);
    }
  }

  /**
   * The round trip: scanning the rows written for a sequence of datums with
   * no conditions returns one row per datum, in write order, each holding
   * the datum's values as they read back.
   */
  lemma {:induction false} GroupReadBack(cols: seq<Column>, group: seq<Datum>, st: VLState, hasher: Str -> Digest, holds: (Cond, Value) -> bool)
    requires ColumnsOk(cols) && GroupEncodable(Types(cols), Sizes(cols), group)
    requires forall k :: 0 <= k < |group| ==> RowRetrievable(cols, group[k], st, hasher)
    ensures RecordsFit(cols, EncodedRows(Types(cols), Sizes(cols), group, hasher))
    ensures ScanRows(cols, EncodedRows(Types(cols), Sizes(cols), group, hasher), [], st, holds) == Ok(ReadbackRows(cols, group))
    decreases |group|
  {
    EncodedRowsFit(cols, group, hasher);
    if group != [] {
      var n := |group|;
      var init, last := group[..n - 1], group[n - 1];
      GroupEncodablePrefix(types := Types(cols), sizes := Sizes(cols), group := group, n := n - 1);
      assert forall k :: 0 <= k < n - 1 ==> init[k] == group[k];
      GroupReadBack(cols, init, st, hasher, holds);
      var prev := EncodedRows(Types(cols), Sizes(cols), init, hasher);
      var records := EncodedRows(Types(cols), Sizes(cols), group, hasher);
      assert records == prev + [EncodeRow(Types(cols), Sizes(cols), last, hasher)];
      assert records[..n - 1] == prev;
      RowReadBack(cols, last, st, hasher, holds);
    }
  }
}
