/**
 `point_stream.rs`: turning the rows of columnar query results back into
 points, and the pull loop that walks a source of batches row by row.

 An Arrow column is modelled as a name, a physical type, its metadata and
 one optional scalar per row; the Flight stream is the sequence of items it
 would deliver. A timestamp column's cells are the raw `i64` counts in the
 column's unit.
 */
module PointStreams {
  import opened Base
  import opened Names
  import opened TagNames
  import opened PointValues
  import opened Codec
  import opened Points

  datatype TimeUnit = Second | Millisecond | Microsecond | Nanosecond

  /** Nanoseconds per unit. */
  function UnitNanos(u: TimeUnit): nat {
    match u
    case Second => 1_000_000_000
    case Millisecond => 1_000_000
    case Microsecond => 1_000
    case Nanosecond => 1
  }

  /**
   The seconds since the Unix epoch that chrono's `DateTime<Utc>` holds:
   January 1 of year -262143 up to the last second of December 31, 262142.
   */
  const MinUtcSeconds: int := -8_334_601_315_200
  const MaxUtcSeconds: int := 8_210_266_876_799

  /** Units per second. */
  function UnitsPerSecond(u: TimeUnit): nat {
    match u
    case Second => 1
    case Millisecond => 1_000
    case Microsecond => 1_000_000
    case Nanosecond => 1_000_000_000
  }

  /**
   A count of `u` chrono can turn into a `DateTime<Utc>`: the seconds, taken
   with Euclidean division, lie in range. A count of nanoseconds always does,
   as `i64` nanoseconds span only about 584 years.
   */
  predicate InstantInRange(u: TimeUnit, count: int) {
    u.Nanosecond? || MinUtcSeconds <= count / UnitsPerSecond(u) <= MaxUtcSeconds
  }

  /** The physical types the decoder distinguishes; `display` is the text Arrow prints for any other. */
  datatype DataType =
    | NullType
    | BooleanType
    | Float64Type
    | Int64Type
    | UInt64Type
    | Utf8Type
    | TimestampType(unit: TimeUnit)
    | OtherType(display: string)

  datatype Scalar = BoolCell(b: bool) | FloatCell(f: F64) | IntCell(i: i64) | TextCell(s: string)

  datatype Column = Column(name: string, dataType: DataType, metadata: map<string, string>, cells: seq<Option<Scalar>>)

  datatype Batch = Batch(columns: seq<Column>, numRows: nat)

  /** A cell holds the kind of scalar its column's physical type stores. */
  predicate CellFits(t: DataType, cell: Option<Scalar>) {
    cell.None? ||
    match t
    case BooleanType => cell.value.BoolCell?
    case Float64Type => cell.value.FloatCell?
    case Int64Type | UInt64Type | TimestampType(_) => cell.value.IntCell?
    case Utf8Type => cell.value.TextCell?
    case NullType | OtherType(_) => true
  }

  predicate WellFormedColumn(c: Column, numRows: nat) {
    |c.cells| == numRows && forall r :: 0 <= r < numRows ==> CellFits(c.dataType, c.cells[r])
  }

  predicate WellFormed(b: Batch) {
    forall k :: 0 <= k < |b.columns| ==> WellFormedColumn(b.columns[k], b.numRows)
  }

  // ---- Column classification --------------------------------------------

  /** `ColumnType`. */
  datatype ColumnType =
    | IntegerColumn | UIntegerColumn | FloatColumn | StringColumn | BooleanColumn
    | TagColumn | TimestampColumn | UnknownColumn

  /** The metadata key carrying a column's role. */
  const ColumnTypeKey: string := "iox::column::type"

  /** The metadata text of each known column type (the inverse of `ColumnTypeFrom`). */
  function ColumnTypeText(k: ColumnType): string
    requires !k.UnknownColumn?
  {
    match k
    case IntegerColumn => "iox::column_type::field::integer"
    case UIntegerColumn => "iox::column_type::field::uinteger"
    case FloatColumn => "iox::column_type::field::float"
    case StringColumn => "iox::column_type::field::string"
    case BooleanColumn => "iox::column_type::field::boolean"
    case TagColumn => "iox::column_type::tag"
    case TimestampColumn => "iox::column_type::timestamp"
  }

  /** `ColumnType::from`. */
  function ColumnTypeFrom(s: string): (k: ColumnType)
    ensures !k.UnknownColumn? ==> ColumnTypeText(k) == s
  {
    if s == "iox::column_type::field::integer" then IntegerColumn
    else if s == "iox::column_type::field::uinteger" then UIntegerColumn
    else if s == "iox::column_type::field::float" then FloatColumn
    else if s == "iox::column_type::field::string" then StringColumn
    else if s == "iox::column_type::field::boolean" then BooleanColumn
    else if s == "iox::column_type::tag" then TagColumn
    else if s == "iox::column_type::timestamp" then TimestampColumn
    else UnknownColumn
  }

  /** Exactly the seven texts are recognised, each as the type it names. */
  lemma ColumnTypeFromExact(s: string, k: ColumnType)
    requires !k.UnknownColumn?
    ensures ColumnTypeFrom(s) == k <==> s == ColumnTypeText(k)
  {
  }

  /** Missing metadata reads as the empty text, which is no known type. */
  function Classify(c: Column): (k: ColumnType)
    ensures ColumnTypeKey !in c.metadata ==> k.UnknownColumn?
  {
    ColumnTypeFrom(if ColumnTypeKey in c.metadata then c.metadata[ColumnTypeKey] else "")
  }

  // ---- Cell extraction ----------------------------------------------------

  /** The `PointValue` variant a physical type yields for a non-null cell. */
  predicate Matches(t: DataType, v: PointValue) {
    match t
    case BooleanType => v.Boolean?
    case Float64Type => v.Float?
    case Int64Type => v.Integer?
    case UInt64Type => v.UInteger?
    case Utf8Type => v.String?
    case TimestampType(_) => v.Timestamp?
    case NullType | OtherType(_) => false
  }

  /**
   The cell can be read without a panic. The source's UInt64 branch views the
   column as an `Int64Array`, a downcast Arrow refuses with a panic before any
   cell is read; a timestamp outside chrono's range makes
   `.expect("Invalid timestamp")` panic.
   */
  predicate Extractable(c: Column, row: nat)
    requires row < |c.cells|
  {
    !c.dataType.UInt64Type?
    && !(c.dataType.TimestampType? && c.cells[row].Some? && c.cells[row].value.IntCell?
         && !InstantInRange(c.dataType.unit, c.cells[row].value.i))
  }

  /** `get_arrow_value`, on the cells it reads without a panic. */
  function GetArrowValue(c: Column, row: nat): (r: Result<PointValue, Error>)
    requires row < |c.cells| && CellFits(c.dataType, c.cells[row])
    requires Extractable(c, row)
    ensures r.Err? <==> c.dataType.OtherType?
    ensures r.Err? ==> r.error == InvalidPointValue(c.name, c.dataType.display)
    ensures r.Ok? ==> (r.value.Null? <==> c.dataType.NullType? || c.cells[row].None?)
    ensures r.Ok? && !r.value.Null? ==> Matches(c.dataType, r.value)
    ensures r.Ok? && r.value.Boolean? ==> c.cells[row] == Some(BoolCell(r.value.b))
    ensures r.Ok? && r.value.Float? ==> c.cells[row] == Some(FloatCell(r.value.f))
    ensures r.Ok? && r.value.Integer? ==> c.cells[row] == Some(IntCell(r.value.i))
    ensures r.Ok? && r.value.String? ==> c.cells[row] == Some(TextCell(r.value.s))
    ensures r.Ok? && r.value.Timestamp? ==> r.value.nanos == c.cells[row].value.i * UnitNanos(c.dataType.unit)
  {
    var cell := c.cells[row];
    match c.dataType
    case NullType => Ok(Null)
    case OtherType(d) => Err(InvalidPointValue(c.name, d))
    case BooleanType => if cell.None? then Ok(Null) else Ok(Boolean(cell.value.b))
    case Float64Type => if cell.None? then Ok(Null) else Ok(Float(cell.value.f))
    case Int64Type => if cell.None? then Ok(Null) else Ok(Integer(cell.value.i))
    case UInt64Type => assert false; Ok(Null)
    case Utf8Type => if cell.None? then Ok(Null) else Ok(String(cell.value.s))
    case TimestampType(u) => if cell.None? then Ok(Null) else Ok(Timestamp(cell.value.i * UnitNanos(u)))
  }

  /** The cell a non-null value came from: the inverse of `GetArrowValue` on a column of type `t`. */
  function CellOf(v: PointValue, t: DataType): Option<Scalar> {
    match v
    case Null => None
    case Boolean(b) => Some(BoolCell(b))
    case Float(f) => Some(FloatCell(f))
    case Integer(i) => Some(IntCell(i))
    case UInteger(_) => None
    case String(s) => Some(TextCell(s))
    case Timestamp(n) =>
      if t.TimestampType? && InI64(n / UnitNanos(t.unit)) then Some(IntCell(n / UnitNanos(t.unit))) else None
  }

  /** Every readable cell of a typed column is recovered from the value extracted from it. */
  lemma ArrowValueReadsCell(c: Column, row: nat)
    requires row < |c.cells| && CellFits(c.dataType, c.cells[row]) && Extractable(c, row)
    requires !c.dataType.NullType? && !c.dataType.OtherType?
    ensures GetArrowValue(c, row).Ok?
    ensures CellOf(GetArrowValue(c, row).value, c.dataType) == c.cells[row]
  {
    if c.dataType.TimestampType? && c.cells[row].Some? {
      var k: int := c.cells[row].value.i;
      // One case per unit, so each scale is a literal.
      match c.dataType.unit
      case Second => assert k * 1_000_000_000 / 1_000_000_000 == k;
      case Millisecond => assert k * 1_000_000 / 1_000_000 == k;
      case Microsecond => assert k * 1_000 / 1_000 == k;
      case Nanosecond => assert k * 1 / 1 == k;
    }
  }

  /** A timestamp cell in `u` holding `count`, in a one-row column with no metadata. */
  function StampColumn(u: TimeUnit, count: i64): Column {
    Column("time", TimestampType(u), map[], [Some(IntCell(count))])
  }

  /**
   Where chrono's range cuts in: `i64::MAX` seconds is out of it; the last
   millisecond of the range is readable and the next second is not; the
   seconds of a negative count are rounded down, so one microsecond before
   the range is out of it; any count of nanoseconds is readable.
   */
  lemma TimestampRangeExamples()
    ensures !Extractable(StampColumn(Second, I64_MAX), 0)
    ensures Extractable(StampColumn(Millisecond, MaxUtcSeconds * 1_000 + 999), 0)
    ensures !Extractable(StampColumn(Millisecond, (MaxUtcSeconds + 1) * 1_000), 0)
    ensures !Extractable(StampColumn(Microsecond, MinUtcSeconds * 1_000_000 - 1), 0)
    ensures Extractable(StampColumn(Nanosecond, I64_MIN), 0)
  {
  }

  // ---- One row --------------------------------------------------------------

  predicate IsMeasurementName(name: string) {
    name == "measurement" || name == "iox::measurement"
  }

  /** A Utf8 column named as the measurement, with a value, supplies the measurement. */
  predicate TakesMeasurement(c: Column, v: PointValue) {
    c.dataType.Utf8Type? && IsMeasurementName(c.name) && !v.Null?
  }

  /** A column whose values set the point's time. */
  predicate IsTimeColumn(c: Column) {
    Classify(c).TimestampColumn?
    || (Classify(c).UnknownColumn? && c.dataType.TimestampType? && c.name == "time")
  }

  /** What the reader does with a column, given the value it extracted. */
  datatype Role = MeasurementRole | TagRole | TimeRole | FieldRole

  function RoleOf(c: Column, v: PointValue): Role {
    if TakesMeasurement(c, v) then MeasurementRole
    else if Classify(c).TagColumn? then TagRole
    else if IsTimeColumn(c) then TimeRole
    else FieldRole
  }

  /**
   The column would panic: its cell cannot be extracted, or it is a tag
   column whose non-null text is stored under a name `TagName` refuses.
   */
  predicate Panics(c: Column, row: nat)
    requires row < |c.cells|
  {
    !Extractable(c, row)
    || (Classify(c).TagColumn? && c.dataType.Utf8Type? && c.cells[row].Some?
        && !IsMeasurementName(c.name) && !ValidateName(c.name))
  }

  /**
   The column makes the row fail: no extraction, or a tag or time value of
   the wrong variant. (A cell that cannot be extracted panics instead.)
   */
  predicate ColumnFails(c: Column, row: nat)
    requires row < |c.cells| && CellFits(c.dataType, c.cells[row])
  {
    Extractable(c, row) &&
    var r := GetArrowValue(c, row);
    (r.Err?
     || (!r.value.Null?
         && ((RoleOf(c, r.value) == TagRole && !r.value.String?)
             || (RoleOf(c, r.value) == TimeRole && !r.value.Timestamp?))))
  }

  /** The error a failing column ends its row with. */
  function ColumnError(c: Column, row: nat): Error
    requires row < |c.cells| && CellFits(c.dataType, c.cells[row]) && ColumnFails(c, row)
  {
    var r := GetArrowValue(c, row);
    if r.Err? then r.error
    else if RoleOf(c, r.value) == TagRole then InvalidPointValueConversion("PointValue is not a String")
    else InvalidPointValueConversion("PointValue is not a Timestamp")
  }

  /** The body of `get_point`'s loop for one column. */
  function ApplyColumn(p: Point, c: Column, row: nat): (r: Result<Point, Error>)
    requires row < |c.cells| && CellFits(c.dataType, c.cells[row])
    requires !Panics(c, row)
  {
    match GetArrowValue(c, row)
    case Err(e) => Err(e)
    case Ok(v) =>
      var measured := if c.dataType.Utf8Type? && IsMeasurementName(c.name) then GetValue(v, StringTy) else Ok(None);
      match measured
      case Err(e) => Err(e)
      case Ok(Some(x)) => Ok(SetMeasurement(p, x.s))
      case Ok(None) =>
        match Classify(c)
        case UnknownColumn =>
          if c.dataType.TimestampType? && c.name == "time" then SetTimeFrom(p, v)
          else Ok(SetField(p, c.name, PointValueTy, RawV(v)))
        case TagColumn =>
          (match GetValue(v, StringTy)
           case Err(e) => Err(e)
           case Ok(None) => Ok(p)
           case Ok(Some(x)) => Ok(SetTag(p, c.name, x.s)))
        case TimestampColumn => SetTimeFrom(p, v)
        case IntegerColumn | UIntegerColumn | FloatColumn | StringColumn | BooleanColumn =>
          Ok(SetField(p, c.name, PointValueTy, RawV(v)))
  }

  /** `if let Some(v) = value.get_value()? { point.set_timestamp(v) }`. */
  function SetTimeFrom(p: Point, v: PointValue): (r: Result<Point, Error>)
    ensures v.Null? ==> r == Ok(p)
    ensures v.Timestamp? ==> r == Ok(SetTimestamp(p, v.nanos))
    ensures !v.Null? && !v.Timestamp? ==> r == Err(InvalidPointValueConversion("PointValue is not a Timestamp"))
  {
    match GetValue(v, DateTimeTy)
    case Err(e) => Err(e)
    case Ok(None) => Ok(p)
    case Ok(Some(t)) => Ok(SetTimestamp(p, t.nanos))
  }

  /**
   One column's effect, by role: the measurement, a tag (dropped when
   null), the time (kept when null), or a field set through `set_field`,
   null included. Failure is exactly `ColumnFails`.
   */
  lemma ApplyColumnFails(p: Point, c: Column, row: nat)
    requires row < |c.cells| && CellFits(c.dataType, c.cells[row]) && !Panics(c, row)
    ensures ApplyColumn(p, c, row).Err? <==> ColumnFails(c, row)
    ensures ColumnFails(c, row) ==> ApplyColumn(p, c, row) == Err(ColumnError(c, row))
    ensures c.dataType.OtherType? ==> ApplyColumn(p, c, row) == Err(InvalidPointValue(c.name, c.dataType.display))
  {
    // One case per role the column can play.
    if GetArrowValue(c, row).Ok? {
      var v := GetArrowValue(c, row).value;
      if TakesMeasurement(c, v) {
      } else if Classify(c).TagColumn? {
      } else if IsTimeColumn(c) {
      } else {
      }
    }
  }

  lemma ApplyColumnByRole(p: Point, c: Column, row: nat)
    requires row < |c.cells| && CellFits(c.dataType, c.cells[row]) && !Panics(c, row)
    ensures !ColumnFails(c, row) ==>
      var v := GetArrowValue(c, row).value;
      match RoleOf(c, v)
      case MeasurementRole => ApplyColumn(p, c, row) == Ok(SetMeasurement(p, v.s))
      case TagRole => ApplyColumn(p, c, row) == (if v.Null? then Ok(p) else Ok(SetTag(p, c.name, v.s)))
      case TimeRole => ApplyColumn(p, c, row) == (if v.Null? then Ok(p) else Ok(SetTimestamp(p, v.nanos)))
      case FieldRole => ApplyColumn(p, c, row) == Ok(SetField(p, c.name, PointValueTy, RawV(v)))
  {
    // One case per role the column can play.
    if !ColumnFails(c, row) {
      var v := GetArrowValue(c, row).value;
      match RoleOf(c, v)
      case MeasurementRole =>
      case TagRole =>
      case TimeRole =>
      case FieldRole =>
    }
  }

  /** A field column whose name fails the validator (one with a `:`, say) leaves the point as it was. */
  lemma InvalidFieldNameDropped(p: Point, c: Column, row: nat)
    requires row < |c.cells| && CellFits(c.dataType, c.cells[row]) && !Panics(c, row)
    requires !ColumnFails(c, row) && RoleOf(c, GetArrowValue(c, row).value) == FieldRole
    requires !ValidateName(c.name)
    ensures ApplyColumn(p, c, row) == Ok(p)
  {
    ApplyColumnFails(p, c, row);
    ApplyColumnByRole(p, c, row);
  }

  /** The columns up to the first failing one do not panic. */
  predicate RowSafe(cols: seq<Column>, row: nat)
    requires Fits(cols, row)
  {
    cols == [] || (!Panics(cols[0], row) && (ColumnFails(cols[0], row) || RowSafe(cols[1..], row)))
  }

  predicate Fits(cols: seq<Column>, row: nat) {
    forall k :: 0 <= k < |cols| ==> row < |cols[k].cells| && CellFits(cols[k].dataType, cols[k].cells[row])
  }

  /** The loop of `get_point`, column by column; the first error ends the row. */
  function ApplyColumns(p: Point, cols: seq<Column>, row: nat): Result<Point, Error>
    requires Fits(cols, row) && RowSafe(cols, row)
    decreases |cols|
  {
    if cols == [] then Ok(p)
    else
      ApplyColumnFails(p, cols[0], row);
      match ApplyColumn(p, cols[0], row)
      case Err(e) => Err(e)
      case Ok(p') => ApplyColumns(p', cols[1..], row)
  }

  /**
   `get_point`: the row read into a default point. It fails exactly when
   some column fails, with the error of the first such column.
   */
  function GetPoint(b: Batch, row: nat): (r: Result<Point, Error>)
    requires WellFormed(b) && row < b.numRows && RowSafe(b.columns, row)
    ensures r.Err? <==> FirstFailure(b.columns, row).Some?
    ensures r.Err? ==> r.error == ColumnError(b.columns[FirstFailure(b.columns, row).value], row)
  {
    ApplyColumnsError(Default(), b.columns, row);
    ApplyColumns(Default(), b.columns, row)
  }

  /** The index of the first failing column, if any. */
  function FirstFailure(cols: seq<Column>, row: nat): (r: Option<nat>)
    requires Fits(cols, row)
    ensures r.Some? ==> r.value < |cols| && ColumnFails(cols[r.value], row)
    ensures r.Some? ==> forall k :: 0 <= k < r.value ==> !ColumnFails(cols[k], row)
    ensures r.None? ==> forall k :: 0 <= k < |cols| ==> !ColumnFails(cols[k], row)
    decreases |cols|
  {
    if cols == [] then None
    else if ColumnFails(cols[0], row) then Some(0)
    else
      match FirstFailure(cols[1..], row)
      case None => None
      case Some(k) => Some(k + 1)
  }

  /**
   A row fails exactly when one of its columns fails, and it fails with the
   error of the first such column.
   */
  lemma {:induction false} ApplyColumnsError(p: Point, cols: seq<Column>, row: nat)
    requires Fits(cols, row) && RowSafe(cols, row)
    ensures ApplyColumns(p, cols, row).Err? <==> FirstFailure(cols, row).Some?
    ensures FirstFailure(cols, row).Some? ==>
      var k := FirstFailure(cols, row).value;
      ApplyColumns(p, cols, row).error == ColumnError(cols[k], row)
    decreases |cols|
  {
    if cols != [] {
      ApplyColumnFails(p, cols[0], row);
      if !ColumnFails(cols[0], row) {
        var p' := ApplyColumn(p, cols[0], row).value;
        var tail := cols[1..];
        assert ApplyColumns(p, cols, row) == ApplyColumns(p', tail, row);
        ApplyColumnsError(p', tail, row);
        match FirstFailure(tail, row)
        case None =>
        case Some(k) =>
          assert FirstFailure(cols, row) == Some(k + 1);
          assert tail[k] == cols[k + 1];
      }
    }
  }

  // ---- The pull loop --------------------------------------------------------

  /**
   `PointStream`: the batches still to come, the batch being read, the next
   row and the row count.
   */
  datatype StreamState = StreamState(source: seq<Result<Batch, Error>>, buffer: Option<Batch>, i: nat, len: nat)

  /**
   `PointStream::new`: no batch held and no row pending. The stream
   invariant holds exactly when every batch of the source is readable;
   `DrainIsExpected` says what such a stream yields.
   */
  function NewStream(source: seq<Result<Batch, Error>>): (r: StreamState)
    ensures r.source == source && r.buffer.None? && Pending(r) == 0
    ensures StreamInv(r) <==> SourceReadable(source)
  {
    StreamState(source, None, 0, 0)
  }

  /** A batch every row of which can be read without a panic. */
  predicate Readable(b: Batch) {
    WellFormed(b) && forall r :: 0 <= r < b.numRows ==> RowSafe(b.columns, r)
  }

  predicate SourceReadable(source: seq<Result<Batch, Error>>) {
    forall k :: 0 <= k < |source| ==> source[k].Ok? ==> Readable(source[k].value)
  }

  /** The state between polls. */
  predicate StreamInv(s: StreamState) {
    SourceReadable(s.source)
    && match s.buffer
       case None => s.i == 0 && s.len == 0
       case Some(b) => Readable(b) && s.len == b.numRows && s.i <= s.len
  }

  /** Rows left in the current batch. */
  function Pending(s: StreamState): nat {
    if s.buffer.Some? && s.i <= s.len then s.len - s.i else 0
  }

  /**
   `poll_next`: the next item (`None` once the source is exhausted) and the
   state after it.
   */
  function PollNext(s: StreamState): (r: (Option<Result<Point, Error>>, StreamState))
    requires StreamInv(s)
    ensures StreamInv(r.1)
    ensures r.0.None? ==> r.1.source == [] && r.1.buffer.None?
    ensures r.0.Some? ==> |r.1.source| < |s.source| || (r.1.source == s.source && Pending(r.1) < Pending(s))
    decreases |s.source|, if s.buffer.Some? then 1 else 0
  {
    if s.buffer.Some? && s.i < s.len then
      (Some(GetPoint(s.buffer.value, s.i)), s.(i := s.i + 1))
    else
      var s' := s.(buffer := None, i := 0, len := 0);
      if s'.source == [] then (None, s')
      else
        match s'.source[0]
        case Err(e) => (Some(Err(e)), s'.(source := s'.source[1..]))
        case Ok(batch) =>
          var r := PollNext(s'.(source := s'.source[1..], len := batch.numRows, buffer := Some(batch)));
          r
  }

  /** Everything the stream yields, polled until it returns `None`. */
  function Drain(s: StreamState): seq<Result<Point, Error>>
    requires StreamInv(s)
    decreases |s.source|, Pending(s)
  {
    var (item, s') := PollNext(s);
    match item
    case None => []
    case Some(x) => [x] + Drain(s')
  }

  /** The rows `from..to` of a batch, read. */
  function Rows(b: Batch, from: nat, to: nat): seq<Result<Point, Error>>
    requires Readable(b) && from <= to <= b.numRows
    decreases (to as int) - (from as int)
  {
    if from == to then [] else [GetPoint(b, from)] + Rows(b, from + 1, to)
  }

  /** The reference: every row of every batch in order, one error item per failed batch. */
  function Expected(source: seq<Result<Batch, Error>>): seq<Result<Point, Error>>
    requires SourceReadable(source)
  {
    if source == [] then []
    else
      (match source[0]
       case Err(e) => [Err(e)]
       case Ok(b) => Rows(b, 0, b.numRows))
      + Expected(source[1..])
  }

  /** Draining a stream mid-batch yields the rest of the batch, then the rest of the source. */
  lemma {:induction false} DrainFrom(s: StreamState)
    requires StreamInv(s)
    ensures Drain(s) == (if s.buffer.Some? then Rows(s.buffer.value, s.i, s.len) else []) + Expected(s.source)
    decreases |s.source|, Pending(s), 2
  {
    if s.buffer.Some? && s.i < s.len {
      DrainRow(s);
    } else {
      DrainRefill(s);
    }
  }

  /** With a row pending, the stream yields it and carries on with the next. */
  lemma {:induction false} DrainRow(s: StreamState)
    requires StreamInv(s) && s.buffer.Some? && s.i < s.len
    ensures Drain(s) == Rows(s.buffer.value, s.i, s.len) + Expected(s.source)
    decreases |s.source|, Pending(s), 1
  {
    var next := s.(i := s.i + 1);
    DrainPending(s);
    DrainFrom(next);
    var b := s.buffer.value;
    ConsAssoc(GetPoint(b, s.i), Rows(b, s.i + 1, s.len), Expected(s.source));
  }

  lemma ConsAssoc<T>(x: T, a: seq<T>, b: seq<T>)
    ensures [x] + (a + b) == ([x] + a) + b
  {
  }

  /** One poll with a row pending yields that row and moves to the next. */
  lemma DrainPending(s: StreamState)
    requires StreamInv(s) && s.buffer.Some? && s.i < s.len
    ensures StreamInv(s.(i := s.i + 1))
    ensures Drain(s) == [GetPoint(s.buffer.value, s.i)] + Drain(s.(i := s.i + 1))
    ensures Rows(s.buffer.value, s.i, s.len) == [GetPoint(s.buffer.value, s.i)] + Rows(s.buffer.value, s.i + 1, s.len)
  {
    var next := s.(i := s.i + 1);
    PollPending(s, next);
  }

  lemma PollPending(s: StreamState, next: StreamState)
    requires StreamInv(s) && s.buffer.Some? && s.i < s.len && next == s.(i := s.i + 1)
    ensures PollNext(s) == (Some(GetPoint(s.buffer.value, s.i)), next)
  {
  }

  /** With no row pending, the stream drops its batch and reads on as a new stream would. */
  lemma {:induction false} DrainRefill(s: StreamState)
    requires StreamInv(s) && !(s.buffer.Some? && s.i < s.len)
    ensures Drain(s) == Expected(s.source)
    decreases |s.source|, Pending(s), 1
  {
    var s0 := NewStream(s.source);
    assert PollNext(s) == PollNext(s0);
    assert Drain(s) == Drain(s0);
    DrainIsExpected(s.source);
  }

  /**
   The stream yields `get_point(b, r)` for every batch `b` in order and
   every row `r` of it in order, one `Err` for a failed batch, then ends.
   */
  lemma {:induction false} DrainIsExpected(source: seq<Result<Batch, Error>>)
    requires SourceReadable(source)
    ensures Drain(NewStream(source)) == Expected(source)
    decreases |source|, 0, 0
  {
    if source != [] {
      var rest := source[1..];
      match source[0]
      case Err(e) =>
        DrainIsExpected(rest);
      case Ok(batch) =>
        var t := StreamState(rest, Some(batch), 0, batch.numRows);
        assert PollNext(NewStream(source)) == PollNext(t);
        DrainFrom(t);
    }
  }

  /** A batch without rows contributes nothing. */
  lemma EmptyBatchSkipped(b: Batch, source: seq<Result<Batch, Error>>)
    requires Readable(b) && b.numRows == 0 && SourceReadable(source)
    ensures SourceReadable([Ok(b)] + source)
    ensures Expected([Ok(b)] + source) == Expected(source)
  {
    assert ([Ok(b)] + source)[1..] == source;
  }
}
