/**
 GenericFile.cs, the parts that compute values: the settings it reads, the
 binding of header columns to the configured layout (`GetFileLayout`), the
 mapping of one row to a point (`ProcessGenericLine`, `ParseTimestamp`), the
 sample-based type inference (`ValidateData`) and the column filter
 (`FilterGenericColumns`). The class that holds the reader's state and runs
 these steps is in module GenericReader.

 The column-level chain of GenericColumn (HasAutoGenColumns, SplitData,
 HasTransformations, CanTransform, Transform) is not part of this model: it
 is the `ColumnChain` parameter, which may throw, in particular the
 InvalidDataException of a Filter rejection.
 */
module GenericFiles {
  import opened Common
  import opened Runtime
  import opened OrderedDict
  import opened Columns
  import opened Points
  import Extensions

  /** The settings the generic reader reads (GenericFileConfig and the InfluxDB section). */
  datatype GenericSettings = GenericSettings(
    /** The compiled `ColumnSplitter` regex. */
    columnSplitter: Regex,
    measurement: string,
    /** `InfluxReserved.ReservedCharecters.ToCharArray()` */
    reservedCharacters: set<char>,
    replaceReservedWith: char,
    precision: TimePrecision,
    timeColumn: int,
    timeFormatType: TimeFormatType,
    timeFormat: string,
    utcOffset: int,
    headerMissing: bool,
    headerRow: int,
    skipRows: int,
    commentMarker: NString,
    ignoreErrors: bool,
    filter: Filters,
    /** The `-columns` list. */
    columnsFilter: seq<string>,
    pointsInSingleBatch: int)

  /** A column of the input file; `config` is null until the layout binds it. */
  datatype GenericColumn = GenericColumn(columnIndex: int, columnHeader: NString, columnType: ColumnDataType, config: Option<ColumnConfig>)

  /** The column-level chain of GenericColumn. */
  datatype ColumnChain = ColumnChain(
    hasAutoGenColumns: GenericColumn -> bool,
    splitData: (GenericColumn, string) -> Result<Entries<GenericColumn, string>>,
    hasTransformations: GenericColumn -> bool,
    canTransform: (GenericColumn, string) -> Result<bool>,
    transform: (GenericColumn, string) -> Result<NString>)

  /** The reserved-character sanitizer with the configured replacement. */
  function SanitizeName(s: GenericSettings, text: string): string {
    Extensions.Sanitize(text, s.reservedCharacters, s.replaceReservedWith)
  }

  /** A line that is neither blank nor a comment. */
  predicate IsDataLine(s: GenericSettings, line: string) {
    !IsBlank(line) && !(!IsNullOrEmpty(s.commentMarker) && StartsWith(line, s.commentMarker.value))
  }

  // ---------------------------------------------------------------------------
  // Default tags

  /**
   The constructor's default tags from entry `i`, with `acc` the tags added
   so far: each "key=value" entry is split on '=' and added; an entry without
   '=' indexes past its pieces and a repeated key throws.
   */
  function DefaultTagsFrom(tags: seq<string>, i: nat, acc: Entries<string, string>): (r: Result<Entries<string, string>>)
    requires i <= |tags|
    ensures r.Ok? && DistinctKeys(acc) ==> DistinctKeys(r.value)
    ensures r.Ok? ==> |r.value| == |acc| + |tags| - i && r.value[..|acc|] == acc
    ensures r.Ok? ==> forall j :: i <= j < |tags| ==>
      |SplitOnChar(tags[j], '=')| >= 2 && r.value[|acc| + j - i] == (SplitOnChar(tags[j], '=')[0], SplitOnChar(tags[j], '=')[1])
    ensures (exists j :: i <= j < |tags| && '=' !in tags[j]) ==> r.Fail?
    decreases |tags| - i
  {
    if i == |tags| then Ok(acc)
    else
      var pieces := SplitOnChar(tags[i], '=');
      SplitOnCharSingle(tags[i], '=');
      if |pieces| < 2 then Throw(IndexOutOfRangeException, IndexOutOfRangeMessage)
      else
        var next :- Add(acc, pieces[0], pieces[1]);
        AppendDistinctIf(acc, (pieces[0], pieces[1]));
        var r := DefaultTagsFrom(tags, i + 1, next);
        if r.Ok? then TagsShift(tags, i, acc, next, r.value); r else r
  }

  /** The entries read from tag `i` on, given the entry of tag `i` and those read from tag `i + 1` on. */
  lemma TagsShift(tags: seq<string>, i: nat, acc: Entries<string, string>, next: Entries<string, string>, r: Entries<string, string>)
    requires i < |tags| && |SplitOnChar(tags[i], '=')| >= 2
    requires next == acc + [(SplitOnChar(tags[i], '=')[0], SplitOnChar(tags[i], '=')[1])]
    requires |r| == |next| + |tags| - (i + 1) && r[..|next|] == next
    requires forall j :: i + 1 <= j < |tags| ==>
      |SplitOnChar(tags[j], '=')| >= 2 && r[|next| + j - (i + 1)] == (SplitOnChar(tags[j], '=')[0], SplitOnChar(tags[j], '=')[1])
    ensures r[..|acc|] == acc
    ensures forall j :: i <= j < |tags| ==>
      |SplitOnChar(tags[j], '=')| >= 2 && r[|acc| + j - i] == (SplitOnChar(tags[j], '=')[0], SplitOnChar(tags[j], '=')[1])
  {
    assert r[..|acc|] == r[..|next|][..|acc|];
    assert r[|acc|] == next[|acc|];
  }

  /** Appending a key that is not yet there keeps the keys distinct. */
  lemma AppendDistinctIf(e: Entries<string, string>, x: (string, string))
    requires x.0 !in Keys(e)
    ensures DistinctKeys(e) ==> DistinctKeys(e + [x])
  {
    if DistinctKeys(e) {
      AppendDistinct(e, x);
    }
  }

  /** The constructor's default tags, one per entry, in order, with distinct keys. */
  function DefaultTags(tags: seq<string>): (r: Result<Entries<string, string>>)
    ensures r.Ok? ==> DistinctKeys(r.value) && |r.value| == |tags|
    ensures r.Ok? ==> forall i :: 0 <= i < |tags| ==>
      |SplitOnChar(tags[i], '=')| >= 2 && r.value[i] == (SplitOnChar(tags[i], '=')[0], SplitOnChar(tags[i], '=')[1])
    ensures (exists i :: 0 <= i < |tags| && '=' !in tags[i]) ==> r.Fail?
    ensures (exists i, j :: 0 <= i < j < |tags| && |SplitOnChar(tags[i], '=')| >= 2 && |SplitOnChar(tags[j], '=')| >= 2
               && SplitOnChar(tags[i], '=')[0] == SplitOnChar(tags[j], '=')[0]) ==> r.Fail?
  {
    var r := DefaultTagsFrom(tags, 0, []);
    if r.Fail? then r
    else
      RepeatedTagBreaks(tags, r.value);
      r
  }

  /** Two tags with the same name cannot both sit in a list with distinct keys. */
  lemma RepeatedTagBreaks(tags: seq<string>, v: Entries<string, string>)
    requires |v| == |tags|
    requires forall i :: 0 <= i < |tags| ==>
      |SplitOnChar(tags[i], '=')| >= 2 && v[i] == (SplitOnChar(tags[i], '=')[0], SplitOnChar(tags[i], '=')[1])
    ensures (exists i, j :: 0 <= i < j < |tags| && |SplitOnChar(tags[i], '=')| >= 2 && |SplitOnChar(tags[j], '=')| >= 2
               && SplitOnChar(tags[i], '=')[0] == SplitOnChar(tags[j], '=')[0]) ==> !DistinctKeys(v)
  {
    if exists i, j :: 0 <= i < j < |tags| && |SplitOnChar(tags[i], '=')| >= 2 && |SplitOnChar(tags[j], '=')| >= 2
               && SplitOnChar(tags[i], '=')[0] == SplitOnChar(tags[j], '=')[0] {
      var i, j :| 0 <= i < j < |tags| && |SplitOnChar(tags[i], '=')| >= 2 && |SplitOnChar(tags[j], '=')| >= 2
                 && SplitOnChar(tags[i], '=')[0] == SplitOnChar(tags[j], '=')[0];
      if DistinctKeys(v) {
        assert v[i].0 == v[j].0;
        KeysAtDiffer(v, i, j);
      }
    }
  }

  /** Splitting on a character yields one piece exactly when the character is absent. */
  lemma {:induction false} SplitOnCharSingle(s: string, sep: char)
    ensures |SplitOnChar(s, sep)| == 1 <==> sep !in s
  {
    if |s| > 0 {
      SplitOnCharSingle(s[1..], sep);
      assert s == [s[0]] + s[1..];
    }
  }

  // ---------------------------------------------------------------------------
  // GetFileLayout

  /** `File.ReadLines(file).Skip(HeaderRow - 1).FirstOrDefault()` */
  function HeaderLine(s: GenericSettings, lines: seq<string>): NString {
    FirstOrNull(Skip(lines, s.headerRow - 1))
  }

  /** `ParseGenericColumns`: one unbound column per piece of the split header, its name sanitized. */
  function ParseGenericColumns(s: GenericSettings, e: Engine, headerLine: NString): (r: Result<seq<GenericColumn>>)
    ensures headerLine.None? ==> r.Fail? && r.error.kind == ArgumentNullException
    ensures r.Ok? ==> |r.value| == |e.split(s.columnSplitter, headerLine.value)|
    ensures r.Ok? ==> forall i :: 0 <= i < |r.value| ==>
      r.value[i] == GenericColumn(i, Some(SanitizeName(s, e.split(s.columnSplitter, headerLine.value)[i])), Unknown, None)
  {
    if headerLine.None? then Throw(ArgumentNullException, "input")
    else
      var pieces := e.split(s.columnSplitter, headerLine.value);
      Ok(seq(|pieces|, i requires 0 <= i < |pieces| => GenericColumn(i, Some(SanitizeName(s, pieces[i])), Unknown, None)))
  }

  /** A configured non-blank `NameInFile` that differs from the header found in the file. */
  predicate Mismatch(c: ColumnConfig, col: GenericColumn) {
    !IsNullOrWhiteSpace(c.nameInFile) && c.nameInFile != col.columnHeader
  }

  /** A header column bound to its layout entry: it takes the entry's Influx name and type. */
  function Bind(c: ColumnConfig, col: GenericColumn): (r: GenericColumn)
    ensures r.columnIndex == col.columnIndex
    ensures r.columnHeader == c.influxName && r.columnType == c.dataType && r.config == Some(c)
  {
    col.(columnHeader := c.influxName, columnType := c.dataType, config := Some(c))
  }

  /** A layout entry bound without a header, to its position. */
  function BindAt(layout: seq<ColumnConfig>, i: nat): GenericColumn
    requires i < |layout|
  {
    GenericColumn(i, layout[i].influxName, layout[i].dataType, Some(layout[i]))
  }

  /** The exit code of `GetFileLayout` (or the exception it throws), the bound columns and the layout. */
  datatype LayoutOutcome = LayoutOutcome(status: Result<ExitCode>, headers: seq<GenericColumn>, layout: seq<ColumnConfig>)

  /** The header-with-layout loop from column `i`, with `acc` the columns bound so far. */
  function BindFrom(layout: seq<ColumnConfig>, cols: seq<GenericColumn>, i: nat, acc: seq<GenericColumn>): (r: LayoutOutcome)
    requires i <= |cols|
    ensures r.layout == layout
    ensures r.status.Ok? ==> r.status.value == Success || r.status.value == InvalidArgument
    decreases |cols| - i
  {
    if i == |cols| then LayoutOutcome(Ok(Success), acc, layout)
    else if !(0 <= cols[i].columnIndex < |layout|) then
      LayoutOutcome(Throw(ArgumentOutOfRangeException, "index"), acc, layout)
    else
      var c := layout[cols[i].columnIndex];
      if Mismatch(c, cols[i]) then LayoutOutcome(Ok(InvalidArgument), acc, layout)
      else BindFrom(layout, cols, i + 1, if c.skip then acc else acc + [Bind(c, cols[i])])
  }

  /** The configuration `GetFileLayout` creates for a header column when no layout is configured. */
  function Adopted(col: GenericColumn): ColumnConfig {
    NewColumnConfig().(nameInFile := col.columnHeader, influxName := col.columnHeader, dataType := col.columnType)
  }

  /** The header-without-layout loop from column `i`: every column is bound and its configuration appended. */
  function AdoptFrom(cols: seq<GenericColumn>, i: nat, headers: seq<GenericColumn>, layout: seq<ColumnConfig>): (r: LayoutOutcome)
    requires i <= |cols|
    ensures r.status == Ok(Success)
    ensures |r.layout| == |layout| + |cols| - i && |r.headers| == |headers| + |cols| - i
    decreases |cols| - i
  {
    if i == |cols| then LayoutOutcome(Ok(Success), headers, layout)
    else
      var c := Adopted(cols[i]);
      AdoptFrom(cols, i + 1, headers + [cols[i].(config := Some(c))], layout + [c])
  }

  /** The headerless loop from layout entry `i`: every entry not skipped is bound to its position. */
  function HeaderlessFrom(layout: seq<ColumnConfig>, i: nat, headers: seq<GenericColumn>): (r: LayoutOutcome)
    requires i <= |layout|
    ensures r.status == Ok(Success) && r.layout == layout
    ensures |headers| <= |r.headers| <= |headers| + |layout| - i
    decreases |layout| - i
  {
    if i == |layout| then LayoutOutcome(Ok(Success), headers, layout)
    else HeaderlessFrom(layout, i + 1, if layout[i].skip then headers else headers + [BindAt(layout, i)])
  }

  /** `GetFileLayout` on the file `lines` with the configured `layout`. */
  function Layout(s: GenericSettings, e: Engine, layout: seq<ColumnConfig>, lines: seq<string>): (r: LayoutOutcome)
    ensures |layout| > 0 ==> r.layout == layout
    ensures s.headerMissing && |layout| == 0 ==> r.status == Ok(InvalidArgument) && r.headers == []
    ensures !s.headerMissing && ParseGenericColumns(s, e, HeaderLine(s, lines)).Fail? ==>
      r.status == Fail(ParseGenericColumns(s, e, HeaderLine(s, lines)).error) && r.headers == []
    ensures !s.headerMissing && |layout| == 0 && ParseGenericColumns(s, e, HeaderLine(s, lines)).Ok? ==>
      r.status == Ok(Success) && |r.layout| == |r.headers| == |ParseGenericColumns(s, e, HeaderLine(s, lines)).value|
  {
    if s.headerMissing && |layout| == 0 then LayoutOutcome(Ok(InvalidArgument), [], layout)
    else if !s.headerMissing then
      var cols := ParseGenericColumns(s, e, HeaderLine(s, lines));
      if cols.Fail? then LayoutOutcome(Fail(cols.error), [], layout)
      else if |layout| > 0 then BindFrom(layout, cols.value, 0, [])
      else AdoptFrom(cols.value, 0, [], layout)
    else HeaderlessFrom(layout, 0, [])
  }

  /** The columns of a parsed header are numbered 0, 1, 2, ... */
  predicate Numbered(cols: seq<GenericColumn>) {
    forall j :: 0 <= j < |cols| ==> cols[j].columnIndex == j
  }

  /**
   With a header and a layout, `GetFileLayout` rejects with InvalidArgument
   exactly when some header column within the layout has a mismatching
   configured name; otherwise it throws when the header has more columns
   than the layout, and succeeds when it has no more. Skipped entries are
   never bound and every other entry is bound, with its name and type.
   */
  lemma {:induction false} BindSpec(layout: seq<ColumnConfig>, cols: seq<GenericColumn>, i: nat, acc: seq<GenericColumn>)
    requires i <= |cols| && i <= |layout| && Numbered(cols)
    ensures var r := BindFrom(layout, cols, i, acc);
      && (r.status == Ok(InvalidArgument) <==> exists j :: i <= j < |cols| && j < |layout| && Mismatch(layout[j], cols[j]))
      && (r.status.Fail? <==> |layout| < |cols| && forall j :: i <= j < |layout| ==> !Mismatch(layout[j], cols[j]))
      && (r.status.Fail? ==> r.status.error.kind == ArgumentOutOfRangeException)
      && (forall h :: h in r.headers ==> h in acc || exists j :: i <= j < |cols| && j < |layout| && !layout[j].skip && h == Bind(layout[j], cols[j]))
      && (r.status == Ok(Success) ==> forall j :: i <= j < |cols| && j < |layout| && !layout[j].skip ==> Bind(layout[j], cols[j]) in r.headers)
      && (forall h :: h in acc ==> h in r.headers)
    decreases |cols| - i
  {
    if i < |cols| && i < |layout| && !Mismatch(layout[i], cols[i]) {
      var next := if layout[i].skip then acc else acc + [Bind(layout[i], cols[i])];
      BindSpec(layout, cols, i + 1, next);
    }
  }

  /**
   Without a header, every layout entry that is not skipped is bound to its
   position, with its Influx name, type and configuration, and nothing else
   is bound.
   */
  lemma {:induction false} HeaderlessSpec(layout: seq<ColumnConfig>, i: nat, headers: seq<GenericColumn>)
    requires i <= |layout|
    ensures var r := HeaderlessFrom(layout, i, headers);
      && r.status == Ok(Success) && r.layout == layout
      && (forall h :: h in r.headers ==> h in headers || exists j :: i <= j < |layout| && !layout[j].skip && h == BindAt(layout, j))
      && (forall j :: i <= j < |layout| && !layout[j].skip ==> BindAt(layout, j) in r.headers)
      && (forall h :: h in headers ==> h in r.headers)
    decreases |layout| - i
  {
    if i < |layout| {
      HeaderlessSpec(layout, i + 1, if layout[i].skip then headers else headers + [BindAt(layout, i)]);
    }
  }

  /**
   With a header and no layout, every header column is bound, in order, and
   a configuration naming it in the file and in Influx is appended to the
   layout for each.
   */
  lemma {:induction false} AdoptSpec(cols: seq<GenericColumn>, i: nat, headers: seq<GenericColumn>, layout: seq<ColumnConfig>)
    requires i <= |cols|
    ensures var r := AdoptFrom(cols, i, headers, layout);
      && r.status == Ok(Success)
      && |r.headers| == |headers| + |cols| - i && r.headers[..|headers|] == headers
      && |r.layout| == |layout| + |cols| - i && r.layout[..|layout|] == layout
      && (forall j :: i <= j < |cols| ==>
            && r.layout[|layout| + j - i] == Adopted(cols[j])
            && r.headers[|headers| + j - i] == cols[j].(config := Some(Adopted(cols[j]))))
    decreases |cols| - i
  {
    if i < |cols| {
      var c := Adopted(cols[i]);
      AdoptSpec(cols, i + 1, headers + [cols[i].(config := Some(c))], layout + [c]);
    }
  }

  /** Every column bound without a layout has a configuration, and it is not skipped. */
  lemma {:induction false} AdoptNeverSkips(cols: seq<GenericColumn>, i: nat, headers: seq<GenericColumn>, layout: seq<ColumnConfig>)
    requires i <= |cols|
    requires forall h :: h in headers ==> h.config.Some? && !h.config.value.skip
    ensures forall h :: h in AdoptFrom(cols, i, headers, layout).headers ==> h.config.Some? && !h.config.value.skip
    decreases |cols| - i
  {
    if i < |cols| {
      var c := Adopted(cols[i]);
      AdoptNeverSkips(cols, i + 1, headers + [cols[i].(config := Some(c))], layout + [c]);
    }
  }

  /** `GetFileLayout` never binds a skipped layout entry, and every column it binds has a configuration. */
  lemma LayoutNeverBindsSkipped(s: GenericSettings, e: Engine, layout: seq<ColumnConfig>, lines: seq<string>)
    ensures forall h :: h in Layout(s, e, layout, lines).headers ==> h.config.Some? && !h.config.value.skip
  {
    if s.headerMissing && |layout| > 0 {
      assert Layout(s, e, layout, lines) == HeaderlessFrom(layout, 0, []);
      HeaderlessSpec(layout, 0, []);
    } else if !s.headerMissing {
      var cols := ParseGenericColumns(s, e, HeaderLine(s, lines));
      if cols.Ok? && |layout| > 0 {
        assert Layout(s, e, layout, lines) == BindFrom(layout, cols.value, 0, []);
        BindSpec(layout, cols.value, 0, []);
      } else if cols.Ok? {
        assert Layout(s, e, layout, lines) == AdoptFrom(cols.value, 0, [], layout);
        AdoptNeverSkips(cols.value, 0, [], layout);
      }
    }
  }

  /**
   `GetFileLayout` reports InvalidArgument exactly in its two rejections: no
   header and no layout, or a header column whose configured name differs.
   */
  lemma LayoutRejects(s: GenericSettings, e: Engine, layout: seq<ColumnConfig>, lines: seq<string>)
    ensures Layout(s, e, layout, lines).status == Ok(InvalidArgument) <==>
      || (s.headerMissing && |layout| == 0)
      || (!s.headerMissing && |layout| > 0 && HeaderLine(s, lines).Some?
          && exists j :: 0 <= j < |ParseGenericColumns(s, e, HeaderLine(s, lines)).value| && j < |layout|
               && Mismatch(layout[j], ParseGenericColumns(s, e, HeaderLine(s, lines)).value[j]))
  {
    if s.headerMissing && |layout| > 0 {
      HeaderlessSpec(layout, 0, []);
    } else if !s.headerMissing {
      HeaderRejects(s, e, layout, lines, ParseGenericColumns(s, e, HeaderLine(s, lines)));
    }
  }

  lemma HeaderRejects(s: GenericSettings, e: Engine, layout: seq<ColumnConfig>, lines: seq<string>, cols: Result<seq<GenericColumn>>)
    requires !s.headerMissing && cols == ParseGenericColumns(s, e, HeaderLine(s, lines))
    ensures Layout(s, e, layout, lines).status == Ok(InvalidArgument) <==>
      (|layout| > 0 && HeaderLine(s, lines).Some?
       && exists j :: 0 <= j < |cols.value| && j < |layout| && Mismatch(layout[j], cols.value[j]))
  {
    var r := Layout(s, e, layout, lines);
    if cols.Ok? {
      if |layout| > 0 {
        assert r == BindFrom(layout, cols.value, 0, []);
        BindSpec(layout, cols.value, 0, []);
      } else {
        assert r == AdoptFrom(cols.value, 0, [], layout);
      }
    } else {
      assert r.status.Fail?;
    }
  }

  /** `GetFileLayout` returns only Success or InvalidArgument, when it does not throw. */
  lemma LayoutExitCodes(s: GenericSettings, e: Engine, layout: seq<ColumnConfig>, lines: seq<string>)
    ensures Layout(s, e, layout, lines).status.Ok? ==>
      Layout(s, e, layout, lines).status.value == Success || Layout(s, e, layout, lines).status.value == InvalidArgument
  {
    if s.headerMissing && |layout| > 0 {
      HeaderlessSpec(layout, 0, []);
    } else if !s.headerMissing {
      var cols := ParseGenericColumns(s, e, HeaderLine(s, lines));
      if cols.Ok? && |layout| == 0 {
        AdoptSpec(cols.value, 0, [], layout);
      }
    }
  }

  // ---------------------------------------------------------------------------
  // ParseTimestamp

  /** `long.TryParse`: an integer in the 64-bit range. */
  function ParseLong(e: Engine, content: NString): (r: Option<Extensions.Int64>)
    ensures r.Some? <==> content.Some? && e.parseLong(content.value).Some? && Extensions.InInt64(e.parseLong(content.value).value)
    ensures r.Some? ==> r.value as int == e.parseLong(content.value).value
  {
    if content.None? then None
    else match e.parseLong(content.value)
      case Some(n) => if Extensions.InInt64(n) then Some(n) else None
      case None => None
  }

  /** A String time: parsed with `TimeFormat`, then moved by `UtcOffset` minutes. */
  function ParseStringTime(s: GenericSettings, e: Engine, content: NString): (r: Result<int>)
    ensures content.None? || e.parseExact(content.value, s.timeFormat).None? ==> r == Throw(FormatException, StringTimeMessage(content, s.timeFormat))
    ensures content.Some? && e.parseExact(content.value, s.timeFormat).Some? ==>
      r == Extensions.AddUnits(e.parseExact(content.value, s.timeFormat).value, s.utcOffset, 60_000)
  {
    if content.None? then Throw(FormatException, StringTimeMessage(content, s.timeFormat))
    else match e.parseExact(content.value, s.timeFormat)
      case None => Throw(FormatException, StringTimeMessage(content, s.timeFormat))
      case Some(t) => Extensions.AddUnits(t, s.utcOffset, 60_000)
  }

  /** The InvalidDataException messages of a row: a value of the wrong type, or no field at all. */
  const UnableToParse := " has inconsistent data, Unable to parse \""
  const CannotParse := " has inconsistent data, Can't parse "
  const NoValuesMessage := "No values found on the row to post to Influx"

  /**
   The messages of the FormatException thrown for a time that does not
   parse: they quote the cell, and a null cell is quoted as the empty string,
   as C# string concatenation does.
   */
  function StringTimeMessage(content: NString, format: string): string {
    "Couldn't parse " + content.GetOr("") + " using format " + format + ", check -timeformat argument"
  }

  function BinaryTimeMessage(content: NString): string {
    "Couldn't parse " + content.GetOr("") + " as a Binary timestamp, please check the data or -timetype/TimeformatType arguments"
  }

  function EpochTimeMessage(content: NString): string {
    "Couldn't parse " + content.GetOr("") + " as a epoch timestamp, please check the data or -timetype/TimeformatType arguments"
  }

  /** A Binary time: a 64-bit integer given to `DateTime.FromBinary`. */
  function ParseBinaryTime(e: Engine, content: NString): (r: Result<int>)
    ensures ParseLong(e, content).None? ==> r == Throw(FormatException, BinaryTimeMessage(content))
    ensures ParseLong(e, content).Some? ==>
      if e.fromBinary(ParseLong(e, content).value).None? then r.Fail? && r.error.kind == ArgumentException
      else r == Ok(e.fromBinary(ParseLong(e, content).value).value)
  {
    match ParseLong(e, content)
    case None => Throw(FormatException, BinaryTimeMessage(content))
    case Some(n) =>
      match e.fromBinary(n)
      case None => Throw(ArgumentException, "Invalid binary DateTime")
      case Some(t) => Ok(t)
  }

  /**
   An Epoch time: a 64-bit integer counted from 1970 in units of the
   precision, converted as written (a microsecond product wraps in 64 bits);
   where nothing wraps it is the checked conversion.
   */
  function ParseEpochTime(s: GenericSettings, e: Engine, content: NString): (r: Result<int>)
    ensures ParseLong(e, content).None? ==> r == Throw(FormatException, EpochTimeMessage(content))
    ensures ParseLong(e, content).Some? ==> r == Extensions.FromEpochAsWritten(ParseLong(e, content).value, s.precision)
    ensures ParseLong(e, content).Some? && (!s.precision.Microseconds? || Extensions.InInt64(Extensions.TruncDiv(ParseLong(e, content).value, 1000) * Extensions.TicksPerMillisecond)) ==>
      r == Extensions.FromEpoch(ParseLong(e, content).value, s.precision)
  {
    match ParseLong(e, content)
    case None => Throw(FormatException, EpochTimeMessage(content))
    case Some(n) =>
      Extensions.FromEpochAgrees(n, s.precision);
      Extensions.FromEpochAsWritten(n, s.precision)
  }

  /**
   `ParseTimestamp`: the time is read as the configured `TimeFormatType`
   says. A null or unparsable value is a FormatException.
   */
  function ParseTimestamp(s: GenericSettings, e: Engine, content: NString): (r: Result<int>)
    ensures content.None? ==> r.Fail? && r.error.kind == FormatException
    ensures s.timeFormatType.StringTime? ==> r == ParseStringTime(s, e, content)
    ensures s.timeFormatType.BinaryTime? ==> r == ParseBinaryTime(e, content)
    ensures s.timeFormatType.EpochTime? ==> r == ParseEpochTime(s, e, content)
  {
    match s.timeFormatType
    case StringTime => ParseStringTime(s, e, content)
    case BinaryTime => ParseBinaryTime(e, content)
    case EpochTime => ParseEpochTime(s, e, content)
  }

  /**
   A far-future microsecond epoch in a data file is read as an instant just
   after 1970 rather than rejected: the tick product wraps in 64 bits.
   */
  lemma EpochTimestampWraps(s: GenericSettings, e: Engine, text: string)
    requires s.timeFormatType.EpochTime? && s.precision.Microseconds?
    requires e.parseLong(text) == Some(1_844_674_407_370_956_000)
    ensures ParseTimestamp(s, e, Some(text)) == Ok(Extensions.UnixEpochTicks + 8_384)
    ensures Extensions.FromEpoch(1_844_674_407_370_956_000, Microseconds).Fail?
  {
    Extensions.MicrosecondsWrapAround();
  }

  // ---------------------------------------------------------------------------
  // ProcessGenericLine

  /** `columns[i].Replace("\"", "")` on the array of split cells. */
  function CellAt(cells: seq<string>, i: int): (r: Result<string>)
    ensures r.Ok? <==> 0 <= i < |cells|
    ensures r.Ok? ==> r.value == StripQuotes(cells[i])
    ensures r.Fail? ==> r.error.kind == IndexOutOfRangeException
  {
    if 0 <= i < |cells| then Ok(StripQuotes(cells[i]))
    else Throw(IndexOutOfRangeException, IndexOutOfRangeMessage)
  }

  /**
   The first loop of `ProcessGenericLine` (and of `ValidateData`) from column
   `i`: a column with generated sub-columns adds its split with AddRange,
   any other column adds its own cell. A column whose cell is missing makes
   the row fail; a column without sub-columns must not be a key yet (Add),
   and ends up a key; a column with sub-columns must split, and every
   sub-column of its split ends up a key (AddRange overwrites).
   */
  function GatherFrom(chain: ColumnChain, headers: seq<GenericColumn>, cells: seq<string>, i: nat, acc: Entries<GenericColumn, string>): (r: Result<Entries<GenericColumn, string>>)
    requires i <= |headers|
    ensures (exists j :: i <= j < |headers| && !(0 <= headers[j].columnIndex < |cells|)) ==> r.Fail?
    ensures r.Ok? ==> Keys(acc) <= Keys(r.value)
    ensures r.Ok? ==> forall j :: i <= j < |headers| && !chain.hasAutoGenColumns(headers[j]) ==>
      headers[j] !in Keys(acc) && headers[j] in Keys(r.value)
    ensures r.Ok? ==> forall j :: i <= j < |headers| && chain.hasAutoGenColumns(headers[j]) ==>
      && 0 <= headers[j].columnIndex < |cells|
      && chain.splitData(headers[j], StripQuotes(cells[headers[j].columnIndex])).Ok?
      && Keys(chain.splitData(headers[j], StripQuotes(cells[headers[j].columnIndex])).value) <= Keys(r.value)
    decreases |headers| - i
  {
    if i == |headers| then Ok(acc)
    else
      var content :- CellAt(cells, headers[i].columnIndex);
      if chain.hasAutoGenColumns(headers[i]) then
        var kvs :- chain.splitData(headers[i], content);
        MergeKeys(acc, kvs);
        GatherFrom(chain, headers, cells, i + 1, Merge(acc, kvs))
      else
        var next :- Add(acc, headers[i], content);
        KeysAppend(acc, (headers[i], content));
        GatherFrom(chain, headers, cells, i + 1, next)
  }

  /**
   Distinct columns without generated sub-columns whose cells exist are each
   paired with their own cell, quotes removed, in order.
   */
  lemma {:induction false} GatherPlain(chain: ColumnChain, headers: seq<GenericColumn>, cells: seq<string>, i: nat)
    requires i <= |headers|
    requires forall j :: 0 <= j < |headers| ==> !chain.hasAutoGenColumns(headers[j]) && 0 <= headers[j].columnIndex < |cells|
    requires forall j, k :: 0 <= j < k < |headers| ==> headers[j] != headers[k]
    ensures GatherFrom(chain, headers, cells, i, Plain(headers[..i], cells)) == Ok(Plain(headers, cells))
    decreases |headers| - i
  {
    if i < |headers| {
      var acc := Plain(headers[..i], cells);
      Columns.KeysCompleteness(acc, headers[i]);
      assert headers[..i + 1] == headers[..i] + [headers[i]];
      PlainAppend(headers[..i], headers[i], cells);
      GatherPlain(chain, headers, cells, i + 1);
    } else {
      assert headers[..i] == headers;
    }
  }

  /** Each column paired with its cell, quotes removed. */
  function Plain(headers: seq<GenericColumn>, cells: seq<string>): (r: Entries<GenericColumn, string>)
    requires forall j :: 0 <= j < |headers| ==> 0 <= headers[j].columnIndex < |cells|
    ensures |r| == |headers| && forall j :: 0 <= j < |headers| ==> r[j] == (headers[j], StripQuotes(cells[headers[j].columnIndex]))
  {
    seq(|headers|, j requires 0 <= j < |headers| => (headers[j], StripQuotes(cells[headers[j].columnIndex])))
  }

  lemma PlainAppend(headers: seq<GenericColumn>, h: GenericColumn, cells: seq<string>)
    requires forall j :: 0 <= j < |headers| ==> 0 <= headers[j].columnIndex < |cells|
    requires 0 <= h.columnIndex < |cells|
    ensures Plain(headers + [h], cells) == Plain(headers, cells) + [(h, StripQuotes(cells[h.columnIndex]))]
  {
  }

  /** The value of a column after its transformations, when it has any and they apply. */
  function TransformedValue(chain: ColumnChain, key: GenericColumn, value: string): (r: Result<NString>)
    ensures !chain.hasTransformations(key) ==> r == Ok(Some(value))
    ensures chain.hasTransformations(key) && chain.canTransform(key, value) == Ok(false) ==> r == Ok(Some(value))
  {
    if !chain.hasTransformations(key) then Ok(Some(value))
    else
      var can :- chain.canTransform(key, value);
      if can then chain.transform(key, value) else Ok(Some(value))
  }

  /** `Fields.Add(name, value)`: a null name or a repeated one throws. */
  function AddField(p: Point, name: NString, v: FieldValue): (r: Result<Point>)
    ensures r.Ok? <==> name.Some? && name.value !in Keys(p.fields)
    ensures r.Ok? ==> r.value == p.(fields := p.fields + [(name.value, v)])
    ensures name.None? ==> r.error.kind == ArgumentNullException
  {
    if name.None? then Throw(ArgumentNullException, "key")
    else
      var f :- Add(p.fields, name.value, v);
      Ok(p.(fields := f))
  }

  /** `Tags.Add(name, value)`: a null name or a repeated one throws. */
  function AddTag(p: Point, name: NString, v: string): (r: Result<Point>)
    ensures r.Ok? <==> name.Some? && name.value !in Keys(p.tags)
    ensures r.Ok? ==> r.value == p.(tags := p.tags + [(name.value, v)])
    ensures name.None? ==> r.error.kind == ArgumentNullException
  {
    if name.None? then Throw(ArgumentNullException, "key")
    else
      var t :- Add(p.tags, name.value, v);
      Ok(p.(tags := t))
  }

  /** `Double.TryParse` that fails or yields NaN. */
  predicate NotANumber(e: Engine, content: string) {
    e.parseDouble(content).None? || e.parseDouble(content).value.NaN?
  }

  /**
   A non-time value stored by its column's type: a number (rounded to two
   places) that must parse and not be NaN, a verbatim string, a boolean that
   must parse, or a sanitized tag. Unknown and Timestamp columns are ignored.
   */
  function StoreValue(s: GenericSettings, e: Engine, key: GenericColumn, content: string, p: Point): (r: Result<Point>)
    ensures key.columnType == NumericalField && NotANumber(e, content) ==> r.Fail? && r.error.kind == InvalidDataException
    ensures key.columnType == NumericalField && !NotANumber(e, content) ==> r == AddField(p, key.columnHeader, NumberField(e.round2(e.parseDouble(content).value)))
    ensures key.columnType == BooleanField && e.parseBool(content).None? ==> r.Fail? && r.error.kind == InvalidDataException
    ensures key.columnType == BooleanField && e.parseBool(content).Some? ==> r == AddField(p, key.columnHeader, FlagField(e.parseBool(content).value))
    ensures key.columnType == StringField ==> r == AddField(p, key.columnHeader, TextField(content))
    ensures key.columnType == Tag ==> r == AddTag(p, key.columnHeader, SanitizeName(s, content))
    ensures key.columnType == Unknown || key.columnType == Timestamp ==> r == Ok(p)
  {
    match key.columnType
    case NumericalField =>
      if NotANumber(e, content) then
        Throw(InvalidDataException, key.columnHeader.GetOr("") + UnableToParse + content + "\" as number")
      else AddField(p, key.columnHeader, NumberField(e.round2(e.parseDouble(content).value)))
    case StringField => AddField(p, key.columnHeader, TextField(content))
    case BooleanField =>
      if e.parseBool(content).None? then
        Throw(InvalidDataException, key.columnHeader.GetOr("") + UnableToParse + content + "\" as Boolean")
      else AddField(p, key.columnHeader, FlagField(e.parseBool(content).value))
    case Tag => AddTag(p, key.columnHeader, SanitizeName(s, content))
    case _ => Ok(p)
  }

  /**
   The second loop of `ProcessGenericLine` from entry `i`: a value blank after
   its transformations is skipped, the time column sets the timestamp, every
   other column is stored by its type.
   */
  function MapFrom(s: GenericSettings, e: Engine, chain: ColumnChain, data: Entries<GenericColumn, string>, i: nat, p: Point): (r: Result<Point>)
    requires i <= |data|
    ensures r.Ok? ==> r.value.measurement == p.measurement && r.value.precision == p.precision && r.value.retention == p.retention && r.value.saved == p.saved
    decreases |data| - i
  {
    if i == |data| then Ok(p)
    else
      var key := data[i].0;
      var content :- TransformedValue(chain, key, data[i].1);
      if IsNullOrWhiteSpace(content) then MapFrom(s, e, chain, data, i + 1, p)
      else if key.columnIndex == s.timeColumn - 1 then
        var t :- ParseTimestamp(s, e, content);
        MapFrom(s, e, chain, data, i + 1, p.(utcTimestamp := Some(t)))
      else
        var next :- StoreValue(s, e, key, content.value, p);
        MapFrom(s, e, chain, data, i + 1, next)
  }

  /** The names a row can contribute as fields: the headers of the non-time columns. */
  function NonTimeHeaders(s: GenericSettings, data: Entries<GenericColumn, string>, i: nat): set<string>
    requires i <= |data|
  {
    set j | i <= j < |data| && data[j].0.columnIndex != s.timeColumn - 1 && data[j].0.columnHeader.Some? :: data[j].0.columnHeader.value
  }

  /**
   The time column never becomes a field or a tag: every field and tag of
   the point is either there from the start or named by a non-time column;
   the measurement, precision and retention are never changed.
   */
  lemma {:induction false} MapFromNames(s: GenericSettings, e: Engine, chain: ColumnChain, data: Entries<GenericColumn, string>, i: nat, p: Point)
    requires i <= |data|
    requires MapFrom(s, e, chain, data, i, p).Ok?
    ensures var q := MapFrom(s, e, chain, data, i, p).value;
      && Keys(q.fields) <= Keys(p.fields) + NonTimeHeaders(s, data, i)
      && Keys(q.tags) <= Keys(p.tags) + NonTimeHeaders(s, data, i)
      && q.measurement == p.measurement && q.precision == p.precision && q.retention == p.retention && q.saved == p.saved
    decreases |data| - i
  {
    if i < |data| {
      var key := data[i].0;
      var content := TransformedValue(chain, key, data[i].1).value;
      assert NonTimeHeaders(s, data, i + 1) <= NonTimeHeaders(s, data, i);
      if IsNullOrWhiteSpace(content) {
        MapFromNames(s, e, chain, data, i + 1, p);
      } else if key.columnIndex == s.timeColumn - 1 {
        var t := ParseTimestamp(s, e, content).value;
        MapFromNames(s, e, chain, data, i + 1, p.(utcTimestamp := Some(t)));
      } else {
        var next := StoreValue(s, e, key, content.value, p).value;
        MapFromNames(s, e, chain, data, i + 1, next);
        StoredKeys(s, e, key, content.value, p);
        if key.columnHeader.Some? {
          assert key.columnHeader.value in NonTimeHeaders(s, data, i);
        }
      }
    }
  }

  /** Storing one value adds at most the column's own name to the fields or the tags, and changes nothing else of the point's identity. */
  lemma StoredKeys(s: GenericSettings, e: Engine, key: GenericColumn, content: string, p: Point)
    requires StoreValue(s, e, key, content, p).Ok?
    ensures var next := StoreValue(s, e, key, content, p).value;
      && Keys(next.fields) <= Keys(p.fields) + (if key.columnHeader.Some? then {key.columnHeader.value} else {})
      && Keys(next.tags) <= Keys(p.tags) + (if key.columnHeader.Some? then {key.columnHeader.value} else {})
      && next.measurement == p.measurement && next.precision == p.precision && next.retention == p.retention && next.saved == p.saved
  {
    if key.columnHeader.Some? {
      KeysAppend(p.fields, (key.columnHeader.value, NumberField(NaN)));
      KeysAppend(p.tags, (key.columnHeader.value, ""));
      KeysAppendAny(p.fields, key.columnHeader.value);
      KeysAppendAny(p.tags, key.columnHeader.value);
    }
  }

  /** The keys after appending an entry do not depend on its value. */
  lemma KeysAppendAny<V>(e: Entries<string, V>, k: string)
    ensures forall v :: Keys(e + [(k, v)]) == Keys(e) + {k}
  {
    forall v ensures Keys(e + [(k, v)]) == Keys(e) + {k} {
      KeysAppend(e, (k, v));
    }
  }

  /**
   What one gathered entry does to a row's point, whatever the point already
   holds: nothing (a blank value, or a column of no storable type), set the
   timestamp, add a field or a tag under the column's name, or throw.
   */
  datatype Effect =
    | NoEffect
    | SetsTime(ticks: int)
    | AddsField(name: string, field: FieldValue)
    | AddsTag(name: string, tag: string)
    | Rejects(error: Error)

  /** What storing a value by its column's type adds, read off a point that holds nothing yet. */
  function StoreEffect(s: GenericSettings, e: Engine, key: GenericColumn, content: string): Effect {
    match StoreValue(s, e, key, content, NewPoint(s, []))
    case Fail(err) => Rejects(err)
    case Ok(q) =>
      if |q.fields| > 0 then AddsField(q.fields[0].0, q.fields[0].1)
      else if |q.tags| > 0 then AddsTag(q.tags[0].0, q.tags[0].1)
      else NoEffect
  }

  /**
   Storing a value into any point does what it does to an empty one: the
   same exception, nothing, or the same field or tag added with Add.
   */
  lemma StoreValueEffect(s: GenericSettings, e: Engine, key: GenericColumn, content: string, p: Point)
    ensures StoreEffect(s, e, key, content).Rejects? ==> StoreValue(s, e, key, content, p) == Fail(StoreEffect(s, e, key, content).error)
    ensures StoreEffect(s, e, key, content).NoEffect? ==> StoreValue(s, e, key, content, p) == Ok(p)
    ensures StoreEffect(s, e, key, content).AddsField? ==>
      StoreValue(s, e, key, content, p) == AddField(p, Some(StoreEffect(s, e, key, content).name), StoreEffect(s, e, key, content).field)
    ensures StoreEffect(s, e, key, content).AddsTag? ==>
      StoreValue(s, e, key, content, p) == AddTag(p, Some(StoreEffect(s, e, key, content).name), StoreEffect(s, e, key, content).tag)
  {
    var p0 := NewPoint(s, []);
    match key.columnType
    case NumericalField =>
      if !NotANumber(e, content) {
        assert StoreValue(s, e, key, content, p0) == AddField(p0, key.columnHeader, NumberField(e.round2(e.parseDouble(content).value)));
      }
    case BooleanField =>
      if e.parseBool(content).Some? {
        assert StoreValue(s, e, key, content, p0) == AddField(p0, key.columnHeader, FlagField(e.parseBool(content).value));
      }
    case StringField =>
      assert StoreValue(s, e, key, content, p0) == AddField(p0, key.columnHeader, TextField(content));
    case Tag =>
      assert StoreValue(s, e, key, content, p0) == AddTag(p0, key.columnHeader, SanitizeName(s, content));
    case _ =>
  }

  /** The effect of one entry of `pointData`: transformed, then skipped when blank, read as the time, or stored. */
  function EntryEffect(s: GenericSettings, e: Engine, chain: ColumnChain, d: (GenericColumn, string)): Effect {
    match TransformedValue(chain, d.0, d.1)
    case Fail(err) => Rejects(err)
    case Ok(content) =>
      if IsNullOrWhiteSpace(content) then NoEffect
      else if d.0.columnIndex == s.timeColumn - 1 then
        match ParseTimestamp(s, e, content)
        case Fail(err) => Rejects(err)
        case Ok(t) => SetsTime(t)
      else StoreEffect(s, e, d.0, content.value)
  }

  /** The fields the entries from `i` add, in order. */
  function RowFields(s: GenericSettings, e: Engine, chain: ColumnChain, data: Entries<GenericColumn, string>, i: nat): seq<(string, FieldValue)>
    requires i <= |data|
    decreases |data| - i
  {
    if i == |data| then []
    else
      var f := EntryEffect(s, e, chain, data[i]);
      (if f.AddsField? then [(f.name, f.field)] else []) + RowFields(s, e, chain, data, i + 1)
  }

  /** The tags the entries from `i` add, in order. */
  function RowTags(s: GenericSettings, e: Engine, chain: ColumnChain, data: Entries<GenericColumn, string>, i: nat): seq<(string, string)>
    requires i <= |data|
    decreases |data| - i
  {
    if i == |data| then []
    else
      var f := EntryEffect(s, e, chain, data[i]);
      (if f.AddsTag? then [(f.name, f.tag)] else []) + RowTags(s, e, chain, data, i + 1)
  }

  /** The time set by the last entry from `i` that sets one, if any. */
  function RowTime(s: GenericSettings, e: Engine, chain: ColumnChain, data: Entries<GenericColumn, string>, i: nat): Option<int>
    requires i <= |data|
    decreases |data| - i
  {
    if i == |data| then None
    else
      var later := RowTime(s, e, chain, data, i + 1);
      var f := EntryEffect(s, e, chain, data[i]);
      if later.Some? then later else if f.SetsTime? then Some(f.ticks) else None
  }

  /** Some entry from `i` throws whatever the point holds. */
  predicate RowRejected(s: GenericSettings, e: Engine, chain: ColumnChain, data: Entries<GenericColumn, string>, i: nat)
    requires i <= |data|
  {
    exists j :: i <= j < |data| && EntryEffect(s, e, chain, data[j]).Rejects?
  }

  /**
   One step of the second loop of `ProcessGenericLine`, by the entry's
   effect: a throwing entry ends the row with its exception, a blank or
   unstorable one is skipped, the time entry sets the timestamp, and a
   field or tag is added unless its name is already there.
   */
  lemma MapFromStep(s: GenericSettings, e: Engine, chain: ColumnChain, data: Entries<GenericColumn, string>, i: nat, p: Point)
    requires i < |data|
    ensures var f := EntryEffect(s, e, chain, data[i]);
      && (f.Rejects? ==> MapFrom(s, e, chain, data, i, p) == Fail(f.error))
      && (f.NoEffect? ==> MapFrom(s, e, chain, data, i, p) == MapFrom(s, e, chain, data, i + 1, p))
      && (f.SetsTime? ==> MapFrom(s, e, chain, data, i, p) == MapFrom(s, e, chain, data, i + 1, p.(utcTimestamp := Some(f.ticks))))
      && (f.AddsField? ==>
           MapFrom(s, e, chain, data, i, p) == (if f.name in Keys(p.fields) then Throw(ArgumentException, DuplicateKeyMessage)
             else MapFrom(s, e, chain, data, i + 1, p.(fields := p.fields + [(f.name, f.field)]))))
      && (f.AddsTag? ==>
           MapFrom(s, e, chain, data, i, p) == (if f.name in Keys(p.tags) then Throw(ArgumentException, DuplicateKeyMessage)
             else MapFrom(s, e, chain, data, i + 1, p.(tags := p.tags + [(f.name, f.tag)]))))
  {
    var content := TransformedValue(chain, data[i].0, data[i].1);
    if content.Ok? && !IsNullOrWhiteSpace(content.value) && data[i].0.columnIndex != s.timeColumn - 1 {
      StoreValueEffect(s, e, data[i].0, content.value.value, p);
    }
  }

  /**
   The point a row's entries fill: the fields and tags the entries add are
   appended in order, the timestamp is the last time entry's (or stays as it
   was), and nothing else changes.
   */
  lemma {:induction false} MapFromContent(s: GenericSettings, e: Engine, chain: ColumnChain, data: Entries<GenericColumn, string>, i: nat, p: Point)
    requires i <= |data|
    requires MapFrom(s, e, chain, data, i, p).Ok?
    ensures MapFrom(s, e, chain, data, i, p).value == p.(
      fields := p.fields + RowFields(s, e, chain, data, i),
      tags := p.tags + RowTags(s, e, chain, data, i),
      utcTimestamp := if RowTime(s, e, chain, data, i).Some? then RowTime(s, e, chain, data, i) else p.utcTimestamp)
    decreases |data| - i
  {
    if i == |data| {
      assert p.fields + [] == p.fields && p.tags + [] == p.tags;
    } else {
      var f := EntryEffect(s, e, chain, data[i]);
      var fs, ts, t := RowFields(s, e, chain, data, i + 1), RowTags(s, e, chain, data, i + 1), RowTime(s, e, chain, data, i + 1);
      MapFromStep(s, e, chain, data, i, p);
      if f.NoEffect? {
        assert RowFields(s, e, chain, data, i) == fs by { assert [] + fs == fs; }
        assert RowTags(s, e, chain, data, i) == ts by { assert [] + ts == ts; }
        assert RowTime(s, e, chain, data, i) == t;
        MapFromContent(s, e, chain, data, i + 1, p);
      } else if f.SetsTime? {
        assert RowFields(s, e, chain, data, i) == fs by { assert [] + fs == fs; }
        assert RowTags(s, e, chain, data, i) == ts by { assert [] + ts == ts; }
        assert RowTime(s, e, chain, data, i) == if t.Some? then t else Some(f.ticks);
        MapFromContent(s, e, chain, data, i + 1, p.(utcTimestamp := Some(f.ticks)));
      } else if f.AddsField? {
        var x := (f.name, f.field);
        assert RowFields(s, e, chain, data, i) == [x] + fs;
        assert RowTags(s, e, chain, data, i) == ts by { assert [] + ts == ts; }
        assert RowTime(s, e, chain, data, i) == t;
        MapFromContent(s, e, chain, data, i + 1, p.(fields := p.fields + [x]));
        ConcatAssoc(p.fields, [x], fs);
      } else if f.AddsTag? {
        var x := (f.name, f.tag);
        assert RowFields(s, e, chain, data, i) == fs by { assert [] + fs == fs; }
        assert RowTags(s, e, chain, data, i) == [x] + ts;
        assert RowTime(s, e, chain, data, i) == t;
        MapFromContent(s, e, chain, data, i + 1, p.(tags := p.tags + [x]));
        ConcatAssoc(p.tags, [x], ts);
      }
    }
  }

  /**
   Filling a point whose names are distinct succeeds exactly when no entry
   throws and the names added, together with the point's own, stay distinct.
   */
  lemma {:induction false} MapFromAccepts(s: GenericSettings, e: Engine, chain: ColumnChain, data: Entries<GenericColumn, string>, i: nat, p: Point)
    requires i <= |data|
    requires DistinctKeys(p.fields) && DistinctKeys(p.tags)
    ensures MapFrom(s, e, chain, data, i, p).Ok? <==>
      && !RowRejected(s, e, chain, data, i)
      && DistinctKeys(p.fields + RowFields(s, e, chain, data, i))
      && DistinctKeys(p.tags + RowTags(s, e, chain, data, i))
    decreases |data| - i
  {
    if i == |data| {
      assert p.fields + [] == p.fields && p.tags + [] == p.tags;
    } else {
      var f := EntryEffect(s, e, chain, data[i]);
      var fs, ts := RowFields(s, e, chain, data, i + 1), RowTags(s, e, chain, data, i + 1);
      MapFromStep(s, e, chain, data, i, p);
      RowRejectedStep(s, e, chain, data, i);
      if f.NoEffect? || f.SetsTime? {
        assert RowFields(s, e, chain, data, i) == fs by { assert [] + fs == fs; }
        assert RowTags(s, e, chain, data, i) == ts by { assert [] + ts == ts; }
        MapFromAccepts(s, e, chain, data, i + 1, if f.NoEffect? then p else p.(utcTimestamp := Some(f.ticks)));
      } else if f.AddsField? {
        var x := (f.name, f.field);
        assert RowFields(s, e, chain, data, i) == [x] + fs;
        assert RowTags(s, e, chain, data, i) == ts by { assert [] + ts == ts; }
        DistinctCons(p.fields, x, fs);
        if f.name !in Keys(p.fields) {
          AppendDistinct(p.fields, x);
          MapFromAccepts(s, e, chain, data, i + 1, p.(fields := p.fields + [x]));
        }
      } else if f.AddsTag? {
        var x := (f.name, f.tag);
        assert RowFields(s, e, chain, data, i) == fs by { assert [] + fs == fs; }
        assert RowTags(s, e, chain, data, i) == [x] + ts;
        DistinctCons(p.tags, x, ts);
        if f.name !in Keys(p.tags) {
          AppendDistinct(p.tags, x);
          MapFromAccepts(s, e, chain, data, i + 1, p.(tags := p.tags + [x]));
        }
      }
    }
  }

  /** Some entry from `i` throws iff entry `i` does or some later one does. */
  lemma RowRejectedStep(s: GenericSettings, e: Engine, chain: ColumnChain, data: Entries<GenericColumn, string>, i: nat)
    requires i < |data|
    ensures RowRejected(s, e, chain, data, i) <==> EntryEffect(s, e, chain, data[i]).Rejects? || RowRejected(s, e, chain, data, i + 1)
  {
    if RowRejected(s, e, chain, data, i) && !EntryEffect(s, e, chain, data[i]).Rejects? {
      var j :| i <= j < |data| && EntryEffect(s, e, chain, data[j]).Rejects?;
      assert i + 1 <= j;
    }
  }

  /** Adding an entry in front of `b` keeps `a + b` distinct iff its key is new to `a` and the longer prefix stays distinct. */
  lemma DistinctCons<V>(a: Entries<string, V>, x: (string, V), b: Entries<string, V>)
    ensures DistinctKeys(a + ([x] + b)) <==> x.0 !in Keys(a) && DistinctKeys((a + [x]) + b)
  {
    ConcatAssoc(a, [x], b);
    if x.0 in Keys(a) {
      RepeatBreaksDistinct(a, [x] + b);
    }
  }

  /** The point a row's entries make from the default tags: the row's tags after them, its fields, and the time of its last time entry. */
  function RowPoint(s: GenericSettings, e: Engine, chain: ColumnChain, defaultTags: Entries<string, string>, data: Entries<GenericColumn, string>): Point {
    NewPoint(s, defaultTags).(
      tags := defaultTags + RowTags(s, e, chain, data, 0),
      fields := RowFields(s, e, chain, data, 0),
      utcTimestamp := RowTime(s, e, chain, data, 0))
  }

  /** The point a row starts from: the measurement and precision of the settings and the default tags. */
  function NewPoint(s: GenericSettings, defaultTags: Entries<string, string>): Point {
    Point(s.measurement, s.precision, None, defaultTags, [], None, false)
  }

  /**
   `ProcessGenericLine`: the time cell must exist; the columns' values are
   gathered, transformed and stored; a row with no field is rejected.
   */
  function GenericLine(s: GenericSettings, e: Engine, chain: ColumnChain, defaultTags: Entries<string, string>, headers: seq<GenericColumn>, line: string): (r: Result<Point>)
    ensures r.Ok? ==> |r.value.fields| > 0
    ensures r.Ok? ==> r.value.measurement == s.measurement && r.value.precision == s.precision && !r.value.saved
    ensures CellAt(e.split(s.columnSplitter, line), s.timeColumn - 1).Fail? ==> r.Fail? && r.error.kind == IndexOutOfRangeException
    ensures r.Ok? ==> RowData(s, e, chain, headers, line).Ok? && r.value == RowPoint(s, e, chain, defaultTags, RowData(s, e, chain, headers, line).value)
    ensures r.Ok? ==> |r.value.tags| >= |defaultTags| && r.value.tags[..|defaultTags|] == defaultTags
    ensures DistinctKeys(defaultTags) && CellAt(e.split(s.columnSplitter, line), s.timeColumn - 1).Ok? && RowData(s, e, chain, headers, line).Ok? ==>
      (r.Ok? <==> RowAccepted(s, e, chain, defaultTags, RowData(s, e, chain, headers, line).value)
                  && |RowFields(s, e, chain, RowData(s, e, chain, headers, line).value, 0)| > 0)
    ensures DistinctKeys(defaultTags) && CellAt(e.split(s.columnSplitter, line), s.timeColumn - 1).Ok? && RowData(s, e, chain, headers, line).Ok?
            && RowAccepted(s, e, chain, defaultTags, RowData(s, e, chain, headers, line).value)
            && |RowFields(s, e, chain, RowData(s, e, chain, headers, line).value, 0)| == 0 ==>
      r == Throw(InvalidDataException, NoValuesMessage)
  {
    var cells := e.split(s.columnSplitter, line);
    var timeCell :- CellAt(cells, s.timeColumn - 1);
    var data :- RowData(s, e, chain, headers, line);
    var p0 := NewPoint(s, defaultTags);
    assert p0.fields + RowFields(s, e, chain, data, 0) == RowFields(s, e, chain, data, 0);
    assert DistinctKeys(defaultTags) ==> (MapFrom(s, e, chain, data, 0, p0).Ok? <==> RowAccepted(s, e, chain, defaultTags, data)) by {
      if DistinctKeys(defaultTags) {
        MapFromAccepts(s, e, chain, data, 0, p0);
      }
    }
    var p :- MapFrom(s, e, chain, data, 0, p0);
    MapFromContent(s, e, chain, data, 0, p0);
    if |p.fields| == 0 then Throw(InvalidDataException, NoValuesMessage)
    else Ok(p)
  }

  /** The cells of a line keyed by column: the first loop of `ProcessGenericLine`. */
  function RowData(s: GenericSettings, e: Engine, chain: ColumnChain, headers: seq<GenericColumn>, line: string): Result<Entries<GenericColumn, string>> {
    GatherFrom(chain, headers, e.split(s.columnSplitter, line), 0, [])
  }

  /** No entry of the row throws, and its fields, and its tags after the default tags, have distinct names. */
  predicate RowAccepted(s: GenericSettings, e: Engine, chain: ColumnChain, defaultTags: Entries<string, string>, data: Entries<GenericColumn, string>) {
    && !RowRejected(s, e, chain, data, 0)
    && DistinctKeys(RowFields(s, e, chain, data, 0))
    && DistinctKeys(defaultTags + RowTags(s, e, chain, data, 0))
  }

  // ---------------------------------------------------------------------------
  // ValidateData

  /** `ValidateRows`, with 0 treated as 1. */
  function SampleRows(validateRows: int): (n: int)
    ensures validateRows == 0 ==> n == 1
    ensures validateRows != 0 ==> n == validateRows
  {
    if validateRows == 0 then 1 else validateRows
  }

  /** The type first inferred for a column: Numerical if the value parses as a number, else Boolean if it parses as one, else Tag. */
  function InferType(e: Engine, content: string): (t: ColumnDataType)
    ensures t != Unknown
    ensures t == NumericalField <==> e.parseDouble(content).Some?
    ensures t == BooleanField <==> e.parseDouble(content).None? && e.parseBool(content).Some?
    ensures t == Tag <==> e.parseDouble(content).None? && e.parseBool(content).None?
  {
    if e.parseDouble(content).Some? then NumericalField
    else if e.parseBool(content).Some? then BooleanField
    else Tag
  }

  /** The columns after `key`'s type (and its configuration's) is set to `t`. */
  function Learn(headers: seq<GenericColumn>, key: GenericColumn, t: ColumnDataType): (r: seq<GenericColumn>)
    requires key.config.Some?
    ensures |r| == |headers|
    ensures forall j :: 0 <= j < |headers| ==>
      r[j] == if headers[j] == key then headers[j].(columnType := t, config := Some(key.config.value.(dataType := t))) else headers[j]
  {
    seq(|headers|, j requires 0 <= j < |headers| =>
      if headers[j] == key then headers[j].(columnType := t, config := Some(key.config.value.(dataType := t))) else headers[j])
  }

  /** The check of a value of a column whose type is known. */
  function CheckValue(e: Engine, key: GenericColumn, content: string): (r: Result<()>)
    ensures r.Fail? <==> (key.columnType == NumericalField && NotANumber(e, content)) || (key.columnType == BooleanField && e.parseBool(content).None?)
    ensures r.Fail? ==> r.error.kind == InvalidDataException
  {
    if key.columnType == NumericalField && NotANumber(e, content) then
      Throw(InvalidDataException, key.columnHeader.GetOr("") + CannotParse + content + " as Number")
    else if key.columnType == BooleanField && e.parseBool(content).None? then
      Throw(InvalidDataException, key.columnHeader.GetOr("") + CannotParse + content + " as Boolean")
    else Ok(())
  }

  /**
   The inner loop of `ValidateData` from entry `j`: a Filter rejection skips
   the value; the time column's value must parse as a timestamp; a blank
   value is skipped; an Unknown column learns its type, a typed one is checked.
   */
  function CheckFrom(s: GenericSettings, e: Engine, chain: ColumnChain, data: Entries<GenericColumn, string>, j: nat, headers: seq<GenericColumn>): (r: (Result<()>, seq<GenericColumn>))
    requires j <= |data|
    ensures |r.1| == |headers|
    ensures forall k :: 0 <= k < |headers| && headers[k].columnType != Unknown ==> r.1[k] == headers[k]
    decreases |data| - j
  {
    if j == |data| then (Ok(()), headers)
    else
      var key := data[j].0;
      var t := TransformedValue(chain, key, data[j].1);
      if t.Fail? && t.error.kind == InvalidDataException then CheckFrom(s, e, chain, data, j + 1, headers)
      else if t.Fail? then (Fail(t.error), headers)
      else
        var content := t.value;
        var ts := if key.columnIndex == s.timeColumn - 1 then ParseTimestamp(s, e, content) else Ok(0);
        if ts.Fail? then (Fail(ts.error), headers)
        else if IsNullOrWhiteSpace(content) then CheckFrom(s, e, chain, data, j + 1, headers)
        else if key.columnType == Unknown then
          if key.config.None? then (Throw(NullReferenceException, NullReferenceMessage), headers)
          else CheckFrom(s, e, chain, data, j + 1, Learn(headers, key, InferType(e, content.value)))
        else
          var checked := CheckValue(e, key, content.value);
          if checked.Fail? then (Fail(checked.error), headers)
          else CheckFrom(s, e, chain, data, j + 1, headers)
  }

  /** Some bound column still has no type. */
  predicate AnyUnknown(headers: seq<GenericColumn>) {
    exists j :: 0 <= j < |headers| && headers[j].columnType == Unknown
  }

  /** The result of `ValidateData` (or the exception it throws), the columns, and `ValidateRows` afterwards. */
  datatype ValidateOutcome = ValidateOutcome(result: Result<bool>, headers: seq<GenericColumn>, validateRows: int)

  /**
   The outer loop of `ValidateData` from data line `i`, with `sampled` lines
   sampled so far out of `rows`: blank and comment lines are skipped, the
   loop stops once `rows` lines were sampled.
   */
  function ValidateFrom(s: GenericSettings, e: Engine, chain: ColumnChain, data: seq<string>, i: nat, sampled: int, rows: int, headers: seq<GenericColumn>): (r: (Result<bool>, seq<GenericColumn>))
    requires i <= |data|
    ensures r.0.Ok? ==> (r.0.value <==> !AnyUnknown(r.1))
    decreases |data| - i
  {
    if i == |data| then (Ok(!AnyUnknown(headers)), headers)
    else if !IsDataLine(s, data[i]) then ValidateFrom(s, e, chain, data, i + 1, sampled, rows, headers)
    else
      var cells := e.split(s.columnSplitter, data[i]);
      var gathered := GatherFrom(chain, headers, cells, 0, []);
      if gathered.Fail? then (Fail(gathered.error), headers)
      else
        var checked := CheckFrom(s, e, chain, gathered.value, 0, headers);
        if checked.0.Fail? then (Fail(checked.0.error), checked.1)
        else if sampled + 1 == rows then (Ok(!AnyUnknown(checked.1)), checked.1)
        else ValidateFrom(s, e, chain, data, i + 1, sampled + 1, rows, checked.1)
  }

  /** One unfolding of `ValidateFrom` at line `i`. */
  lemma ValidateStep(s: GenericSettings, e: Engine, chain: ColumnChain, data: seq<string>, i: nat, sampled: int, rows: int, headers: seq<GenericColumn>)
    requires i < |data|
    ensures !IsDataLine(s, data[i]) ==> ValidateFrom(s, e, chain, data, i, sampled, rows, headers) == ValidateFrom(s, e, chain, data, i + 1, sampled, rows, headers)
    ensures IsDataLine(s, data[i]) ==>
      var gathered := GatherFrom(chain, headers, e.split(s.columnSplitter, data[i]), 0, []);
      var v := ValidateFrom(s, e, chain, data, i, sampled, rows, headers);
      if gathered.Fail? then v == (Fail(gathered.error), headers)
      else
        var checked := CheckFrom(s, e, chain, gathered.value, 0, headers);
        if checked.0.Fail? then v == (Fail(checked.0.error), checked.1)
        else if sampled + 1 == rows then v == (Ok(!AnyUnknown(checked.1)), checked.1)
        else v == ValidateFrom(s, e, chain, data, i + 1, sampled + 1, rows, checked.1)
  {
  }

  /** `ValidateData` on the file `lines`, with the bound columns and the configured `ValidateRows`. */
  function Validate(s: GenericSettings, e: Engine, chain: ColumnChain, headers: seq<GenericColumn>, validateRows: int, lines: seq<string>): (r: ValidateOutcome)
    ensures r.validateRows == SampleRows(validateRows)
    ensures r.result.Ok? ==> (r.result.value <==> !AnyUnknown(r.headers))
  {
    var rows := SampleRows(validateRows);
    var o := ValidateFrom(s, e, chain, Skip(lines, s.headerRow + s.skipRows), 0, 0, rows, headers);
    ValidateOutcome(o.0, o.1, rows)
  }

  /** Two lists of columns that differ at most in the type (and configuration) of Unknown columns. */
  predicate OnlyUnknownsTyped(before: seq<GenericColumn>, after: seq<GenericColumn>) {
    && |after| == |before|
    && forall j :: 0 <= j < |before| ==>
         && after[j].columnIndex == before[j].columnIndex
         && after[j].columnHeader == before[j].columnHeader
         && (before[j].columnType != Unknown ==> after[j] == before[j])
  }

  lemma OnlyUnknownsTypedTrans(a: seq<GenericColumn>, b: seq<GenericColumn>, c: seq<GenericColumn>)
    requires OnlyUnknownsTyped(a, b) && OnlyUnknownsTyped(b, c)
    ensures OnlyUnknownsTyped(a, c)
  {
  }

  lemma {:induction false} CheckFromTypes(s: GenericSettings, e: Engine, chain: ColumnChain, data: Entries<GenericColumn, string>, j: nat, headers: seq<GenericColumn>)
    requires j <= |data|
    ensures OnlyUnknownsTyped(headers, CheckFrom(s, e, chain, data, j, headers).1)
    decreases |data| - j
  {
    if j < |data| {
      var key := data[j].0;
      var t := TransformedValue(chain, key, data[j].1);
      if t.Fail? && t.error.kind == InvalidDataException {
        CheckFromTypes(s, e, chain, data, j + 1, headers);
      } else if t.Ok? {
        var content := t.value;
        var ts := if key.columnIndex == s.timeColumn - 1 then ParseTimestamp(s, e, content) else Ok(0);
        if ts.Ok? && !IsNullOrWhiteSpace(content) {
          if key.columnType == Unknown {
            if key.config.Some? {
              var learned := Learn(headers, key, InferType(e, content.value));
              CheckFromTypes(s, e, chain, data, j + 1, learned);
              OnlyUnknownsTypedTrans(headers, learned, CheckFrom(s, e, chain, data, j + 1, learned).1);
            }
          } else if CheckValue(e, key, content.value).Ok? {
            CheckFromTypes(s, e, chain, data, j + 1, headers);
          }
        } else if ts.Ok? {
          CheckFromTypes(s, e, chain, data, j + 1, headers);
        }
      }
    }
  }

  lemma {:induction false} ValidateFromTypes(s: GenericSettings, e: Engine, chain: ColumnChain, data: seq<string>, i: nat, sampled: int, rows: int, headers: seq<GenericColumn>)
    requires i <= |data|
    ensures OnlyUnknownsTyped(headers, ValidateFrom(s, e, chain, data, i, sampled, rows, headers).1)
    decreases |data| - i
  {
    if i < |data| {
      if !IsDataLine(s, data[i]) {
        ValidateFromTypes(s, e, chain, data, i + 1, sampled, rows, headers);
      } else {
        var cells := e.split(s.columnSplitter, data[i]);
        var gathered := GatherFrom(chain, headers, cells, 0, []);
        if gathered.Ok? {
          var checked := CheckFrom(s, e, chain, gathered.value, 0, headers);
          CheckFromTypes(s, e, chain, gathered.value, 0, headers);
          if checked.0.Ok? && sampled + 1 != rows {
            ValidateFromTypes(s, e, chain, data, i + 1, sampled + 1, rows, checked.1);
            OnlyUnknownsTypedTrans(headers, checked.1, ValidateFrom(s, e, chain, data, i + 1, sampled + 1, rows, checked.1).1);
          }
        }
      }
    }
  }

  /**
   Type inference only ever moves a column from Unknown to a type: a typed
   column is checked, never re-inferred, and no column changes position or name.
   */
  lemma ValidateKeepsTypes(s: GenericSettings, e: Engine, chain: ColumnChain, headers: seq<GenericColumn>, validateRows: int, lines: seq<string>)
    ensures OnlyUnknownsTyped(headers, Validate(s, e, chain, headers, validateRows, lines).headers)
  {
    ValidateFromTypes(s, e, chain, Skip(lines, s.headerRow + s.skipRows), 0, 0, SampleRows(validateRows), headers);
  }

  /** The number of data lines (neither blank nor comment) among `data[i..]`. */
  function DataLineCount(s: GenericSettings, data: seq<string>, i: nat): nat
    requires i <= |data|
    decreases |data| - i
  {
    if i == |data| then 0 else (if IsDataLine(s, data[i]) then 1 else 0) + DataLineCount(s, data, i + 1)
  }

  /**
   Sampling stops after `rows` data lines: once the lines read so far hold
   enough data lines to reach `rows`, whatever follows them does not change
   the outcome.
   */
  lemma {:induction false} ValidateStopsAfterRows(s: GenericSettings, e: Engine, chain: ColumnChain, data: seq<string>, more: seq<string>, i: nat, sampled: int, rows: int, headers: seq<GenericColumn>)
    requires i <= |data| && 0 <= sampled < rows
    requires DataLineCount(s, data, i) >= rows - sampled
    ensures ValidateFrom(s, e, chain, data + more, i, sampled, rows, headers) == ValidateFrom(s, e, chain, data, i, sampled, rows, headers)
    decreases |data| - i
  {
    assert (data + more)[i] == data[i];
    if !IsDataLine(s, data[i]) {
      ValidateStopsAfterRows(s, e, chain, data, more, i + 1, sampled, rows, headers);
    } else {
      var cells := e.split(s.columnSplitter, data[i]);
      var gathered := GatherFrom(chain, headers, cells, 0, []);
      if gathered.Ok? {
        var checked := CheckFrom(s, e, chain, gathered.value, 0, headers);
        if checked.0.Ok? && sampled + 1 != rows {
          ValidateStopsAfterRows(s, e, chain, data, more, i + 1, sampled + 1, rows, checked.1);
        }
      }
    }
  }

  // ---------------------------------------------------------------------------
  // FilterGenericColumns

  /**
   `FilterGenericColumns`: Measurement keeps every column when the configured
   measurement exists and none otherwise; Field keeps the columns named by a
   tag or field of that measurement; Columns keeps the columns named by a
   filter column; no filter keeps everything.
   */
  function FilterGenericColumns(s: GenericSettings, columns: seq<GenericColumn>, filterColumns: seq<GenericColumn>, db: Database): (r: seq<GenericColumn>)
    ensures s.filter.NoFilter? ==> r == columns
    ensures s.filter.MeasurementFilter? ==> r == if HasMeasurement(db, s.measurement) then columns else []
    ensures s.filter.FieldFilter? ==> forall c :: c in r <==>
      c in columns && HasMeasurement(db, s.measurement) && c.columnHeader.Some?
      && (c.columnHeader.value in FirstMeasurement(db, s.measurement).tags || c.columnHeader.value in FirstMeasurement(db, s.measurement).fields)
    ensures s.filter.ColumnsFilter? ==> forall c :: c in r <==>
      c in columns && exists f :: f in filterColumns && f.columnHeader == c.columnHeader
    ensures s.filter.ColumnsFilter? && |filterColumns| == 0 ==> r == []
    ensures forall c :: c in columns ==> multiset(r)[c] == if c in r then multiset(columns)[c] else 0
  {
    match s.filter
    case MeasurementFilter => Where(columns, (p: GenericColumn) => HasMeasurement(db, s.measurement))
    case FieldFilter =>
      Where(columns, (p: GenericColumn) => HasMeasurement(db, s.measurement) && p.columnHeader.Some?
        && (p.columnHeader.value in FirstMeasurement(db, s.measurement).tags || p.columnHeader.value in FirstMeasurement(db, s.measurement).fields))
    case ColumnsFilter => Where(columns, (p: GenericColumn) => exists f :: f in filterColumns && f.columnHeader == p.columnHeader)
    case NoFilter => columns
  }

  /**
   The filter keeps the columns' order: filtering the columns of a
   concatenation filters each part, one after the other.
   */
  lemma FilterGenericColumnsAppend(s: GenericSettings, a: seq<GenericColumn>, b: seq<GenericColumn>, filterColumns: seq<GenericColumn>, db: Database)
    ensures FilterGenericColumns(s, a + b, filterColumns, db) == FilterGenericColumns(s, a, filterColumns, db) + FilterGenericColumns(s, b, filterColumns, db)
  {
    match s.filter
    case MeasurementFilter => WhereAppend(a, b, (p: GenericColumn) => HasMeasurement(db, s.measurement));
    case FieldFilter =>
      WhereAppend(a, b, (p: GenericColumn) => HasMeasurement(db, s.measurement) && p.columnHeader.Some?
        && (p.columnHeader.value in FirstMeasurement(db, s.measurement).tags || p.columnHeader.value in FirstMeasurement(db, s.measurement).fields));
    case ColumnsFilter => WhereAppend(a, b, (p: GenericColumn) => exists f :: f in filterColumns && f.columnHeader == p.columnHeader);
    case NoFilter =>
  }

  /** What `List<string>.ToString()` returns: the name of the list's type, not its items. */
  const ListTypeName: string := "System" + ".Collections.Generic.List`1[System.String]"

  /**
   The filter columns as written: none when the layout (as `GetFileLayout`
   left it) has entries, otherwise the header parse of the list's
   `ToString()`.
   */
  function GenericFilterColumnsAsWritten(s: GenericSettings, e: Engine, layout: seq<ColumnConfig>): (r: Result<seq<GenericColumn>>)
    ensures |layout| > 0 ==> r == Ok([])
    ensures |layout| == 0 ==> r.Ok? && |r.value| == |e.split(s.columnSplitter, ListTypeName)|
    ensures |layout| == 0 ==> forall i :: 0 <= i < |r.value| ==>
      r.value[i].columnHeader == Some(SanitizeName(s, e.split(s.columnSplitter, ListTypeName)[i]))
  {
    if |layout| > 0 then Ok([]) else ParseGenericColumns(s, e, Some(ListTypeName))
  }

  /**
   The filter columns: none when the configuration defines a layout (the
   message says the filter does not apply then), otherwise one per `-columns`
   name, sanitized like a header.
   */
  function GenericFilterColumns(s: GenericSettings, configured: seq<ColumnConfig>): (r: seq<GenericColumn>)
    ensures |configured| > 0 ==> r == []
    ensures |configured| == 0 ==> |r| == |s.columnsFilter|
    ensures |configured| == 0 ==> forall i :: 0 <= i < |r| ==> r[i].columnHeader == Some(SanitizeName(s, s.columnsFilter[i]))
  {
    if |configured| > 0 then []
    else seq(|s.columnsFilter|, i requires 0 <= i < |s.columnsFilter| => GenericColumn(i, Some(SanitizeName(s, s.columnsFilter[i])), Unknown, None))
  }

  /**
   As written, a Columns filter drops every column of a file with a header:
   `GetFileLayout` has always filled the layout by the time the filter looks
   at it, so the filter list stays empty.
   */
  lemma GenericColumnsFilterDropsAll(s: GenericSettings, e: Engine, configured: seq<ColumnConfig>, lines: seq<string>, db: Database)
    requires !s.headerMissing && s.filter.ColumnsFilter?
    requires HeaderLine(s, lines).Some? && |e.split(s.columnSplitter, HeaderLine(s, lines).value)| > 0
    requires Layout(s, e, configured, lines).status == Ok(Success)
    ensures GenericFilterColumnsAsWritten(s, e, Layout(s, e, configured, lines).layout) == Ok([])
    ensures FilterGenericColumns(s, Layout(s, e, configured, lines).headers, [], db) == []
  {
    var cols := ParseGenericColumns(s, e, HeaderLine(s, lines));
    assert cols.Ok? && |cols.value| > 0;
    var bound := Layout(s, e, configured, lines);
    if |configured| == 0 {
      assert bound == AdoptFrom(cols.value, 0, [], configured);
      AdoptSpec(cols.value, 0, [], configured);
    } else {
      assert bound == BindFrom(configured, cols.value, 0, []);
    }
    assert |bound.layout| > 0;
  }

  /**
   With the corrected filter list, a file with a header and no configured
   layout keeps exactly the columns whose sanitized header is one of the
   sanitized `-columns` names.
   */
  lemma GenericColumnsFilterKeepsNamed(s: GenericSettings, columns: seq<GenericColumn>, db: Database, c: GenericColumn)
    requires s.filter.ColumnsFilter?
    ensures c in FilterGenericColumns(s, columns, GenericFilterColumns(s, []), db) <==>
      c in columns && exists i :: 0 <= i < |s.columnsFilter| && c.columnHeader == Some(SanitizeName(s, s.columnsFilter[i]))
  {
    var fs := GenericFilterColumns(s, []);
    assert c in FilterGenericColumns(s, columns, fs, db) <==> c in columns && exists f :: f in fs && f.columnHeader == c.columnHeader;
    FilterNamesMatch(s, c.columnHeader);
  }

  lemma FilterNamesMatch(s: GenericSettings, h: Option<string>)
    ensures (exists f :: f in GenericFilterColumns(s, []) && f.columnHeader == h) <==>
      exists i :: 0 <= i < |s.columnsFilter| && h == Some(SanitizeName(s, s.columnsFilter[i]))
  {
    var fs := GenericFilterColumns(s, []);
    var names := seq(|s.columnsFilter|, i requires 0 <= i < |s.columnsFilter| => SanitizeName(s, s.columnsFilter[i]));
    forall i | 0 <= i < |fs| ensures fs[i].columnHeader == Some(names[i]) {
      var n := SanitizeName(s, s.columnsFilter[i]);
      assert names[i] == n;
      assert fs[i].columnHeader == Some(n);
    }
    HeadersNamed(fs, names, h);
    assert (exists i :: 0 <= i < |names| && h == Some(names[i])) <==>
      exists i :: 0 <= i < |s.columnsFilter| && h == Some(SanitizeName(s, s.columnsFilter[i]));
  }

  lemma HeadersNamed(fs: seq<GenericColumn>, names: seq<string>, h: Option<string>)
    requires |fs| == |names|
    requires forall i :: 0 <= i < |fs| ==> fs[i].columnHeader == Some(names[i])
    ensures (exists f :: f in fs && f.columnHeader == h) <==> exists i :: 0 <= i < |names| && h == Some(names[i])
  {
    if exists i :: 0 <= i < |names| && h == Some(names[i]) {
      var i :| 0 <= i < |names| && h == Some(names[i]);
      assert fs[i] in fs;
    }
  }


}
