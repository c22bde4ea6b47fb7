/**
 PerfmonFile.cs, the parts that compute values: the PDH-CSV check and the
 UTC offset read from the first cell of the file, the header parse into
 performance counters (`ParsePerfMonFileHeader`), the grouping of counters by
 performance object and host, the fan-out of one data line into points
 (`ProcessPerfmonLogLine`) in its two output modes, and the counter filter
 (`FilterPerfmonLogColumns`). The class that holds the reader's state and
 runs these steps is in module PerfmonReader.
 */
module PerfmonFiles {
  import opened Common
  import opened Runtime
  import opened OrderedDict
  import opened Points
  import Extensions
  import GenericFiles

  /** The settings the Perfmon reader reads (PerfmonFileConfig and the InfluxDB section). */
  datatype PerfmonSettings = PerfmonSettings(
    /** The compiled `ColumnSplitter` regex. */
    columnSplitter: Regex,
    timeFormat: string,
    /** `InfluxReserved.ReservedCharecters.ToCharArray()` */
    reservedCharacters: set<char>,
    replaceReservedWith: char,
    /** The measurement of single-measurement mode. */
    measurement: string,
    multiMeasurements: bool,
    filter: Filters,
    /** The `-columns` list. */
    columnsFilter: seq<string>,
    pointsInSingleBatch: int)

  /** A counter of the log: the column it is read from and its `\\Host\Object\Counter` path. */
  datatype PerfmonCounter = PerfmonCounter(columnIndex: int, host: string, performanceObject: string, counterName: string)

  // ---------------------------------------------------------------------------
  // The first cell: the PDH-CSV marker and the UTC offset

  predicate IsDigit(c: char) {
    '0' <= c <= '9'
  }

  /** A character of the class `[-0-9]`. */
  predicate IsDashOrDigit(c: char) {
    c == '-' || IsDigit(c)
  }

  predicate AllDashOrDigit(s: string) {
    forall i :: 0 <= i < |s| ==> IsDashOrDigit(s[i])
  }

  /** The length of the run of `[-0-9]` characters that starts `s`. */
  function RunLength(s: string): (n: nat)
    ensures n <= |s| && AllDashOrDigit(s[..n])
    ensures n < |s| ==> !IsDashOrDigit(s[n])
  {
    if |s| == 0 || !IsDashOrDigit(s[0]) then 0
    else
      var n := 1 + RunLength(s[1..]);
      assert s[..n] == [s[0]] + s[1..][..n - 1];
      n
  }

  /**
   `Regex.Matches(s, "([-0-9]+)")`: the maximal runs of dashes and digits,
   from left to right.
   */
  function Runs(s: string): (r: seq<string>)
    ensures forall i :: 0 <= i < |r| ==> |r[i]| > 0 && AllDashOrDigit(r[i])
    decreases |s|
  {
    if |s| == 0 then []
    else if !IsDashOrDigit(s[0]) then Runs(s[1..])
    else
      var n := RunLength(s);
      [s[..n]] + Runs(s[n..])
  }

  /** A string with a dash or a digit has at least one match, and one without has none. */
  lemma {:induction false} RunsEmpty(s: string)
    ensures |Runs(s)| == 0 <==> forall i :: 0 <= i < |s| ==> !IsDashOrDigit(s[i])
  {
    if |s| > 0 && !IsDashOrDigit(s[0]) {
      RunsEmpty(s[1..]);
      forall i | 1 <= i < |s| ensures s[i] == s[1..][i - 1] { }
    }
  }

  /** A string made only of dashes and digits is a single match. */
  lemma RunsOfRun(s: string)
    requires |s| > 0 && AllDashOrDigit(s)
    ensures Runs(s) == [s]
  {
    var n := RunLength(s);
    assert s[..|s|] == s;
  }

  /**
   Matches do not cross a character outside `[-0-9]`: when `a` ends, or `b`
   starts, with such a character, the matches of `a + b` are those of `a`
   followed by those of `b`.
   */
  lemma {:induction false} RunsAppend(a: string, b: string)
    requires (|a| > 0 && !IsDashOrDigit(a[|a| - 1])) || (|b| > 0 && !IsDashOrDigit(b[0]))
    ensures Runs(a + b) == Runs(a) + Runs(b)
    decreases |a|
  {
    if |a| == 0 {
      assert a + b == b;
    } else if !IsDashOrDigit(a[0]) {
      assert (a + b)[1..] == a[1..] + b;
      if |a| > 1 || (|b| > 0 && !IsDashOrDigit(b[0])) {
        RunsAppend(a[1..], b);
      } else {
        assert a[1..] + b == b;
        assert Runs(a[1..]) == [];
      }
    } else {
      var n := RunLength(a);
      if n < |a| {
        RunLengthAppend(a, b, n);
        assert (a + b)[..n] == a[..n];
        assert (a + b)[n..] == a[n..] + b;
        RunsAppend(a[n..], b);
      } else {
        assert !IsDashOrDigit(b[0]);
        RunLengthWhole(a, b);
        assert (a + b)[..|a|] == a;
        assert (a + b)[|a|..] == b;
        assert a[..|a|] == a;
        assert Runs(a[|a|..]) == [];
      }
    }
  }

  lemma RunLengthAppend(a: string, b: string, n: nat)
    requires n == RunLength(a) && n < |a|
    ensures RunLength(a + b) == n
    decreases |a|
  {
    if n > 0 {
      assert (a + b)[1..] == a[1..] + b;
      RunLengthAppend(a[1..], b, n - 1);
    }
  }

  lemma RunLengthWhole(a: string, b: string)
    requires RunLength(a) == |a| && |b| > 0 && !IsDashOrDigit(b[0])
    ensures RunLength(a + b) == |a|
    decreases |a|
  {
    if |a| > 0 {
      assert (a + b)[1..] == a[1..] + b;
      RunLengthWhole(a[1..], b);
    }
  }

  /** The value of a string of decimal digits. */
  function DigitsValue(d: string): nat
    requires AllDigits(d)
  {
    if |d| == 0 then 0
    else
      assert IsDigit(d[|d| - 1]);
      DigitsValue(d[..|d| - 1]) * 10 + (d[|d| - 1] as int - '0' as int)
  }

  predicate AllDigits(d: string) {
    forall i :: 0 <= i < |d| ==> IsDigit(d[i])
  }

  /**
   `int.Parse` of a match of `[-0-9]+`: digits with at most one leading minus
   sign; anything else is a FormatException and a value outside the 32-bit
   range an OverflowException.
   */
  function ParseRun(m: string): (r: Result<int>)
    requires AllDashOrDigit(m)
    ensures r.Ok? ==> InInt32(r.value)
    ensures AllDigits(m) && |m| > 0 && InInt32(DigitsValue(m)) ==> r == Ok(DigitsValue(m))
    ensures |m| > 1 && m[0] == '-' && AllDigits(m[1..]) && InInt32(-(DigitsValue(m[1..]) as int)) ==> r == Ok(-(DigitsValue(m[1..]) as int))
    ensures r.Fail? && r.error.kind == FormatException <==> !(|m| > 0 && AllDigits(m)) && !(|m| > 1 && m[0] == '-' && AllDigits(m[1..]))
  {
    var value: Option<int> :=
      if |m| > 0 && AllDigits(m) then Some(DigitsValue(m))
      else if |m| > 1 && m[0] == '-' && AllDigits(m[1..]) then Some(-(DigitsValue(m[1..]) as int))
      else None;
    if value.None? then Throw(FormatException, "Input string was not in a correct format.")
    else if InInt32(value.value) then Ok(value.value)
    else Throw(OverflowException, "Value was either too large or too small for an Int32.")
  }

  /** `s.IndexOf(c)`: the first position of `c`, or -1. */
  function IndexOfChar(s: string, c: char): (i: int)
    ensures -1 <= i < |s|
    ensures i == -1 <==> c !in s
    ensures i >= 0 ==> s[i] == c && c !in s[..i]
  {
    if |s| == 0 then -1
    else if s[0] == c then 0
    else
      var j := IndexOfChar(s[1..], c);
      if j == -1 then -1
      else
        assert s[..j + 1] == [s[0]] + s[1..][..j];
        j + 1
  }

  /** `firstLine.Substring(0, firstLine.IndexOf(','))`: the first line up to its first comma. */
  function FirstCell(firstLine: NString): (r: Result<string>)
    ensures firstLine.None? ==> r.Fail? && r.error.kind == NullReferenceException
    ensures firstLine.Some? && ',' !in firstLine.value ==> r.Fail? && r.error.kind == ArgumentOutOfRangeException
    ensures firstLine.Some? && ',' in firstLine.value ==>
      r.Ok? && StartsWith(firstLine.value, r.value + ",") && ',' !in r.value
  {
    if firstLine.None? then Throw(NullReferenceException, NullReferenceMessage)
    else
      var i := IndexOfChar(firstLine.value, ',');
      if i < 0 then Throw(ArgumentOutOfRangeException, "length")
      else
        assert firstLine.value[..i + 1] == firstLine.value[..i] + ",";
        Ok(firstLine.value[..i])
  }

  /** The marker of a standard Perfmon log. */
  const PdhCsv: string := "PDH-CSV"

  /**
   The offset the first cell gives: the fourth match of `[-0-9]+`, read as a
   32-bit integer; when there is no match at all, the offset the reader had.
   */
  function UtcOffset(cell: string, previous: int): (r: Result<int>)
    ensures |Runs(cell)| == 0 ==> r == Ok(previous)
    ensures 0 < |Runs(cell)| < 4 ==> r.Fail? && r.error.kind == ArgumentOutOfRangeException
    ensures |Runs(cell)| >= 4 ==> r == ParseRun(Runs(cell)[3])
  {
    var matches := Runs(cell);
    if |matches| == 0 then Ok(previous)
    else if |matches| < 4 then Throw(ArgumentOutOfRangeException, "i")
    else ParseRun(matches[3])
  }

  /**
   The checks on the first line of a log: its first cell must name the
   PDH-CSV format (an InvalidDataException otherwise), and it gives the
   offset in minutes added to every sample time.
   */
  function ReadFormat(firstLine: NString, previous: int): (r: Result<int>)
    ensures FirstCell(firstLine).Fail? ==> r == Fail(FirstCell(firstLine).error)
    ensures FirstCell(firstLine).Ok? && !Contains(FirstCell(firstLine).value, PdhCsv) ==>
      r.Fail? && r.error.kind == InvalidDataException
    ensures FirstCell(firstLine).Ok? && Contains(FirstCell(firstLine).value, PdhCsv) ==>
      r == UtcOffset(FirstCell(firstLine).value, previous)
  {
    var cell :- FirstCell(firstLine);
    if !Contains(cell, PdhCsv) then Throw(InvalidDataException, "Input file is not a Standard Perfmon csv file")
    else UtcOffset(cell, previous)
  }

  lemma {:induction false} ContainsChar(s: string, f: string, k: nat)
    requires Contains(s, f) && k < |f|
    ensures exists i :: 0 <= i < |s| && s[i] == f[k]
    decreases |s|
  {
    if |s| >= |f| && s[..|f|] == f {
      assert s[k] == f[k];
    } else {
      ContainsChar(s[1..], f, k);
      var i :| 0 <= i < |s[1..]| && s[1..][i] == f[k];
      assert s[i + 1] == f[k];
    }
  }

  /**
   The `Matches.Count > 0` guard always holds once the marker is found: the
   dash of "PDH-CSV" is a match, so the offset is always read from the cell
   and never kept from before.
   */
  lemma MarkerIsAMatch(cell: string)
    requires Contains(cell, PdhCsv)
    ensures |Runs(cell)| > 0
  {
    ContainsChar(cell, PdhCsv, 3);
    RunsEmpty(cell);
  }

  /** Prepending a character outside `[-0-9]` adds no match. */
  lemma RunsSkip(c: char, s: string)
    requires !IsDashOrDigit(c)
    ensures Runs([c] + s) == Runs(s)
  {
    assert ([c] + s)[1..] == s;
  }

  /** Prepending a single dash or digit before a character outside `[-0-9]` adds that one match. */
  lemma RunsSingle(c: char, s: string)
    requires IsDashOrDigit(c) && |s| > 0 && !IsDashOrDigit(s[0])
    ensures Runs([c] + s) == [[c]] + Runs(s)
  {
    RunsAppend([c], s);
    RunsOfRun([c]);
  }

  /** No match in a string without dashes and digits. */
  lemma {:induction false} RunsNone(prefix: string, s: string)
    requires forall i :: 0 <= i < |prefix| ==> !IsDashOrDigit(prefix[i])
    ensures Runs(prefix + s) == Runs(s)
    decreases |prefix|
  {
    if |prefix| == 0 {
      assert prefix + s == s;
    } else {
      assert prefix + s == [prefix[0]] + (prefix[1..] + s);
      RunsSkip(prefix[0], prefix[1..] + s);
      RunsNone(prefix[1..], s);
    }
  }

  /** The bias and the closing characters of the first cell hold one match, the bias. */
  lemma BiasRuns(bias: string)
    requires |bias| > 0 && AllDashOrDigit(bias)
    ensures Runs(bias + ")\"") == [bias]
  {
    var close := ")\"";
    assert !IsDashOrDigit(close[0]) && !IsDashOrDigit(close[1]);
    RunsEmpty(close);
    RunsAppend(bias, close);
    RunsOfRun(bias);
  }

  /** The part of the first cell from the time zone on holds one match, the bias. */
  lemma ZoneAndBias(zone: string, bias: string)
    requires forall i :: 0 <= i < |zone| ==> !IsDashOrDigit(zone[i])
    requires |bias| > 0 && AllDashOrDigit(bias)
    ensures Runs(zone + ")(" + bias + ")\"") == [bias]
  {
    var open := ")(";
    assert !IsDashOrDigit(open[0]) && !IsDashOrDigit(open[1]);
    var b := bias + ")\"";
    BiasRuns(bias);
    RunsNone(open, b);
    RunsNone(zone, open + b);
    assert zone + (open + b) == zone + ")(" + bias + ")\"";
  }

  /** The opening of the first cell Perfmon writes, up to the version's closing parenthesis. */
  const Marker: string := "\"(PDH-CSV 4.0"

  /** The first cell Perfmon writes: `"(PDH-CSV 4.0) (<time zone>)(<bias>)"`. */
  function StandardCell(zone: string, bias: string): string {
    Marker + (") (" + (zone + (")(" + (bias + ")\""))))
  }

  /** The matches of the marker are the dash and the two digits of the version. */
  lemma MarkerRuns(t: string)
    requires |t| > 0 && !IsDashOrDigit(t[0])
    ensures Runs(Marker + t) == ["-", "4", "0"] + Runs(t)
  {
    VersionRuns(t);
    var u := ['4'] + (['.'] + (['0'] + t));
    DashRuns(u);
    var w := ['-'] + (['C'] + (['S'] + (['V'] + ([' '] + u))));
    OpeningRuns(w);
    MarkerChars(t);
    ThreeMatches(Runs(t));
  }

  lemma VersionRuns(t: string)
    requires |t| > 0 && !IsDashOrDigit(t[0])
    ensures Runs(['4'] + (['.'] + (['0'] + t))) == ["4"] + (["0"] + Runs(t))
  {
    RunsSingle('0', t);
    RunsSkip('.', ['0'] + t);
    RunsSingle('4', ['.'] + (['0'] + t));
  }

  lemma DashRuns(u: string)
    ensures Runs(['-'] + (['C'] + (['S'] + (['V'] + ([' '] + u))))) == ["-"] + Runs(u)
  {
    RunsSkip(' ', u);
    RunsSkip('V', [' '] + u);
    RunsSkip('S', ['V'] + ([' '] + u));
    RunsSkip('C', ['S'] + (['V'] + ([' '] + u)));
    RunsSingle('-', ['C'] + (['S'] + (['V'] + ([' '] + u))));
  }

  lemma OpeningRuns(w: string)
    ensures Runs(['"'] + (['('] + (['P'] + (['D'] + (['H'] + w))))) == Runs(w)
  {
    RunsSkip('H', w);
    RunsSkip('D', ['H'] + w);
    RunsSkip('P', ['D'] + (['H'] + w));
    RunsSkip('(', ['P'] + (['D'] + (['H'] + w)));
    RunsSkip('"', ['('] + (['P'] + (['D'] + (['H'] + w))));
  }

  lemma ThreeMatches(x: seq<string>)
    ensures ["-"] + (["4"] + (["0"] + x)) == ["-", "4", "0"] + x
  {
  }

  lemma MarkerChars(t: string)
    ensures Marker + t == ['"'] + (['('] + (['P'] + (['D'] + (['H'] + (['-'] + (['C'] + (['S'] + (['V'] + ([' '] + (['4'] + (['.'] + (['0'] + t))))))))))))
  {
    assert Marker == ['"', '(', 'P', 'D', 'H', '-', 'C', 'S', 'V', ' ', '4', '.', '0'];
  }

  /**
   In the first cell Perfmon writes, the matches are the dash of the marker,
   the two digits of the version and the bias, so the offset is the bias.
   */
  lemma StandardFirstCell(zone: string, bias: string, previous: int)
    requires forall i :: 0 <= i < |zone| ==> !IsDashOrDigit(zone[i])
    requires |bias| > 0 && AllDashOrDigit(bias)
    ensures Runs(StandardCell(zone, bias)) == ["-", "4", "0", bias]
    ensures UtcOffset(StandardCell(zone, bias), previous) == ParseRun(bias)
  {
    var t := ") (" + (zone + (")(" + (bias + ")\"")));
    ZoneAndBias(zone, bias);
    assert zone + (")(" + (bias + ")\"")) == zone + ")(" + bias + ")\"";
    RunsNone(") (", zone + (")(" + (bias + ")\"")));
    assert t[0] == ')';
    MarkerRuns(t);
  }

  // ---------------------------------------------------------------------------
  // ParsePerfMonFileHeader

  /**
   The cells of a header that name counters: after the first cell when the
   header is quoted, those starting with `"\` (quoted) or `\` (unquoted).
   */
  function CounterCells(s: PerfmonSettings, e: Engine, headerLine: string, quoted: bool): seq<string> {
    var prefix := if quoted then "\"\\" else "\\";
    Where(Skip(e.split(s.columnSplitter, headerLine), if quoted then 1 else 0), (c: string) => StartsWith(c, prefix))
  }

  /** A counter cell with its reserved characters replaced, split on `\`. */
  function CounterPath(s: PerfmonSettings, cell: string): seq<string> {
    SplitOnChar(Extensions.Sanitize(cell, s.reservedCharacters, s.replaceReservedWith), '\\')
  }

  /**
   The counter of a header cell, read from `column`: host, object and counter
   are parts 2, 3 and 4 of its path, trimmed of the replacement character; a
   path with fewer parts is an IndexOutOfRangeException.
   */
  function CounterOf(s: PerfmonSettings, cell: string, column: int): (r: Result<PerfmonCounter>)
    ensures r.Ok? <==> |CounterPath(s, cell)| >= 5
    ensures r.Fail? ==> r.error.kind == IndexOutOfRangeException
  {
    var p := CounterPath(s, cell);
    if |p| < 5 then Throw(IndexOutOfRangeException, IndexOutOfRangeMessage)
    else
      var rw := s.replaceReservedWith;
      Ok(PerfmonCounter(column, TrimChar(p[2], rw), TrimChar(p[3], rw), TrimChar(p[4], rw)))
  }

  /** The `Select` over the counter cells from cell `i`, with `acc` the counters made so far. */
  function CountersFrom(s: PerfmonSettings, cells: seq<string>, i: nat, acc: seq<PerfmonCounter>): (r: Result<seq<PerfmonCounter>>)
    requires i <= |cells| && |acc| == i
    ensures r.Ok? ==> |r.value| == |cells| && r.value[..i] == acc
    ensures r.Fail? <==> exists k :: i <= k < |cells| && |CounterPath(s, cells[k])| < 5
    decreases |cells| - i
  {
    if i == |cells| then Ok(acc)
    else
      var c := CounterOf(s, cells[i], i + 1);
      if c.Fail? then
        assert |CounterPath(s, cells[i])| < 5;
        Fail(c.error)
      else
        var r := CountersFrom(s, cells, i + 1, acc + [c.value]);
        KeepsPrefix(acc, acc + [c.value], r);
        r
  }

  /** One step of the `Select`: a short path throws, a full one adds its counter and goes on. */
  lemma CountersStep(s: PerfmonSettings, cells: seq<string>, i: nat, acc: seq<PerfmonCounter>)
    requires i < |cells| && |acc| == i
    ensures var p := CounterPath(s, cells[i]);
      && (|p| < 5 ==> CountersFrom(s, cells, i, acc) == Throw(IndexOutOfRangeException, IndexOutOfRangeMessage))
      && (|p| >= 5 ==> CountersFrom(s, cells, i, acc) == CountersFrom(s, cells, i + 1, acc + [PerfmonCounter(i + 1,
            TrimChar(p[2], s.replaceReservedWith), TrimChar(p[3], s.replaceReservedWith), TrimChar(p[4], s.replaceReservedWith))]))
  {
  }

  /** Each counter comes from the cell at its position, read from the column after it. */
  lemma {:induction false} CountersFromCells(s: PerfmonSettings, cells: seq<string>, i: nat, acc: seq<PerfmonCounter>)
    requires i <= |cells| && |acc| == i && CountersFrom(s, cells, i, acc).Ok?
    ensures var r := CountersFrom(s, cells, i, acc).value;
      forall k :: i <= k < |cells| ==> CounterOf(s, cells[k], k + 1) == Ok(r[k])
    decreases |cells| - i
  {
    if i < |cells| {
      var c := CounterOf(s, cells[i], i + 1);
      assert c.Ok?;
      var r := CountersFrom(s, cells, i + 1, acc + [c.value]);
      assert CountersFrom(s, cells, i, acc) == r;
      CountersFromCells(s, cells, i + 1, acc + [c.value]);
      var v := r.value;
      assert v[i] == c.value by {
        assert v[..i + 1] == acc + [c.value];
        assert v[i] == v[..i + 1][i];
      }
      forall k | i <= k < |cells|
        ensures CounterOf(s, cells[k], k + 1) == Ok(v[k])
      {
        if k == i {
          assert CounterOf(s, cells[k], k + 1) == c;
        }
      }
    }
  }

  /**
   `ParsePerfMonFileHeader`: a blank header has no counters; otherwise every
   counter cell becomes a counter, numbered 1, 2, 3, ... in order.
   */
  function PerfmonHeader(s: PerfmonSettings, e: Engine, headerLine: NString, quoted: bool): (r: Result<seq<PerfmonCounter>>)
    ensures IsNullOrWhiteSpace(headerLine) ==> r == Ok([])
    ensures !IsNullOrWhiteSpace(headerLine) ==> r == CountersFrom(s, CounterCells(s, e, headerLine.value, quoted), 0, [])
  {
    if IsNullOrWhiteSpace(headerLine) then Ok([])
    else CountersFrom(s, CounterCells(s, e, headerLine.value, quoted), 0, [])
  }

  /**
   What a header parse gives: one counter per counter cell, in order, its
   `ColumnIndex` its position counted from 1, its host, object and counter
   from parts 2, 3 and 4 of the cell's path; the parse fails exactly when a
   counter cell's path has fewer than five parts.
   */
  lemma HeaderCounters(s: PerfmonSettings, e: Engine, headerLine: string, quoted: bool)
    requires !IsBlank(headerLine)
    ensures var cells := CounterCells(s, e, headerLine, quoted);
      var r := PerfmonHeader(s, e, Some(headerLine), quoted);
      && (r.Fail? <==> exists k :: 0 <= k < |cells| && |CounterPath(s, cells[k])| < 5)
      && (r.Ok? ==> |r.value| == |cells|)
      && (r.Ok? ==> forall k :: 0 <= k < |cells| ==>
            var p := CounterPath(s, cells[k]);
            r.value[k] == PerfmonCounter(k + 1, TrimChar(p[2], s.replaceReservedWith), TrimChar(p[3], s.replaceReservedWith), TrimChar(p[4], s.replaceReservedWith)))
  {
    var cells := CounterCells(s, e, headerLine, quoted);
    if CountersFrom(s, cells, 0, []).Ok? {
      CountersFromCells(s, cells, 0, []);
    }
  }

  /**
   Which cells name counters: a quoted header never takes its first cell, and
   a cell is kept exactly when it starts with `"\` (quoted) or `\` (unquoted).
   */
  lemma CounterCellsSpec(s: PerfmonSettings, e: Engine, headerLine: string, quoted: bool, c: string)
    ensures var cells := e.split(s.columnSplitter, headerLine);
      c in CounterCells(s, e, headerLine, quoted) <==>
        c in Skip(cells, if quoted then 1 else 0) && StartsWith(c, if quoted then "\"\\" else "\\")
  {
  }

  // ---------------------------------------------------------------------------
  // GroupBy

  function ObjectOf(c: PerfmonCounter): string {
    c.performanceObject
  }

  function HostOf(c: PerfmonCounter): string {
    c.host
  }

  /** The position of the first occurrence of `x`. */
  function FirstIndex(xs: seq<string>, x: string): (i: nat)
    requires x in xs
    ensures i < |xs| && xs[i] == x && x !in xs[..i]
  {
    if xs[0] == x then 0
    else
      var j := FirstIndex(xs[1..], x);
      assert xs[..j + 1] == [xs[0]] + xs[1..][..j];
      j + 1
  }

  lemma FirstIndexPrefix(xs: seq<string>, y: string, x: string)
    requires x in xs
    ensures FirstIndex(xs + [y], x) == FirstIndex(xs, x)
  {
    var i := FirstIndex(xs, x);
    assert (xs + [y])[i] == x;
    assert forall k :: 0 <= k < i ==> (xs + [y])[k] == xs[k];
  }

  /** The distinct strings of `xs`, in the order of their first occurrence. */
  function FirstOccurrences(xs: seq<string>): (r: seq<string>)
    ensures forall x :: x in r <==> x in xs
    ensures forall i, j :: 0 <= i < j < |r| ==> r[i] != r[j]
    ensures forall i, j :: 0 <= i < j < |r| ==> FirstIndex(xs, r[i]) < FirstIndex(xs, r[j])
  {
    if |xs| == 0 then []
    else
      var front, last := xs[..|xs| - 1], xs[|xs| - 1];
      assert xs == front + [last];
      var r := FirstOccurrences(front);
      forall x | x in r ensures FirstIndex(xs, x) == FirstIndex(front, x) {
        FirstIndexPrefix(front, last, x);
      }
      if last in r then r
      else
        assert forall k :: 0 <= k < |front| ==> xs[k] == front[k];
        assert FirstIndex(xs, last) == |xs| - 1;
        r + [last]
  }

  /** The counters that share one key. */
  datatype Group = Group(key: string, members: seq<PerfmonCounter>)

  function KeysOf(cs: seq<PerfmonCounter>, key: PerfmonCounter -> string): (r: seq<string>)
    ensures |r| == |cs| && forall i :: 0 <= i < |cs| ==> r[i] == key(cs[i])
  {
    seq(|cs|, i requires 0 <= i < |cs| => key(cs[i]))
  }

  /** The group of `k`: the counters with that key, in order. */
  function GroupOf(cs: seq<PerfmonCounter>, key: PerfmonCounter -> string, k: string): (g: Group)
    ensures g.key == k
    ensures forall c :: c in g.members <==> c in cs && key(c) == k
    ensures forall c :: c in cs ==> multiset(g.members)[c] == if key(c) == k then multiset(cs)[c] else 0
  {
    Group(k, Where(cs, (c: PerfmonCounter) => key(c) == k))
  }

  /** A group keeps the counters' order: the group of a concatenation is the groups of its parts, one after the other. */
  lemma GroupOfAppend(a: seq<PerfmonCounter>, b: seq<PerfmonCounter>, key: PerfmonCounter -> string, k: string)
    ensures GroupOf(a + b, key, k).members == GroupOf(a, key, k).members + GroupOf(b, key, k).members
  {
    WhereAppend(a, b, (c: PerfmonCounter) => key(c) == k);
  }

  /**
   `GroupBy(key)`: one group per distinct key, in the order the keys first
   occur; a group holds, in order, exactly the counters with its key.
   */
  function GroupBy(cs: seq<PerfmonCounter>, key: PerfmonCounter -> string): (r: seq<Group>)
    ensures |r| == |FirstOccurrences(KeysOf(cs, key))|
    ensures forall i :: 0 <= i < |r| ==> r[i].key == FirstOccurrences(KeysOf(cs, key))[i]
    ensures forall i :: 0 <= i < |r| ==> r[i] == GroupOf(cs, key, r[i].key)
    ensures forall i, j :: 0 <= i < j < |r| ==> r[i].key != r[j].key
    ensures forall i :: 0 <= i < |r| ==> |r[i].members| > 0
    ensures forall i, c :: 0 <= i < |r| && c in r[i].members <==> 0 <= i < |r| && c in cs && key(c) == r[i].key
    ensures forall c :: c in cs ==> exists i :: 0 <= i < |r| && r[i].key == key(c)
  {
    var ks := FirstOccurrences(KeysOf(cs, key));
    var r := GroupsOf(cs, key, ks);
    forall i, j | 0 <= i < j < |r| ensures r[i].key != r[j].key {
      assert r[i].key == ks[i] && r[j].key == ks[j];
    }
    forall i, c | 0 <= i < |r| ensures c in r[i].members <==> c in cs && key(c) == r[i].key {
      assert r[i] == GroupOf(cs, key, ks[i]);
    }
    GroupsNonEmpty(cs, key, ks);
    forall c | c in cs ensures exists i :: 0 <= i < |r| && r[i].key == key(c) {
      var j :| 0 <= j < |cs| && cs[j] == c;
      assert KeysOf(cs, key)[j] == key(c);
      GroupsCover(cs, key, ks, key(c));
    }
    r
  }

  /** Every key drawn from the counters has at least one counter in its group. */
  lemma GroupsNonEmpty(cs: seq<PerfmonCounter>, key: PerfmonCounter -> string, ks: seq<string>)
    requires forall x :: x in ks ==> x in KeysOf(cs, key)
    ensures forall i :: 0 <= i < |ks| ==> |GroupsOf(cs, key, ks)[i].members| > 0
  {
    var r := GroupsOf(cs, key, ks);
    var all := KeysOf(cs, key);
    forall i | 0 <= i < |ks| ensures |r[i].members| > 0 {
      assert ks[i] in all;
      var j :| 0 <= j < |cs| && all[j] == ks[i];
      assert r[i] == GroupOf(cs, key, ks[i]);
      assert cs[j] in r[i].members;
    }
  }

  /** A listed key has a group. */
  lemma GroupsCover(cs: seq<PerfmonCounter>, key: PerfmonCounter -> string, ks: seq<string>, k: string)
    requires k in ks
    ensures exists i :: 0 <= i < |ks| && GroupsOf(cs, key, ks)[i].key == k
  {
    var i :| 0 <= i < |ks| && ks[i] == k;
    assert GroupsOf(cs, key, ks)[i] == GroupOf(cs, key, ks[i]);
  }

  /** One group per key of `ks`, in order. */
  function GroupsOf(cs: seq<PerfmonCounter>, key: PerfmonCounter -> string, ks: seq<string>): (r: seq<Group>)
    ensures |r| == |ks|
    ensures forall i :: 0 <= i < |ks| ==> r[i] == GroupOf(cs, key, ks[i])
  {
    if |ks| == 0 then [] else [GroupOf(cs, key, ks[0])] + GroupsOf(cs, key, ks[1..])
  }

  // ---------------------------------------------------------------------------
  // ProcessPerfmonLogLine

  /** What every point of a run shares: the settings, the default tags and the retention policy. */
  datatype LineContext = LineContext(s: PerfmonSettings, e: Engine, defaultTags: Entries<string, string>, retention: Option<string>)

  /**
   The reading of the cell at `index`: none when the cell is blank or not a
   number; a row too short for the index is an IndexOutOfRangeException.
   */
  function Reading(e: Engine, cells: seq<string>, index: int): (r: Result<Option<Double>>)
    ensures r.Fail? <==> !(0 <= index < |cells|)
    ensures r.Fail? ==> r.error.kind == IndexOutOfRangeException
    ensures r.Ok? && r.value.Some? ==> !IsBlank(cells[index]) && e.parseDouble(cells[index]) == r.value
    ensures r.Ok? && r.value.None? ==> IsBlank(cells[index]) || e.parseDouble(cells[index]).None?
  {
    if !(0 <= index < |cells|) then Throw(IndexOutOfRangeException, IndexOutOfRangeMessage)
    else if IsBlank(cells[index]) then Ok(None)
    else Ok(e.parseDouble(cells[index]))
  }

  /** A counter whose cell holds a number in this row. */
  predicate Parsed(e: Engine, cells: seq<string>, c: PerfmonCounter) {
    Reading(e, cells, c.columnIndex).Ok? && Reading(e, cells, c.columnIndex).value.Some?
  }

  /** The point every output starts from, at `time`. */
  function BasePoint(lc: LineContext, measurement: string, time: int): Point {
    Point(measurement, Milliseconds, Some(time), lc.defaultTags, [], lc.retention, false)
  }

  /** The counter names among `members[k..]` whose cell holds a number. */
  function ParsedNames(e: Engine, cells: seq<string>, members: seq<PerfmonCounter>, k: nat): set<string>
    requires k <= |members|
  {
    set m | k <= m < |members| && Parsed(e, cells, members[m]) :: members[m].counterName
  }

  /**
   The MultiMeasurement loop over one host's counters from `k`: every
   counter whose cell holds a number sets the field of its name.
   */
  function FieldsFrom(e: Engine, cells: seq<string>, members: seq<PerfmonCounter>, k: nat, p: Point): (r: Result<Point>)
    requires k <= |members|
    ensures r.Ok? ==> r.value == p.(fields := r.value.fields)
    ensures r.Ok? ==> Keys(r.value.fields) == Keys(p.fields) + ParsedNames(e, cells, members, k)
    ensures r.Ok? && DistinctKeys(p.fields) ==> DistinctKeys(r.value.fields)
    ensures r.Fail? <==> exists m :: k <= m < |members| && !(0 <= members[m].columnIndex < |cells|)
    decreases |members| - k
  {
    if k == |members| then
      assert ParsedNames(e, cells, members, k) == {};
      Ok(p)
    else
      var v :- Reading(e, cells, members[k].columnIndex);
      var q := if v.Some? then p.(fields := Put(p.fields, members[k].counterName, NumberField(v.value))) else p;
      FieldsStep(e, cells, members, k, p);
      FieldsFrom(e, cells, members, k + 1, q)
  }

  /** One counter of `FieldsFrom`: its reading keeps the names distinct and adds its name exactly when it parsed. */
  lemma FieldsStep(e: Engine, cells: seq<string>, members: seq<PerfmonCounter>, k: nat, p: Point)
    requires k < |members| && Reading(e, cells, members[k].columnIndex).Ok?
    ensures var v := Reading(e, cells, members[k].columnIndex).value;
      var q := if v.Some? then p.(fields := Put(p.fields, members[k].counterName, NumberField(v.value))) else p;
      && (DistinctKeys(p.fields) ==> DistinctKeys(q.fields))
      && ParsedNames(e, cells, members, k) == ParsedNames(e, cells, members, k + 1) + (if v.Some? then {members[k].counterName} else {})
  {
    var v := Reading(e, cells, members[k].columnIndex).value;
    if v.Some? && DistinctKeys(p.fields) {
      PutDistinct(p.fields, members[k].counterName, NumberField(v.value));
    }
    assert ParsedNames(e, cells, members, k) == ParsedNames(e, cells, members, k + 1) + (if v.Some? then {members[k].counterName} else {});
  }

  /**
   The field of a counter name holds the reading of the last counter of that
   name whose cell holds a number: a later duplicate column overwrites an
   earlier one, and a blank or non-numeric cell changes nothing.
   */
  lemma {:induction false} FieldsFromLast(e: Engine, cells: seq<string>, members: seq<PerfmonCounter>, k: nat, p: Point, m: nat)
    requires k <= m < |members| && Parsed(e, cells, members[m])
    requires forall m' :: m < m' < |members| && members[m'].counterName == members[m].counterName ==> !Parsed(e, cells, members[m'])
    requires FieldsFrom(e, cells, members, k, p).Ok?
    ensures Get(FieldsFrom(e, cells, members, k, p).value.fields, members[m].counterName)
      == Some(NumberField(Reading(e, cells, members[m].columnIndex).value.value))
    decreases |members| - k
  {
    var n := members[m].counterName;
    var v := Reading(e, cells, members[k].columnIndex).value;
    var q := if v.Some? then p.(fields := Put(p.fields, members[k].counterName, NumberField(v.value))) else p;
    assert FieldsFrom(e, cells, members, k, p) == FieldsFrom(e, cells, members, k + 1, q);
    if k < m {
      FieldsFromLast(e, cells, members, k + 1, q, m);
    } else {
      PutGet(p.fields, n, NumberField(v.value), n);
      FieldsFromUnset(e, cells, members, k + 1, q, n);
    }
  }

  /** Counters of another name, or whose cells hold no number, leave a field alone. */
  lemma {:induction false} FieldsFromUnset(e: Engine, cells: seq<string>, members: seq<PerfmonCounter>, k: nat, p: Point, n: string)
    requires k <= |members|
    requires forall m' :: k <= m' < |members| && members[m'].counterName == n ==> !Parsed(e, cells, members[m'])
    requires FieldsFrom(e, cells, members, k, p).Ok?
    ensures Get(FieldsFrom(e, cells, members, k, p).value.fields, n) == Get(p.fields, n)
    decreases |members| - k
  {
    if k < |members| {
      var v := Reading(e, cells, members[k].columnIndex).value;
      var q := if v.Some? then p.(fields := Put(p.fields, members[k].counterName, NumberField(v.value))) else p;
      if v.Some? {
        PutGet(p.fields, members[k].counterName, NumberField(v.value), n);
      }
      FieldsFromUnset(e, cells, members, k + 1, q, n);
    }
  }

  /**
   The MultiMeasurement point of one (object, host) group: measurement the
   object, the default tags and `Host`, one field per counter name; none when
   no counter of the group holds a number.
   */
  function MultiPoint(lc: LineContext, cells: seq<string>, time: int, obj: string, host: Group): (r: Result<Option<Point>>)
    ensures r.Ok? ==> "Host" !in Keys(lc.defaultTags)
    ensures r.Ok? && r.value.Some? ==>
      r.value.value == BasePoint(lc, obj, time).(tags := lc.defaultTags + [("Host", host.key)], fields := r.value.value.fields)
    ensures r.Ok? && r.value.Some? ==> Keys(r.value.value.fields) == ParsedNames(lc.e, cells, host.members, 0) && |r.value.value.fields| > 0
    ensures r.Ok? ==> (r.value.None? <==> ParsedNames(lc.e, cells, host.members, 0) == {})
  {
    var tags :- Add(lc.defaultTags, "Host", host.key);
    var p :- FieldsFrom(lc.e, cells, host.members, 0, BasePoint(lc, obj, time).(tags := tags));
    if |p.fields| > 0 then Ok(Some(p))
    else
      assert Keys(p.fields) == {};
      Ok(None)
  }

  /**
   The single-measurement point of one reading: the configured measurement,
   the default tags plus `Host`, `PerformanceObject` and `PerformanceCounter`,
   and the one field `CounterValue`.
   */
  function SinglePoint(lc: LineContext, time: int, host: string, c: PerfmonCounter, v: Double): (r: Result<Point>)
    ensures r.Ok? <==> "Host" !in Keys(lc.defaultTags) && "PerformanceObject" !in Keys(lc.defaultTags) && "PerformanceCounter" !in Keys(lc.defaultTags)
    ensures r.Fail? ==> r.error.kind == ArgumentException
    ensures r.Ok? ==> r.value == BasePoint(lc, lc.s.measurement, time).(
      tags := lc.defaultTags + [("Host", host), ("PerformanceObject", c.performanceObject), ("PerformanceCounter", c.counterName)],
      fields := [("CounterValue", NumberField(v))])
  {
    var t1 :- Add(lc.defaultTags, "Host", host);
    KeysAppend(lc.defaultTags, ("Host", host));
    var t2 :- Add(t1, "PerformanceObject", c.performanceObject);
    KeysAppend(t1, ("PerformanceObject", c.performanceObject));
    var t3 :- Add(t2, "PerformanceCounter", c.counterName);
    assert t3 == lc.defaultTags + [("Host", host), ("PerformanceObject", c.performanceObject), ("PerformanceCounter", c.counterName)];
    Ok(BasePoint(lc, lc.s.measurement, time).(tags := t3, fields := [("CounterValue", NumberField(v))]))
  }

  /** The number of counters among `members[k..]` whose cell holds a number. */
  function ParsedCount(e: Engine, cells: seq<string>, members: seq<PerfmonCounter>, k: nat): nat
    requires k <= |members|
    decreases |members| - k
  {
    if k == |members| then 0 else (if Parsed(e, cells, members[k]) then 1 else 0) + ParsedCount(e, cells, members, k + 1)
  }

  /** The counters among `members[k..]` whose cell holds a number, in order. */
  function ParsedCounters(e: Engine, cells: seq<string>, members: seq<PerfmonCounter>, k: nat): (r: seq<PerfmonCounter>)
    requires k <= |members|
    ensures |r| == ParsedCount(e, cells, members, k)
    ensures forall c :: c in r ==> Parsed(e, cells, c)
    decreases |members| - k
  {
    if k == |members| then []
    else (if Parsed(e, cells, members[k]) then [members[k]] else []) + ParsedCounters(e, cells, members, k + 1)
  }

  /** The number the cell of a parsed counter holds. */
  function CounterReading(e: Engine, cells: seq<string>, c: PerfmonCounter): Double
    requires Parsed(e, cells, c)
  {
    Reading(e, cells, c.columnIndex).value.value
  }

  /** The shape of every point a line yields in the configured output mode. */
  predicate Shaped(lc: LineContext, time: int, p: Point) {
    var d := |lc.defaultTags|;
    && p.precision == Milliseconds && p.utcTimestamp == Some(time) && p.retention == lc.retention && !p.saved
    && |p.tags| > d && p.tags[..d] == lc.defaultTags && p.tags[d].0 == "Host"
    && if lc.s.multiMeasurements then |p.tags| == d + 1 && |p.fields| > 0
       else && |p.tags| == d + 3 && p.tags[d + 1].0 == "PerformanceObject" && p.tags[d + 2].0 == "PerformanceCounter"
            && p.measurement == lc.s.measurement && |p.fields| == 1 && p.fields[0].0 == "CounterValue"
  }

  /** A single-measurement point has the single-measurement shape, tagged with its host. */
  lemma SinglePointShaped(lc: LineContext, time: int, host: string, c: PerfmonCounter, v: Double)
    requires !lc.s.multiMeasurements && SinglePoint(lc, time, host, c, v).Ok?
    ensures var p := SinglePoint(lc, time, host, c, v).value;
      Shaped(lc, time, p) && p.tags[|lc.defaultTags|].1 == host
  {
    var p := SinglePoint(lc, time, host, c, v).value;
    assert p.tags[..|lc.defaultTags|] == lc.defaultTags;
  }

  /** A MultiMeasurement point has the MultiMeasurement shape, with the object as its measurement. */
  lemma MultiPointShaped(lc: LineContext, cells: seq<string>, time: int, obj: string, host: Group)
    requires lc.s.multiMeasurements
    requires MultiPoint(lc, cells, time, obj, host).Ok? && MultiPoint(lc, cells, time, obj, host).value.Some?
    ensures var p := MultiPoint(lc, cells, time, obj, host).value.value;
      Shaped(lc, time, p) && p.measurement == obj
  {
    var p := MultiPoint(lc, cells, time, obj, host).value.value;
    assert p.tags[..|lc.defaultTags|] == lc.defaultTags;
  }

  /** Every point of `ps` from position `from` on has the shape of the mode. */
  predicate ShapedFrom(lc: LineContext, time: int, ps: seq<Point>, from: nat) {
    forall n :: from <= n < |ps| ==> Shaped(lc, time, ps[n])
  }

  /** Every point of `ps` from position `from` on carries the `Host` tag `host`. */
  predicate HostTaggedFrom(lc: LineContext, ps: seq<Point>, from: nat, host: string) {
    forall n :: from <= n < |ps| ==> |ps[n].tags| > |lc.defaultTags| && ps[n].tags[|lc.defaultTags|] == ("Host", host)
  }

  /**
   The single-measurement loop over one host's counters from `k`: one point
   per counter whose cell holds a number, in order, appended to `acc`.
   */
  function SingleFrom(lc: LineContext, cells: seq<string>, time: int, host: string, members: seq<PerfmonCounter>, k: nat, acc: seq<Point>): (r: Result<seq<Point>>)
    requires k <= |members| && !lc.s.multiMeasurements
    ensures r.Ok? ==> |r.value| == |acc| + ParsedCount(lc.e, cells, members, k) && r.value[..|acc|] == acc
    decreases |members| - k
  {
    if k == |members| then Ok(acc)
    else
      var v := Reading(lc.e, cells, members[k].columnIndex);
      if v.Fail? then Fail(v.error)
      else if v.value.None? then SingleFrom(lc, cells, time, host, members, k + 1, acc)
      else
        var p := SinglePoint(lc, time, host, members[k], v.value.value);
        if p.Fail? then Fail(p.error)
        else
          var r := SingleFrom(lc, cells, time, host, members, k + 1, acc + [p.value]);
          assert r.Ok? ==> r.value[..|acc|] == r.value[..|acc| + 1][..|acc|];
          r
  }

  /**
   The points the single-measurement loop appends are, in order, the
   single-measurement points of the counters whose cells hold a number, each
   with its own reading.
   */
  lemma {:induction false} SingleFromPoints(lc: LineContext, cells: seq<string>, time: int, host: string, members: seq<PerfmonCounter>, k: nat, acc: seq<Point>)
    requires k <= |members| && !lc.s.multiMeasurements
    requires SingleFrom(lc, cells, time, host, members, k, acc).Ok?
    ensures SinglePoints(lc, time, host, cells, ParsedCounters(lc.e, cells, members, k))
      == Oks(SingleFrom(lc, cells, time, host, members, k, acc).value[|acc|..])
    decreases |members| - k
  {
    var w := SingleFrom(lc, cells, time, host, members, k, acc).value;
    if k == |members| {
      assert w[|acc|..] == [];
    } else {
      var v := Reading(lc.e, cells, members[k].columnIndex);
      if v.value.None? {
        assert SingleFrom(lc, cells, time, host, members, k, acc) == SingleFrom(lc, cells, time, host, members, k + 1, acc);
        assert ParsedCounters(lc.e, cells, members, k) == ParsedCounters(lc.e, cells, members, k + 1);
        SingleFromPoints(lc, cells, time, host, members, k + 1, acc);
      } else {
        var p := SinglePoint(lc, time, host, members[k], v.value.value).value;
        assert SingleFrom(lc, cells, time, host, members, k, acc) == SingleFrom(lc, cells, time, host, members, k + 1, acc + [p]);
        SingleFromPoints(lc, cells, time, host, members, k + 1, acc + [p]);
        assert w[..|acc| + 1] == acc + [p];
        assert [members[k]][1..] == [];
        assert SinglePoints(lc, time, host, cells, [members[k]]) == [Ok(p)];
        SingleFromNext(lc, cells, time, host, members, k, acc, p, w);
      }
    }
  }

  /**
   One parsed counter of `SingleFrom`: its point comes first, then the
   points of the counters after it.
   */
  lemma SingleFromNext(lc: LineContext, cells: seq<string>, time: int, host: string, members: seq<PerfmonCounter>, k: nat,
                       acc: seq<Point>, p: Point, w: seq<Point>)
    requires k < |members| && Parsed(lc.e, cells, members[k])
    requires SinglePoints(lc, time, host, cells, [members[k]]) == [Ok(p)]
    requires |acc| + 1 <= |w| && w[..|acc| + 1] == acc + [p]
    requires SinglePoints(lc, time, host, cells, ParsedCounters(lc.e, cells, members, k + 1)) == Oks(w[|acc| + 1..])
    ensures SinglePoints(lc, time, host, cells, ParsedCounters(lc.e, cells, members, k)) == Oks(w[|acc|..])
  {
    var rest := ParsedCounters(lc.e, cells, members, k + 1);
    assert ParsedCounters(lc.e, cells, members, k) == [members[k]] + rest;
    SinglePointsCons(lc, time, host, cells, members[k], rest);
    assert SinglePoints(lc, time, host, cells, ParsedCounters(lc.e, cells, members, k)) == [Ok(p)] + Oks(w[|acc| + 1..]);
    var tail := w[|acc| + 1..];
    assert w[|acc|..] == [p] + tail by {
      assert w[|acc|] == w[..|acc| + 1][|acc|];
    }
    OksCons(p, tail);
    assert Oks(w[|acc|..]) == [Ok(p)] + Oks(tail);
  }

  /** The single-measurement points of some parsed counters, in order. */
  function SinglePoints(lc: LineContext, time: int, host: string, cells: seq<string>, cs: seq<PerfmonCounter>): (r: seq<Result<Point>>)
    requires forall c :: c in cs ==> Parsed(lc.e, cells, c)
    ensures |r| == |cs|
  {
    if |cs| == 0 then []
    else [SinglePoint(lc, time, host, cs[0], CounterReading(lc.e, cells, cs[0]))] + SinglePoints(lc, time, host, cells, cs[1..])
  }

  /** Some points, each as a successful result. */
  function Oks(ps: seq<Point>): (r: seq<Result<Point>>)
    ensures |r| == |ps|
  {
    seq(|ps|, n requires 0 <= n < |ps| => Ok(ps[n]))
  }

  /** The points of a counter list with a head: the head's point, then the rest's. */
  lemma SinglePointsCons(lc: LineContext, time: int, host: string, cells: seq<string>, c: PerfmonCounter, cs: seq<PerfmonCounter>)
    requires Parsed(lc.e, cells, c) && forall d :: d in cs ==> Parsed(lc.e, cells, d)
    ensures SinglePoints(lc, time, host, cells, [c] + cs) == SinglePoints(lc, time, host, cells, [c]) + SinglePoints(lc, time, host, cells, cs)
  {
    var all := [c] + cs;
    assert all[0] == c && all[1..] == cs;
    assert [c][1..] == [];
  }

  /** The same for the successful results of a point list with a head. */
  lemma OksCons(p: Point, ps: seq<Point>)
    ensures Oks([p] + ps) == [Ok(p)] + Oks(ps)
  {
    var all := [p] + ps;
    assert all[0] == p && all[1..] == ps;
  }

  /** The points the single-measurement loop adds have the single-measurement shape and the host's tag. */
  lemma {:induction false} SingleFromShaped(lc: LineContext, cells: seq<string>, time: int, host: string, members: seq<PerfmonCounter>, k: nat, acc: seq<Point>)
    requires k <= |members| && !lc.s.multiMeasurements
    requires SingleFrom(lc, cells, time, host, members, k, acc).Ok?
    ensures var w := SingleFrom(lc, cells, time, host, members, k, acc).value;
      ShapedFrom(lc, time, w, |acc|) && HostTaggedFrom(lc, w, |acc|, host)
    decreases |members| - k
  {
    if k < |members| {
      var v := Reading(lc.e, cells, members[k].columnIndex);
      assert v.Ok?;
      if v.value.None? {
        assert SingleFrom(lc, cells, time, host, members, k, acc) == SingleFrom(lc, cells, time, host, members, k + 1, acc);
        SingleFromShaped(lc, cells, time, host, members, k + 1, acc);
      } else {
        var p := SinglePoint(lc, time, host, members[k], v.value.value).value;
        var w := SingleFrom(lc, cells, time, host, members, k, acc).value;
        assert w == SingleFrom(lc, cells, time, host, members, k + 1, acc + [p]).value;
        SinglePointShaped(lc, time, host, members[k], v.value.value);
        SingleFromShaped(lc, cells, time, host, members, k + 1, acc + [p]);
        assert w[|acc|] == p by {
          assert w[..|acc| + 1] == acc + [p];
          assert w[|acc|] == w[..|acc| + 1][|acc|];
        }
        ShapedFromExtend(lc, time, w, |acc|, host);
      }
    }
  }

  /** A shaped point tagged with the host, followed by such points, makes a longer run of them. */
  lemma ShapedFromExtend(lc: LineContext, time: int, w: seq<Point>, from: nat, host: string)
    requires from < |w| && Shaped(lc, time, w[from]) && w[from].tags[|lc.defaultTags|].1 == host
    requires ShapedFrom(lc, time, w, from + 1) && HostTaggedFrom(lc, w, from + 1, host)
    ensures ShapedFrom(lc, time, w, from) && HostTaggedFrom(lc, w, from, host)
  {
  }

  /** The points of one host group appended to `acc`, in the configured mode. */
  function HostPoints(lc: LineContext, cells: seq<string>, time: int, obj: string, host: Group, acc: seq<Point>): (r: Result<seq<Point>>)
    ensures lc.s.multiMeasurements ==> (r.Ok? <==> MultiPoint(lc, cells, time, obj, host).Ok?)
    ensures lc.s.multiMeasurements && r.Ok? ==>
      r.value == acc + if MultiPoint(lc, cells, time, obj, host).value.Some? then [MultiPoint(lc, cells, time, obj, host).value.value] else []
    ensures !lc.s.multiMeasurements ==> r == SingleFrom(lc, cells, time, host.key, host.members, 0, acc)
    ensures r.Ok? ==> |r.value| >= |acc| && r.value[..|acc|] == acc
    ensures r.Ok? ==> ShapedFrom(lc, time, r.value, |acc|)
    ensures r.Ok? && lc.s.multiMeasurements ==> forall n :: |acc| <= n < |r.value| ==> r.value[n].measurement == obj
  {
    if lc.s.multiMeasurements then
      var point := MultiPoint(lc, cells, time, obj, host);
      if point.Fail? then Fail(point.error)
      else if point.value.None? then Ok(acc)
      else
        MultiPointShaped(lc, cells, time, obj, host);
        assert (acc + [point.value.value])[..|acc|] == acc;
        Ok(acc + [point.value.value])
    else
      var r := SingleFrom(lc, cells, time, host.key, host.members, 0, acc);
      if r.Ok? then
        SingleFromShaped(lc, cells, time, host.key, host.members, 0, acc);
        r
      else r
  }

  /** The loop over the host groups of one object from `j`. */
  function HostsFrom(lc: LineContext, cells: seq<string>, time: int, obj: string, hosts: seq<Group>, j: nat, acc: seq<Point>): (r: Result<seq<Point>>)
    requires j <= |hosts|
    ensures r.Ok? ==> |r.value| >= |acc| && r.value[..|acc|] == acc
    ensures r.Ok? ==> ShapedFrom(lc, time, r.value, |acc|)
    ensures r.Ok? && lc.s.multiMeasurements ==> forall n :: |acc| <= n < |r.value| ==> r.value[n].measurement == obj
    decreases |hosts| - j
  {
    if j == |hosts| then Ok(acc)
    else
      var next := HostPoints(lc, cells, time, obj, hosts[j], acc);
      if next.Fail? then Fail(next.error)
      else
        var r := HostsFrom(lc, cells, time, obj, hosts, j + 1, next.value);
        assert r.Ok? ==> r.value[..|acc|] == r.value[..|next.value|][..|acc|];
        assert r.Ok? ==> forall n :: |acc| <= n < |next.value| ==> r.value[n] == next.value[n];
        r
  }

  /** `r` with `acc` in front of its points; a failure stays as it is. */
  function Prefixed(acc: seq<Point>, r: Result<seq<Point>>): Result<seq<Point>> {
    if r.Ok? then Ok(acc + r.value) else r
  }

  /**
   The points of the host groups `hosts[j..]` of one object: each group's
   points, group after group; the first group that throws decides the
   exception.
   */
  function HostsPoints(lc: LineContext, cells: seq<string>, time: int, obj: string, hosts: seq<Group>, j: nat): Result<seq<Point>>
    requires j <= |hosts|
    decreases |hosts| - j
  {
    if j == |hosts| then Ok([])
    else
      var first :- HostPoints(lc, cells, time, obj, hosts[j], []);
      var rest :- HostsPoints(lc, cells, time, obj, hosts, j + 1);
      Ok(first + rest)
  }

  /** A host group's points do not depend on what came before them. */
  lemma {:induction false} SingleFromShift(lc: LineContext, cells: seq<string>, time: int, host: string, members: seq<PerfmonCounter>, k: nat, acc: seq<Point>)
    requires k <= |members| && !lc.s.multiMeasurements
    ensures SingleFrom(lc, cells, time, host, members, k, acc) == Prefixed(acc, SingleFrom(lc, cells, time, host, members, k, []))
    decreases |members| - k
  {
    if k == |members| {
      assert acc + [] == acc;
    } else {
      var v := Reading(lc.e, cells, members[k].columnIndex);
      if v.Ok? && v.value.None? {
        SingleFromShift(lc, cells, time, host, members, k + 1, acc);
      } else if v.Ok? {
        var p := SinglePoint(lc, time, host, members[k], v.value.value);
        if p.Ok? {
          var q := p.value;
          assert SingleFrom(lc, cells, time, host, members, k, acc) == SingleFrom(lc, cells, time, host, members, k + 1, acc + [q]);
          assert [] + [q] == [q];
          assert SingleFrom(lc, cells, time, host, members, k, []) == SingleFrom(lc, cells, time, host, members, k + 1, [q]);
          SingleFromShift(lc, cells, time, host, members, k + 1, acc + [q]);
          SingleFromShift(lc, cells, time, host, members, k + 1, [q]);
          var rest := SingleFrom(lc, cells, time, host, members, k + 1, []);
          if rest.Ok? {
            ConcatAssoc(acc, [q], rest.value);
          }
        }
      }
    }
  }

  /** The same for one host group in either mode. */
  lemma HostPointsShift(lc: LineContext, cells: seq<string>, time: int, obj: string, host: Group, acc: seq<Point>)
    ensures HostPoints(lc, cells, time, obj, host, acc) == Prefixed(acc, HostPoints(lc, cells, time, obj, host, []))
  {
    if !lc.s.multiMeasurements {
      SingleFromShift(lc, cells, time, host.key, host.members, 0, acc);
    } else {
      assert acc + [] == acc;
    }
  }

  /**
   The host loop from `j` appends to `acc` exactly the points of the host
   groups `hosts[j..]`, group after group.
   */
  lemma {:induction false} HostsFromConcat(lc: LineContext, cells: seq<string>, time: int, obj: string, hosts: seq<Group>, j: nat, acc: seq<Point>)
    requires j <= |hosts|
    ensures HostsFrom(lc, cells, time, obj, hosts, j, acc) == Prefixed(acc, HostsPoints(lc, cells, time, obj, hosts, j))
    decreases |hosts| - j
  {
    if j == |hosts| {
      assert acc + [] == acc;
    } else {
      HostPointsShift(lc, cells, time, obj, hosts[j], acc);
      var first := HostPoints(lc, cells, time, obj, hosts[j], []);
      if first.Ok? {
        assert HostsFrom(lc, cells, time, obj, hosts, j, acc) == HostsFrom(lc, cells, time, obj, hosts, j + 1, acc + first.value);
        HostsFromConcat(lc, cells, time, obj, hosts, j + 1, acc + first.value);
        var rest := HostsPoints(lc, cells, time, obj, hosts, j + 1);
        if rest.Ok? {
          ConcatAssoc(acc, first.value, rest.value);
        }
      }
    }
  }

  /**
   The points of the object groups `groups[i..]`: for each object, the
   points of its counters grouped by host, object after object.
   */
  function ObjectsPoints(lc: LineContext, cells: seq<string>, time: int, groups: seq<Group>, i: nat): Result<seq<Point>>
    requires i <= |groups|
    decreases |groups| - i
  {
    if i == |groups| then Ok([])
    else
      var first :- HostsPoints(lc, cells, time, groups[i].key, GroupBy(groups[i].members, HostOf), 0);
      var rest :- ObjectsPoints(lc, cells, time, groups, i + 1);
      Ok(first + rest)
  }

  /**
   The object loop from `i` appends to `acc` exactly the points of the
   object groups `groups[i..]`, object after object.
   */
  lemma {:induction false} ObjectsFromConcat(lc: LineContext, cells: seq<string>, time: int, groups: seq<Group>, i: nat, acc: seq<Point>)
    requires i <= |groups|
    ensures ObjectsFrom(lc, cells, time, groups, i, acc) == Prefixed(acc, ObjectsPoints(lc, cells, time, groups, i))
    decreases |groups| - i
  {
    if i == |groups| {
      assert acc + [] == acc;
    } else {
      var hosts := GroupBy(groups[i].members, HostOf);
      HostsFromConcat(lc, cells, time, groups[i].key, hosts, 0, acc);
      var first := HostsPoints(lc, cells, time, groups[i].key, hosts, 0);
      if first.Ok? {
        assert ObjectsFrom(lc, cells, time, groups, i, acc) == ObjectsFrom(lc, cells, time, groups, i + 1, acc + first.value);
        ObjectsFromConcat(lc, cells, time, groups, i + 1, acc + first.value);
        var rest := ObjectsPoints(lc, cells, time, groups, i + 1);
        if rest.Ok? {
          ConcatAssoc(acc, first.value, rest.value);
        }
      }
    }
  }

  /** The keys of a list of groups. */
  function GroupKeys(groups: seq<Group>): set<string> {
    set g | g in groups :: g.key
  }

  /** The loop over the object groups from `i`: each object's counters are grouped by host. */
  function ObjectsFrom(lc: LineContext, cells: seq<string>, time: int, groups: seq<Group>, i: nat, acc: seq<Point>): (r: Result<seq<Point>>)
    requires i <= |groups|
    ensures r.Ok? ==> |r.value| >= |acc| && r.value[..|acc|] == acc
    ensures r.Ok? ==> ShapedFrom(lc, time, r.value, |acc|)
    ensures r.Ok? && lc.s.multiMeasurements ==> forall n :: |acc| <= n < |r.value| ==> r.value[n].measurement in GroupKeys(groups)
    decreases |groups| - i
  {
    if i == |groups| then Ok(acc)
    else
      var next := HostsFrom(lc, cells, time, groups[i].key, GroupBy(groups[i].members, HostOf), 0, acc);
      if next.Fail? then Fail(next.error)
      else
        var r := ObjectsFrom(lc, cells, time, groups, i + 1, next.value);
        assert groups[i] in groups;
        assert r.Ok? ==> r.value[..|acc|] == r.value[..|next.value|][..|acc|];
        assert r.Ok? ==> forall n :: |acc| <= n < |next.value| ==> r.value[n] == next.value[n];
        r
  }

  /** The sample time of a row: its first cell parsed with `TimeFormat`, moved by the offset in minutes. */
  function SampleTime(lc: LineContext, offset: int, cells: seq<string>): (r: Result<int>)
    ensures |cells| == 0 ==> r.Fail? && r.error.kind == IndexOutOfRangeException
    ensures |cells| > 0 && lc.e.parseExact(cells[0], lc.s.timeFormat).None? ==> r.Fail? && r.error.kind == FormatException
    ensures |cells| > 0 && lc.e.parseExact(cells[0], lc.s.timeFormat).Some? ==>
      r == Extensions.AddUnits(lc.e.parseExact(cells[0], lc.s.timeFormat).value, offset, 60_000)
  {
    if |cells| == 0 then Throw(IndexOutOfRangeException, IndexOutOfRangeMessage)
    else match lc.e.parseExact(cells[0], lc.s.timeFormat)
      case None => Throw(FormatException, "Couldn't parse " + cells[0] + " using format " + lc.s.timeFormat + ", check -timeformat argument")
      case Some(t) => Extensions.AddUnits(t, offset, 60_000)
  }

  /** The cells of a data line: its quotes are dropped before it is split. */
  function LineCells(lc: LineContext, line: string): seq<string> {
    lc.e.split(lc.s.columnSplitter, StripQuotes(line))
  }

  /**
   `ProcessPerfmonLogLine`: the points of one data line, group by group, or
   the exception the line raises.
   */
  function PerfmonLine(lc: LineContext, offset: int, groups: seq<Group>, line: string): (r: Result<seq<Point>>)
    ensures SampleTime(lc, offset, LineCells(lc, line)).Fail? ==> r == Fail(SampleTime(lc, offset, LineCells(lc, line)).error)
    ensures r.Ok? ==> SampleTime(lc, offset, LineCells(lc, line)).Ok?
    ensures r.Ok? ==> ShapedFrom(lc, SampleTime(lc, offset, LineCells(lc, line)).value, r.value, 0)
    ensures r.Ok? && lc.s.multiMeasurements ==> forall n :: 0 <= n < |r.value| ==> r.value[n].measurement in GroupKeys(groups)
  {
    var cells := LineCells(lc, line);
    var time :- SampleTime(lc, offset, cells);
    ObjectsFrom(lc, cells, time, groups, 0, [])
  }

  /**
   The points of a data line are those of its object groups in order, and
   within each object those of its host groups in the order the hosts first
   appear: one MultiMeasurement point per (object, host) group with a
   reading, or one single-measurement point per reading.
   */
  lemma PerfmonLinePoints(lc: LineContext, offset: int, groups: seq<Group>, line: string)
    requires SampleTime(lc, offset, LineCells(lc, line)).Ok?
    ensures PerfmonLine(lc, offset, groups, line)
      == ObjectsPoints(lc, LineCells(lc, line), SampleTime(lc, offset, LineCells(lc, line)).value, groups, 0)
  {
    var cells := LineCells(lc, line);
    ObjectsFromConcat(lc, cells, SampleTime(lc, offset, cells).value, groups, 0, []);
    var r := ObjectsPoints(lc, cells, SampleTime(lc, offset, cells).value, groups, 0);
    if r.Ok? {
      assert [] + r.value == r.value;
    }
  }

  /**
   In single-measurement mode, the points of one host are one per counter
   whose cell holds a number: blank and non-numeric cells are dropped.
   */
  lemma SinglePointsCount(lc: LineContext, cells: seq<string>, time: int, host: Group)
    requires !lc.s.multiMeasurements
    requires SingleFrom(lc, cells, time, host.key, host.members, 0, []).Ok?
    ensures |SingleFrom(lc, cells, time, host.key, host.members, 0, []).value| == ParsedCount(lc.e, cells, host.members, 0)
  {
  }

  // ---------------------------------------------------------------------------
  // FilterPerfmonLogColumns

  /**
   `FilterPerfmonLogColumns`: Measurement keeps the counters whose object is
   a measurement of the database; Field further needs the counter among that
   measurement's fields; Columns keeps the counters whose (object, counter)
   pair is among the filter counters; no filter keeps everything. The order
   of the counters is kept.
   */
  function FilterPerfmonLogColumns(s: PerfmonSettings, columns: seq<PerfmonCounter>, filterColumns: seq<PerfmonCounter>, db: Database): (r: seq<PerfmonCounter>)
    ensures s.filter.NoFilter? ==> r == columns
    ensures |r| <= |columns|
    ensures s.filter.MeasurementFilter? ==> forall c :: c in r <==> c in columns && HasMeasurement(db, c.performanceObject)
    ensures s.filter.FieldFilter? ==> forall c :: c in r <==>
      c in columns && HasMeasurement(db, c.performanceObject) && c.counterName in FirstMeasurement(db, c.performanceObject).fields
    ensures s.filter.ColumnsFilter? ==> forall c :: c in r <==>
      c in columns && exists f :: f in filterColumns && f.performanceObject == c.performanceObject && f.counterName == c.counterName
    ensures s.filter.ColumnsFilter? && |filterColumns| == 0 ==> r == []
    ensures forall c :: c in columns ==> multiset(r)[c] == if c in r then multiset(columns)[c] else 0
  {
    match s.filter
    case MeasurementFilter => Where(columns, (p: PerfmonCounter) => HasMeasurement(db, p.performanceObject))
    case FieldFilter =>
      Where(columns, (p: PerfmonCounter) => HasMeasurement(db, p.performanceObject)
        && p.counterName in FirstMeasurement(db, p.performanceObject).fields)
    case ColumnsFilter =>
      Where(columns, (p: PerfmonCounter) => exists f :: f in filterColumns && p.performanceObject == f.performanceObject && p.counterName == f.counterName)
    case NoFilter => columns
  }

  /**
   The filter keeps the counters' order: filtering the counters of a
   concatenation filters each part, one after the other.
   */
  lemma FilterPerfmonLogColumnsAppend(s: PerfmonSettings, a: seq<PerfmonCounter>, b: seq<PerfmonCounter>, filterColumns: seq<PerfmonCounter>, db: Database)
    ensures FilterPerfmonLogColumns(s, a + b, filterColumns, db) == FilterPerfmonLogColumns(s, a, filterColumns, db) + FilterPerfmonLogColumns(s, b, filterColumns, db)
  {
    match s.filter
    case MeasurementFilter => WhereAppend(a, b, (p: PerfmonCounter) => HasMeasurement(db, p.performanceObject));
    case FieldFilter =>
      WhereAppend(a, b, (p: PerfmonCounter) => HasMeasurement(db, p.performanceObject)
        && p.counterName in FirstMeasurement(db, p.performanceObject).fields);
    case ColumnsFilter =>
      WhereAppend(a, b, (p: PerfmonCounter) => exists f :: f in filterColumns && p.performanceObject == f.performanceObject && p.counterName == f.counterName);
    case NoFilter =>
  }

  /** The type name is not blank and does not start with `\`. */
  lemma TypeNameIsNoCounter()
    ensures !IsBlank(GenericFiles.ListTypeName) && !StartsWith(GenericFiles.ListTypeName, "\\")
  {
    var name := GenericFiles.ListTypeName;
    assert name[0] == "System"[0] == 'S';
    assert name[..1][0] == 'S';
  }

  /** The filter counters as written: the header parse of the `-columns` list's `ToString()`. */
  function PerfmonFilterColumnsAsWritten(s: PerfmonSettings, e: Engine): (r: Result<seq<PerfmonCounter>>)
    ensures r.Ok? ==> |r.value| == |CounterCells(s, e, GenericFiles.ListTypeName, false)|
  {
    TypeNameIsNoCounter();
    PerfmonHeader(s, e, Some(GenericFiles.ListTypeName), false)
  }

  /**
   As written, a Columns filter drops every counter: the list's type name is
   parsed instead of its items, and when the splitter finds nothing to split
   in it (the default comma-outside-quotes splitter does not), no cell starts
   with `\`.
   */
  lemma PerfmonColumnsFilterDropsAll(s: PerfmonSettings, e: Engine, counters: seq<PerfmonCounter>, db: Database)
    requires s.filter.ColumnsFilter?
    requires e.split(s.columnSplitter, GenericFiles.ListTypeName) == [GenericFiles.ListTypeName]
    ensures PerfmonFilterColumnsAsWritten(s, e) == Ok([])
    ensures FilterPerfmonLogColumns(s, counters, [], db) == []
  {
    TypeNameIsNoCounter();
    var cells := CounterCells(s, e, GenericFiles.ListTypeName, false);
    assert Skip(e.split(s.columnSplitter, GenericFiles.ListTypeName), 0) == [GenericFiles.ListTypeName];
    assert cells == [];
  }

  /** The filter counters: one per `-columns` entry that is a counter path, parsed like a header cell. */
  function PerfmonFilterColumns(s: PerfmonSettings): (r: Result<seq<PerfmonCounter>>)
    ensures r.Ok? ==> |r.value| <= |s.columnsFilter|
    ensures r.Fail? <==> exists name :: name in s.columnsFilter && StartsWith(name, "\\") && |CounterPath(s, name)| < 5
  {
    FilterCountersFail(s);
    CountersFrom(s, Where(s.columnsFilter, (c: string) => StartsWith(c, "\\")), 0, [])
  }

  lemma FilterCountersFail(s: PerfmonSettings)
    ensures CountersFrom(s, Where(s.columnsFilter, (c: string) => StartsWith(c, "\\")), 0, []).Fail? <==>
      exists name :: name in s.columnsFilter && StartsWith(name, "\\") && |CounterPath(s, name)| < 5
  {
    var w := Where(s.columnsFilter, (c: string) => StartsWith(c, "\\"));
    CountersFailOn(s, w);
    assert forall name :: name in w <==> name in s.columnsFilter && StartsWith(name, "\\");
  }

  lemma CountersFailOn(s: PerfmonSettings, w: seq<string>)
    ensures CountersFrom(s, w, 0, []).Fail? <==> exists name :: name in w && |CounterPath(s, name)| < 5
  {
    if CountersFrom(s, w, 0, []).Fail? {
      var k :| 0 <= k < |w| && |CounterPath(s, w[k])| < 5;
      assert w[k] in w;
    }
  }

  /** A `-columns` entry that is a counter path naming the object and counter of `c`. */
  predicate NamesCounter(s: PerfmonSettings, name: string, c: PerfmonCounter) {
    && name in s.columnsFilter && StartsWith(name, "\\") && |CounterPath(s, name)| >= 5
    && TrimChar(CounterPath(s, name)[3], s.replaceReservedWith) == c.performanceObject
    && TrimChar(CounterPath(s, name)[4], s.replaceReservedWith) == c.counterName
  }

  /**
   With the corrected filter counters, a Columns filter keeps exactly the
   counters whose object and counter name are those of a `-columns` path.
   */
  lemma PerfmonColumnsFilterKeepsNamed(s: PerfmonSettings, counters: seq<PerfmonCounter>, db: Database, c: PerfmonCounter)
    requires s.filter.ColumnsFilter? && PerfmonFilterColumns(s).Ok?
    ensures c in FilterPerfmonLogColumns(s, counters, PerfmonFilterColumns(s).value, db) <==>
      c in counters && exists name :: NamesCounter(s, name, c)
  {
    var fs := PerfmonFilterColumns(s).value;
    if c in FilterPerfmonLogColumns(s, counters, fs, db) {
      var f :| f in fs && f.performanceObject == c.performanceObject && f.counterName == c.counterName;
      FilterCounterNamed(s, f);
      var name :| NamesCounter(s, name, f);
      assert NamesCounter(s, name, c);
    }
    if c in counters && exists name :: NamesCounter(s, name, c) {
      var name :| NamesCounter(s, name, c);
      var f := NamedFilterCounter(s, name, c);
      assert f in fs && f.performanceObject == c.performanceObject && f.counterName == c.counterName;
    }
  }

  /** Every corrected filter counter comes from a `-columns` path. */
  lemma FilterCounterNamed(s: PerfmonSettings, f: PerfmonCounter)
    requires PerfmonFilterColumns(s).Ok? && f in PerfmonFilterColumns(s).value
    ensures exists name :: NamesCounter(s, name, f)
  {
    var names := Where(s.columnsFilter, (n: string) => StartsWith(n, "\\"));
    var fs := PerfmonFilterColumns(s).value;
    var k :| 0 <= k < |fs| && fs[k] == f;
    CountersFromCells(s, names, 0, []);
    assert CounterOf(s, names[k], k + 1) == Ok(f);
    assert names[k] in names;
    assert NamesCounter(s, names[k], f);
  }

  /** Every `-columns` path yields a corrected filter counter with its object and counter name. */
  lemma NamedFilterCounter(s: PerfmonSettings, name: string, c: PerfmonCounter) returns (f: PerfmonCounter)
    requires PerfmonFilterColumns(s).Ok? && NamesCounter(s, name, c)
    ensures f in PerfmonFilterColumns(s).value && f.performanceObject == c.performanceObject && f.counterName == c.counterName
  {
    var names := Where(s.columnsFilter, (n: string) => StartsWith(n, "\\"));
    var fs := PerfmonFilterColumns(s).value;
    assert name in names;
    var k :| 0 <= k < |names| && names[k] == name;
    CountersFromCells(s, names, 0, []);
    assert CounterOf(s, names[k], k + 1) == Ok(fs[k]);
    f := fs[k];
  }
}
