# Influxer in Dafny

Influxer reads log files and posts their rows to InfluxDB as data points. It
reads two kinds of file:

- **Windows Performance Monitor CSV logs.** The first line names the PDH-CSV
  format and the local time-zone bias, and holds one `\\host\object\counter`
  path per column.
- **Generic delimited files.** A header line, or a column layout in the
  configuration, names the columns. Each column has a data type, and a
  column may be split into sub-columns or transformed (replace, extract,
  filter).

Both readers turn every data line into points and queue them. A full batch is
posted. Points the server does not mark saved go to a retry queue, and
failures are recorded per exception type with their line numbers. After the
last line, the leftover batch and the retry queue are posted, and an exit
code is chosen from the counters. The command-line front end parses
switches, loads a configuration file, and hands the remaining switches to
the settings.

The model is split into these modules:

- **Common, Runtime, OrderedDict.** Shared vocabulary: results carrying .NET
  exception kinds, nullable strings, and dictionaries iterated in insertion
  order. Regular expressions, number and date parsing, and `string.Format`
  are not part of this model: they are parameters, gathered in the `Engine`
  value.
- **Columns, Transformations, Extensions.** The column configuration, the
  splitter, the three transformations and their collections, and the
  extension methods: dictionary merge, name sanitising, fixed-width split,
  and epoch conversion.
- **Points, Failures.** Data points, and a store that answers each post
  through a `respond` function. The per-type failure trackers.
- **GenericFiles, GenericRun, GenericReader.** The generic reader:
  - GenericFiles holds its value-level logic (layout, line parsing, type
    sampling, filtering);
  - GenericRun holds the transfer loop as functions over a state;
  - GenericReader holds the `GenericFile` class, whose methods run the same
    steps with loops and are proved equal to those functions.
- **PerfmonFiles, PerfmonRun, PerfmonReader.** The same three layers for the
  Perfmon reader, with the class `PerfmonFile` and its `minOffset` field.
- **CommandLine.** `ProcessArguments`: the switch tokenizer loop, and the
  decision among help, config, export, binding and unknown switches.

## Model

| member | source | states |
|---|---|---|
| Columns.NewColumnConfig | Influxer/Config/ColumnConfig.cs:10-18 | A new column starts with data type Unknown (ordinal 0), no split configuration, not skipped and not default. |
| Columns.PostDeserialize | Influxer/Config/ColumnConfig.cs:75-83 | Deserialisation fails with ArgumentException and the source's message exactly when the column has split columns and also extract or replace transformations; otherwise the column is kept unchanged. |
| Columns.PostDeserializeScope | Influxer/Config/ColumnConfig.cs:78-79 | Filter transformations never matter to the check; an empty split list, no extract or replace transformations, or no splitter at all always passes. |
| Columns.SubColumns | Influxer/Transformations/Splitter.cs:43-55 | The corrected sub-column list starts with the split columns themselves; the only failure is a NullReferenceException. |
| Columns.SelectMany | Influxer/Transformations/Splitter.cs:51-52 | Gathering the nested sub-columns fails only with NullReferenceException. |
| Columns.SubColumnsMixedNesting | Influxer/Transformations/Splitter.cs:49-52 | With one plain and one nested split column, the property as written throws NullReferenceException, while the corrected one lists both columns and then the nested sub-column. |
| Columns.SubColumnsAgrees | Influxer/Transformations/Splitter.cs:43-55 | Wherever the as-written property does not throw, the corrected one gives the same list. |
| Columns.SubColumnsAsWritten | Influxer/Transformations/Splitter.cs:43-55 | As written, the list starts with the split columns and adds what `SelectMany` yields. It fails only with NullReferenceException, and when no split column has a nested splitter it is exactly the split columns. |
| Columns.SelectManyAsWritten | Influxer/Transformations/Splitter.cs:51-52 | Enumerating `SelectMany(t => t.SplitConfig?.SubColumns)` fails only with NullReferenceException. |
| Columns.HasNestedColumns | Influxer/Transformations/Splitter.cs:84 | A column without a splitter has no nested columns. With a splitter, the check throws exactly when the as-written sub-column list throws, and otherwise says whether that list is non-empty. |
| Columns.SplitMixedNesting | Influxer/Transformations/Splitter.cs:49-88 | A column whose splitter mixes a plain and a nested split column makes the split throw NullReferenceException, because the nesting check enumerates the as-written sub-column list. |
| Columns.SplitSpec | Influxer/Transformations/Splitter.cs:74-96 | A failure to cut the content into values is passed on unchanged. A null split-column list is a NullReferenceException. A successful split has distinct keys. |
| Columns.SplitFrom | Influxer/Transformations/Splitter.cs:82-94 | The loop only appends to the pairs it already has, and keeps the keys distinct. |
| Columns.SelectManyAgrees | Influxer/Transformations/Splitter.cs:51-52 | Wherever the as-written SelectMany does not throw, the corrected one gives the same list. |
| Columns.CanSplit | Influxer/Transformations/Splitter.cs:67-72 | Blank content never splits; fixed-width content splits exactly when it is longer than the width. |
| Columns.CanSplitDelimited | Influxer/Transformations/Splitter.cs:31-41 | With a valid delimiter, content splits exactly when it is not blank and the case-insensitive delimiter pattern matches it. |
| Columns.CanSplitIsStrict | Influxer/Transformations/Splitter.cs:71 | Content exactly as long as the width is refused, although splitting it would give one whole chunk. |
| Columns.SplitValues | Influxer/Transformations/Splitter.cs:76-80 | For a positive width, the values are the chunks of `SplitFixedWidth`. A negative width throws ArgumentOutOfRangeException on non-empty content and gives no value on empty content. |
| Columns.AddAll | Influxer/Transformations/Splitter.cs:86-88 | Adding a nested split's pairs appends them in order. Over distinct keys it succeeds exactly when the keys stay distinct, and a repeated key is an ArgumentException. |
| Columns.Split | Influxer/Transformations/Splitter.cs:74-96 | The loop over the split columns returns what the recursive reference definition `SplitSpec` gives. |
| Columns.FlatSplitFrom | Influxer/Transformations/Splitter.cs:82-94 | Without nesting, the columns are zipped with the values when there are enough values; a missing value is an index out of range. |
| Columns.FlatSplitSpec | Influxer/Transformations/Splitter.cs:74-96 | Without nesting, a split maps column i to value i, or throws ArgumentOutOfRangeException when values are missing. |
| Columns.SplitFixedWidthExample | Influxer/Transformations/Splitter.cs:74-96 | Example of `FlatSplitSpec`: splitting "ABCDEFGHIJ" at width 4 over two columns gives "ABCD" and "EFGH" and ignores the rest. |
| Columns.SplitKeysAreSubColumns | Influxer/Transformations/Splitter.cs:44-96 | Every key a successful split produces is one of the splitter's sub-columns. |
| Columns.SplitFromKeys | Influxer/Transformations/Splitter.cs:82-94 | Every key the split loop adds is already in the accumulator or one of the sub-columns. |
| Columns.NestedInSubColumns | Influxer/Transformations/Splitter.cs:51-52 | A nested splitter's sub-columns are among the outer splitter's sub-columns. |
| Columns.SelectManyContains | Influxer/Transformations/Splitter.cs:52 | The gathered list contains every sub-column of every nested splitter from the starting index on. |
| Columns.SubColumnsOk | Influxer/Transformations/Splitter.cs:49-53 | The corrected property succeeds whenever every nested splitter's does. |
| Columns.SelectManyOk | Influxer/Transformations/Splitter.cs:52 | The corrected gathering succeeds whenever every nested splitter's sub-columns do. |
| CommandLine.ToLowerIdempotent | Influxer/Config/CommandLineProcessor.cs:44-47 | Lower-casing a key a second time changes nothing. |
| CommandLine.AddAllSpec | Influxer/Config/CommandLineProcessor.cs:47-51 | Adding switch pairs succeeds exactly when no key repeats, gives the pairs in order, and otherwise fails with ArgumentException. |
| CommandLine.TokensFromPairs | Influxer/Config/CommandLineProcessor.cs:38-53 | The tokenizer loop, which skips a consumed value, adds exactly the reference list of switch pairs. |
| CommandLine.SwitchPairsSpec | Influxer/Config/CommandLineProcessor.cs:40-52 | A pair is listed exactly when some argument is a switch, the key is its lower-cased text, and the value is the next argument if that is not a switch, otherwise "true". |
| CommandLine.TokensSpec | Influxer/Config/CommandLineProcessor.cs:38-53 | Tokenizing succeeds exactly when no switch repeats, gives the switch pairs, and a repeat is an ArgumentException. |
| CommandLine.TokensFrom | Influxer/Config/CommandLineProcessor.cs:38-53 | The loop only appends, at most one pair per remaining argument. Its only failure is an ArgumentException. Arguments without a switch add nothing. |
| CommandLine.Tokens | Influxer/Config/CommandLineProcessor.cs:38-53 | There are at most as many pairs as arguments, and none when no argument is a switch. |
| CommandLine.SwitchPairs | Influxer/Config/CommandLineProcessor.cs:40-52 | There is at most one pair per argument, and every key is in lower case. |
| CommandLine.NegativeNumberIsAValue | Influxer/Config/CommandLineProcessor.cs:39-49 | Example of `SwitchPairsSpec`: "-60" is not a switch, so `-offset -60` gives the pair ("-offset", "-60"). |
| CommandLine.ParseSwitches | Influxer/Config/CommandLineProcessor.cs:38-53 | The imperative loop computes the tokens of the arguments. |
| CommandLine.Arguments | Influxer/Config/CommandLineProcessor.cs:25-146 | No arguments, or a repeated switch, is an ArgumentException. |
| CommandLine.ProcessArguments | Influxer/Config/CommandLineProcessor.cs:25-146 | The method returns what the decision function `Arguments` gives. |
| CommandLine.HelpWins | Influxer/Config/CommandLineProcessor.cs:57-78 | Any of --help, /help or /? makes the call return false, whatever else is given. |
| CommandLine.ConfigAloneIsAccepted | Influxer/Config/CommandLineProcessor.cs:80-101 | `-config file` alone, with a file that loads, returns true without binding any switch. |
| CommandLine.UnknownSwitchIsRejected | Influxer/Config/CommandLineProcessor.cs:141-145 | Switches the settings accept but leave unconsumed give ArgumentException "Unknown command line arguments: " followed by their keys. |
| CommandLine.AcceptedMeansConsumed | Influxer/Config/CommandLineProcessor.cs:101-145 | A true result means: there were arguments, no help was asked for, a named config loaded, and every switch left after `-config` was bound and consumed. |
| Extensions.Dictionary.AddRange | Influxer/ExtensionMethods.cs:15-33 | A null collection throws ArgumentNullException and changes nothing; otherwise the keys become the union, the collection's values win, and all other values are kept. |
| Extensions.SplitAny | Influxer/ExtensionMethods.cs:42 | Splitting on separators gives at least one piece, and no piece holds a separator. |
| Extensions.NonEmpty | Influxer/ExtensionMethods.cs:42 | RemoveEmptyEntries keeps only non-empty pieces of the split. |
| Extensions.ConcatSplitAny | Influxer/ExtensionMethods.cs:42 | The pieces, put back together, are the text with its separators removed. |
| Extensions.ConcatNonEmpty | Influxer/ExtensionMethods.cs:42 | Dropping empty pieces loses no character. |
| Extensions.PiecesKeepCharacters | Influxer/ExtensionMethods.cs:42 | The non-empty pieces hold every non-separator character, in order, and none is empty. |
| Extensions.ReplaceJoin | Influxer/ExtensionMethods.cs:43 | Joining pieces without spaces by a space and then replacing the space is the same as joining by the new character. |
| Extensions.JoinEnds | Influxer/ExtensionMethods.cs:43 | A join of non-empty pieces starts with the first piece's first character and ends with the last piece's last character. |
| Extensions.PieceCharacters | Influxer/ExtensionMethods.cs:42 | Every character of a piece comes from the text and is not a separator. |
| Extensions.SplitAnyCharacters | Influxer/ExtensionMethods.cs:42 | Every character of a split piece comes from the text. |
| Extensions.TrimKeeps | Influxer/ExtensionMethods.cs:43 | Trim leaves alone text that neither starts nor ends with white space. |
| Extensions.SplitSet | Influxer/ExtensionMethods.cs:42 | The given separators are used as they are; an empty set stands for the white-space characters, as String.Split does. |
| Extensions.WhiteSpaceCharsSpec | Influxer/ExtensionMethods.cs:42 | With no separators given, a character splits exactly when it is white space. |
| Extensions.Sanitize | Influxer/ExtensionMethods.cs:38-44 | Sanitizing never lengthens a name. |
| Extensions.SanitizeWithoutSeparators | Influxer/ExtensionMethods.cs:38-44 | With no separators given, "a \t b" becomes "a_b": the run of white space is split away. |
| Extensions.SanitizeCollapsesRuns | Influxer/ExtensionMethods.cs:38-44 | When every white-space character is a separator, which is always so with no separators given, the sanitized name is the non-empty pieces joined by the replacement. So each run of separators becomes one replacement character. |
| Extensions.SanitizeRemovesSeparators | Influxer/ExtensionMethods.cs:38-44 | With a replacement that is neither a separator nor a space, the sanitized name holds no separator and no space. |
| Extensions.JoinCharacters | Influxer/ExtensionMethods.cs:43 | The space-joined pieces hold only spaces and non-separators. |
| Extensions.JoinAvoids | Influxer/ExtensionMethods.cs:43 | Joining separator-free pieces by a space adds only spaces. |
| Extensions.SplitFixedWidth | Influxer/ExtensionMethods.cs:46-50 | The loop yields the reference chunks of the text. |
| Extensions.ChunksSpec | Influxer/ExtensionMethods.cs:46-50 | The chunks put back together give the text; all chunks but the last have exactly the width; the last is non-empty and no longer than the width; an empty text has no chunk. |
| Extensions.ChunksExample | Influxer/ExtensionMethods.cs:46-50 | Example of `ChunksSpec`: "ABCDEFGHI" at width 4 gives "ABCD", "EFGH", "I". |
| Extensions.TruncDiv | Influxer/ExtensionMethods.cs:65-66 | C# division truncates toward zero: the quotient has the dividend's sign and is off by less than one divisor. |
| Extensions.Wrap64 | Influxer/ExtensionMethods.cs:65 | A product is reduced to a 64-bit signed value congruent to it, and values already in range are kept. |
| Extensions.AddTicks | Influxer/ExtensionMethods.cs:65-66 | AddTicks succeeds exactly when the result is a valid DateTime, and otherwise throws ArgumentOutOfRangeException. |
| Extensions.AddUnits | Influxer/ExtensionMethods.cs:61-64 | AddHours, AddMinutes, AddSeconds and AddMilliseconds succeed exactly when the milliseconds are in range and the result is a valid DateTime. |
| Extensions.FromEpochAsWritten | Influxer/ExtensionMethods.cs:57-69 | A precision outside the six named ones returns the Unix origin. |
| Extensions.MicrosecondsWrapAround | Influxer/ExtensionMethods.cs:65 | As written, a large microsecond epoch overflows the 64-bit product and lands 8384 ticks after 1970 instead of failing. |
| Extensions.FromEpoch | Influxer/ExtensionMethods.cs:57-69 | The corrected conversion gives the origin for an unknown precision, fails only with ArgumentOutOfRangeException, and otherwise gives a valid DateTime. |
| Extensions.FromEpochAgrees | Influxer/ExtensionMethods.cs:57-69 | The corrected and as-written conversions agree wherever the microsecond product does not overflow. |
| Extensions.FromEpochWholeUnits | Influxer/ExtensionMethods.cs:61-64 | For hours to milliseconds, the result is the origin plus the epoch in ticks, valid exactly when it is in the DateTime range. |
| Extensions.FromEpochSubUnits | Influxer/ExtensionMethods.cs:65-66 | Microseconds become whole milliseconds, truncated, and nanoseconds whole ticks, truncated. |
| Extensions.FromEpochDropsMicroseconds | Influxer/ExtensionMethods.cs:65 | Epochs in the same truncated millisecond give the same time. |
| Extensions.FromEpochTruncates | Influxer/ExtensionMethods.cs:65-66 | 1999 µs gives 1 ms, -1500 µs gives -1 ms, and -150 ns gives -1 tick: truncation toward zero. |
| Failures.FailureTracker.constructor | Influxer/FailureTracker.cs:13-16 | A new tracker has its exception type and message, and no line. |
| Failures.FailureTracker.AddLine | Influxer/GenericFile.cs:343 | Adding a line number appends it, and Count grows by one. |
| Failures.LinesOf | Influxer/GenericFile.cs:341-343 | A type's line list is drawn from the failures, in order. |
| Failures.AppendFailure | Influxer/GenericFile.cs:341-343 | A new failure adds its line to its type's list only; the first message of a type is kept; the set of types grows by the new one. |
| Failures.LinesOfAppend | Influxer/GenericFile.cs:341-343 | A new failure adds its line at the end of its own type's list, and no other type's list changes. |
| Failures.FirstMessageAppend | Influxer/GenericFile.cs:341-343 | A type's message stays that of its first failure; a new type takes the new failure's message. |
| Failures.TypesAppend | Influxer/GenericFile.cs:341-343 | A new failure adds its type to the set of failed types. |
| Failures.LinesOfAbsent | Influxer/GenericFile.cs:341-343 | A type that never failed has no line. |
| Failures.Record | Influxer/GenericFile.cs:341-343 | The catch block's dictionary update keeps the trackers equal to the failures so far, plus the new one; it adds a tracker only for a new type. |
| GenericFiles.DefaultTagsFrom | Influxer/GenericFile.cs:147-154 | Each `name=value` tag gives the pair (name, value) in order with distinct names; a tag without '=' fails. |
| GenericFiles.DefaultTags | Influxer/GenericFile.cs:142-155 | The default tags are one pair per configured tag, with distinct keys. A tag without '=' or two tags with the same name make construction fail. |
| GenericFiles.SplitOnCharSingle | Influxer/GenericFile.cs:151-152 | A tag splits into a single piece exactly when it has no '=', which is when `tags[1]` is out of range. |
| GenericFiles.ParseGenericColumns | Influxer/GenericFile.cs:39-44 | A null header is an ArgumentNullException; otherwise there is one column per header cell, numbered in order, with the sanitized name and type Unknown. |
| GenericFiles.BindFrom | Influxer/GenericFile.cs:170-190 | Binding keeps the layout and ends in Success or InvalidArgument, unless it throws. |
| GenericFiles.BindSpec | Influxer/GenericFile.cs:170-190 | A layout is rejected exactly when a named column does not match the header; a header longer than the layout, with no mismatch before, throws ArgumentOutOfRangeException; on success every non-skipped column is bound and nothing else. |
| GenericFiles.HeaderlessSpec | Influxer/GenericFile.cs:201-210 | Without a header, every non-skipped configured column becomes a header at its position, and the layout is accepted. |
| GenericFiles.AdoptSpec | Influxer/GenericFile.cs:191-199 | Without a configured layout, every header column is adopted in order, and a matching configuration entry is appended to the layout. |
| GenericFiles.AdoptNeverSkips | Influxer/GenericFile.cs:191-199 | Adopted columns are never skipped. |
| GenericFiles.LayoutNeverBindsSkipped | Influxer/GenericFile.cs:157-212 | No column bound by GetFileLayout is a skipped one. |
| GenericFiles.LayoutRejects | Influxer/GenericFile.cs:160-180 | The layout is InvalidArgument exactly when there is no header and no layout, or a configured name does not match the header. |
| GenericFiles.LayoutExitCodes | Influxer/GenericFile.cs:157-212 | GetFileLayout only returns Success or InvalidArgument. |
| GenericFiles.Bind | Influxer/GenericFile.cs:182-187 | A bound column keeps its index and takes the configured Influx name, data type and configuration. |
| GenericFiles.AdoptFrom | Influxer/GenericFile.cs:191-199 | Adopting the header columns always succeeds, and adds one header and one layout entry per column. |
| GenericFiles.HeaderlessFrom | Influxer/GenericFile.cs:201-210 | Without a header, the layout is kept, the result is Success, and at most one header is added per configured column. |
| GenericFiles.Layout | Influxer/GenericFile.cs:157-212 | A configured layout is kept. No header and no layout is InvalidArgument with no headers. A header that fails to parse passes its error on with no headers. Without a layout, every parsed header column gets a header and a layout entry, and the result is Success. |
| GenericFiles.ParseLong | Influxer/GenericFile.cs:127 | long.TryParse succeeds exactly on text that parses to a 64-bit value. |
| GenericFiles.ParseStringTime | Influxer/GenericFile.cs:122-125 | A null string time, or one that does not match the format, is a FormatException whose message quotes the cell and the format. Otherwise the UTC offset in minutes is added. |
| GenericFiles.ParseBinaryTime | Influxer/GenericFile.cs:126-130 | A binary time must parse as a long, and then goes through DateTime.FromBinary. Otherwise it is a FormatException whose message quotes the cell. |
| GenericFiles.ParseEpochTime | Influxer/GenericFile.cs:131-135 | An epoch time must parse as a long; otherwise it is a FormatException whose message quotes the cell. It is then converted as written at the configured precision, which is the corrected conversion wherever the microsecond product does not overflow. |
| GenericFiles.ParseTimestamp | Influxer/GenericFile.cs:117-138 | A missing time is a FormatException. Otherwise the timestamp is parsed by the configured time format type: string, binary or epoch. |
| GenericFiles.EpochTimestampWraps | Influxer/GenericFile.cs:131-135 | A microsecond time column holding 1844674407370956000 gives a time 8384 ticks after 1970, where the corrected conversion fails. |
| GenericFiles.CellAt | Influxer/GenericFile.cs:48-50 | Reading cell i succeeds exactly when it exists (IndexOutOfRangeException otherwise), with its quotes removed. |
| GenericFiles.GatherFrom | Influxer/GenericFile.cs:59-73 | A row fails when any column's cell is missing. A column without sub-columns must not be a key yet (Dictionary.Add) and then is one; a column with sub-columns must split, and every key of its split is in the row (AddRange). Keys gathered before are kept. |
| GenericFiles.GatherPlain | Influxer/GenericFile.cs:59-73 | Without auto-generated columns, each header is paired with its unquoted cell, in order. |
| GenericFiles.Plain | Influxer/GenericFile.cs:61-73 | The plain gathering pairs header j with the unquoted cell at its index. |
| GenericFiles.PlainAppend | Influxer/GenericFile.cs:61-73 | One more header adds one more pair at the end. |
| GenericFiles.TransformedValue | Influxer/GenericFile.cs:77-79 | A value is kept when the column has no transformation, or none applies. |
| GenericFiles.AddField | Influxer/GenericFile.cs:94 | A field is added only when the name is not null (ArgumentNullException otherwise) and not yet present. |
| GenericFiles.AddTag | Influxer/GenericFile.cs:106-107 | A tag is added only when the name is not null and not yet present. |
| GenericFiles.StoreValue | Influxer/GenericFile.cs:87-108 | A number that does not parse, or is NaN, is an InvalidDataException, and otherwise becomes a rounded numeric field; a boolean likewise; a string becomes a text field; a tag is sanitized; other types are ignored. |
| GenericFiles.MapFrom | Influxer/GenericFile.cs:75-109 | Filling a point never changes its measurement, precision, retention policy or saved flag. |
| GenericFiles.StoreValueEffect | Influxer/GenericFile.cs:87-108 | Storing a value into any point does what it does to an empty one: the same exception, nothing, or the same field or tag added with Add, so a name already present throws. |
| GenericFiles.MapFromStep | Influxer/GenericFile.cs:75-109 | Per entry: a failing transformation, time or value ends the row with its exception; a value blank after its transformations is skipped; the time column sets the timestamp; any other value adds its field or tag, and a name already present is an ArgumentException. |
| GenericFiles.MapFromContent | Influxer/GenericFile.cs:75-109 | A filled point holds its fields and tags followed by those the entries add, in entry order, and the time of the last time entry (or its own time when there is none); nothing else changes. |
| GenericFiles.MapFromAccepts | Influxer/GenericFile.cs:75-109 | Filling a point with distinct names succeeds iff no entry throws and the field names, and the tag names, stay distinct. |
| GenericFiles.MapFromNames | Influxer/GenericFile.cs:75-109 | Filling a point adds fields and tags only under the names of non-time columns, and keeps the measurement, precision, retention policy and saved flag. |
| GenericFiles.GenericLine | Influxer/GenericFile.cs:46-115 | A missing time cell is an IndexOutOfRangeException. A parsed line is `RowPoint` of its cells: the configured measurement and precision, not saved, the default tags followed by the row's tags, the row's fields in order (at least one), and the time of its time column. With distinct default tags and all cells present, a line is accepted iff no entry throws, the names stay distinct and there is a field; with no field it is the InvalidDataException "No values found on the row to post to Influx". |
| GenericFiles.SampleRows | Influxer/GenericFile.cs:436-437 | A ValidateRows of 0 becomes 1. |
| GenericFiles.InferType | Influxer/GenericFile.cs:485-493 | An untyped column learns Numerical when the value is a number, else Boolean when it is a boolean, else Tag; never Unknown. |
| GenericFiles.Learn | Influxer/GenericFile.cs:488-492 | Learning a type sets it on the column and on its configuration, and changes no other column. |
| GenericFiles.CheckValue | Influxer/GenericFile.cs:494-500 | A typed value fails with InvalidDataException exactly when a numerical column's value is not a number or a boolean column's is not a boolean. |
| GenericFiles.ValidateFrom | Influxer/GenericFile.cs:439-505 | Sampling reports true exactly when no column is left Unknown. |
| GenericFiles.Validate | Influxer/GenericFile.cs:433-506 | ValidateData returns true exactly when no column is Unknown, and keeps ValidateRows at 1 when it was 0. |
| GenericFiles.OnlyUnknownsTypedTrans | Influxer/GenericFile.cs:485-493 | Typing only Unknown columns, done twice, still types only Unknown columns. |
| GenericFiles.CheckFromTypes | Influxer/GenericFile.cs:462-501 | Checking a row changes only the types of columns that were Unknown. |
| GenericFiles.CheckFrom | Influxer/GenericFile.cs:462-501 | Checking a row keeps one entry per column, and leaves every column whose type is known unchanged. |
| GenericFiles.ValidateFromTypes | Influxer/GenericFile.cs:439-504 | Sampling rows changes only the types of columns that were Unknown. |
| GenericFiles.ValidateKeepsTypes | Influxer/GenericFile.cs:433-506 | ValidateData never changes a configured type. |
| GenericFiles.ValidateStopsAfterRows | Influxer/GenericFile.cs:502-503 | Lines after the sampled rows do not affect the result. |
| GenericFiles.FilterGenericColumns | Influxer/GenericFile.cs:21-37 | No filter keeps every column. A measurement filter keeps all or none. A field filter keeps columns named as a tag or field of the measurement. A columns filter keeps columns named in the filter list, so an empty list keeps none. A kept column keeps all its repeats. |
| Common.Where | Influxer/GenericFile.cs:26-34 | `Where` keeps exactly the elements that pass, each as often as in the input, and at most as many as the input has. |
| Common.WhereAppend | Influxer/GenericFile.cs:26-34 | `Where` keeps the input's order: filtering a concatenation filters each part, one after the other. |
| GenericFiles.FilterGenericColumnsAppend | Influxer/GenericFile.cs:21-37 | The filter keeps the columns in their order: filtering a concatenation filters each part, one after the other. |
| GenericFiles.GenericFilterColumns | Influxer/GenericFile.cs:232-239 | Corrected: with no configured layout, the filter list has one column per configured name, sanitized; with a layout it is empty. |
| GenericFiles.GenericFilterColumnsAsWritten | Influxer/GenericFile.cs:232-239 | As written: with a configured layout the filter list is empty. Otherwise it has one column per piece of the list's type name, named by the sanitized piece. |
| GenericFiles.GenericColumnsFilterDropsAll | Influxer/GenericFile.cs:232-242 | As written, with a header line the filter list is empty, so the columns filter drops every column. |
| GenericFiles.GenericColumnsFilterKeepsNamed | Influxer/GenericFile.cs:232-242 | Corrected: the columns filter keeps exactly the columns whose name is one of the configured names. |
| GenericReader.ParseDefaultTags | Influxer/GenericFile.cs:147-154 | The loop builds the default tags of `DefaultTags`. |
| GenericReader.GatherCells | Influxer/GenericFile.cs:59-73 | The loop gathers the cells that the reference definition `GatherFrom` gives. |
| GenericReader.GenericFile.constructor | Influxer/GenericFile.cs:142-155 | A new reader keeps its settings, engine, tags and layout, with no column header yet. |
| GenericReader.GenericFile.GetFileLayout | Influxer/GenericFile.cs:157-212 | The status, column headers and updated layout are those of `Layout`. |
| GenericReader.GenericFile.BindColumns | Influxer/GenericFile.cs:170-190 | The loop over the header columns with a configured layout gives the status and column headers of `BindFrom`. |
| GenericReader.GenericFile.AdoptColumns | Influxer/GenericFile.cs:191-199 | The loop over the header columns without a layout gives the column headers and extended layout of `AdoptFrom`. |
| GenericReader.GenericFile.BindHeaderless | Influxer/GenericFile.cs:201-210 | The loop over the layout of a headerless file gives the column headers of `HeaderlessFrom`. |
| GenericReader.GenericFile.ProcessGenericLine | Influxer/GenericFile.cs:46-115 | The method returns the point or exception of `GenericLine`, whose contract gives the point's content and when the line is rejected. |
| GenericReader.GenericFile.MapRow | Influxer/GenericFile.cs:75-109 | The loop over the row's cells builds the point of `MapFrom`, whose content and failures `MapFromContent` and `MapFromAccepts` give. |
| GenericReader.GenericFile.CheckRow | Influxer/GenericFile.cs:462-501 | Checking a row gives the result and the column types of `CheckFrom`. |
| GenericReader.GenericFile.ValidateData | Influxer/GenericFile.cs:433-506 | The result, column types and ValidateRows are those of `Validate`. |
| GenericReader.GenericFile.SampleLines | Influxer/GenericFile.cs:439-505 | The loop over the data lines gives the result and column types of `ValidateFrom`, returning after ValidateRows sampled lines. |
| GenericReader.GenericFile.Catch | Influxer/GenericFile.cs:328-352 | The catch block updates the counters, batch and retry queue as `OnFailure` does, records the failure, and breaks exactly on too many failures. |
| GenericReader.GenericFile.PostFullBatch | Influxer/GenericFile.cs:298-326 | Posting a full batch gives the state and flow of `PostBatch`, or hands the exception to the catch block. |
| GenericReader.GenericFile.QueueLine | Influxer/GenericFile.cs:286-326 | One data line changes the state as `Step` does. |
| GenericReader.GenericFile.HandleLine | Influxer/GenericFile.cs:286-352 | One pass of the loop body, catch block included, changes the state as `Step` does and keeps every failure recorded in its type's tracker. |
| GenericReader.GenericFile.StreamLines | Influxer/GenericFile.cs:282-358 | The loop over the lines ends in the state and flow of `StreamFrom`, and its trackers record every failure. |
| GenericReader.GenericFile.StreamMade | Influxer/GenericFile.cs:282-358 | The loop, given the point of every line, ends in the state and flow of `StreamParsed`. Its trackers record every failure. |
| GenericReader.GenericFile.FinishLines | Influxer/GenericFile.cs:360-422 | What follows the loop returns the status of `Finish`. |
| GenericReader.GenericFile.PostLeftoverBatch | Influxer/GenericFile.cs:364-379 | Posting the last partial batch gives the state of `PostLeftover`, and says when the store threw. |
| GenericReader.GenericFile.RetryOnce | Influxer/GenericFile.cs:381-405 | The one retry of the queue gives the state of `PostRetry`. The run ends there on an exception other than InfluxDBException, or on a refused retry when the queue is full or posts failed too often. |
| GenericReader.GenericFile.TransferLines | Influxer/GenericFile.cs:282-422 | The loop and what follows it return the status of `Transfer`. |
| GenericReader.GenericFile.ProcessGenericFile | Influxer/GenericFile.cs:214-431 | The whole run returns the status of `Run`, which uses the as-written filter list and epoch conversion. The store receives the run's posts. The column headers, the layout and ValidateRows become those that `Prepare` computes. |
| GenericReader.GenericFile.PrepareColumns | Influxer/GenericFile.cs:225-245 | The layout, filter and sampling stage sets the layout, column headers and ValidateRows of `Prepare`, and stops early exactly when `Prepare` does. |
| GenericReader.NewGenericFile | Influxer/GenericFile.cs:142-155 | Construction fails exactly when the default tags do not parse: a tag without '=', or two tags with the same name. Otherwise the reader holds the parsed tags. |
| GenericRun.Completed | Influxer/GenericFile.cs:407-422 | Success exactly when nothing failed; UnableToProcess when every line failed; ProcessedWithErrors otherwise; the counters are reported. |
| GenericRun.ProcessBeforeLines | Influxer/GenericFile.cs:225-280 | A rejected layout is returned with no point found; a failed retention lookup ends the run before any line; no header and no layout is InvalidArgument. |
| GenericRun.RequeueConserves | Influxer/GenericFile.cs:318-319 | Requeueing a batch loses no point: the saved ones count as processed and the rest join the retry queue unsaved. |
| GenericRun.OnFailureConserves | Influxer/GenericFile.cs:334-339 | The catch block, including a partial write, loses no point. |
| GenericRun.PostBatchConserves | Influxer/GenericFile.cs:298-326 | A batch post loses no point: each is processed, queued for retry, or counted as left unsaved by a successful post. |
| GenericRun.StepConserves | Influxer/GenericFile.cs:286-326 | Handling one line loses no point. |
| GenericRun.StreamConserves | Influxer/GenericFile.cs:282-358 | Unless the store refused, every point created by the loop is processed, pending, queued or dropped. |
| GenericRun.StreamRefusal | Influxer/GenericFile.cs:321-322 | The loop breaks for the store only after more than three failed posts in a row. |
| GenericRun.StoreRefusalAborts | Influxer/GenericFile.cs:360-362 | A loop broken by the store ends the run with UnableToProcess. |
| GenericRun.FailureBound | Influxer/GenericFile.cs:345-351 | With IgnoreErrors the loop never breaks for failures; otherwise the failed count never exceeds three batches' worth, plus the one failure that breaks the loop. |
| GenericRun.OnFailureRecords | Influxer/GenericFile.cs:330-343 | The catch block counts one failure and records it at the current line number, counting the header and skipped rows. |
| GenericRun.StepRecords | Influxer/GenericFile.cs:286-343 | One data line is counted as found, and it either creates a point or records exactly one failure at its line. |
| GenericRun.StreamFailures | Influxer/GenericFile.cs:282-358 | The failed count equals the failures recorded; their line numbers increase strictly; earlier records are kept. |
| GenericRun.FoundCountsDataLines | Influxer/GenericFile.cs:284-288 | Points found never exceed the non-blank, non-comment lines, and equal them when the loop runs to the end. |
| GenericRun.FinishKeepsEvents | Influxer/GenericFile.cs:360-422 | After the loop, failures only grow, and the records and found count are kept. |
| GenericRun.LeftoverKeepsEvents | Influxer/GenericFile.cs:364-379 | Posting the leftover batch changes neither the failure count nor the records, the points found or the points created. |
| GenericRun.TransferSuccess | Influxer/GenericFile.cs:407-422 | Success means: no failed point, no failure recorded, and every line found became a point. |
| GenericRun.PostBatch | Influxer/GenericFile.cs:298-326 | A batch post is one request. It changes neither the points found nor the points created, and never lowers the failures. An accepted batch goes on with no pending point and resets the failed-request count; a rejected one raises that count. The loop breaks for the store only after more than three failed requests. |
| GenericRun.Step | Influxer/GenericFile.cs:286-343 | One line makes at most one post. A line that fails to parse adds exactly one failure, and no post and no point. A parsed line creates one point. The loop breaks for the store only after more than three failed requests. |
| GenericRun.StreamFrom | Influxer/GenericFile.cs:282-358 | The loop never lowers the posts, the points found or the failures, and posts at most once per line. |
| GenericRun.PostLeftover | Influxer/GenericFile.cs:364-379 | With nothing pending, nothing happens. Otherwise there is one post, which throws exactly when the store raises; an accepted post counts every pending point as processed. |
| GenericRun.PostRetry | Influxer/GenericFile.cs:381-405 | With an empty retry queue, nothing happens. Otherwise there is one post. Accepted, the queue is processed and emptied. Rejected, its points count as failed, and the run throws exactly when the queue holds three batches or more than four requests have failed. |
| GenericRun.Finish | Influxer/GenericFile.cs:360-422 | The status reports the state's counters. Three batches left to retry, or more than three failed requests, end the run with UnableToProcess and nothing posted. At most two more posts are made. Success means no failed point. |
| GenericRun.Transfer | Influxer/GenericFile.cs:282-422 | The status reports the counters of the final state, posts only grow, and Success means no failed point. |
| GenericRun.Prepare | Influxer/GenericFile.cs:225-280 | The layout is that of GetFileLayout. The run goes on only with a Success layout and a retention lookup that succeeded. A layout status other than Success is returned as it is. A stop reports nothing counted and is never Success. |
| GenericRun.Run | Influxer/GenericFile.cs:214-431 | The status reports the final counters, and posts only grow. A stop before the lines returns the stop status with nothing posted. |
| GenericRun.Process | Influxer/GenericFile.cs:214-431 | The exit code of a run of the as-written members. Its counts are non-negative, and Success means no failed point. |
| GenericRun.ColumnsFilterRejectsEveryLine | Influxer/GenericFile.cs:232-242 | As written, a columns filter over a file with a header leaves no column header, so every data line fails to parse. |
| OrderedDict.Add | Influxer/GenericFile.cs:71 | Dictionary.Add appends a new key, and a key already present throws ArgumentException. |
| OrderedDict.RepeatBreaksDistinct | Influxer/Transformations/Splitter.cs:86-88 | Appending pairs whose first key is already present breaks the distinctness of the keys. |
| OrderedDict.Remove | Influxer/Config/CommandLineProcessor.cs:86 | Removing a key drops only that key. |
| OrderedDict.Put | Influxer/ExtensionMethods.cs:30 | The indexer setter keeps every existing key in its place, and adds the key at the end only when it was absent. |
| OrderedDict.PutDistinct | Influxer/ExtensionMethods.cs:30 | The indexer setter never makes a key appear twice. |
| OrderedDict.PutGet | Influxer/ExtensionMethods.cs:30 | After the indexer sets a key, looking it up gives the new value, and other keys are unchanged. |
| OrderedDict.MergeKeys | Influxer/ExtensionMethods.cs:22-32 | Merging yields the union of the keys, even when the collection repeats a key. |
| OrderedDict.MergeSpec | Influxer/ExtensionMethods.cs:22-32 | Merging keeps the old keys in place, adds the new ones, and the collection's values win. |
| Points.MarkSaved | Influxer/GenericFile.cs:303 | Marking a posted batch keeps its length and order, and sets Saved on exactly the points the server reported saved, keeping earlier flags. |
| Points.Store.constructor | Influxer/GenericFile.cs:303 | A new store has the given answer function and no post yet. |
| Points.Unsaved | Influxer/GenericFile.cs:318 | The retry candidates are exactly the batch's unsaved points. |
| Points.SavedSplit | Influxer/GenericFile.cs:318-319 | Each point of a batch is either counted as saved or queued for retry. |
| Points.Store.PostPoints | Influxer/GenericFile.cs:303 | A post logs the batch, returns the store's reply, and marks the points the reply saved. |
| Points.FirstMeasurement | Influxer/GenericFile.cs:30-31 | FirstOrDefault over the measurements finds the first one with the name: it has the name, and no earlier measurement does. |
| Runtime.CompileIfPresent | Influxer/Transformations/Splitter.cs:31-41 | A blank pattern gives no regex; a valid one gives a case-insensitive regex; an invalid one throws. |
| Runtime.IsMatchOrNull | Influxer/Transformations/Splitter.cs:71 | Matching against a missing regex throws NullReferenceException; otherwise it is the engine's match. |
| Transformations.ReplaceAllIsJoin | Influxer/Transformations/ReplaceTransformation.cs:43 | string.Replace is splitting on the searched text and joining with the replacement. |
| Transformations.ReplaceAllLength | Influxer/Transformations/ReplaceTransformation.cs:43 | A longer replacement never shortens the text, and a shorter one never lengthens it. |
| Transformations.ReplaceAllUnchanged | Influxer/Transformations/ReplaceTransformation.cs:43 | Replace leaves the text unchanged exactly when the searched text is absent or equals its replacement. |
| Transformations.ReplaceCanTransform | Influxer/Transformations/ReplaceTransformation.cs:29-33 | A default replacement always applies; blank content never does; a null FindText throws ArgumentNullException. |
| Transformations.ReplaceTransform | Influxer/Transformations/ReplaceTransformation.cs:40-44 | A default replacement gives its default value. Null content, a null FindText or an empty FindText throw, each with its own exception. Otherwise the result is not null. |
| Transformations.ReplaceCanTransformSpec | Influxer/Transformations/ReplaceTransformation.cs:29-33 | A replacement applies exactly when the content is not blank and contains FindText. |
| Transformations.ReplaceTransformSpec | Influxer/Transformations/ReplaceTransformation.cs:40-44 | Replacing splits on FindText and joins with ReplaceWith; joining the pieces back with FindText gives the content again; the content is unchanged exactly when FindText is absent or equals ReplaceWith. |
| Transformations.ExtractPattern | Influxer/Transformations/ExtractTransformation.cs:55-66 | Substring extraction has no pattern; a regex extraction compiles RegEx case-insensitively. |
| Transformations.ExtractCanTransform | Influxer/Transformations/ExtractTransformation.cs:70-78 | A default applies always, blank content never. A substring applies when the content is longer than StartIndex and than StartIndex + Length, that sum taken with 32-bit wrap-around. A regex with a blank pattern throws NullReferenceException. |
| Transformations.ExtractTransform | Influxer/Transformations/ExtractTransformation.cs:80-106 | A default extraction gives its default value. |
| Transformations.ExtractSubStringSpec | Influxer/Transformations/ExtractTransformation.cs:72-84 | An applicable substring extraction with a non-negative index and length whose sum fits in 32 bits gives the Length characters from StartIndex. If the sum overflows, or the index or length is negative, it throws ArgumentOutOfRangeException. |
| Transformations.ExtractSubStringLengthWraps | Influxer/Transformations/ExtractTransformation.cs:72-84 | With StartIndex 2 and Length int.MaxValue on "abcdef", the wrapped sum makes CanTransform true, and Transform then throws ArgumentOutOfRangeException. |
| Common.AddInt32 | Influxer/Transformations/ExtractTransformation.cs:74 | `StartIndex + Length` in C# int arithmetic: the true sum when it fits in 32 bits, otherwise the sum wrapped by 2^32, which has the opposite sign. |
| Transformations.ExtractSubStringWindowIsStrict | Influxer/Transformations/ExtractTransformation.cs:73-84 | The window that ends exactly at the end of the content is refused by CanTransform, although Transform would extract it. |
| Transformations.ExtractRegExSpec | Influxer/Transformations/ExtractTransformation.cs:86-105 | No match gives null. A match gives the whole match without a result pattern; with one, it gives the formatted captures, or an ArgumentException naming the content, the pattern and the formatting failure's message. The extraction applies exactly when a match exists. |
| Transformations.FilterCanTransform | Influxer/Transformations/FilterTransformation.cs:40-46 | A default filter always applies; blank content never does. |
| Transformations.FilterTransformSpec | Influxer/Transformations/FilterTransformation.cs:48-55 | A value is filtered out with InvalidDataException exactly when the filter applies, and otherwise becomes empty; the message starts with the content. |
| Transformations.FilterDefaultRejectsAll | Influxer/Transformations/FilterTransformation.cs:40-53 | A default filter rejects every value. |
| Transformations.FilterMatchSpec | Influxer/Transformations/FilterTransformation.cs:40-53 | A filter with a valid pattern rejects exactly the non-blank values its regex matches. |
| Transformations.LoadWithOneDefault | Influxer/Transformations/TransformationCollection.cs:14-19 | Loading keeps the items, or fails with "Only one instance can be marked as Default". |
| Transformations.CountWhereSpec | Influxer/Transformations/TransformationCollection.cs:17 | `Count(t => t.IsDefault) <= 1` holds exactly when no two items are both default. |
| Transformations.CollectionDefaultsSpec | Influxer/Transformations/TransformationCollection.cs:12-30 | Replace and extract collections load exactly when at most one item is default, and are kept as given. |
| Transformations.FilterCollectionUnchecked | Influxer/Transformations/TransformationCollection.cs:32-35 | Filter collections are not checked: two defaults load, where a replace collection would fail. |
| PerfmonFiles.Runs | Influxer/PerfmonFile.cs:169 | The matches of `([-0-9]+)` are non-empty runs of dashes and digits. |
| PerfmonFiles.RunsEmpty | Influxer/PerfmonFile.cs:169-170 | There is no match exactly when the cell has no dash and no digit. |
| PerfmonFiles.ParseRun | Influxer/PerfmonFile.cs:171 | int.Parse accepts digits, or a dash then digits, within 32 bits and with their value; any other match is a FormatException. |
| PerfmonFiles.FirstCell | Influxer/PerfmonFile.cs:164-166 | A missing first line throws NullReferenceException; a line without a comma throws ArgumentOutOfRangeException; otherwise the cell is the text before the first comma. |
| PerfmonFiles.UtcOffset | Influxer/PerfmonFile.cs:169-171 | With no match the offset is kept; with one to three matches `x[3]` throws ArgumentOutOfRangeException; otherwise the fourth match is parsed. |
| PerfmonFiles.ReadFormat | Influxer/PerfmonFile.cs:164-171 | A first cell without "PDH-CSV" is an InvalidDataException; a PDH-CSV cell gives its UTC offset. |
| PerfmonFiles.MarkerIsAMatch | Influxer/PerfmonFile.cs:167-170 | A cell that names PDH-CSV always has a match, so the previous offset is never silently kept. |
| PerfmonFiles.ZoneAndBias | Influxer/PerfmonFile.cs:169 | The time-zone part of the cell contributes only the bias as a match. |
| PerfmonFiles.StandardFirstCell | Influxer/PerfmonFile.cs:164-171 | In a standard Perfmon first cell the matches are "-", "4", "0" and the bias, so the offset read is the bias. |
| PerfmonFiles.CounterOf | Influxer/PerfmonFile.cs:50-58 | A counter path with fewer than five parts throws IndexOutOfRangeException. |
| PerfmonFiles.CountersFrom | Influxer/PerfmonFile.cs:50-58 | One counter per cell in order, failing exactly when some path is too short. |
| PerfmonFiles.CountersFromCells | Influxer/PerfmonFile.cs:50-58 | Counter k is the one read from cell k, numbered k + 1. |
| PerfmonFiles.PerfmonHeader | Influxer/PerfmonFile.cs:43-60 | A blank header gives no counter; otherwise the counters are those of the counter cells. |
| PerfmonFiles.HeaderCounters | Influxer/PerfmonFile.cs:43-60 | A header gives one counter per counter cell, numbered from 1, with host, object and counter trimmed of the replacement character; it fails exactly when a path is too short. |
| PerfmonFiles.CounterCellsSpec | Influxer/PerfmonFile.cs:47-50 | A cell is a counter cell exactly when it follows the skipped first cell and starts with a backslash (quoted: a quote then a backslash). |
| PerfmonFiles.FirstOccurrences | Influxer/PerfmonFile.cs:194 | The group keys are the distinct keys, in order of first occurrence. |
| PerfmonFiles.GroupBy | Influxer/PerfmonFile.cs:75 | GroupBy gives one group per distinct key, in the order the keys first occur. Group i is the group of its key, which holds exactly the counters with that key, in order. The groups are non-empty and every counter's key has a group. |
| PerfmonFiles.GroupOf | Influxer/PerfmonFile.cs:75 | A group holds exactly the counters with its key, each as often as in the input. |
| PerfmonFiles.GroupOfAppend | Influxer/PerfmonFile.cs:75 | A group keeps the counters in their order: the group of a concatenation is the groups of its parts, one after the other. |
| PerfmonFiles.GroupsOf | Influxer/PerfmonFile.cs:75 | There is one group per key, in the keys' order. |
| PerfmonFiles.Reading | Influxer/PerfmonFile.cs:94 | A missing column throws IndexOutOfRangeException; a value is read exactly when the cell is not blank and parses as a double. |
| PerfmonFiles.FieldsFrom | Influxer/PerfmonFile.cs:92-102 | Filling a point adds exactly the names of the counters that parse, keeps names distinct, and fails exactly when a column is missing. |
| PerfmonFiles.FieldsFromLast | Influxer/PerfmonFile.cs:96-100 | For a duplicated counter, the last value that parses wins. |
| PerfmonFiles.FieldsFromUnset | Influxer/PerfmonFile.cs:92-102 | A name none of whose columns parse keeps its earlier value. |
| PerfmonFiles.MultiPoint | Influxer/PerfmonFile.cs:77-105 | In multi-measurement mode, a host's point is measured by its object, tagged with the default tags and Host, and holds the parsed counters; there is no point when none parses. |
| PerfmonFiles.SinglePoint | Influxer/PerfmonFile.cs:112-126 | In single-measurement mode, each parsed value is a point of the configured measurement with Host, PerformanceObject and PerformanceCounter tags and one CounterValue field; a default tag with one of those names throws ArgumentException. |
| PerfmonFiles.SinglePointShaped | Influxer/PerfmonFile.cs:112-126 | A single-measurement point has the shape common to all line points, with Host right after the default tags. |
| PerfmonFiles.MultiPointShaped | Influxer/PerfmonFile.cs:79-88 | A multi-measurement point has the common shape and is measured by its object. |
| PerfmonFiles.SingleFrom | Influxer/PerfmonFile.cs:106-128 | As many points are appended as counters parse, and what came before is kept. |
| PerfmonFiles.SingleFromPoints | Influxer/PerfmonFile.cs:106-128 | The appended points are, in order, the single-measurement points of the counters whose cells hold a number, each with its own reading. |
| PerfmonFiles.SingleFromShift | Influxer/PerfmonFile.cs:106-128 | A host's single-measurement points do not depend on the points before them. |
| PerfmonFiles.SingleFromShaped | Influxer/PerfmonFile.cs:106-128 | Every single-measurement point of a host has the common shape and the host's tag. |
| PerfmonFiles.HostPoints | Influxer/PerfmonFile.cs:75-130 | In multi-measurement mode a host group fails exactly when its MultiMeasurement point fails; otherwise it appends that point, or nothing when no counter has a reading. In single-measurement mode it appends the points of `SingleFrom`. The appended points are shaped, and measured by the object in multi-measurement mode. |
| PerfmonFiles.HostPointsShift | Influxer/PerfmonFile.cs:75-130 | A host group's points do not depend on the points before them. |
| PerfmonFiles.HostsFrom | Influxer/PerfmonFile.cs:75-130 | The loop over host groups appends shaped points for the object. |
| PerfmonFiles.HostsFromConcat | Influxer/PerfmonFile.cs:75-130 | The host loop appends exactly the points of each host group, group after group, and fails with the first group's exception. |
| PerfmonFiles.ObjectsFrom | Influxer/PerfmonFile.cs:73-131 | The loop over objects appends shaped points, measured by one of the objects. |
| PerfmonFiles.ObjectsFromConcat | Influxer/PerfmonFile.cs:73-131 | The object loop appends exactly the points of each object group, object after object, and fails with the first exception. |
| PerfmonFiles.SampleTime | Influxer/PerfmonFile.cs:64-69 | The first cell must match the time format (FormatException otherwise), and the UTC offset in minutes is added. |
| PerfmonFiles.PerfmonLine | Influxer/PerfmonFile.cs:62-133 | A line with a bad time fails with that error; every point of a line has the line's time, precision and retention, and in multi-measurement mode is measured by an object. |
| PerfmonFiles.PerfmonLinePoints | Influxer/PerfmonFile.cs:62-133 | A line's points are those of its object groups in order. Within each object they follow its host groups in the order the hosts first appear. |
| PerfmonFiles.SinglePointsCount | Influxer/PerfmonFile.cs:108-128 | In single-measurement mode, a host gives as many points as its counters that parse. |
| PerfmonFiles.FilterPerfmonLogColumns | Influxer/PerfmonFile.cs:27-41 | No filter keeps every counter. A measurement filter keeps counters whose object is a measurement. A field filter keeps those whose counter is also one of its fields. A columns filter keeps those named in the filter list, so an empty list keeps none. A kept counter keeps all its repeats. |
| PerfmonFiles.FilterPerfmonLogColumnsAppend | Influxer/PerfmonFile.cs:27-41 | The filter keeps the counters in their order: filtering a concatenation filters each part, one after the other. |
| PerfmonFiles.TypeNameIsNoCounter | Influxer/PerfmonFile.cs:188 | The text `List<string>.ToString()` gives is not blank and does not start with a backslash. |
| PerfmonFiles.PerfmonColumnsFilterDropsAll | Influxer/PerfmonFile.cs:186-190 | As written, the filter list parsed from the list's type name is empty, so the columns filter drops every counter. |
| PerfmonFiles.PerfmonColumnsFilterKeepsNamed | Influxer/PerfmonFile.cs:186-190 | Corrected: the columns filter keeps exactly the counters whose object and counter some configured path names. |
| PerfmonFiles.PerfmonFilterColumnsAsWritten | Influxer/PerfmonFile.cs:188 | As written, the filter counters are parsed from the list's type name, one per counter cell of that text. |
| PerfmonFiles.PerfmonFilterColumns | Influxer/PerfmonFile.cs:186-190 | Corrected: there is at most one counter per configured entry. The parse fails exactly when some configured entry starting with `\` has fewer than five path parts. |
| PerfmonFiles.FilterCounterNamed | Influxer/PerfmonFile.cs:188 | Each corrected filter counter comes from a configured counter path. |
| PerfmonFiles.NamedFilterCounter | Influxer/PerfmonFile.cs:188 | Each configured counter path gives a filter counter with its object and counter. |
| PerfmonRun.Completed | Influxer/PerfmonFile.cs:331-346 | Success exactly when no line failed and nothing is left to retry. UnableToProcess when every line failed or every point found is in the retry queue. ProcessedWithErrors otherwise. |
| PerfmonRun.ProcessRefusesOtherFiles | Influxer/PerfmonFile.cs:164-168 | A file without a PDH-CSV first cell ends with UnknownError and nothing counted, and the offset is kept. |
| PerfmonRun.RequeueConserves | Influxer/PerfmonFile.cs:266-267 | Requeueing a batch loses no point, and the retry queue holds only unsaved points. |
| PerfmonRun.PostBatchConserves | Influxer/PerfmonFile.cs:247-274 | A batch post that lets the loop go on loses no point. |
| PerfmonRun.StepConserves | Influxer/PerfmonFile.cs:233-275 | Handling one line loses no point found. |
| PerfmonRun.StreamConserves | Influxer/PerfmonFile.cs:229-290 | Unless the store refused, every point found is processed, pending, queued or dropped. |
| PerfmonRun.StreamRefusal | Influxer/PerfmonFile.cs:269-270 | The loop breaks for the store only after more than four failed posts in a row. |
| PerfmonRun.StepRefusal | Influxer/PerfmonFile.cs:269-270 | One line breaks the loop for the store only on the fifth failed post in a row. |
| PerfmonRun.StoreRefusalAborts | Influxer/PerfmonFile.cs:292-294 | A loop broken by the store ends the run with UnknownError. |
| PerfmonRun.StepRecords | Influxer/PerfmonFile.cs:231-284 | One line is processed, or recorded as a failure, or both. It adds at most one failed line and one record, and the records stay ordered by line. |
| PerfmonRun.PostBatchRecords | Influxer/PerfmonFile.cs:247-284 | A batch post records a failure only with a failed line. |
| PerfmonRun.StreamRecords | Influxer/PerfmonFile.cs:229-290 | Over the loop, every line is processed or recorded, records are kept and ordered, and the lines processed never exceed the lines read. |
| PerfmonRun.StepLines | Influxer/PerfmonFile.cs:231-284 | One line raises the processed count by at most one, and is either counted as processed or recorded as a failure. |
| PerfmonRun.StreamKeepsRecords | Influxer/PerfmonFile.cs:229-290 | The loop keeps the failure records it started with, in order and ordered by line, and never lowers the points found. |
| PerfmonRun.StreamCountsLines | Influxer/PerfmonFile.cs:229-290 | The loop counts each line at most once, and a loop that runs to the end counts or records every line. |
| PerfmonRun.FinishKeepsLines | Influxer/PerfmonFile.cs:292-346 | After the loop, the line counters, records and points found are kept. |
| PerfmonRun.TransferSuccess | Influxer/PerfmonFile.cs:331-346 | Success means: no failed line, no failure recorded, no failed point, and every line after the first was processed. |
| PerfmonRun.FailedPointsNeedRetry | Influxer/PerfmonFile.cs:313-327 | After the loop, a run that does not end in UnknownError counts failed points only when the retry queue is left non-empty. |
| PerfmonRun.PostBatch | Influxer/PerfmonFile.cs:247-274 | A batch post is one request and changes neither the lines, the points found nor the failed points. An accepted batch goes on with no pending point and resets the failed-request count; a rejected one raises that count. Any other exception than ServiceUnavailable counts one failed line and goes on. |
| PerfmonRun.Step | Influxer/PerfmonFile.cs:231-284 | A line that fails to parse, or gives no point, counts one failed line and goes on. A parsed line counts one line and its points as found. At most one post is made, and failed points are unchanged. |
| PerfmonRun.StreamFrom | Influxer/PerfmonFile.cs:229-290 | The loop counts each line at most once, never lowers the points found or the posts, and leaves the failed points unchanged. |
| PerfmonRun.PostLeftover | Influxer/PerfmonFile.cs:296-311 | With nothing pending, nothing happens. Otherwise there is one post, which throws exactly when the store raises; an accepted post counts every pending point as processed. Points found and failures are unchanged. |
| PerfmonRun.PostRetry | Influxer/PerfmonFile.cs:313-327 | With an empty retry queue, nothing happens. Otherwise there is one post. Accepted, the queue is processed and emptied. Rejected, the run throws exactly when the queue holds three batches or more than four requests have failed, and otherwise the queue counts as failed points. |
| PerfmonRun.Finish | Influxer/PerfmonFile.cs:292-346 | The status reports the state's counters. Three batches left to retry, or more than three failed requests, end the run with UnknownError and nothing posted. At most two more posts are made. Success means no failed point and no failed line. |
| PerfmonRun.Transfer | Influxer/PerfmonFile.cs:229-346 | The status reports the counters of the final state, posts only grow, and Success means no failed point. |
| PerfmonRun.Counters | Influxer/PerfmonFile.cs:173-195 | A header that fails to parse passes its error on. Every grouped counter comes from the header. Without a filter, every header counter is in some group. |
| PerfmonRun.ColumnsFilterReadsNothing | Influxer/PerfmonFile.cs:186-190 | As written, a columns filter leaves no counter group, so every line gives no point. |
| PerfmonRun.NextOffset | Influxer/PerfmonFile.cs:164-171 | The offset is kept, or becomes the one the first line gives; with no line it is kept. |
| PerfmonRun.Run | Influxer/PerfmonFile.cs:150-356 | The status reports the final counters, and posts only grow. A first line refused as a Perfmon header (no first cell, or no PDH-CSV marker), counters that fail to parse, or a failed retention lookup end the run with UnknownError, nothing counted and nothing posted. |
| PerfmonRun.Process | Influxer/PerfmonFile.cs:150-356 | The exit code of a run of the as-written members. Points found are non-negative, and Success means no failed point. |
| PerfmonReader.ParseCounters | Influxer/PerfmonFile.cs:48-58 | The loop with the running column number computes `CountersFrom`. |
| PerfmonReader.ReadFields | Influxer/PerfmonFile.cs:92-102 | The loop fills the point as `FieldsFrom` does. |
| PerfmonReader.MultiMeasurementPoint | Influxer/PerfmonFile.cs:77-105 | The method builds the point of `MultiPoint`. |
| PerfmonReader.SingleMeasurementPoints | Influxer/PerfmonFile.cs:106-128 | The loop builds the points of `SingleFrom`. |
| PerfmonReader.HostGroupPoints | Influxer/PerfmonFile.cs:75-130 | One host group gives the points of `HostPoints`. |
| PerfmonReader.PerfmonFile.constructor | Influxer/PerfmonFile.cs:135-148 | A new reader keeps its settings, engine and tags, with offset 0. |
| PerfmonReader.PerfmonFile.ParsePerfMonFileHeader | Influxer/PerfmonFile.cs:43-60 | The method reads the counters of `PerfmonHeader`. |
| PerfmonReader.PerfmonFile.ProcessPerfmonLogLine | Influxer/PerfmonFile.cs:62-133 | The nested loops over objects and hosts give the points of `PerfmonLine` at the reader's offset. |
| PerfmonReader.PerfmonFile.Catch | Influxer/PerfmonFile.cs:277-284 | The catch block counts the failed line and records it at the lines processed so far. |
| PerfmonReader.PerfmonFile.PostFullBatch | Influxer/PerfmonFile.cs:247-274 | Posting a full batch gives the state and flow of `PostBatch`, or hands the exception to the catch block. |
| PerfmonReader.PerfmonFile.QueueLine | Influxer/PerfmonFile.cs:231-275 | One line's points change the state as `Step` does. |
| PerfmonReader.PerfmonFile.HandleLine | Influxer/PerfmonFile.cs:231-284 | One pass of the loop body, catch block included, changes the state as `Step` does and keeps every failure recorded in its type's tracker. |
| PerfmonReader.PerfmonFile.StreamLines | Influxer/PerfmonFile.cs:229-290 | The loop ends in the state and flow of `StreamFrom`, and its trackers record every failure. |
| PerfmonReader.PerfmonFile.FinishLines | Influxer/PerfmonFile.cs:292-346 | What follows the loop returns the status of `Finish`. |
| PerfmonReader.PerfmonFile.PostLeftoverBatch | Influxer/PerfmonFile.cs:296-311 | Posting the last partial batch gives the state of `PostLeftover`, and says when the store threw. |
| PerfmonReader.PerfmonFile.RetryOnce | Influxer/PerfmonFile.cs:313-327 | The one retry of the queue gives the state of `PostRetry`. The run ends on an exception, or on a refused retry when the queue is full or posts failed too often. |
| PerfmonReader.PerfmonFile.TransferLines | Influxer/PerfmonFile.cs:229-346 | The loop and what follows it return the status of `Transfer`. |
| PerfmonReader.PerfmonFile.ProcessPerfMonLog | Influxer/PerfmonFile.cs:150-356 | The whole run returns the status of `Run`, which uses the as-written counter filter. The store receives the run's posts, and the offset becomes the one the first line gives, when it gives one. |
| PerfmonReader.PerfmonFile.ReadFileFormat | Influxer/PerfmonFile.cs:164-171 | The first line is accepted exactly when `ReadFormat` accepts it, and the offset becomes the one it reads. |
| PerfmonReader.PerfmonFile.ReadGroups | Influxer/PerfmonFile.cs:173-195 | The counters are read, filtered and grouped by object as `Counters` does. |
| PerfmonReader.NewPerfmonFile | Influxer/PerfmonFile.cs:135-148 | Construction fails exactly when the default tags do not parse: a tag without '=', or two tags with the same name. Otherwise the reader holds the parsed tags, with offset 0. |

## Left out

- Logging, the console output, the stopwatch and the help and version texts are not modelled; only the decisions they accompany are.
- The InfluxDB client is not part of this model. Posting is the store's `respond` function, the database structure is a value, and the outcome of the retention-policy lookup or creation is a parameter (`Ok(policy)` or the exception it threw).
- Files are sequences of lines; async/await and file I/O are not modelled.
- Regular expressions, `Double.TryParse`, `Boolean.TryParse`, `long.TryParse`, `DateTime.TryParseExact`, `DateTime.FromBinary`, `string.Format` and `Math.Round(v, 2)` are parameters (the `Engine`), so the model holds for any behaviour of theirs.
- `ToLower` lower-cases ASCII letters only; culture-specific case mapping is not modelled.
- Configuration loading (`InfluxerConfigSection.Load`, `Path.GetFullPath`) is the `loadConfig` parameter. The reflection binding in `ProcessCommandLineArguments` is the `bind` parameter, which returns whether it accepted the switches and which it left.
- CommandLine.Arguments: the FileLoadException and "Error processing arguments" messages embed the inner exception's type name; the model keeps the exception kind and the inner message, not that text.
- CommandLine.Arguments: `/autolayout` under `/export` (which reads the input file) and the content of the exported configuration are not modelled; `/export` returns false.
- Points are values, so reference identity is not modelled. Dictionary keys that are GenericColumn or ColumnConfig objects compare by value, and a column whose type `ValidateData` sets is updated in the header list rather than through shared references.
- `ColumnConfig.DataType` written through `d.Key.Config.DataType` is updated on the header's own configuration only; the configured layout list keeps its entry.
- The sub-column split (`GenericColumn.HasAutoGenColumns`, `SplitData`, `CanTransform`, `Transform`) is the `ColumnChain` parameter: GenericColumn's own code is not part of this model.
- Extensions.SplitFixedWidth: requires a width above 0. On a non-empty string the source loops forever at width 0, and the model does not capture that divergence.
- Columns.Split: requires no fixed-width splitter of width 0 anywhere in the nesting, for the same reason.
- Columns.SplitValues: requires the splitter not to be fixed-width with width 0, for the same reason.
- `PerfmonCounter.cs` is not part of this model; a counter is a value with its column index, host, object and counter name.
- `InitializeTags(defaultTags)` is modelled as copying the default tags into the point's tags.
- A null `DefaultTags` or `ColumnsFilter` list in the settings is modelled as an empty list.
- The `DateTime.MinValue` fall-through of `ParseTimestamp` and the `point == null` branch of the generic loop are unreachable, and are left out.
- `ServiceUnavailableException` is taken as not being an `InfluxDBException`, because the client library is not visible.
- A Perfmon reader is modelled for one run: the retention policy found in one run is a parameter of that run and not kept in the reader, and the offset is the only field carried from one call to the next.
- Strings are sequences of `char` taken as whole characters. .NET strings are UTF-16 code units, so for text outside the Basic Multilingual Plane the lengths and positions used by `SplitFixedWidth`, `CanTransform` and `Substring` count surrogate halves, and the model does not capture a chunk or substring that cuts a surrogate pair.
- 32-bit overflow of the `int` counters (points found, lines processed) is not modelled; they are unbounded integers.

## Findings

Each row shows a member that models the code as written and a corrected member beside it. The readers and the run functions (`GenericRun.Run`, `PerfmonRun.Run` and the methods proved equal to them) use the as-written members, as the program does. The corrected members are the intended behaviour, with its property proved, and are tied to the as-written ones by the lemmas named in the table.

| source | as written | input that shows it | evidently intended | confidence | as-written member | corrected member |
|---|---|---|---|---|---|---|
| Influxer/PerfmonFile.cs:188 | The counter filter is parsed from `ColumnsFilter.ToString()`. That is the list's type name, ``System.Collections.Generic.List`1[System.String]``, not its entries, so it holds no counter path. | Filter = Columns with `-columns \\host\Processor(_Total)\% Processor Time`: every counter is dropped. | Parse the configured entries themselves and keep the counters they name. | not executed | PerfmonFiles.PerfmonColumnsFilterDropsAll | PerfmonFiles.PerfmonColumnsFilterKeepsNamed |
| Influxer/GenericFile.cs:232-242 | The filter list is built from the type name above. When the file has a header, it is built only after `GetFileLayout` has filled the layout, and a filled layout makes the list empty. | Filter = Columns, a header line, no configured layout: every column is dropped. | Keep the columns named in the configured list, when no layout was configured. | not executed | GenericFiles.GenericColumnsFilterDropsAll | GenericFiles.GenericColumnsFilterKeepsNamed |
| Influxer/Transformations/Splitter.cs:51-52 | `SelectMany(t => t.SplitConfig?.SubColumns)` yields null for a split column without a nested splitter. So when only some of the columns are nested, enumerating throws NullReferenceException. | Two split columns, the first plain and the second split again into one column. | List the nested sub-columns of the nested columns only. | not executed | Columns.SubColumnsMixedNesting | Columns.SubColumnsOk |
| Influxer/ExtensionMethods.cs:65 | `epoch / 1000 * TimeSpan.TicksPerMillisecond` is computed in 64 bits and wraps for large microsecond epochs, giving a time near 1970 instead of an out-of-range error. | epoch = 1844674407370956000 µs, precision Microseconds: the result is 8384 ticks after 1970. | Fail with ArgumentOutOfRangeException, as AddTicks does for any time outside the DateTime range. | not executed | Extensions.MicrosecondsWrapAround | Extensions.FromEpoch |
