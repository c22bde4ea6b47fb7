/**
 Config/ColumnConfig.cs and Transformations/Splitter.cs: the configuration of
 one input column (its transforms and an optional splitter) and the splitter
 that cuts a field into a tree of sub-columns, by fixed width or by a
 delimiter pattern. A column is a value here; the dictionaries the splitter
 returns are keyed by column value.
 */
module Columns {
  import opened Common
  import opened Runtime
  import opened OrderedDict
  import opened Transformations
  import Extensions

  datatype SplitType = Delimited | FixedWidth

  datatype ColumnConfig = ColumnConfig(
    nameInFile: NString,
    influxName: NString,
    skip: bool,
    dataType: ColumnDataType,
    replaceTransformations: Option<seq<ReplaceTransformation>>,
    extractTransformations: Option<seq<ExtractTransformation>>,
    filterTransformations: Option<seq<FilterTransformation>>,
    splitConfig: Option<Splitter>,
    isDefault: bool)

  /** A possibly-null `List<ColumnConfig>`. */
  datatype ColumnList = NullList | ColumnList(items: seq<ColumnConfig>)

  datatype Splitter = Splitter(
    delimiter: NString,
    splitColumns: ColumnList,
    splitType: SplitType,
    width: int)

  /** `new ColumnConfig()`: every reference null, every flag false, the type the enum's 0. */
  function NewColumnConfig(): (c: ColumnConfig)
    ensures c.dataType == Unknown && c.dataType.Ordinal() == 0
    ensures c.splitConfig.None? && !c.skip && !c.isDefault
  {
    ColumnConfig(None, None, false, Unknown, None, None, None, None, false)
  }

  /** `GetKey`: a column is keyed by its Influx name. */
  function GetKey(c: ColumnConfig): NString {
    c.influxName
  }

  /** `?.Count` of a possibly-null collection, with null counting as empty. */
  function CountOrZero<T>(s: Option<seq<T>>): nat {
    if s.None? then 0 else |s.value|
  }

  function ListCount(l: ColumnList): nat {
    if l.NullList? then 0 else |l.items|
  }

  function SplitColumnCount(c: ColumnConfig): nat {
    if c.splitConfig.None? then 0 else ListCount(c.splitConfig.value.splitColumns)
  }

  /** `PostDeserialize`: a column may be split or transformed (Extract or Replace), not both. */
  function PostDeserialize(c: ColumnConfig): (r: Result<ColumnConfig>)
    ensures r.Fail? <==> SplitColumnCount(c) > 0 && (CountOrZero(c.extractTransformations) > 0 || CountOrZero(c.replaceTransformations) > 0)
    ensures r.Ok? ==> r.value == c
    ensures r.Fail? ==> r.error == Error(ArgumentException, "A Column can be split or transformed, but not both!!")
  {
    if c.splitConfig.Some? && c.splitConfig.value.splitColumns.ColumnList? && |c.splitConfig.value.splitColumns.items| > 0
       && ((c.extractTransformations.Some? && |c.extractTransformations.value| > 0)
           || (c.replaceTransformations.Some? && |c.replaceTransformations.value| > 0))
    then Throw(ArgumentException, "A Column can be split or transformed, but not both!!")
    else Ok(c)
  }

  /**
   The split-xor-transform check ignores Filter transformations, never fires
   for a splitter without split columns, and treats null collections as empty.
   */
  lemma PostDeserializeScope(c: ColumnConfig, filters: Option<seq<FilterTransformation>>, sp: Splitter)
    ensures PostDeserialize(c.(filterTransformations := filters)).Ok? <==> PostDeserialize(c).Ok?
    ensures ListCount(sp.splitColumns) == 0 ==> PostDeserialize(c.(splitConfig := Some(sp))).Ok?
    ensures c.extractTransformations.None? && c.replaceTransformations.None? ==> PostDeserialize(c).Ok?
    ensures c.splitConfig.None? ==> PostDeserialize(c).Ok?
  {
  }

  // ---------------------------------------------------------------------------
  // SubColumns

  /** `SplitPattern`: the case-insensitive delimiter regex of a Delimited splitter, otherwise null. */
  function SplitPattern(e: Engine, sp: Splitter): Result<Option<Regex>> {
    if sp.splitType.Delimited? then CompileIfPresent(e, sp.delimiter) else Ok(None)
  }

  predicate AnyNested(cols: seq<ColumnConfig>) {
    exists i :: 0 <= i < |cols| && cols[i].splitConfig.Some?
  }

  /**
   `SubColumns` as written: the split columns, then, when any of them has a
   splitter, `SelectMany(t => t.SplitConfig?.SubColumns)`, which throws a
   NullReferenceException on a column without a splitter.
   */
  function SubColumnsAsWritten(sp: Splitter): (r: Result<seq<ColumnConfig>>)
    ensures r.Ok? ==> sp.splitColumns.ColumnList? && |r.value| >= |sp.splitColumns.items| && r.value[..|sp.splitColumns.items|] == sp.splitColumns.items
    ensures r.Fail? ==> r.error.kind == NullReferenceException
    ensures sp.splitColumns.ColumnList? && !AnyNested(sp.splitColumns.items) ==> r == Ok(sp.splitColumns.items)
    decreases sp, 1, 0
  {
    if sp.splitColumns.NullList? then Throw(NullReferenceException, "SplitColumns")
    else if AnyNested(sp.splitColumns.items) then
      var nested :- SelectManyAsWritten(sp, 0);
      assert (sp.splitColumns.items + nested)[..|sp.splitColumns.items|] == sp.splitColumns.items;
      Ok(sp.splitColumns.items + nested)
    else Ok(sp.splitColumns.items)
  }

  function SelectManyAsWritten(sp: Splitter, i: nat): (r: Result<seq<ColumnConfig>>)
    requires sp.splitColumns.ColumnList? && i <= |sp.splitColumns.items|
    ensures r.Fail? ==> r.error.kind == NullReferenceException
    decreases sp, 0, |sp.splitColumns.items| - i
  {
    var cols := sp.splitColumns.items;
    if i == |cols| then Ok([])
    else if cols[i].splitConfig.None? then Throw(NullReferenceException, "SplitConfig")
    else
      var first :- SubColumnsAsWritten(cols[i].splitConfig.value);
      var rest :- SelectManyAsWritten(sp, i + 1);
      Ok(first + rest)
  }

  /**
   `SubColumns` with a column without a splitter contributing nothing: the
   split columns, then the sub-columns of every nested splitter in order.
   */
  function SubColumns(sp: Splitter): (r: Result<seq<ColumnConfig>>)
    ensures r.Ok? ==> sp.splitColumns.ColumnList? && |r.value| >= |sp.splitColumns.items| && r.value[..|sp.splitColumns.items|] == sp.splitColumns.items
    ensures r.Fail? ==> r.error.kind == NullReferenceException
    decreases sp, 1, 0
  {
    if sp.splitColumns.NullList? then Throw(NullReferenceException, "SplitColumns")
    else if AnyNested(sp.splitColumns.items) then
      var nested :- SelectMany(sp, 0);
      assert (sp.splitColumns.items + nested)[..|sp.splitColumns.items|] == sp.splitColumns.items;
      Ok(sp.splitColumns.items + nested)
    else Ok(sp.splitColumns.items)
  }

  function SelectMany(sp: Splitter, i: nat): (r: Result<seq<ColumnConfig>>)
    requires sp.splitColumns.ColumnList? && i <= |sp.splitColumns.items|
    ensures r.Fail? ==> r.error.kind == NullReferenceException
    decreases sp, 0, |sp.splitColumns.items| - i
  {
    var cols := sp.splitColumns.items;
    if i == |cols| then Ok([])
    else if cols[i].splitConfig.None? then SelectMany(sp, i + 1)
    else
      var first :- SubColumns(cols[i].splitConfig.value);
      var rest :- SelectMany(sp, i + 1);
      Ok(first + rest)
  }

  /**
   A splitter whose split columns mix a nested splitter with a plain column:
   the written `SubColumns` throws, the corrected one lists the direct columns
   and then the nested one.
   */
  lemma SubColumnsMixedNesting(a: ColumnConfig, b: ColumnConfig, x: ColumnConfig)
    requires a.splitConfig.None? && x.splitConfig.None?
    requires b.splitConfig == Some(Splitter(None, ColumnList([x]), FixedWidth, 1))
    ensures SubColumnsAsWritten(Splitter(Some(","), ColumnList([a, b]), Delimited, 0)).Fail?
    ensures SubColumnsAsWritten(Splitter(Some(","), ColumnList([a, b]), Delimited, 0)).error.kind == NullReferenceException
    ensures SubColumns(Splitter(Some(","), ColumnList([a, b]), Delimited, 0)) == Ok([a, b, x])
  {
    var sp := Splitter(Some(","), ColumnList([a, b]), Delimited, 0);
    var cols := sp.splitColumns.items;
    assert cols[0] == a && cols[1] == b;
    assert AnyNested(cols);
    var inner := b.splitConfig.value;
    assert inner.splitColumns.items[0] == x;
    assert !AnyNested(inner.splitColumns.items);
    assert SubColumns(inner) == Ok([x]);
    assert SelectMany(sp, 2) == Ok([]);
    assert SelectMany(sp, 1) == Ok([x] + []);
    assert [x] + [] == [x];
    assert SelectMany(sp, 0) == Ok([x]);
    assert cols + [x] == [a, b, x];
    assert SelectManyAsWritten(sp, 0).Fail?;
  }

  /**
   `Split` as written throws on a splitter nested two levels deep that mixes
   a plain and a split column: the outer loop asks for its `SubColumns`.
   */
  lemma SplitMixedNesting(e: Engine, a: ColumnConfig, b: ColumnConfig, x: ColumnConfig, c0: ColumnConfig)
    requires a.splitConfig.None? && x.splitConfig.None?
    requires b.splitConfig == Some(Splitter(None, ColumnList([x]), FixedWidth, 1))
    requires c0.splitConfig == Some(Splitter(None, ColumnList([a, b]), FixedWidth, 1))
    ensures NoZeroWidth(Splitter(None, ColumnList([c0]), FixedWidth, 2))
    ensures SplitSpec(e, Splitter(None, ColumnList([c0]), FixedWidth, 2), "ab").Fail?
    ensures SplitSpec(e, Splitter(None, ColumnList([c0]), FixedWidth, 2), "ab").error.kind == NullReferenceException
  {
    var sp := Splitter(None, ColumnList([c0]), FixedWidth, 2);
    var mid := c0.splitConfig.value;
    var inner := b.splitConfig.value;
    assert inner.splitColumns.items[0] == x;
    assert NoZeroWidth(inner);
    assert mid.splitColumns.items[0] == a && mid.splitColumns.items[1] == b;
    assert NoZeroWidth(mid);
    assert sp.splitColumns.items[0] == c0;
    assert NoZeroWidth(sp);
    assert Extensions.Chunks("ab", 2) == ["ab"];
    assert AnyNested(mid.splitColumns.items);
    assert SelectManyAsWritten(mid, 0).Fail?;
    assert HasNestedColumns(c0).Fail?;
    assert SplitFrom(e, sp, ["ab"], 0, []) == Fail(HasNestedColumns(c0).error);
  }

  /** Where the written `SubColumns` succeeds, the corrected one agrees with it. */
  lemma {:induction false} SubColumnsAgrees(sp: Splitter)
    requires SubColumnsAsWritten(sp).Ok?
    ensures SubColumns(sp) == SubColumnsAsWritten(sp)
    decreases sp, 1, 0
  {
    if sp.splitColumns.ColumnList? && AnyNested(sp.splitColumns.items) {
      SelectManyAgrees(sp, 0);
    }
  }

  lemma {:induction false} SelectManyAgrees(sp: Splitter, i: nat)
    requires sp.splitColumns.ColumnList? && i <= |sp.splitColumns.items|
    requires SelectManyAsWritten(sp, i).Ok?
    ensures SelectMany(sp, i) == SelectManyAsWritten(sp, i)
    decreases sp, 0, |sp.splitColumns.items| - i
  {
    var cols := sp.splitColumns.items;
    if i < |cols| {
      SubColumnsAgrees(cols[i].splitConfig.value);
      SelectManyAgrees(sp, i + 1);
    }
  }

  // ---------------------------------------------------------------------------
  // CanSplit and Split

  /** `CanSplit`: blank content never splits; FixedWidth needs content strictly longer than the width. */
  function CanSplit(e: Engine, sp: Splitter, content: NString): (r: Result<bool>)
    ensures IsNullOrWhiteSpace(content) ==> r == Ok(false)
    ensures !IsNullOrWhiteSpace(content) && sp.splitType.FixedWidth? ==> r == Ok(|content.value| > sp.width)
  {
    if IsNullOrWhiteSpace(content) then Ok(false)
    else if sp.splitType.FixedWidth? then Ok(|content.value| > sp.width)
    else
      var pattern :- SplitPattern(e, sp);
      IsMatchOrNull(e, pattern, content.value)
  }

  /** A Delimited splitter with a usable delimiter splits exactly the non-blank content its pattern matches. */
  lemma CanSplitDelimited(e: Engine, sp: Splitter, c: string)
    requires sp.splitType.Delimited? && !IsNullOrWhiteSpace(sp.delimiter) && e.validPattern(sp.delimiter.value)
    ensures CanSplit(e, sp, Some(c)) == Ok(!IsBlank(c) && IsMatch(e, Regex(sp.delimiter.value, true), c))
  {
  }

  /** Content exactly as long as the width is not splittable, though it is one whole chunk. */
  lemma CanSplitIsStrict(e: Engine, d: NString, cols: ColumnList)
    ensures CanSplit(e, Splitter(d, cols, FixedWidth, 4), Some("ABCD")) == Ok(false)
    ensures Extensions.Chunks("ABCD", 4) == ["ABCD"]
  {
  }

  /** No FixedWidth splitter of the tree has width 0 (its chunk loop would never advance). */
  predicate NoZeroWidth(sp: Splitter)
    decreases sp
  {
    !(sp.splitType.FixedWidth? && sp.width == 0)
    && (sp.splitColumns.ColumnList? ==>
          forall i :: 0 <= i < |sp.splitColumns.items| && sp.splitColumns.items[i].splitConfig.Some? ==>
            NoZeroWidth(sp.splitColumns.items[i].splitConfig.value))
  }

  /** The fragments of `content`: fixed-width chunks, or the pieces of the delimiter regex split. */
  function SplitValues(e: Engine, sp: Splitter, content: string): (r: Result<seq<string>>)
    requires !(sp.splitType.FixedWidth? && sp.width == 0)
    ensures sp.splitType.FixedWidth? && sp.width > 0 ==> r == Ok(Extensions.Chunks(content, sp.width))
    ensures sp.splitType.FixedWidth? && sp.width < 0 ==> r == if content == "" then Ok([]) else Throw(ArgumentOutOfRangeException, "length")
  {
    if sp.splitType.FixedWidth? then
      if sp.width > 0 then Ok(Extensions.Chunks(content, sp.width))
      // A negative width: the first `Substring` gets a negative length.
      else if content == "" then Ok([])
      else Throw(ArgumentOutOfRangeException, "length")
    else
      var pattern :- SplitPattern(e, sp);
      if pattern.None? then Throw(NullReferenceException, "SplitPattern")
      else Ok(e.split(pattern.value, content))
  }

  /**
   `SplitColumns[i].SplitConfig?.SubColumns?.Count > 0`, with `SubColumns` as
   written: a nested splitter that mixes plain and split columns throws.
   */
  function HasNestedColumns(c: ColumnConfig): (r: Result<bool>)
    ensures c.splitConfig.None? ==> r == Ok(false)
    ensures c.splitConfig.Some? ==> (r.Ok? <==> SubColumnsAsWritten(c.splitConfig.value).Ok?)
    ensures r.Ok? && c.splitConfig.Some? ==> SubColumns(c.splitConfig.value).Ok? && r.value == (|SubColumns(c.splitConfig.value).value| > 0)
  {
    if c.splitConfig.None? then Ok(false)
    else
      var sub :- SubColumnsAsWritten(c.splitConfig.value);
      SubColumnsAgrees(c.splitConfig.value);
      Ok(|sub| > 0)
  }

  /**
   `foreach (var c in kvs) ret.Add(c.Key, c.Value)`: from distinct keys, it
   succeeds exactly when the keys stay distinct, appending the entries in
   order; a repeated key is an ArgumentException.
   */
  function AddAll(acc: Entries<ColumnConfig, string>, kvs: Entries<ColumnConfig, string>): (r: Result<Entries<ColumnConfig, string>>)
    ensures r.Ok? ==> r.value == acc + kvs
    ensures r.Ok? && DistinctKeys(acc) ==> DistinctKeys(r.value)
    ensures DistinctKeys(acc) ==> (r.Ok? <==> DistinctKeys(acc + kvs))
    ensures r.Fail? ==> r.error.kind == ArgumentException
    decreases |kvs|
  {
    if |kvs| == 0 then
      assert acc + kvs == acc;
      Ok(acc)
    else
      var added := Add(acc, kvs[0].0, kvs[0].1);
      if added.Fail? then
        RepeatBreaksDistinct(acc, kvs);
        Fail(added.error)
      else
        var next := added.value;
        AppendDistinct(acc, kvs[0]);
        assert acc + kvs == next + kvs[1..];
        AddAll(next, kvs[1..])
  }

  /** The entries `Split` returns: each split column paired with its fragment, nested splitters replaced by their own entries. */
  function SplitSpec(e: Engine, sp: Splitter, content: string): (r: Result<Entries<ColumnConfig, string>>)
    requires NoZeroWidth(sp)
    ensures SplitValues(e, sp, content).Fail? ==> r == Fail(SplitValues(e, sp, content).error)
    ensures SplitValues(e, sp, content).Ok? && sp.splitColumns.NullList? ==> r.Fail? && r.error.kind == NullReferenceException
    ensures r.Ok? ==> DistinctKeys(r.value)
    decreases sp, 1, 0
  {
    var values :- SplitValues(e, sp, content);
    if sp.splitColumns.NullList? then Throw(NullReferenceException, "SplitColumns")
    else SplitFrom(e, sp, values, 0, [])
  }

  /** The loop of `Split` from column `i` on, with `acc` the entries gathered so far. */
  function SplitFrom(e: Engine, sp: Splitter, values: seq<string>, i: nat, acc: Entries<ColumnConfig, string>): (r: Result<Entries<ColumnConfig, string>>)
    requires NoZeroWidth(sp) && sp.splitColumns.ColumnList? && i <= |sp.splitColumns.items|
    ensures r.Ok? ==> |r.value| >= |acc| && r.value[..|acc|] == acc
    ensures r.Ok? && DistinctKeys(acc) ==> DistinctKeys(r.value)
    decreases sp, 0, |sp.splitColumns.items| - i
  {
    var cols := sp.splitColumns.items;
    if i == |cols| then Ok(acc)
    else
      var nested :- HasNestedColumns(cols[i]);
      if i >= |values| then Throw(ArgumentOutOfRangeException, "index")
      else if nested then
        var sub :- SplitSpec(e, cols[i].splitConfig.value, values[i]);
        var next :- AddAll(acc, sub);
        KeepsPrefix(acc, next, SplitFrom(e, sp, values, i + 1, next));
        SplitFrom(e, sp, values, i + 1, next)
      else
        var next :- Add(acc, cols[i], values[i]);
        AppendDistinct(acc, (cols[i], values[i]));
        KeepsPrefix(acc, next, SplitFrom(e, sp, values, i + 1, next));
        SplitFrom(e, sp, values, i + 1, next)
  }


  /** `Split(content)`: pairs split column i with fragment i, recursing into nested splitters. */
  method Split(e: Engine, sp: Splitter, content: string) returns (r: Result<Entries<ColumnConfig, string>>)
    requires NoZeroWidth(sp)
    ensures r == SplitSpec(e, sp, content)
    decreases sp
  {
    var values: seq<string>;
    if sp.splitType.FixedWidth? {
      if sp.width > 0 {
        values := Extensions.SplitFixedWidth(content, sp.width);
      } else if content == "" {
        // A negative width yields nothing on empty content and throws otherwise.
        values := [];
      } else {
        return Throw(ArgumentOutOfRangeException, "length");
      }
    } else {
      var pattern := SplitPattern(e, sp);
      if pattern.Fail? {
        return Fail(pattern.error);
      }
      if pattern.value.None? {
        return Throw(NullReferenceException, "SplitPattern");
      }
      values := e.split(pattern.value.value, content);
    }
    assert SplitValues(e, sp, content) == Ok(values);
    if sp.splitColumns.NullList? {
      return Throw(NullReferenceException, "SplitColumns");
    }
    var cols := sp.splitColumns.items;
    var ret: Entries<ColumnConfig, string> := [];
    for i := 0 to |cols|
      invariant SplitFrom(e, sp, values, i, ret) == SplitSpec(e, sp, content)
    {
      var nested := HasNestedColumns(cols[i]);
      if nested.Fail? {
        return Fail(nested.error);
      }
      if i >= |values| {
        return Throw(ArgumentOutOfRangeException, "index");
      }
      if nested.value {
        var sub := Split(e, cols[i].splitConfig.value, values[i]);
        if sub.Fail? {
          return Fail(sub.error);
        }
        var kvs := sub.value;
        ghost var before := ret;
        for j := 0 to |kvs|
          invariant AddAll(ret, kvs[j..]) == AddAll(before, kvs)
        {
          var added := Add(ret, kvs[j].0, kvs[j].1);
          if added.Fail? {
            return Fail(added.error);
          }
          ret := added.value;
        }
      } else {
        var added := Add(ret, cols[i], values[i]);
        if added.Fail? {
          return Fail(added.error);
        }
        ret := added.value;
      }
    }
    return Ok(ret);
  }

  /** Split columns without nested splitters, paired with the first fragments. */
  function Zip(cols: seq<ColumnConfig>, values: seq<string>): (r: Entries<ColumnConfig, string>)
    requires |cols| <= |values|
    ensures |r| == |cols| && forall i :: 0 <= i < |cols| ==> r[i] == (cols[i], values[i])
  {
    seq(|cols|, i requires 0 <= i < |cols| => (cols[i], values[i]))
  }

  predicate DistinctColumns(cols: seq<ColumnConfig>) {
    forall i, j :: 0 <= i < j < |cols| ==> cols[i] != cols[j]
  }

  lemma {:induction false} FlatSplitFrom(e: Engine, sp: Splitter, values: seq<string>, i: nat)
    requires NoZeroWidth(sp) && sp.splitColumns.ColumnList? && i <= |sp.splitColumns.items|
    requires !AnyNested(sp.splitColumns.items) && DistinctColumns(sp.splitColumns.items)
    ensures |sp.splitColumns.items| <= |values| ==>
      SplitFrom(e, sp, values, i, Zip(sp.splitColumns.items[..i], values)) == Ok(Zip(sp.splitColumns.items, values))
    ensures |values| < |sp.splitColumns.items| && i <= |values| ==>
      SplitFrom(e, sp, values, i, Zip(sp.splitColumns.items[..i], values)) == Throw(ArgumentOutOfRangeException, "index")
    decreases |sp.splitColumns.items| - i
  {
    var cols := sp.splitColumns.items;
    if i < |cols| && i < |values| {
      ZipStep(cols, values, i);
      FlatStep(e, sp, values, i, Zip(cols[..i], values));
      FlatSplitFrom(e, sp, values, i + 1);
    } else if i < |cols| && i == |values| {
      FlatStep(e, sp, values, i, Zip(cols[..i], values));
    } else if i == |cols| {
      assert cols[..i] == cols;
    }
  }

  /** Distinct columns paired with their fragments: the next column is a new key, appended at the end. */
  lemma ZipStep(cols: seq<ColumnConfig>, values: seq<string>, i: nat)
    requires i < |cols| && i < |values| && DistinctColumns(cols)
    ensures cols[i] !in Keys(Zip(cols[..i], values))
    ensures Zip(cols[..i + 1], values) == Zip(cols[..i], values) + [(cols[i], values[i])]
  {
    var before := Zip(cols[..i], values);
    forall j | 0 <= j < |before| ensures before[j].0 != cols[i] {
      assert before[j].0 == cols[j];
    }
    KeysCompleteness(before, cols[i]);
    var after := Zip(cols[..i + 1], values);
    forall j | 0 <= j < |after| ensures after[j] == (before + [(cols[i], values[i])])[j] {
      if j < i {
        assert before[j] == (cols[j], values[j]);
      }
    }
  }

  /** One column without a splitter of `SplitFrom`: it takes its fragment when there is one and throws otherwise. */
  lemma FlatStep(e: Engine, sp: Splitter, values: seq<string>, i: nat, acc: Entries<ColumnConfig, string>)
    requires NoZeroWidth(sp) && sp.splitColumns.ColumnList? && i < |sp.splitColumns.items|
    requires sp.splitColumns.items[i].splitConfig.None?
    ensures i >= |values| ==> SplitFrom(e, sp, values, i, acc) == Throw(ArgumentOutOfRangeException, "index")
    ensures i < |values| && sp.splitColumns.items[i] !in Keys(acc) ==>
      SplitFrom(e, sp, values, i, acc) == SplitFrom(e, sp, values, i + 1, acc + [(sp.splitColumns.items[i], values[i])])
  {
  }

  lemma {:induction false} KeysCompleteness<K(!new), V>(e: Entries<K, V>, k: K)
    requires forall j :: 0 <= j < |e| ==> e[j].0 != k
    ensures k !in Keys(e)
  {
    if |e| > 0 {
      KeysCompleteness(e[1..], k);
    }
  }

  /**
   A splitter whose distinct split columns have no nested splitters maps
   column i to fragment i and ignores surplus fragments; with fewer fragments
   than columns it throws ArgumentOutOfRangeException.
   */
  lemma FlatSplitSpec(e: Engine, sp: Splitter, content: string)
    requires NoZeroWidth(sp) && sp.splitColumns.ColumnList?
    requires !AnyNested(sp.splitColumns.items) && DistinctColumns(sp.splitColumns.items)
    requires SplitValues(e, sp, content).Ok?
    ensures var values := SplitValues(e, sp, content).value;
      && (|sp.splitColumns.items| <= |values| ==> SplitSpec(e, sp, content) == Ok(Zip(sp.splitColumns.items, values)))
      && (|values| < |sp.splitColumns.items| ==> SplitSpec(e, sp, content) == Throw(ArgumentOutOfRangeException, "index"))
  {
    var values := SplitValues(e, sp, content).value;
    assert sp.splitColumns.items[..0] == [];
    FlatSplitFrom(e, sp, values, 0);
  }

  /** Width 4 over "ABCDEFGHIJ" with two columns: "ABCD" and "EFGH"; the surplus "IJ" is dropped. */
  lemma SplitFixedWidthExample(e: Engine, a: ColumnConfig, b: ColumnConfig)
    requires a.splitConfig.None? && b.splitConfig.None? && a != b
    ensures SplitSpec(e, Splitter(None, ColumnList([a, b]), FixedWidth, 4), "ABCDEFGHIJ") == Ok([(a, "ABCD"), (b, "EFGH")])
  {
    var sp := Splitter(None, ColumnList([a, b]), FixedWidth, 4);
    assert "ABCDEFGHIJ"[..4] == "ABCD" && "ABCDEFGHIJ"[4..] == "EFGHIJ";
    assert "EFGHIJ"[..4] == "EFGH" && "EFGHIJ"[4..] == "IJ";
    assert Extensions.Chunks("IJ", 4) == ["IJ"];
    assert Extensions.Chunks("EFGHIJ", 4) == ["EFGH", "IJ"];
    assert Extensions.Chunks("ABCDEFGHIJ", 4) == ["ABCD", "EFGH", "IJ"];
    var cols := sp.splitColumns.items;
    assert cols[0] == a && cols[1] == b;
    assert !AnyNested(cols);
    assert NoZeroWidth(sp);
    FlatSplitSpec(e, sp, "ABCDEFGHIJ");
    var z := Zip(cols, ["ABCD", "EFGH", "IJ"]);
    assert z == [(a, "ABCD"), (b, "EFGH")];
  }

  /** Every key `Split` produces is one of the splitter's `SubColumns`. */
  lemma {:induction false} SplitKeysAreSubColumns(e: Engine, sp: Splitter, content: string)
    requires NoZeroWidth(sp)
    requires SplitSpec(e, sp, content).Ok?
    ensures SubColumns(sp).Ok?
    ensures forall k :: k in Keys(SplitSpec(e, sp, content).value) ==> k in SubColumns(sp).value
    decreases sp, 1, 0
  {
    var values := SplitValues(e, sp, content).value;
    SplitFromKeys(e, sp, values, 0, []);
  }

  lemma {:induction false} SplitFromKeys(e: Engine, sp: Splitter, values: seq<string>, i: nat, acc: Entries<ColumnConfig, string>)
    requires NoZeroWidth(sp) && sp.splitColumns.ColumnList? && i <= |sp.splitColumns.items|
    requires SplitFrom(e, sp, values, i, acc).Ok?
    requires forall j :: 0 <= j < i && sp.splitColumns.items[j].splitConfig.Some? ==>
      SubColumns(sp.splitColumns.items[j].splitConfig.value).Ok?
    ensures SubColumns(sp).Ok?
    ensures forall k :: k in Keys(SplitFrom(e, sp, values, i, acc).value) ==> k in Keys(acc) || k in SubColumns(sp).value
    decreases sp, 0, |sp.splitColumns.items| - i
  {
    var cols := sp.splitColumns.items;
    if i == |cols| {
      SubColumnsOk(sp);
    } else {
      SplitStep(e, sp, values, i, acc);
      var nested := HasNestedColumns(cols[i]).value;
      SubColumnsOkNext(sp, i);
      if nested {
        var child := cols[i].splitConfig.value;
        var sub := SplitSpec(e, child, values[i]).value;
        var next := AddAll(acc, sub).value;
        SplitFromKeys(e, sp, values, i + 1, next);
        SplitKeysAreSubColumns(e, child, values[i]);
        NestedInSubColumns(sp, i);
        forall k | k in Keys(next) ensures k in Keys(acc) || k in SubColumns(sp).value {
          KeysAppendAll(acc, sub, k);
        }
      } else {
        var next := Add(acc, cols[i], values[i]).value;
        SplitFromKeys(e, sp, values, i + 1, next);
        KeysAppend(acc, (cols[i], values[i]));
        assert SubColumns(sp).value[i] == cols[i];
      }
    }
  }

  /** The sub-column lists of the columns before `i + 1` exist once column `i`'s nesting test succeeds. */
  lemma SubColumnsOkNext(sp: Splitter, i: nat)
    requires sp.splitColumns.ColumnList? && i < |sp.splitColumns.items|
    requires HasNestedColumns(sp.splitColumns.items[i]).Ok?
    requires forall j :: 0 <= j < i && sp.splitColumns.items[j].splitConfig.Some? ==>
      SubColumns(sp.splitColumns.items[j].splitConfig.value).Ok?
    ensures forall j :: 0 <= j < i + 1 && sp.splitColumns.items[j].splitConfig.Some? ==>
      SubColumns(sp.splitColumns.items[j].splitConfig.value).Ok?
  {
  }

  /** One column of a `SplitFrom` that succeeds: its fragment exists, and its entries are added before the next column. */
  lemma SplitStep(e: Engine, sp: Splitter, values: seq<string>, i: nat, acc: Entries<ColumnConfig, string>)
    requires NoZeroWidth(sp) && sp.splitColumns.ColumnList? && i < |sp.splitColumns.items|
    requires SplitFrom(e, sp, values, i, acc).Ok?
    ensures var c := sp.splitColumns.items[i];
      && HasNestedColumns(c).Ok? && i < |values|
      && (HasNestedColumns(c).value ==>
            && SplitSpec(e, c.splitConfig.value, values[i]).Ok?
            && AddAll(acc, SplitSpec(e, c.splitConfig.value, values[i]).value).Ok?
            && SplitFrom(e, sp, values, i, acc) == SplitFrom(e, sp, values, i + 1, AddAll(acc, SplitSpec(e, c.splitConfig.value, values[i]).value).value))
      && (!HasNestedColumns(c).value ==>
            && Add(acc, c, values[i]).Ok?
            && SplitFrom(e, sp, values, i, acc) == SplitFrom(e, sp, values, i + 1, Add(acc, c, values[i]).value))
  {
  }

  lemma KeysAppendAll<K(!new), V>(a: Entries<K, V>, b: Entries<K, V>, k: K)
    requires k in Keys(a + b)
    ensures k in Keys(a) || k in Keys(b)
  {
    KeysMembership(a + b, k);
    var j :| 0 <= j < |a + b| && (a + b)[j].0 == k;
    if j >= |a| {
      assert b[j - |a|].0 == k;
    }
  }

  lemma {:induction false} KeysMembership<K(!new), V>(e: Entries<K, V>, k: K)
    requires k in Keys(e)
    ensures exists j :: 0 <= j < |e| && e[j].0 == k
  {
    if e[0].0 != k {
      KeysMembership(e[1..], k);
      var j :| 0 <= j < |e[1..]| && e[1..][j].0 == k;
      assert e[j + 1].0 == k;
    }
  }

  /** A column with a nested splitter whose split succeeded contributes that splitter's sub-columns. */
  lemma NestedInSubColumns(sp: Splitter, i: nat)
    requires sp.splitColumns.ColumnList? && i < |sp.splitColumns.items|
    requires sp.splitColumns.items[i].splitConfig.Some?
    requires SubColumns(sp.splitColumns.items[i].splitConfig.value).Ok?
    ensures SubColumns(sp).Ok? ==>
      forall k :: k in SubColumns(sp.splitColumns.items[i].splitConfig.value).value ==> k in SubColumns(sp).value
  {
    if SubColumns(sp).Ok? {
      assert AnyNested(sp.splitColumns.items);
      SelectManyContains(sp, 0, i);
    }
  }

  lemma {:induction false} SelectManyContains(sp: Splitter, from: nat, i: nat)
    requires sp.splitColumns.ColumnList? && from <= i < |sp.splitColumns.items|
    requires sp.splitColumns.items[i].splitConfig.Some?
    requires SelectMany(sp, from).Ok?
    ensures SubColumns(sp.splitColumns.items[i].splitConfig.value).Ok?
    ensures forall k :: k in SubColumns(sp.splitColumns.items[i].splitConfig.value).value ==> k in SelectMany(sp, from).value
    decreases i - from
  {
    if from < i {
      SelectManyContains(sp, from + 1, i);
    }
  }

  /** `SubColumns` succeeds once the loop of `Split` has run to the end. */
  lemma {:induction false} SubColumnsOk(sp: Splitter)
    requires sp.splitColumns.ColumnList?
    requires forall i :: 0 <= i < |sp.splitColumns.items| && sp.splitColumns.items[i].splitConfig.Some? ==>
      SubColumns(sp.splitColumns.items[i].splitConfig.value).Ok?
    ensures SubColumns(sp).Ok?
  {
    if AnyNested(sp.splitColumns.items) {
      SelectManyOk(sp, 0);
    }
  }

  lemma {:induction false} SelectManyOk(sp: Splitter, from: nat)
    requires sp.splitColumns.ColumnList? && from <= |sp.splitColumns.items|
    requires forall i :: 0 <= i < |sp.splitColumns.items| && sp.splitColumns.items[i].splitConfig.Some? ==>
      SubColumns(sp.splitColumns.items[i].splitConfig.value).Ok?
    ensures SelectMany(sp, from).Ok?
    decreases |sp.splitColumns.items| - from
  {
    if from < |sp.splitColumns.items| {
      SelectManyOk(sp, from + 1);
    }
  }
}
