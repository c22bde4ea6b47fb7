/**
 The transform units of a column (the Transformations folder): Replace, Extract and
 Filter, each with an `IsDefault` escape hatch, and the load-time check of
 their collections. Content and configured strings are C# references and may
 be null (`None`).
 */
module Transformations {
  import opened Common
  import opened Runtime
  import Extensions

  // ---------------------------------------------------------------------------
  // Ordinal substring search and replacement

  /** `f` occurs in `s` starting at index `i`. */
  predicate OccursAt(s: string, f: string, i: int) {
    0 <= i <= |s| - |f| && s[i..i + |f|] == f
  }

  /** `Contains` means an occurrence at some index. */
  lemma {:induction false} ContainsSpec(s: string, f: string)
    ensures Contains(s, f) <==> exists i :: OccursAt(s, f, i)
    decreases |s|
  {
    if |f| == 0 {
      assert OccursAt(s, f, 0);
    } else if |s| >= |f| {
      ContainsSpec(s[1..], f);
      if s[..|f|] == f {
        assert OccursAt(s, f, 0);
      } else if Contains(s[1..], f) {
        var i :| OccursAt(s[1..], f, i);
        assert s[i + 1..i + 1 + |f|] == s[1..][i..i + |f|];
        assert OccursAt(s, f, i + 1);
      } else {
        forall i | 0 < i && OccursAt(s, f, i) ensures OccursAt(s[1..], f, i - 1) {
          OccursLater(s, f, i);
        }
      }
    }
  }

  /** An occurrence past the first character is an occurrence in the rest. */
  lemma OccursLater(s: string, f: string, i: int)
    requires 0 < i && OccursAt(s, f, i)
    ensures OccursAt(s[1..], f, i - 1)
  {
    assert s[1..][i - 1..i - 1 + |f|] == s[i..i + |f|];
  }

  /**
   `String.Replace(f, w)` (ordinal): scanning left to right, each occurrence
   of `f` that does not overlap an earlier replaced one becomes `w`.
   */
  function ReplaceAll(s: string, f: string, w: string): string
    requires |f| > 0
    decreases |s|
  {
    if |s| < |f| then s
    else if s[..|f|] == f then w + ReplaceAll(s[|f|..], f, w)
    else [s[0]] + ReplaceAll(s[1..], f, w)
  }

  /** The pieces of `s` between the non-overlapping occurrences of `f` found left to right. */
  function SplitOn(s: string, f: string): (r: seq<string>)
    requires |f| > 0
    ensures |r| >= 1
    decreases |s|
  {
    if |s| < |f| then [s]
    else if s[..|f|] == f then [""] + SplitOn(s[|f|..], f)
    else
      var rest := SplitOn(s[1..], f);
      [[s[0]] + rest[0]] + rest[1..]
  }

  lemma JoinPrepend(a: string, ps: seq<string>, sep: string)
    requires |ps| >= 1
    ensures Extensions.JoinWith([a + ps[0]] + ps[1..], sep) == a + Extensions.JoinWith(ps, sep)
  {
    var qs := [a + ps[0]] + ps[1..];
    if |ps| > 1 {
      assert qs[1..] == ps[1..];
    }
  }

  /** Replacing is splitting at the occurrences and joining the pieces with the replacement. */
  lemma {:induction false} ReplaceAllIsJoin(s: string, f: string, w: string)
    requires |f| > 0
    ensures ReplaceAll(s, f, w) == Extensions.JoinWith(SplitOn(s, f), w)
    decreases |s|
  {
    if |s| >= |f| {
      if s[..|f|] == f {
        ReplaceAllIsJoin(s[|f|..], f, w);
        var ps := [""] + SplitOn(s[|f|..], f);
        assert ps[1..] == SplitOn(s[|f|..], f);
      } else {
        ReplaceAllIsJoin(s[1..], f, w);
        JoinPrepend([s[0]], SplitOn(s[1..], f), w);
      }
    }
  }

  lemma {:induction false} SplitOnFirstIsPrefix(s: string, f: string)
    requires |f| > 0
    ensures var p := SplitOn(s, f)[0]; |p| <= |s| && p == s[..|p|]
    decreases |s|
  {
    if |s| >= |f| && s[..|f|] != f {
      SplitOnFirstIsPrefix(s[1..], f);
    }
  }

  /** No piece between the occurrences contains `f`. */
  lemma {:induction false} SplitOnPiecesAvoid(s: string, f: string)
    requires |f| > 0
    ensures forall i :: 0 <= i < |SplitOn(s, f)| ==> !Contains(SplitOn(s, f)[i], f)
    decreases |s|
  {
    var r := SplitOn(s, f);
    if |s| >= |f| {
      if s[..|f|] == f {
        SplitOnPiecesAvoid(s[|f|..], f);
        assert r[1..] == SplitOn(s[|f|..], f);
        forall i | 0 <= i < |r| ensures !Contains(r[i], f) {
          if i > 0 {
            assert r[i] == SplitOn(s[|f|..], f)[i - 1];
          }
        }
      } else {
        var rest := SplitOn(s[1..], f);
        SplitOnPiecesAvoid(s[1..], f);
        SplitOnFirstIsPrefix(s[1..], f);
        var p := [s[0]] + rest[0];
        assert p == s[..|p|];
        if |p| >= |f| {
          assert p[..|f|] == s[..|f|];
          assert p[1..] == rest[0];
        }
        assert !Contains(p, f);
        forall i | 0 <= i < |r| ensures !Contains(r[i], f) {
          if i > 0 {
            assert r[i] == rest[i];
          }
        }
      }
    }
  }

  lemma {:induction false} ReplaceAllLength(s: string, f: string, w: string)
    requires |f| > 0
    ensures |w| >= |f| ==> |ReplaceAll(s, f, w)| >= |s|
    ensures |w| <= |f| ==> |ReplaceAll(s, f, w)| <= |s|
    decreases |s|
  {
    if |s| >= |f| {
      if s[..|f|] == f {
        ReplaceAllLength(s[|f|..], f, w);
      } else {
        ReplaceAllLength(s[1..], f, w);
      }
    }
  }

  /** Replacing leaves `s` unchanged exactly when `f` does not occur in it or the replacement equals `f`. */
  lemma {:induction false} ReplaceAllUnchanged(s: string, f: string, w: string)
    requires |f| > 0
    ensures ReplaceAll(s, f, w) == s <==> !Contains(s, f) || f == w
    decreases |s|
  {
    if |s| >= |f| {
      if s[..|f|] == f {
        ReplaceAllUnchanged(s[|f|..], f, w);
        if f == w {
          assert s == f + s[|f|..];
        } else {
          var r := ReplaceAll(s, f, w);
          ReplaceAllLength(s[|f|..], f, w);
          if |w| == |f| {
            assert r[..|f|] == w;
          }
          assert r != s by {
            if |w| == |f| {
              assert r[..|f|] != s[..|f|];
            }
          }
        }
      } else {
        ReplaceAllUnchanged(s[1..], f, w);
        var r := ReplaceAll(s, f, w);
        if r == s {
          assert r[1..] == ReplaceAll(s[1..], f, w);
        }
        assert s == [s[0]] + s[1..];
      }
    }
  }

  // ---------------------------------------------------------------------------
  // ReplaceTransformation

  datatype ReplaceTransformation = ReplaceTransformation(
    findText: NString, replaceWith: NString, isDefault: bool, defaultValue: NString)

  /** `CanTransform`: a default accepts everything; otherwise non-blank content containing `FindText`. */
  function ReplaceCanTransform(t: ReplaceTransformation, content: NString): (r: Result<bool>)
    ensures t.isDefault ==> r == Ok(true)
    ensures !t.isDefault && IsNullOrWhiteSpace(content) ==> r == Ok(false)
    ensures r.Fail? <==> !t.isDefault && !IsNullOrWhiteSpace(content) && t.findText.None?
    ensures r.Fail? ==> r.error.kind == ArgumentNullException
  {
    if t.isDefault then Ok(true)
    else if IsNullOrWhiteSpace(content) then Ok(false)
    else if t.findText.None? then Throw(ArgumentNullException, "value")
    else Ok(Contains(content.value, t.findText.value))
  }

  /** `Transform`: the default value, or the content with every `FindText` replaced by `ReplaceWith` (null is ""). */
  function ReplaceTransform(t: ReplaceTransformation, content: NString): (r: Result<NString>)
    ensures t.isDefault ==> r == Ok(t.defaultValue)
    ensures r.Fail? <==> !t.isDefault && (content.None? || t.findText.None? || t.findText == Some(""))
    ensures !t.isDefault && content.None? ==> r.error.kind == NullReferenceException
    ensures !t.isDefault && content.Some? && t.findText.None? ==> r.error.kind == ArgumentNullException
    ensures !t.isDefault && content.Some? && t.findText == Some("") ==> r.error.kind == ArgumentException
    ensures r.Ok? && !t.isDefault ==> r.value.Some?
  {
    if t.isDefault then Ok(t.defaultValue)
    else if content.None? then Throw(NullReferenceException, NullReferenceMessage)
    else if t.findText.None? then Throw(ArgumentNullException, "oldValue")
    else if t.findText.value == "" then Throw(ArgumentException, "String cannot be of zero length.")
    else Ok(Some(ReplaceAll(content.value, t.findText.value, t.replaceWith.GetOr(""))))
  }

  /** A non-default Replace applies exactly when the content is not blank and `FindText` occurs in it. */
  lemma ReplaceCanTransformSpec(t: ReplaceTransformation, content: NString)
    requires !t.isDefault && t.findText.Some?
    ensures ReplaceCanTransform(t, content) == Ok(true) <==>
      !IsNullOrWhiteSpace(content) && exists i :: OccursAt(content.value, t.findText.value, i)
  {
    if content.Some? {
      ContainsSpec(content.value, t.findText.value);
    }
  }

  /**
   A non-default Replace splits the content at the non-overlapping occurrences
   of `FindText` (none of the pieces contains it; rejoined with `FindText` they
   give the content back) and joins the pieces with `ReplaceWith`; it returns
   the content unchanged exactly when `FindText` is absent or equal to `ReplaceWith`.
   */
  lemma ReplaceTransformSpec(t: ReplaceTransformation, c: string)
    requires !t.isDefault && t.findText.Some? && t.findText.value != ""
    ensures var f, w := t.findText.value, t.replaceWith.GetOr("");
      && ReplaceTransform(t, Some(c)) == Ok(Some(Extensions.JoinWith(SplitOn(c, f), w)))
      && Extensions.JoinWith(SplitOn(c, f), f) == c
      && (forall i :: 0 <= i < |SplitOn(c, f)| ==> !Contains(SplitOn(c, f)[i], f))
      && (ReplaceTransform(t, Some(c)) == Ok(Some(c)) <==> !Contains(c, f) || f == w)
  {
    var f, w := t.findText.value, t.replaceWith.GetOr("");
    ReplaceAllIsJoin(c, f, w);
    ReplaceAllIsJoin(c, f, f);
    ReplaceAllUnchanged(c, f, f);
    ReplaceAllUnchanged(c, f, w);
    SplitOnPiecesAvoid(c, f);
  }

  // ---------------------------------------------------------------------------
  // ExtractTransformation

  datatype ExtractType = RegExExtract | SubStringExtract

  datatype ExtractTransformation = ExtractTransformation(
    extractType: ExtractType, startIndex: Int32, length: Int32, regEx: NString,
    resultPattern: NString, isDefault: bool, defaultValue: NString)

  /** `ExtractPattern`: the case-insensitive regex of a RegEx extraction with a non-blank pattern, otherwise null. */
  function ExtractPattern(e: Engine, t: ExtractTransformation): (r: Result<Option<Regex>>)
    ensures t.extractType.SubStringExtract? ==> r == Ok(None)
    ensures r.Ok? && r.value.Some? ==> r.value.value.ignoreCase && Some(r.value.value.pattern) == t.regEx
  {
    if t.extractType.RegExExtract? then CompileIfPresent(e, t.regEx) else Ok(None)
  }

  function ExtractCanTransform(e: Engine, t: ExtractTransformation, content: NString): (r: Result<bool>)
    ensures t.isDefault ==> r == Ok(true)
    ensures !t.isDefault && IsNullOrWhiteSpace(content) ==> r == Ok(false)
    ensures !t.isDefault && !IsNullOrWhiteSpace(content) && t.extractType.SubStringExtract? ==>
      r == Ok(|content.value| > t.startIndex && |content.value| > AddInt32(t.startIndex, t.length))
    ensures !t.isDefault && !IsNullOrWhiteSpace(content) && t.extractType.RegExExtract? && IsNullOrWhiteSpace(t.regEx) ==>
      r.Fail? && r.error.kind == NullReferenceException
  {
    if t.isDefault then Ok(true)
    else if IsNullOrWhiteSpace(content) then Ok(false)
    else if t.extractType.SubStringExtract? then
      Ok(|content.value| > t.startIndex && |content.value| > AddInt32(t.startIndex, t.length))
    else
      var pattern :- ExtractPattern(e, t);
      IsMatchOrNull(e, pattern, content.value)
  }

  /** The message of the ArgumentException that wraps a `string.Format` failure: the content, the pattern and the failure's own message. */
  function ExtractFailure(content: string, resultPattern: string, reason: string): string {
    "Could not extract " + content + " using " + resultPattern + " due to " + reason
  }

  function ExtractTransform(e: Engine, t: ExtractTransformation, content: NString): (r: Result<NString>)
    ensures t.isDefault ==> r == Ok(t.defaultValue)
  {
    if t.isDefault then Ok(t.defaultValue)
    else if t.extractType.SubStringExtract? then
      if content.None? then Throw(NullReferenceException, NullReferenceMessage)
      else if t.startIndex < 0 || t.length < 0 || t.startIndex > |content.value| - t.length then
        Throw(ArgumentOutOfRangeException, "startIndex")
      else Ok(Some(content.value[t.startIndex..t.startIndex + t.length]))
    else
      var pattern :- ExtractPattern(e, t);
      if pattern.None? then Throw(NullReferenceException, NullReferenceMessage)
      else if content.None? then Throw(ArgumentNullException, "input")
      else match e.firstMatch(pattern.value, content.value)
        case None => Ok(None)
        case Some(m) =>
          if IsNullOrEmpty(t.resultPattern) then Ok(Some(m.whole))
          else match e.format(t.resultPattern.value, m.captures)
            case Ok(text) => Ok(Some(text))
            case Fail(failure) => Throw(ArgumentException, ExtractFailure(content.value, t.resultPattern.value, failure.message))
  }

  /**
   In SubString mode an accepted content yields the window
   [StartIndex, StartIndex + Length), exactly `Length` characters long;
   negative indices pass the check but make the extraction throw.
   */
  lemma ExtractSubStringSpec(e: Engine, t: ExtractTransformation, c: string)
    requires !t.isDefault && t.extractType.SubStringExtract?
    requires ExtractCanTransform(e, t, Some(c)) == Ok(true)
    ensures 0 <= t.startIndex && 0 <= t.length && InInt32(t.startIndex + t.length) ==>
      ExtractTransform(e, t, Some(c)) == Ok(Some(c[t.startIndex..t.startIndex + t.length]))
      && |c[t.startIndex..t.startIndex + t.length]| == t.length
    ensures 0 <= t.startIndex && 0 <= t.length && !InInt32(t.startIndex + t.length) && InInt32(|c|) ==>
      ExtractTransform(e, t, Some(c)).Fail? && ExtractTransform(e, t, Some(c)).error.kind == ArgumentOutOfRangeException
    ensures t.startIndex < 0 || t.length < 0 ==>
      ExtractTransform(e, t, Some(c)).Fail? && ExtractTransform(e, t, Some(c)).error.kind == ArgumentOutOfRangeException
  {
  }

  /** The SubString check is strict: a window ending at the last character is refused although it could be extracted. */
  lemma ExtractSubStringWindowIsStrict(e: Engine)
    ensures var t := ExtractTransformation(SubStringExtract, 2, 2, None, None, false, None);
      && ExtractCanTransform(e, t, Some("abcd")) == Ok(false)
      && ExtractTransform(e, t, Some("abcd")) == Ok(Some("cd"))
  {
    assert "abcd"[2..4] == "cd";
  }

  /**
   `StartIndex + Length` is an `int` sum: when it wraps past `int.MaxValue` it
   turns negative, so the check accepts a window that the extraction then
   refuses.
   */
  lemma ExtractSubStringLengthWraps(e: Engine)
    ensures var t := ExtractTransformation(SubStringExtract, 2, 0x7FFF_FFFF, None, None, false, None);
      && ExtractCanTransform(e, t, Some("abcdef")) == Ok(true)
      && ExtractTransform(e, t, Some("abcdef")).Fail?
      && ExtractTransform(e, t, Some("abcdef")).error.kind == ArgumentOutOfRangeException
  {
    assert "abcdef"[0] == 'a' && !IsWhiteSpace('a');
    assert AddInt32(2, 0x7FFF_FFFF) < 0;
  }

  /**
   In RegEx mode: no match yields null; an empty result pattern yields the whole
   match; otherwise the captured groups formatted by the result pattern, and a
   formatting failure raises an ArgumentException naming the content and the pattern.
   */
  lemma ExtractRegExSpec(e: Engine, t: ExtractTransformation, c: string)
    requires !t.isDefault && t.extractType.RegExExtract?
    requires !IsNullOrWhiteSpace(t.regEx) && e.validPattern(t.regEx.value)
    ensures var rx := Regex(t.regEx.value, true); var r := ExtractTransform(e, t, Some(c));
      && (e.firstMatch(rx, c).None? ==> r == Ok(None))
      && (e.firstMatch(rx, c).Some? && IsNullOrEmpty(t.resultPattern) ==> r == Ok(Some(e.firstMatch(rx, c).value.whole)))
      && (e.firstMatch(rx, c).Some? && !IsNullOrEmpty(t.resultPattern) ==>
            (r.Fail? <==> e.format(t.resultPattern.value, e.firstMatch(rx, c).value.captures).Fail?)
            && (r.Fail? ==> r.error == Error(ArgumentException,
                  ExtractFailure(c, t.resultPattern.value, e.format(t.resultPattern.value, e.firstMatch(rx, c).value.captures).error.message)))
            && (r.Ok? ==> r == Ok(Some(e.format(t.resultPattern.value, e.firstMatch(rx, c).value.captures).value))))
      && (ExtractCanTransform(e, t, Some(c)) == Ok(true) <==> !IsBlank(c) && e.firstMatch(rx, c).Some?)
  {
  }

  // ---------------------------------------------------------------------------
  // FilterTransformation

  datatype FilterTransformation = FilterTransformation(regEx: NString, isDefault: bool, defaultValue: NString)

  function FilterCanTransform(e: Engine, t: FilterTransformation, content: NString): (r: Result<bool>)
    ensures t.isDefault ==> r == Ok(true)
    ensures !t.isDefault && IsNullOrWhiteSpace(content) ==> r == Ok(false)
  {
    if t.isDefault then Ok(true)
    else if IsNullOrWhiteSpace(content) then Ok(false)
    else
      var pattern :- CompileIfPresent(e, t.regEx);
      IsMatchOrNull(e, pattern, content.value)
  }

  function FilterMessage(content: NString, t: FilterTransformation): string {
    content.GetOr("") + " filtered out as per rule " + t.regEx.GetOr("")
  }

  /** `Transform`: rejects the row (InvalidDataException) when the filter matches, otherwise yields "". */
  function FilterTransform(e: Engine, t: FilterTransformation, content: NString): (r: Result<string>)
  {
    var reject :- FilterCanTransform(e, t, content);
    if reject then Throw(InvalidDataException, FilterMessage(content, t)) else Ok("")
  }

  /**
   A Filter rejects with InvalidDataException exactly when `CanTransform`
   holds, with a message naming the content and the rule; when it does not
   reject it yields the empty string, never the input.
   */
  lemma FilterTransformSpec(e: Engine, t: FilterTransformation, content: NString)
    ensures FilterCanTransform(e, t, content) == Ok(true) <==>
      FilterTransform(e, t, content) == Throw(InvalidDataException, FilterMessage(content, t))
    ensures FilterCanTransform(e, t, content) == Ok(false) <==> FilterTransform(e, t, content) == Ok("")
    ensures FilterTransform(e, t, content).Ok? ==> FilterTransform(e, t, content).value == ""
    ensures StartsWith(FilterMessage(content, t), content.GetOr(""))
  {
    assert FilterMessage(content, t)[..|content.GetOr("")|] == content.GetOr("");
  }

  /** A default Filter matches everything, so it rejects every row. */
  lemma FilterDefaultRejectsAll(e: Engine, t: FilterTransformation, content: NString)
    requires t.isDefault
    ensures FilterTransform(e, t, content).Fail? && FilterTransform(e, t, content).error.kind == InvalidDataException
  {
  }

  /** A non-default Filter lets blank content through and otherwise rejects exactly the matching content. */
  lemma FilterMatchSpec(e: Engine, t: FilterTransformation, c: string)
    requires !t.isDefault && !IsNullOrWhiteSpace(t.regEx) && e.validPattern(t.regEx.value)
    ensures FilterTransform(e, t, Some(c)).Fail? <==> !IsBlank(c) && IsMatch(e, Regex(t.regEx.value, true), c)
  {
  }

  // ---------------------------------------------------------------------------
  // Collections

  /** The load-time check of a Replace or Extract collection: at most one default. */
  function LoadWithOneDefault<T>(items: seq<T>, isDefault: T -> bool): (r: Result<seq<T>>)
    ensures r.Ok? ==> r.value == items
    ensures r.Fail? ==> r.error == Error(ArgumentException, "Only one instance can be marked as Default")
  {
    if CountWhere(items, isDefault) > 1 then Throw(ArgumentException, "Only one instance can be marked as Default")
    else Ok(items)
  }

  function LoadReplaceCollection(items: seq<ReplaceTransformation>): Result<seq<ReplaceTransformation>> {
    LoadWithOneDefault(items, (t: ReplaceTransformation) => t.isDefault)
  }

  function LoadExtractCollection(items: seq<ExtractTransformation>): Result<seq<ExtractTransformation>> {
    LoadWithOneDefault(items, (t: ExtractTransformation) => t.isDefault)
  }

  /** A Filter collection is loaded without any check. */
  function LoadFilterCollection(items: seq<FilterTransformation>): Result<seq<FilterTransformation>> {
    Ok(items)
  }

  lemma {:induction false} CountWhereSpec<T>(items: seq<T>, p: T -> bool)
    ensures CountWhere(items, p) <= 1 <==> forall i, j :: 0 <= i < j < |items| && p(items[i]) ==> !p(items[j])
  {
    if |items| > 0 {
      CountWhereSpec(items[1..], p);
      if p(items[0]) && CountWhere(items[1..], p) > 0 {
        CountWherePositive(items[1..], p);
        var j :| 0 <= j < |items[1..]| && p(items[1..][j]);
        assert p(items[j + 1]);
      }
      forall i, j | 0 <= i < j < |items| && CountWhere(items, p) <= 1 && p(items[i]) ensures !p(items[j]) {
        if i > 0 {
          assert items[i] == items[1..][i - 1] && items[j] == items[1..][j - 1];
        } else if p(items[j]) {
          CountWhereMember(items[1..], p, j - 1);
        }
      }
    }
  }

  lemma {:induction false} CountWherePositive<T>(items: seq<T>, p: T -> bool)
    requires CountWhere(items, p) > 0
    ensures exists j :: 0 <= j < |items| && p(items[j])
  {
    if !p(items[0]) {
      CountWherePositive(items[1..], p);
      var j :| 0 <= j < |items[1..]| && p(items[1..][j]);
      assert p(items[j + 1]);
    }
  }

  lemma {:induction false} CountWhereMember<T>(items: seq<T>, p: T -> bool, j: int)
    requires 0 <= j < |items| && p(items[j])
    ensures CountWhere(items, p) > 0
  {
    if j > 0 && !p(items[0]) {
      CountWhereMember(items[1..], p, j - 1);
    }
  }

  /**
   A Replace or Extract collection loads, unchanged and in order, exactly when
   no two of its entries are marked default; otherwise ArgumentException.
   */
  lemma CollectionDefaultsSpec(rs: seq<ReplaceTransformation>, xs: seq<ExtractTransformation>)
    ensures LoadReplaceCollection(rs).Ok? <==> forall i, j :: 0 <= i < j < |rs| && rs[i].isDefault ==> !rs[j].isDefault
    ensures LoadReplaceCollection(rs).Ok? ==> LoadReplaceCollection(rs).value == rs
    ensures LoadExtractCollection(xs).Ok? <==> forall i, j :: 0 <= i < j < |xs| && xs[i].isDefault ==> !xs[j].isDefault
    ensures LoadExtractCollection(xs).Ok? ==> LoadExtractCollection(xs).value == xs
  {
    CountWhereSpec(rs, (t: ReplaceTransformation) => t.isDefault);
    CountWhereSpec(xs, (t: ExtractTransformation) => t.isDefault);
  }

  /** Two defaults: a Replace collection is refused while a Filter collection is accepted. */
  lemma FilterCollectionUnchecked(r: ReplaceTransformation, f: FilterTransformation)
    requires r.isDefault && f.isDefault
    ensures LoadReplaceCollection([r, r]).Fail?
    ensures LoadFilterCollection([f, f]) == Ok([f, f])
  {
    CollectionDefaultsSpec([r, r], []);
  }
}
