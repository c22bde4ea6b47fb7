/**
 The parts of the .NET base library whose behaviour the core delegates to and
 that this model does not define: the regular-expression engine, number,
 boolean and date parsing, `string.Format` and `Math.Round`. They are the
 function-typed fields of an `Engine` value that every operation using them
 takes as a parameter, so every property proved holds for any engine.
 */
module Runtime {
  import opened Common

  /** A compiled `Regex`: its pattern and whether `RegexOptions.IgnoreCase` was given. */
  datatype Regex = Regex(pattern: string, ignoreCase: bool)

  /** A successful `Match`: `Groups[0]` is `whole`, `Groups[1..]` are `captures`. */
  datatype Match = Match(whole: string, captures: seq<string>)

  /** A `double`: NaN, an infinity, or a finite value. */
  datatype Double = NaN | Infinite(negative: bool) | Finite(value: real)

  datatype Engine = Engine(
    /** Whether `new Regex(pattern)` accepts the pattern (it throws ArgumentException otherwise). */
    validPattern: string -> bool,
    /** `Regex.Match`: the leftmost match, if any. */
    firstMatch: (Regex, string) -> Option<Match>,
    /** `Regex.Split` */
    split: (Regex, string) -> seq<string>,
    /** `string.Format(format, args)`; a failure is the exception it throws, with that exception's message. */
    format: (string, seq<string>) -> Result<string>,
    /** `Double.TryParse` */
    parseDouble: string -> Option<Double>,
    /** `Boolean.TryParse` */
    parseBool: string -> Option<bool>,
    /** `long.TryParse` */
    parseLong: string -> Option<int>,
    /** `DateTime.TryParseExact(value, format)`, as ticks. */
    parseExact: (string, string) -> Option<int>,
    /** `DateTime.FromBinary`, as ticks; `None` is an ArgumentException. */
    fromBinary: int -> Option<int>,
    /** `Math.Round(value, 2)` */
    round2: Double -> Double)

  /** `Regex.IsMatch`: there is a match. */
  predicate IsMatch(e: Engine, r: Regex, s: string) {
    e.firstMatch(r, s).Some?
  }

  /**
   `new Regex(pattern, IgnoreCase)` where the source guards the construction
   by `!IsNullOrWhiteSpace(pattern)`: null when the pattern is blank, an
   ArgumentException when it does not compile.
   */
  function CompileIfPresent(e: Engine, pattern: NString): (r: Result<Option<Regex>>)
    ensures IsNullOrWhiteSpace(pattern) ==> r == Ok(None)
    ensures !IsNullOrWhiteSpace(pattern) && e.validPattern(pattern.value) ==> r == Ok(Some(Regex(pattern.value, true)))
    ensures r.Fail? <==> !IsNullOrWhiteSpace(pattern) && !e.validPattern(pattern.value)
  {
    if IsNullOrWhiteSpace(pattern) then Ok(None)
    else if e.validPattern(pattern.value) then Ok(Some(Regex(pattern.value, true)))
    else Throw(ArgumentException, "Invalid pattern")
  }

  /** `regex.IsMatch(s)` on a possibly-null regex reference. */
  function IsMatchOrNull(e: Engine, r: Option<Regex>, s: string): (b: Result<bool>)
    ensures b.Fail? <==> r.None?
    ensures b.Fail? ==> b.error.kind == NullReferenceException
    ensures b.Ok? ==> (b.value <==> IsMatch(e, r.value, s))
  {
    if r.None? then Throw(NullReferenceException, NullReferenceMessage)
    else Ok(IsMatch(e, r.value, s))
  }
}
