/**
 Shared vocabulary of the Influxer model: failure-carrying results, the .NET
 exception kinds the core raises or catches, the process status record, the
 enums of the configuration, and the string predicates of the .NET base library
 that the core relies on (IsNullOrWhiteSpace, Trim, Contains, StartsWith, ...).
 */
module Common {

  datatype Option<+T> = None | Some(value: T) {
    function GetOr(default: T): T {
      match this
      case Some(v) => v
      case None => default
    }
  }

  /** A C# string reference: `None` is null. */
  type NString = Option<string>

  /** The exception types the core raises, catches or keys failures by. */
  datatype ExceptionKind =
    | ArgumentException
    | ArgumentNullException
    | ArgumentOutOfRangeException
    | IndexOutOfRangeException
    | NullReferenceException
    | InvalidDataException
    | InvalidOperationException
    | FormatException
    | OverflowException
    | FileLoadException
    | ServiceUnavailableException
    | InfluxDBException(reason: string)
    | OtherException(name: string)
  {
    /** `e.GetType()`: the exception's type, which ignores an InfluxDBException's reason. */
    function TypeName(): string {
      match this
      case ArgumentException => "System.ArgumentException"
      case ArgumentNullException => "System.ArgumentNullException"
      case ArgumentOutOfRangeException => "System.ArgumentOutOfRangeException"
      case IndexOutOfRangeException => "System.IndexOutOfRangeException"
      case NullReferenceException => "System.NullReferenceException"
      case InvalidDataException => "System.IO.InvalidDataException"
      case InvalidOperationException => "System.InvalidOperationException"
      case FormatException => "System.FormatException"
      case OverflowException => "System.OverflowException"
      case FileLoadException => "System.IO.FileLoadException"
      case ServiceUnavailableException => "AdysTech.InfluxDB.Client.Net.ServiceUnavailableException"
      case InfluxDBException(_) => "AdysTech.InfluxDB.Client.Net.InfluxDBException"
      case OtherException(name) => name
    }
  }

  datatype Error = Error(kind: ExceptionKind, message: string)

  /** The value of a computation that either returns or throws. */
  datatype Result<+T> = Ok(value: T) | Fail(error: Error) {
    predicate IsFailure() { Fail? }
    function PropagateFailure<U>(): Result<U> requires Fail? { Fail(error) }
    function Extract(): T requires Ok? { value }
  }

  /** The .NET runtime's messages for an index out of range and a null dereference. */
  const IndexOutOfRangeMessage := "Index was outside the bounds of the array."
  const NullReferenceMessage := "Object reference not set to an instance of an object."

  function Throw<T>(kind: ExceptionKind, message: string): Result<T> {
    Fail(Error(kind, message))
  }

  /** Program.ExitCode; `Value` gives the process exit code. */
  datatype ExitCode =
    | Success
    | InvalidArgument
    | InvalidFilename
    | UnableToProcess
    | ProcessedWithErrors
    | InvalidData
    | UnknownError
  {
    function Value(): int {
      match this
      case Success => 0
      case InvalidArgument => 1
      case InvalidFilename => 2
      case UnableToProcess => 3
      case ProcessedWithErrors => 4
      case InvalidData => 5
      case UnknownError => 10
    }
  }

  /** ProcessStatus: the record a run returns. */
  datatype ProcessStatus = ProcessStatus(exitCode: ExitCode, pointsFailed: int, pointsFound: int, pointsProcessed: int)

  /** ColumnConfig.ColumnDataType; `Ordinal` is the enum's integer value. */
  datatype ColumnDataType = Unknown | Timestamp | Tag | NumericalField | StringField | BooleanField {
    function Ordinal(): int {
      match this
      case Unknown => 0
      case Timestamp => 1
      case Tag => 2
      case NumericalField => 3
      case StringField => 4
      case BooleanField => 5
    }
  }

  /** TimePrecision of the store client; `OtherPrecision` is an enum value outside the named members. */
  datatype TimePrecision = Hours | Minutes | Seconds | Milliseconds | Microseconds | Nanoseconds | OtherPrecision(code: int)

  datatype Filters = NoFilter | MeasurementFilter | FieldFilter | ColumnsFilter

  datatype TimeFormatType = StringTime | EpochTime | BinaryTime

  /** char.IsWhiteSpace: the Unicode separators plus the C0/C1 spacing controls. */
  predicate IsWhiteSpace(c: char) {
    var n := c as int;
    n == 0x20 || (0x09 <= n <= 0x0D) || n == 0x85 || n == 0xA0 || n == 0x1680
    || (0x2000 <= n <= 0x200A) || n == 0x2028 || n == 0x2029 || n == 0x202F
    || n == 0x205F || n == 0x3000
  }

  predicate IsBlank(s: string) {
    forall i :: 0 <= i < |s| ==> IsWhiteSpace(s[i])
  }

  /** String.IsNullOrWhiteSpace */
  predicate IsNullOrWhiteSpace(s: NString) {
    s.None? || IsBlank(s.value)
  }

  /** String.IsNullOrEmpty */
  predicate IsNullOrEmpty(s: NString) {
    s.None? || s.value == ""
  }

  /** String.StartsWith with an ordinal comparison. */
  predicate StartsWith(s: string, prefix: string) {
    |prefix| <= |s| && s[..|prefix|] == prefix
  }

  /** String.Contains: `f` occurs in `s` (the empty string occurs everywhere). */
  predicate Contains(s: string, f: string)
    decreases |s|
  {
    if |f| == 0 then true
    else if |s| < |f| then false
    else s[..|f|] == f || Contains(s[1..], f)
  }

  /** String.Replace(char, char) */
  function ReplaceChar(s: string, from: char, to: char): (r: string)
    ensures |r| == |s|
    ensures forall i :: 0 <= i < |s| ==> r[i] == (if s[i] == from then to else s[i])
  {
    seq(|s|, i requires 0 <= i < |s| => if s[i] == from then to else s[i])
  }

  /** String.Replace("\"", ""): drops every double quote. */
  function StripQuotes(s: string): (r: string)
    ensures |r| <= |s|
    ensures forall i :: 0 <= i < |r| ==> r[i] != '"'
  {
    if |s| == 0 then "" else (if s[0] == '"' then "" else [s[0]]) + StripQuotes(s[1..])
  }

  /** String.Trim(): drops leading and trailing white space. */
  function TrimStart(s: string): (r: string)
    ensures |r| <= |s| && r == s[|s| - |r|..]
    ensures r == "" || !IsWhiteSpace(r[0])
  {
    if |s| == 0 || !IsWhiteSpace(s[0]) then s else TrimStart(s[1..])
  }

  function TrimEnd(s: string): (r: string)
    ensures |r| <= |s| && r == s[..|r|]
    ensures r == "" || !IsWhiteSpace(r[|r| - 1])
  {
    if |s| == 0 || !IsWhiteSpace(s[|s| - 1]) then s else TrimEnd(s[..|s| - 1])
  }

  function Trim(s: string): string {
    TrimEnd(TrimStart(s))
  }

  /** String.Trim(char): drops leading and trailing copies of `c`. */
  function TrimChar(s: string, c: char): (r: string)
    ensures |r| <= |s|
    ensures r == "" || (r[0] != c && r[|r| - 1] != c)
    decreases |s|
  {
    if |s| == 0 then s
    else if s[0] == c then TrimChar(s[1..], c)
    else if s[|s| - 1] == c then TrimChar(s[..|s| - 1], c)
    else s
  }

  /** String.Split(char): the pieces between the occurrences of `sep`, empty pieces kept. */
  function SplitOnChar(s: string, sep: char): (r: seq<string>)
    ensures |r| >= 1
    ensures forall i :: 0 <= i < |r| ==> sep !in r[i]
  {
    if |s| == 0 then [""]
    else
      var rest := SplitOnChar(s[1..], sep);
      if s[0] == sep then [""] + rest else [[s[0]] + rest[0]] + rest[1..]
  }

  /** The ASCII part of String.ToLower. */
  function ToLower(s: string): (r: string)
    ensures |r| == |s|
  {
    if |s| == 0 then ""
    else [if 'A' <= s[0] <= 'Z' then (s[0] as int + 32) as char else s[0]] + ToLower(s[1..])
  }

  /** Enumerable.Skip(n) */
  function Skip<T>(s: seq<T>, n: int): (r: seq<T>)
    ensures n <= 0 ==> r == s
    ensures 0 <= n <= |s| ==> r == s[n..]
    ensures n >= |s| ==> r == []
  {
    if n <= 0 then s else if n >= |s| then [] else s[n..]
  }

  /** Enumerable.FirstOrDefault over strings: null when empty. */
  function FirstOrNull(s: seq<string>): NString {
    if |s| == 0 then None else Some(s[0])
  }

  /** Enumerable.Where: the elements satisfying `p`, in order. */
  function Where<T>(s: seq<T>, p: T -> bool): (r: seq<T>)
    ensures |r| <= |s|
    ensures forall x :: x in r ==> x in s && p(x)
    ensures forall x :: x in s && p(x) ==> x in r
    ensures (forall x :: x in s ==> p(x)) ==> r == s
    ensures (forall x :: x in s ==> !p(x)) ==> r == []
    ensures forall x :: x in s ==> multiset(r)[x] == if p(x) then multiset(s)[x] else 0
  {
    if |s| == 0 then []
    else
      assert s == [s[0]] + s[1..];
      (if p(s[0]) then [s[0]] else []) + Where(s[1..], p)
  }

  /** `Where` on a list with a head: the head if it passes, then the rest filtered. */
  lemma WhereCons<T>(x: T, s: seq<T>, p: T -> bool)
    ensures Where([x] + s, p) == (if p(x) then [x] else []) + Where(s, p)
  {
    var xs := [x] + s;
    assert xs[0] == x && xs[1..] == s;
  }

  /** Concatenation is associative. */
  lemma ConcatAssoc<T>(x: seq<T>, y: seq<T>, z: seq<T>)
    ensures x + (y + z) == (x + y) + z
  {
  }

  /** `Where` keeps the order of its input: filtering a concatenation filters each part. */
  lemma {:induction false} WhereAppend<T>(a: seq<T>, b: seq<T>, p: T -> bool)
    ensures Where(a + b, p) == Where(a, p) + Where(b, p)
    decreases |a|
  {
    if |a| == 0 {
      assert a + b == b;
      assert Where(a, p) == [];
      var w := Where(b, p);
      assert [] + w == w;
    } else {
      var t := a[1..];
      assert a == [a[0]] + t;
      assert a + b == [a[0]] + (t + b);
      WhereCons(a[0], t + b, p);
      WhereCons(a[0], t, p);
      WhereAppend(t, b, p);
      var h := if p(a[0]) then [a[0]] else [];
      ConcatAssoc(h, Where(t, p), Where(b, p));
    }
  }

  function CountWhere<T>(s: seq<T>, p: T -> bool): (n: nat)
    ensures n <= |s|
  {
    if |s| == 0 then 0 else (if p(s[0]) then 1 else 0) + CountWhere(s[1..], p)
  }

  /** The range of a C# `int`. */
  predicate InInt32(x: int) {
    -0x8000_0000 <= x < 0x8000_0000
  }

  type Int32 = x: int | InInt32(x)

  /** `a + b` on C# `int`s (unchecked): the sum wraps around modulo 2^32. */
  function AddInt32(a: Int32, b: Int32): (r: Int32)
    ensures InInt32(a + b) ==> r == a + b
    ensures a + b >= 0x8000_0000 ==> r == a + b - 0x1_0000_0000 && r < 0
    ensures a + b < -0x8000_0000 ==> r == a + b + 0x1_0000_0000 && r >= 0
  {
    assert InInt32(a) && InInt32(b);
    if a + b >= 0x8000_0000 then a + b - 0x1_0000_0000
    else if a + b < -0x8000_0000 then a + b + 0x1_0000_0000
    else a + b
  }

  /** A prefix of a prefix is a prefix. */
  lemma KeepsPrefix<T>(acc: seq<T>, next: seq<T>, r: Result<seq<T>>)
    requires |next| >= |acc| && next[..|acc|] == acc
    requires r.Ok? ==> |r.value| >= |next| && r.value[..|next|] == next
    ensures r.Ok? ==> |r.value| >= |acc| && r.value[..|acc|] == acc
  {
    if r.Ok? {
      assert r.value[..|acc|] == r.value[..|next|][..|acc|];
    }
  }
}
