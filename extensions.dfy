/**
 ExtensionMethods.cs: the dictionary merge `AddRange`, the name sanitizer
 `Replace(char[], char)`, the fixed-width chunker `SplitFixedWidth` and the
 epoch-to-DateTime conversion `FromEpoch`. A DateTime is its tick count
 (100 ns units since 0001-01-01).
 */
module Extensions {
  import opened Common
  import opened OrderedDict

  // ---------------------------------------------------------------------------
  // AddRange

  /** A `Dictionary<K, V>` that is updated in place. */
  class Dictionary<K(==, !new), V> {
    var entries: Entries<K, V>

    ghost predicate Valid()
      reads this
    {
      DistinctKeys(entries)
    }

    constructor ()
      ensures Valid() && entries == []
    {
      entries := [];
    }

    /**
     Adds every entry of `collection` to this dictionary, overwriting the value
     of a key that is already present; a null collection throws.
     */
    method AddRange(collection: Dictionary?<K, V>) returns (r: Result<()>)
      requires Valid()
      requires collection != null ==> collection.Valid()
      modifies this
      ensures Valid()
      ensures collection == null ==> r.Fail? && r.error.kind == ArgumentNullException && entries == old(entries)
      ensures collection != null ==> r.Ok? && entries == Merge(old(entries), old(collection.entries))
      ensures collection != null ==> Keys(entries) == Keys(old(entries)) + Keys(old(collection.entries))
      ensures collection != null ==> forall k :: k in Keys(old(collection.entries)) ==> Get(entries, k) == Get(old(collection.entries), k)
      ensures collection != null ==> forall k :: k !in Keys(old(collection.entries)) ==> Get(entries, k) == Get(old(entries), k)
    {
      if collection == null {
        return Throw(ArgumentNullException, "Collection is null");
      }
      var items := collection.entries;
      var i := 0;
      while i < |items|
        invariant 0 <= i <= |items|
        invariant entries == Merge(old(entries), items[..i])
        invariant Valid()
      {
        var k, v := items[i].0, items[i].1;
        PutDistinct(entries, k, v);
        if !ContainsKey(entries, k) {
          entries := Add(entries, k, v).value;
        } else {
          entries := Put(entries, k, v);
        }
        assert items[..i + 1][..i] == items[..i];
        i := i + 1;
      }
      assert items[..i] == items;
      MergeSpec(old(entries), items);
      return Ok(());
    }
  }

  // ---------------------------------------------------------------------------
  // Replace(char[] separators, char newValue): the sanitizer

  /** String.Split(char[]): the pieces between separator characters, empty pieces kept. */
  function SplitAny(s: string, seps: set<char>): (r: seq<string>)
    ensures |r| >= 1
    ensures forall i, j :: 0 <= i < |r| && 0 <= j < |r[i]| ==> r[i][j] !in seps
  {
    if |s| == 0 then [""]
    else
      var rest := SplitAny(s[1..], seps);
      if s[0] in seps then [""] + rest else [[s[0]] + rest[0]] + rest[1..]
  }

  /** StringSplitOptions.RemoveEmptyEntries */
  function NonEmpty(ps: seq<string>): (r: seq<string>)
    ensures forall i :: 0 <= i < |r| ==> r[i] != "" && r[i] in ps
  {
    if |ps| == 0 then [] else (if ps[0] == "" then [] else [ps[0]]) + NonEmpty(ps[1..])
  }

  /** The non-empty runs of non-separator characters of `s`, in order. */
  function Pieces(s: string, seps: set<char>): seq<string> {
    NonEmpty(SplitAny(s, seps))
  }

  /** String.Join(sep, ps) */
  function JoinWith(ps: seq<string>, sep: string): string {
    if |ps| == 0 then "" else if |ps| == 1 then ps[0] else ps[0] + sep + JoinWith(ps[1..], sep)
  }

  function Concat(ps: seq<string>): string {
    if |ps| == 0 then "" else ps[0] + Concat(ps[1..])
  }

  /** `s` with every separator character deleted. */
  function Without(s: string, seps: set<char>): string {
    if |s| == 0 then "" else (if s[0] in seps then "" else [s[0]]) + Without(s[1..], seps)
  }

  /** The characters char.IsWhiteSpace accepts. */
  const WhiteSpaceChars: set<char> := {
    '\U{9}', '\U{A}', '\U{B}', '\U{C}', '\U{D}', '\U{20}', '\U{85}', '\U{A0}', '\U{1680}',
    '\U{2000}', '\U{2001}', '\U{2002}', '\U{2003}', '\U{2004}', '\U{2005}', '\U{2006}',
    '\U{2007}', '\U{2008}', '\U{2009}', '\U{200A}', '\U{2028}', '\U{2029}', '\U{202F}',
    '\U{205F}', '\U{3000}'}

  lemma WhiteSpaceCharsSpec(c: char)
    ensures c in SplitSet({}) <==> IsWhiteSpace(c)
  {
  }

  /** The characters String.Split(char[]) cuts at: the given ones, or white space when none are given. */
  function SplitSet(seps: set<char>): (r: set<char>)
    ensures seps <= r
    ensures seps != {} ==> r == seps
  {
    if seps == {} then WhiteSpaceChars else seps
  }

  /**
   The sanitizer: separator runs collapse to one space, the ends are trimmed,
   spaces become `c`; the result is never longer than the input.
   */
  function Sanitize(s: string, seps: set<char>, c: char): (r: string)
    ensures |r| <= |s|
  {
    var cut := SplitSet(seps);
    JoinShorter(s, cut);
    ReplaceChar(Trim(JoinWith(Pieces(s, cut), " ")), ' ', c)
  }

  /** Joining the non-empty pieces by one space never lengthens the text. */
  lemma JoinShorter(s: string, cut: set<char>)
    ensures |JoinWith(Pieces(s, cut), " ")| <= |s|
  {
    SplitAnyLength(s, cut);
    ConcatNonEmpty(SplitAny(s, cut));
    NonEmptyShorter(SplitAny(s, cut));
    JoinLength(Pieces(s, cut), " ");
  }

  /** Each separator ends one piece: the pieces' characters and their count add up to one more than the length. */
  lemma {:induction false} SplitAnyLength(s: string, cut: set<char>)
    ensures |Concat(SplitAny(s, cut))| + |SplitAny(s, cut)| == |s| + 1
  {
    if |s| > 0 {
      SplitAnyLength(s[1..], cut);
      var rest := SplitAny(s[1..], cut);
      if s[0] in cut {
        assert ([""] + rest)[1..] == rest;
      } else {
        assert ([[s[0]] + rest[0]] + rest[1..])[1..] == rest[1..];
        assert Concat(rest) == rest[0] + Concat(rest[1..]);
      }
    }
  }

  lemma {:induction false} NonEmptyShorter(ps: seq<string>)
    ensures |NonEmpty(ps)| <= |ps|
  {
    if |ps| > 0 {
      NonEmptyShorter(ps[1..]);
    }
  }

  /** Joining puts one separator between neighbours. */
  lemma {:induction false} JoinLength(ps: seq<string>, sep: string)
    ensures |ps| == 0 ==> JoinWith(ps, sep) == ""
    ensures |ps| > 0 ==> |JoinWith(ps, sep)| == |Concat(ps)| + (|ps| - 1) * |sep|
  {
    if |ps| > 1 {
      JoinLength(ps[1..], sep);
    }
  }

  /** With no separator characters, the sanitizer cuts at white space, as String.Split does. */
  lemma SanitizeWithoutSeparators()
    ensures Sanitize("a \t b", {}, '_') == "a_b"
  {
    var cut := SplitSet({});
    assert ' ' in cut && '\t' in cut && 'a' !in cut && 'b' !in cut;
    SanitizeSample(cut);
  }

  lemma SanitizeSample(cut: set<char>)
    requires ' ' in cut && '\t' in cut && 'a' !in cut && 'b' !in cut
    ensures ReplaceChar(Trim(JoinWith(Pieces("a \t b", cut), " ")), ' ', '_') == "a_b"
  {
    SplitSample(cut);
    NonEmptySample();
    assert Pieces("a \t b", cut) == ["a", "b"];
    assert JoinWith(["a", "b"], " ") == "a b";
    TrimSample();
  }

  lemma NonEmptySample()
    ensures NonEmpty(["a", "", "", "b"]) == ["a", "b"]
  {
    assert ["a", "", "", "b"][1..] == ["", "", "b"] && ["", "", "b"][1..] == ["", "b"] && ["", "b"][1..] == ["b"];
    assert NonEmpty(["b"]) == ["b"];
    assert NonEmpty(["", "b"]) == ["b"];
    assert NonEmpty(["", "", "b"]) == ["b"];
  }

  lemma TrimSample()
    ensures ReplaceChar(Trim("a b"), ' ', '_') == "a_b"
  {
    assert !IsWhiteSpace('a') && !IsWhiteSpace('b');
    assert TrimStart("a b") == "a b";
    assert TrimEnd("a b") == "a b";
    var r := ReplaceChar("a b", ' ', '_');
    assert r[0] == 'a' && r[1] == '_' && r[2] == 'b';
  }

  lemma SplitSample(cut: set<char>)
    requires ' ' in cut && '\t' in cut && 'a' !in cut && 'b' !in cut
    ensures SplitAny("a \t b", cut) == ["a", "", "", "b"]
  {
    assert "a \t b"[1..] == " \t b" && " \t b"[1..] == "\t b" && "\t b"[1..] == " b" && " b"[1..] == "b" && "b"[1..] == "";
    assert SplitAny("", cut) == [""];
    assert ['b'] + "" == "b";
    assert [""][1..] == [];
    assert SplitAny("b", cut) == ["b"];
    assert SplitAny(" b", cut) == ["", "b"];
    assert SplitAny("\t b", cut) == ["", "", "b"];
    assert SplitAny(" \t b", cut) == ["", "", "", "b"];
    assert ['a'] + "" == "a";
    assert ["", "", "", "b"][1..] == ["", "", "b"];
  }

  lemma {:induction false} ConcatSplitAny(s: string, seps: set<char>)
    ensures Concat(SplitAny(s, seps)) == Without(s, seps)
  {
    if |s| > 0 {
      ConcatSplitAny(s[1..], seps);
      var rest := SplitAny(s[1..], seps);
      if s[0] !in seps {
        assert ([[s[0]] + rest[0]] + rest[1..])[1..] == rest[1..];
        assert Concat(rest) == rest[0] + Concat(rest[1..]);
      }
    }
  }

  lemma {:induction false} ConcatNonEmpty(ps: seq<string>)
    ensures Concat(NonEmpty(ps)) == Concat(ps)
  {
    if |ps| > 0 {
      ConcatNonEmpty(ps[1..]);
      var r := NonEmpty(ps);
      if ps[0] == "" {
        assert r == NonEmpty(ps[1..]);
        assert Concat(ps) == Concat(ps[1..]);
      } else {
        assert r == [ps[0]] + NonEmpty(ps[1..]);
        assert r[1..] == NonEmpty(ps[1..]);
      }
    }
  }

  /** The pieces keep every non-separator character of `s`, in order, and nothing else. */
  lemma PiecesKeepCharacters(s: string, seps: set<char>)
    ensures Concat(Pieces(s, seps)) == Without(s, seps)
    ensures forall i :: 0 <= i < |Pieces(s, seps)| ==> Pieces(s, seps)[i] != ""
  {
    ConcatSplitAny(s, seps);
    ConcatNonEmpty(SplitAny(s, seps));
  }

  lemma {:induction false} ReplaceCharAppend(a: string, b: string, from: char, to: char)
    ensures ReplaceChar(a + b, from, to) == ReplaceChar(a, from, to) + ReplaceChar(b, from, to)
  {
    assert |ReplaceChar(a + b, from, to)| == |ReplaceChar(a, from, to) + ReplaceChar(b, from, to)|;
  }

  lemma ReplaceCharAbsent(a: string, from: char, to: char)
    requires from !in a
    ensures ReplaceChar(a, from, to) == a
  {
  }

  /** Joined with " ", pieces without spaces become the pieces joined with `c` once spaces are replaced. */
  lemma {:induction false} ReplaceJoin(ps: seq<string>, c: char)
    requires forall i :: 0 <= i < |ps| ==> ' ' !in ps[i]
    ensures ReplaceChar(JoinWith(ps, " "), ' ', c) == JoinWith(ps, [c])
  {
    if |ps| > 1 {
      var j1 := JoinWith(ps[1..], " ");
      calc {
        ReplaceChar(JoinWith(ps, " "), ' ', c);
        ReplaceChar(ps[0] + " " + j1, ' ', c);
        { ReplaceCharAppend(ps[0] + " ", j1, ' ', c); }
        ReplaceChar(ps[0] + " ", ' ', c) + ReplaceChar(j1, ' ', c);
        { ReplaceCharAppend(ps[0], " ", ' ', c); ReplaceCharAbsent(ps[0], ' ', c);
          assert ReplaceChar(" ", ' ', c) == [c]; }
        ps[0] + [c] + ReplaceChar(j1, ' ', c);
        { ReplaceJoin(ps[1..], c); }
        ps[0] + [c] + JoinWith(ps[1..], [c]);
      }
    } else if |ps| == 1 {
      ReplaceCharAbsent(ps[0], ' ', c);
    }
  }

  /** A join of non-empty pieces starts with the first piece and ends with the last. */
  lemma {:induction false} JoinEnds(ps: seq<string>, sep: string)
    requires |ps| > 0 && forall i :: 0 <= i < |ps| ==> ps[i] != ""
    ensures var j := JoinWith(ps, sep); |j| > 0 && j[0] == ps[0][0] && j[|j| - 1] == ps[|ps| - 1][|ps[|ps| - 1]| - 1]
  {
    if |ps| > 1 {
      var rest := JoinWith(ps[1..], sep);
      assert ps[1..][0] == ps[1] && ps[1..][|ps[1..]| - 1] == ps[|ps| - 1];
      JoinEnds(ps[1..], sep);
      assert ps[0] != "";
      var j := ps[0] + sep + rest;
      assert JoinWith(ps, sep) == j;
      assert j[0] == ps[0][0];
      assert j[|j| - 1] == rest[|rest| - 1];
    }
  }

  lemma PieceCharacters(s: string, seps: set<char>, i: int, j: int)
    requires 0 <= i < |Pieces(s, seps)| && 0 <= j < |Pieces(s, seps)[i]|
    ensures Pieces(s, seps)[i][j] in s && Pieces(s, seps)[i][j] !in seps
  {
    var ps := SplitAny(s, seps);
    var p := Pieces(s, seps)[i];
    assert p in ps;
    var k :| 0 <= k < |ps| && ps[k] == p;
    PiecesKeepCharacters(s, seps);
    SplitAnyCharacters(s, seps, k, j);
  }

  lemma {:induction false} SplitAnyCharacters(s: string, seps: set<char>, k: int, j: int)
    requires 0 <= k < |SplitAny(s, seps)| && 0 <= j < |SplitAny(s, seps)[k]|
    ensures SplitAny(s, seps)[k][j] in s
  {
    if |s| > 0 {
      var rest := SplitAny(s[1..], seps);
      if s[0] in seps {
        if k > 0 {
          SplitAnyCharacters(s[1..], seps, k - 1, j);
        }
      } else if k == 0 {
        if j > 0 {
          SplitAnyCharacters(s[1..], seps, 0, j - 1);
        }
      } else {
        SplitAnyCharacters(s[1..], seps, k, j);
      }
    }
  }

  lemma TrimKeeps(s: string)
    requires s == "" || (!IsWhiteSpace(s[0]) && !IsWhiteSpace(s[|s| - 1]))
    ensures Trim(s) == s
  {
  }

  /**
   When every white-space character of `s` is one the sanitizer cuts at, it
   turns each maximal run of those characters between two pieces into
   exactly one `c` and drops leading and trailing ones.
   */
  lemma SanitizeCollapsesRuns(s: string, seps: set<char>, c: char)
    requires forall i :: 0 <= i < |s| && IsWhiteSpace(s[i]) ==> s[i] in SplitSet(seps)
    ensures Sanitize(s, seps, c) == JoinWith(Pieces(s, SplitSet(seps)), [c])
  {
    var cut := SplitSet(seps);
    var ps := Pieces(s, cut);
    PiecesKeepCharacters(s, cut);
    PiecesNotWhite(s, cut);
    var j := JoinWith(ps, " ");
    if |ps| > 0 {
      JoinEnds(ps, " ");
    }
    TrimKeeps(j);
    ReplaceJoin(ps, c);
  }

  /** When every white-space character of `s` is cut at, the pieces hold no white space (and so no space). */
  lemma PiecesNotWhite(s: string, cut: set<char>)
    requires forall i :: 0 <= i < |s| && IsWhiteSpace(s[i]) ==> s[i] in cut
    ensures forall i, j :: 0 <= i < |Pieces(s, cut)| && 0 <= j < |Pieces(s, cut)[i]| ==> !IsWhiteSpace(Pieces(s, cut)[i][j])
    ensures forall i :: 0 <= i < |Pieces(s, cut)| ==> ' ' !in Pieces(s, cut)[i]
  {
    var ps := Pieces(s, cut);
    forall i, j | 0 <= i < |ps| && 0 <= j < |ps[i]| ensures !IsWhiteSpace(ps[i][j]) {
      PieceCharacters(s, cut, i, j);
    }
    assert IsWhiteSpace(' ');
  }

  /** With a replacement character that is not a separator, no separator and no space survives. */
  lemma SanitizeRemovesSeparators(s: string, seps: set<char>, c: char)
    requires c !in seps && c != ' '
    ensures forall i :: 0 <= i < |Sanitize(s, seps, c)| ==> Sanitize(s, seps, c)[i] !in seps && Sanitize(s, seps, c)[i] != ' '
  {
    var cut := SplitSet(seps);
    var r := Sanitize(s, seps, c);
    assert r == ReplaceChar(Trim(JoinWith(Pieces(s, cut), " ")), ' ', c);
    SanitizedAvoids(s, cut, c, r);
    forall i | 0 <= i < |r| ensures r[i] !in seps && r[i] != ' ' {
      if r[i] != c {
        assert r[i] !in cut;
      }
    }
  }

  /** After the cut at `cut`, the join, the trim and the replacement, every character is `c` or neither a space nor in `cut`. */
  lemma SanitizedAvoids(s: string, cut: set<char>, c: char, r: string)
    requires r == ReplaceChar(Trim(JoinWith(Pieces(s, cut), " ")), ' ', c)
    ensures forall i :: 0 <= i < |r| ==> r[i] == c || (r[i] != ' ' && r[i] !in cut)
  {
    var ps := Pieces(s, cut);
    var j := JoinWith(ps, " ");
    JoinCharacters(s, cut, ps);
    TrimAvoids(j, cut);
  }

  /** Trimming keeps only characters of the text, so it adds no character in `cut`. */
  lemma TrimAvoids(j: string, cut: set<char>)
    requires forall i :: 0 <= i < |j| ==> j[i] == ' ' || j[i] !in cut
    ensures forall i :: 0 <= i < |Trim(j)| ==> Trim(j)[i] == ' ' || Trim(j)[i] !in cut
  {
    var ts := TrimStart(j);
    var t := TrimEnd(ts);
    forall i | 0 <= i < |t| ensures t[i] == ' ' || t[i] !in cut {
      assert t[i] == ts[i];
      assert ts[i] == j[|j| - |ts| + i];
    }
  }

  lemma JoinCharacters(s: string, seps: set<char>, ps: seq<string>)
    requires ps == Pieces(s, seps)
    ensures forall i :: 0 <= i < |JoinWith(ps, " ")| ==> JoinWith(ps, " ")[i] == ' ' || JoinWith(ps, " ")[i] !in seps
  {
    forall i, j | 0 <= i < |ps| && 0 <= j < |ps[i]| ensures ps[i][j] !in seps {
      PieceCharacters(s, seps, i, j);
    }
    JoinAvoids(ps, seps);
  }

  lemma {:induction false} JoinAvoids(ps: seq<string>, seps: set<char>)
    requires forall i, j :: 0 <= i < |ps| && 0 <= j < |ps[i]| ==> ps[i][j] !in seps
    ensures forall i :: 0 <= i < |JoinWith(ps, " ")| ==> JoinWith(ps, " ")[i] == ' ' || JoinWith(ps, " ")[i] !in seps
  {
    if |ps| > 1 {
      JoinAvoids(ps[1..], seps);
      var j := JoinWith(ps, " ");
      forall i | 0 <= i < |j| ensures j[i] == ' ' || j[i] !in seps {
        if i < |ps[0]| {
          assert j[i] == ps[0][i];
        } else if i > |ps[0]| {
          assert j[i] == JoinWith(ps[1..], " ")[i - |ps[0]| - 1];
        }
      }
    }
  }

  // ---------------------------------------------------------------------------
  // SplitFixedWidth

  /** The consecutive `width`-long chunks of `s`; the last one may be shorter. */
  function Chunks(s: string, width: nat): seq<string>
    requires width > 0
    decreases |s|
  {
    if |s| == 0 then [] else if |s| <= width then [s] else [s[..width]] + Chunks(s[width..], width)
  }

  function Min(a: int, b: int): int {
    if a <= b then a else b
  }

  /** Cuts `str` into consecutive chunks of `width` characters, the last one possibly shorter. */
  method SplitFixedWidth(str: string, width: int) returns (chunks: seq<string>)
    requires width > 0
    ensures chunks == Chunks(str, width)
  {
    chunks := [];
    var i := 0;
    while i < |str|
      invariant 0 <= i
      invariant chunks + Chunks(str[Min(i, |str|)..], width) == Chunks(str, width)
      decreases |str| - i
    {
      var piece := str[i..i + Min(width, |str| - i)];
      assert Chunks(str[i..], width) == [piece] + Chunks(str[Min(i + width, |str|)..], width) by {
        if |str| - i > width {
          assert str[i..][width..] == str[i + width..];
          assert str[i..][..width] == piece;
        } else {
          assert piece == str[i..];
          assert str[|str|..] == "";
        }
      }
      chunks := chunks + [piece];
      i := i + width;
    }
  }

  /** The chunks concatenate back to `s`; all but the last are `width` long, the last is 1..width long. */
  lemma {:induction false} ChunksSpec(s: string, width: nat)
    requires width > 0
    ensures Concat(Chunks(s, width)) == s
    ensures forall i :: 0 <= i < |Chunks(s, width)| - 1 ==> |Chunks(s, width)[i]| == width
    ensures |Chunks(s, width)| > 0 ==> 1 <= |Chunks(s, width)[|Chunks(s, width)| - 1]| <= width
    ensures s == "" <==> Chunks(s, width) == []
    decreases |s|
  {
    if |s| > width {
      ChunksSpec(s[width..], width);
      var cs := Chunks(s, width);
      assert cs[1..] == Chunks(s[width..], width);
      assert s == s[..width] + s[width..];
    }
  }

  /** Example: width 4 over "ABCDEFGHI" yields "ABCD", "EFGH", "I". */
  lemma ChunksExample()
    ensures Chunks("ABCDEFGHI", 4) == ["ABCD", "EFGH", "I"]
  {
    assert Chunks("I", 4) == ["I"];
    assert "EFGHI"[..4] == "EFGH" && "EFGHI"[4..] == "I";
    assert Chunks("EFGHI", 4) == ["EFGH", "I"];
    assert "ABCDEFGHI"[..4] == "ABCD" && "ABCDEFGHI"[4..] == "EFGHI";
  }

  // ---------------------------------------------------------------------------
  // FromEpoch

  predicate InInt64(x: int) {
    -0x8000_0000_0000_0000 <= x < 0x8000_0000_0000_0000
  }

  type Int64 = x: int | InInt64(x)

  const TicksPerMillisecond: int := 10_000
  const TicksPerSecond: int := 10_000_000
  const TicksPerMinute: int := 600_000_000
  const TicksPerHour: int := 36_000_000_000
  /** DateTime.MaxValue.Ticks */
  const MaxTicks: int := 3_155_378_975_999_999_999
  /** The exclusive bound on the milliseconds DateTime.Add accepts. */
  const MaxMillis: int := 315_537_897_600_000
  /** The ticks of 1970-01-01T00:00:00Z, the Unix origin. */
  const UnixEpochTicks: int := 621_355_968_000_000_000

  /** C# `/` on integers: the quotient truncated toward zero. */
  function TruncDiv(a: int, b: int): (q: int)
    requires b > 0
    ensures q * b <= a < q * b + b || q * b - b < a <= q * b
    ensures (a >= 0 ==> q >= 0) && (a <= 0 ==> q <= 0)
  {
    if a >= 0 then
      DivBounds(a, b);
      a / b
    else
      var m := (-a) / b;
      DivBounds(-a, b);
      assert (-m) * b == -(m * b);
      -m
  }

  /** Euclidean division of a non-negative dividend brackets it between multiples of the divisor. */
  lemma DivBounds(n: int, b: int)
    requires n >= 0 && b > 0
    ensures (n / b) * b <= n < (n / b) * b + b && n / b >= 0
  {
    assert n == (n / b) * b + n % b;
  }

  /** Two's-complement 64-bit wrap-around of an unchecked C# `long` operation. */
  function Wrap64(x: int): (r: Int64)
    ensures (r - x) % 0x1_0000_0000_0000_0000 == 0
    ensures InInt64(x) ==> r == x
  {
    var m := x % 0x1_0000_0000_0000_0000;
    if m >= 0x8000_0000_0000_0000 then m - 0x1_0000_0000_0000_0000 else m
  }

  /** DateTime.AddTicks: ArgumentOutOfRangeException when the result leaves the DateTime range. */
  function AddTicks(ticks: int, value: int): (r: Result<int>)
    ensures r.Ok? <==> 0 <= ticks + value <= MaxTicks
    ensures r.Ok? ==> r.value == ticks + value
    ensures r.Fail? ==> r.error.kind == ArgumentOutOfRangeException
  {
    if 0 <= ticks + value <= MaxTicks then Ok(ticks + value)
    else Throw(ArgumentOutOfRangeException, "value")
  }

  /**
   DateTime.AddHours/AddMinutes/AddSeconds/AddMilliseconds of a whole number of
   units; `millisPerUnit` is the unit in milliseconds.
   */
  function AddUnits(ticks: int, value: int, millisPerUnit: nat): (r: Result<int>)
    ensures r.Ok? ==> r.value == ticks + value * millisPerUnit * TicksPerMillisecond
    ensures r.Ok? <==> -MaxMillis < value * millisPerUnit < MaxMillis && 0 <= ticks + value * millisPerUnit * TicksPerMillisecond <= MaxTicks
  {
    var millis := value * millisPerUnit;
    if millis <= -MaxMillis || millis >= MaxMillis then Throw(ArgumentOutOfRangeException, "value")
    else AddTicks(ticks, millis * TicksPerMillisecond)
  }

  /** The tick count of one unit of a whole-unit precision. */
  function TicksPerUnit(p: TimePrecision): int {
    match p
    case Hours => TicksPerHour
    case Minutes => TicksPerMinute
    case Seconds => TicksPerSecond
    case Milliseconds => TicksPerMillisecond
    case _ => 0
  }

  /**
   The instant `epoch` units after the Unix origin, as written: Microseconds
   multiply in unchecked 64-bit arithmetic.
   */
  function FromEpochAsWritten(epoch: Int64, precision: TimePrecision): (r: Result<int>)
    ensures precision.OtherPrecision? ==> r == Ok(UnixEpochTicks)
  {
    match precision
    case Hours => AddUnits(UnixEpochTicks, epoch, 3_600_000)
    case Minutes => AddUnits(UnixEpochTicks, epoch, 60_000)
    case Seconds => AddUnits(UnixEpochTicks, epoch, 1_000)
    case Milliseconds => AddUnits(UnixEpochTicks, epoch, 1)
    case Microseconds => AddTicks(UnixEpochTicks, Wrap64(TruncDiv(epoch, 1000) * TicksPerMillisecond))
    case Nanoseconds => AddTicks(UnixEpochTicks, TruncDiv(epoch, 100))
    case OtherPrecision(_) => Ok(UnixEpochTicks)
  }

  /**
   A far-future microsecond epoch whose tick product overflows a `long`
   wraps to an instant 838.4 microseconds after 1970-01-01 instead of being
   rejected as out of range.
   */
  lemma MicrosecondsWrapAround()
    ensures FromEpochAsWritten(1_844_674_407_370_956_000, Microseconds) == Ok(UnixEpochTicks + 8_384)
    ensures 0x7FFF_FFFF_FFFF_FFFF < TruncDiv(1_844_674_407_370_956_000, 1000) * TicksPerMillisecond
  {
  }

  /**
   The instant `epoch` units after the Unix origin, with the microsecond
   product checked: an overflowing product is out of range.
   */
  function FromEpoch(epoch: Int64, precision: TimePrecision): (r: Result<int>)
    ensures precision.OtherPrecision? ==> r == Ok(UnixEpochTicks)
    ensures r.Fail? ==> r.error.kind == ArgumentOutOfRangeException
    ensures r.Ok? ==> 0 <= r.value <= MaxTicks
  {
    match precision
    case Microseconds =>
      var ticks := TruncDiv(epoch, 1000) * TicksPerMillisecond;
      if InInt64(ticks) then AddTicks(UnixEpochTicks, ticks) else Throw(ArgumentOutOfRangeException, "value")
    case _ => FromEpochAsWritten(epoch, precision)
  }

  /** The corrected conversion differs from the written one only where the product overflows. */
  lemma FromEpochAgrees(epoch: Int64, precision: TimePrecision)
    ensures !precision.Microseconds? || InInt64(TruncDiv(epoch, 1000) * TicksPerMillisecond) ==>
      FromEpoch(epoch, precision) == FromEpochAsWritten(epoch, precision)
  {
  }

  /**
   Whole-unit precisions add exactly `epoch` units to the origin and succeed
   exactly when the result is a valid DateTime.
   */
  lemma FromEpochWholeUnits(epoch: Int64, precision: TimePrecision)
    requires precision.Hours? || precision.Minutes? || precision.Seconds? || precision.Milliseconds?
    ensures FromEpoch(epoch, precision).Ok? <==> 0 <= UnixEpochTicks + epoch * TicksPerUnit(precision) <= MaxTicks
    ensures FromEpoch(epoch, precision).Ok? ==> FromEpoch(epoch, precision).value == UnixEpochTicks + epoch * TicksPerUnit(precision)
  {
  }

  /** Microseconds keep only whole milliseconds, truncated toward zero; nanoseconds become ticks truncated toward zero. */
  lemma FromEpochSubUnits(epoch: Int64)
    ensures FromEpoch(epoch, Microseconds).Ok? ==> FromEpoch(epoch, Microseconds).value == UnixEpochTicks + TruncDiv(epoch, 1000) * 10_000
    ensures FromEpoch(epoch, Nanoseconds).Ok? ==> FromEpoch(epoch, Nanoseconds).value == UnixEpochTicks + TruncDiv(epoch, 100)
  {
  }

  /** Two microsecond epochs in the same (truncated) millisecond give the same instant. */
  lemma FromEpochDropsMicroseconds(a: Int64, b: Int64)
    requires TruncDiv(a, 1000) == TruncDiv(b, 1000)
    ensures FromEpoch(a, Microseconds) == FromEpoch(b, Microseconds)
  {
  }

  /** 1.999 ms and -1.5 ms in microseconds: the digits below one millisecond are dropped toward zero. */
  lemma FromEpochTruncates()
    ensures FromEpoch(1999, Microseconds) == Ok(UnixEpochTicks + 10_000)
    ensures FromEpoch(-1500, Microseconds) == Ok(UnixEpochTicks - 10_000)
    ensures FromEpoch(-150, Nanoseconds) == Ok(UnixEpochTicks - 1)
  {
  }
}
