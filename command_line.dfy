/**
 `CommandLineProcessor.ProcessArguments`: the argument list is read into a
 map from lower-cased switch to value, then the help switches, the
 configuration file switch and the switches the configuration does not know
 decide the outcome. The configuration's own binding of switches to
 settings is a parameter: it answers whether it accepted the switches and
 which of them it left unconsumed.
 */
module CommandLine {
  import opened Common
  import opened OrderedDict

  predicate IsAsciiLetter(c: char) {
    'a' <= c <= 'z' || 'A' <= c <= 'Z'
  }

  /** The switch pattern `^-[-a-zA-Z+]|^/[?a-zA-Z+]`: `-` or `/` and one more character of its class. */
  predicate IsSwitch(t: string) {
    && |t| >= 2
    && ((t[0] == '-' && (t[1] == '-' || t[1] == '+' || IsAsciiLetter(t[1])))
     || (t[0] == '/' && (t[1] == '?' || t[1] == '+' || IsAsciiLetter(t[1]))))
  }

  /** The value of the switch at `i`: the next argument when that is no switch, otherwise "true". */
  function ValueAfter(args: seq<string>, i: nat): string
    requires i < |args|
  {
    if i + 1 < |args| && !IsSwitch(args[i + 1]) then args[i + 1] else "true"
  }

  /**
   The loop of `ProcessArguments` from argument `i`, with `acc` the map so
   far: a switch is added under its lower-cased name with its value, and a
   value it takes is stepped over; any other argument is ignored.
   */
  function TokensFrom(args: seq<string>, i: nat, acc: Entries<string, string>): (r: Result<Entries<string, string>>)
    requires i <= |args|
    ensures r.Ok? ==> |acc| <= |r.value| <= |acc| + (|args| - i) && r.value[..|acc|] == acc
    ensures r.Fail? ==> r.error.kind == ArgumentException
    ensures (forall j :: i <= j < |args| ==> !IsSwitch(args[j])) ==> r == Ok(acc)
    decreases |args| - i
  {
    if i == |args| then Ok(acc)
    else if !IsSwitch(args[i]) then TokensFrom(args, i + 1, acc)
    else
      var next := Add(acc, ToLower(args[i]), ValueAfter(args, i));
      if next.Fail? then Fail(next.error)
      else
        assert next.value[..|acc|] == acc;
        var rest := if i + 1 < |args| && !IsSwitch(args[i + 1]) then TokensFrom(args, i + 2, next.value) else TokensFrom(args, i + 1, next.value);
        KeepsPrefix(acc, next.value, rest);
        rest
  }

  /** The switch map of an argument list. */
  function Tokens(args: seq<string>): (r: Result<Entries<string, string>>)
    ensures r.Ok? ==> |r.value| <= |args|
    ensures (forall j :: 0 <= j < |args| ==> !IsSwitch(args[j])) ==> r == Ok([])
  {
    TokensFrom(args, 0, [])
  }

  /**
   The reference reading of the switches from `i`: one entry per switch,
   wherever it stands, with its lower-cased name and its value.
   */
  function SwitchPairs(args: seq<string>, i: nat): (r: Entries<string, string>)
    requires i <= |args|
    ensures |r| <= |args| - i
    ensures forall p :: p in r ==> ToLower(p.0) == p.0
    decreases |args| - i
  {
    if i == |args| then []
    else if IsSwitch(args[i]) then
      ToLowerIdempotent(args[i]);
      [(ToLower(args[i]), ValueAfter(args, i))] + SwitchPairs(args, i + 1)
    else SwitchPairs(args, i + 1)
  }

  /** `Dictionary.Add` of every entry of `ps`, in order. */
  function AddAll(acc: Entries<string, string>, ps: Entries<string, string>): Result<Entries<string, string>>
    decreases |ps|
  {
    if |ps| == 0 then Ok(acc)
    else
      var next := Add(acc, ps[0].0, ps[0].1);
      if next.Fail? then Fail(next.error) else AddAll(next.value, ps[1..])
  }

  /** No two entries share a key. */
  predicate NoRepeat(e: Entries<string, string>) {
    forall i, j :: 0 <= i < j < |e| ==> e[i].0 != e[j].0
  }

  lemma {:induction false} ToLowerIdempotent(s: string)
    ensures ToLower(ToLower(s)) == ToLower(s)
  {
    if |s| > 0 {
      ToLowerIdempotent(s[1..]);
      assert ToLower(s)[1..] == ToLower(s[1..]);
    }
  }

  lemma {:induction false} InKeys(e: Entries<string, string>, k: string)
    ensures k in Keys(e) <==> exists i :: 0 <= i < |e| && e[i].0 == k
  {
    if |e| > 0 {
      InKeys(e[1..], k);
      if k in Keys(e[1..]) {
        var i :| 0 <= i < |e[1..]| && e[1..][i].0 == k;
        assert e[i + 1].0 == k;
      }
    }
  }

  /**
   Adding the entries one by one fails exactly when a key repeats, with an
   ArgumentException; otherwise every entry is appended in order.
   */
  lemma {:induction false} AddAllSpec(acc: Entries<string, string>, ps: Entries<string, string>)
    requires NoRepeat(acc)
    ensures AddAll(acc, ps).Ok? <==> NoRepeat(acc + ps)
    ensures AddAll(acc, ps).Ok? ==> AddAll(acc, ps).value == acc + ps
    ensures AddAll(acc, ps).Fail? ==> AddAll(acc, ps).error.kind == ArgumentException
    decreases |ps|
  {
    if |ps| == 0 {
      assert acc + ps == acc;
    } else {
      var x := ps[0];
      InKeys(acc, x.0);
      assert acc + ps == (acc + [x]) + ps[1..];
      if x.0 in Keys(acc) {
        var i :| 0 <= i < |acc| && acc[i].0 == x.0;
        assert (acc + ps)[i].0 == (acc + ps)[|acc|].0;
      } else {
        assert NoRepeat(acc + [x]) by {
          forall i, j | 0 <= i < j < |acc + [x]|
            ensures (acc + [x])[i].0 != (acc + [x])[j].0
          {
            if j == |acc| {
              assert (acc + [x])[i] == acc[i];
            }
          }
        }
        AddAllSpec(acc + [x], ps[1..]);
        if !NoRepeat(acc + ps) {
          var i, j :| 0 <= i < j < |acc + ps| && (acc + ps)[i].0 == (acc + ps)[j].0;
          assert ((acc + [x]) + ps[1..])[i].0 == ((acc + [x]) + ps[1..])[j].0;
        }
      }
    }
  }

  /**
   A value the loop steps over is no switch and adds no entry, so the loop
   reads the same map as the reference reading.
   */
  lemma {:induction false} TokensFromPairs(args: seq<string>, i: nat, acc: Entries<string, string>)
    requires i <= |args|
    ensures TokensFrom(args, i, acc) == AddAll(acc, SwitchPairs(args, i))
    decreases |args| - i
  {
    if i < |args| {
      if !IsSwitch(args[i]) {
        TokensFromPairs(args, i + 1, acc);
        assert SwitchPairs(args, i) == SwitchPairs(args, i + 1);
      } else {
        var p := (ToLower(args[i]), ValueAfter(args, i));
        var rest := SwitchPairs(args, i + 1);
        assert SwitchPairs(args, i) == [p] + rest;
        assert ([p] + rest)[1..] == rest;
        var next := Add(acc, p.0, p.1);
        if next.Ok? {
          if i + 1 < |args| && !IsSwitch(args[i + 1]) {
            assert rest == SwitchPairs(args, i + 2);
            TokensFromPairs(args, i + 2, next.value);
          } else {
            TokensFromPairs(args, i + 1, next.value);
          }
        }
      }
    }
  }

  /** The entries of the reference reading are exactly the switches, each with its value. */
  lemma {:induction false} SwitchPairsSpec(args: seq<string>, i: nat, k: string, v: string)
    requires i <= |args|
    ensures (k, v) in SwitchPairs(args, i) <==>
      exists j :: i <= j < |args| && IsSwitch(args[j]) && k == ToLower(args[j]) && v == ValueAfter(args, j)
    decreases |args| - i
  {
    if i < |args| {
      SwitchPairsSpec(args, i + 1, k, v);
    }
  }

  /**
   The switch map: it fails with an ArgumentException exactly when two
   switches have the same lower-cased name; otherwise it holds one entry per
   switch, in order, under its lower-cased name, with the next argument as
   its value when that is no switch and "true" when it is or when there is
   none. Arguments that are not switches and follow none are ignored.
   */
  lemma TokensSpec(args: seq<string>)
    ensures Tokens(args).Ok? <==> NoRepeat(SwitchPairs(args, 0))
    ensures Tokens(args).Ok? ==> Tokens(args).value == SwitchPairs(args, 0)
    ensures Tokens(args).Fail? ==> Tokens(args).error.kind == ArgumentException
  {
    TokensFromPairs(args, 0, []);
    AddAllSpec([], SwitchPairs(args, 0));
    assert [] + SwitchPairs(args, 0) == SwitchPairs(args, 0);
  }

  /** A negative number is no switch: the value of `-offset -60` is "-60". */
  lemma NegativeNumberIsAValue()
    ensures !IsSwitch("-60") && IsSwitch("-offset")
    ensures Tokens(["-offset", "-60"]) == Ok([("-offset", "-60")])
  {
    var args := ["-offset", "-60"];
    LowerOffset();
    assert TokensFrom(args, 0, []) == TokensFrom(args, 2, [("-offset", "-60")]);
  }

  /** "-offset" is already in lower case. */
  lemma LowerOffset()
    ensures ToLower("-offset") == "-offset"
  {
    assert ToLower("t") == "t";
    assert ToLower("et") == "et" by { assert "et"[1..] == "t"; }
    assert ToLower("set") == "set" by { assert "set"[1..] == "et"; }
    assert ToLower("fset") == "fset" by { assert "fset"[1..] == "set"; }
    assert ToLower("ffset") == "ffset" by { assert "ffset"[1..] == "fset"; }
    assert ToLower("offset") == "offset" by { assert "offset"[1..] == "ffset"; }
    assert "-offset"[1..] == "offset";
  }

  /** The loop of `ProcessArguments` over the arguments. */
  method ParseSwitches(args: seq<string>) returns (r: Result<Entries<string, string>>)
    ensures r == Tokens(args)
  {
    var cmdArgs: Entries<string, string> := [];
    var i := 0;
    while i < |args|
      invariant 0 <= i <= |args|
      invariant TokensFrom(args, i, cmdArgs) == Tokens(args)
    {
      if IsSwitch(args[i]) {
        var key := ToLower(args[i]);
        ToLowerIdempotent(args[i]);
        if i + 1 < |args| && !IsSwitch(args[i + 1]) {
          var next := Add(cmdArgs, ToLower(key), args[i + 1]);
          if next.Fail? {
            return Fail(next.error);
          }
          cmdArgs := next.value;
          i := i + 1;
        } else {
          var next := Add(cmdArgs, ToLower(key), "true");
          if next.Fail? {
            return Fail(next.error);
          }
          cmdArgs := next.value;
        }
      }
      i := i + 1;
    }
    return Ok(cmdArgs);
  }

  /** What the configuration's binding of switches answers: whether it took any, and the switches it left. */
  datatype Binding = Binding(accepted: bool, left: Entries<string, string>)

  /** One of the help switches was given. */
  predicate HelpRequested(cmdArgs: Entries<string, string>) {
    ContainsKey(cmdArgs, "--help") || ContainsKey(cmdArgs, "/help") || ContainsKey(cmdArgs, "/?")
  }

  /** The keys of the map, joined by ", ". */
  function JoinKeys(cmdArgs: Entries<string, string>): string {
    if |cmdArgs| == 0 then ""
    else if |cmdArgs| == 1 then cmdArgs[0].0
    else cmdArgs[0].0 + ", " + JoinKeys(cmdArgs[1..])
  }

  /** The ArgumentException messages of `ProcessArguments`. */
  const NotValidMessage := "Command line arguments not valid, try --help to see valid ones!"
  const ProcessingPrefix := "Error processing arguments :"
  const InvalidArgumentsMessage := "Error processing arguments :Invalid commandline arguments!! Use /help to see valid ones"
  const UnknownArguments: string := "Unknown command line arguments: "

  /**
   `ProcessArguments`: false when help is asked for or the configuration is
   to be exported, true when every switch was consumed, an exception
   otherwise. `loadConfig` loads the file named by `-config`; `bind` is the
   configuration's binding of the remaining switches.
   */
  function Arguments(args: seq<string>, loadConfig: string -> Result<()>, bind: Entries<string, string> -> Result<Binding>): (r: Result<bool>)
    ensures |args| == 0 ==> r.Fail? && r.error.kind == ArgumentException
    ensures Tokens(args).Fail? ==> r.Fail? && r.error.kind == ArgumentException
  {
    if |args| == 0 then Throw(ArgumentException, NotValidMessage)
    else
      var parsed := Tokens(args);
      if parsed.Fail? then
        TokensSpec(args);
        Fail(parsed.error)
      else
        var cmdArgs := parsed.value;
        if HelpRequested(cmdArgs) then Ok(false)
        else
          var loaded := if ContainsKey(cmdArgs, "-config") then loadConfig(Get(cmdArgs, "-config").value) else Ok(());
          if loaded.Fail? then Throw(FileLoadException, "Error Loading config file:" + loaded.error.message)
          else
            var rest := if ContainsKey(cmdArgs, "-config") then Remove(cmdArgs, "-config") else cmdArgs;
            var total := if ContainsKey(cmdArgs, "-config") then |cmdArgs| - 1 else |cmdArgs|;
            var bound := if total >= 1 && !(|rest| == 1 && ContainsKey(rest, "/export")) then bind(rest) else Ok(Binding(true, rest));
            if bound.Fail? then Throw(ArgumentException, ProcessingPrefix + bound.error.message)
            else if !bound.value.accepted then
              Throw(ArgumentException, InvalidArgumentsMessage)
            else if ContainsKey(bound.value.left, "/export") then Ok(false)
            else if |bound.value.left| > 0 then Throw(ArgumentException, UnknownArguments + JoinKeys(bound.value.left))
            else Ok(true)
  }

  /** `ProcessArguments` as written: the map is read, then `-config` is removed from it and the rest bound. */
  method ProcessArguments(args: seq<string>, loadConfig: string -> Result<()>, bind: Entries<string, string> -> Result<Binding>)
    returns (r: Result<bool>)
    ensures r == Arguments(args, loadConfig, bind)
  {
    if |args| == 0 {
      return Throw(ArgumentException, NotValidMessage);
    }
    var parsed := ParseSwitches(args);
    if parsed.Fail? {
      return Fail(parsed.error);
    }
    var cmdArgs := parsed.value;
    var totalArguments := |cmdArgs|;
    if ContainsKey(cmdArgs, "--help") || ContainsKey(cmdArgs, "/help") || ContainsKey(cmdArgs, "/?") {
      return Ok(false);
    }
    if ContainsKey(cmdArgs, "-config") {
      var loaded := loadConfig(Get(cmdArgs, "-config").value);
      if loaded.Fail? {
        return Throw(FileLoadException, "Error Loading config file:" + loaded.error.message);
      }
      cmdArgs := Remove(cmdArgs, "-config");
      totalArguments := totalArguments - 1;
    }
    if totalArguments >= 1 && !(|cmdArgs| == 1 && ContainsKey(cmdArgs, "/export")) {
      var bound := bind(cmdArgs);
      if bound.Fail? {
        return Throw(ArgumentException, ProcessingPrefix + bound.error.message);
      }
      if !bound.value.accepted {
        return Throw(ArgumentException, InvalidArgumentsMessage);
      }
      cmdArgs := bound.value.left;
    }
    if ContainsKey(cmdArgs, "/export") {
      return Ok(false);
    }
    if |cmdArgs| > 0 {
      return Throw(ArgumentException, UnknownArguments + JoinKeys(cmdArgs));
    }
    return Ok(true);
  }

  /** A help switch, in any case, answers false whatever else is given, before any configuration is loaded. */
  lemma HelpWins(args: seq<string>, loadConfig: string -> Result<()>, bind: Entries<string, string> -> Result<Binding>, j: nat)
    requires j < |args| && ToLower(args[j]) in {"--help", "/help", "/?"} && Tokens(args).Ok?
    ensures Arguments(args, loadConfig, bind) == Ok(false)
  {
    assert IsSwitch(args[j]) by {
      assert |ToLower(args[j])| == |args[j]|;
      assert ToLower(args[j])[0] == args[j][0] && ToLower(args[j])[1] in {'-', 'h', '?'};
    }
    TokensSpec(args);
    SwitchPairsSpec(args, 0, ToLower(args[j]), ValueAfter(args, j));
    InKeys(Tokens(args).value, ToLower(args[j]));
  }

  /**
   `-config` is not counted among the arguments: when it is the only switch
   and its file loads, the run goes on without any switch to bind.
   */
  lemma ConfigAloneIsAccepted(args: seq<string>, loadConfig: string -> Result<()>, bind: Entries<string, string> -> Result<Binding>, file: string)
    requires Tokens(args) == Ok([("-config", file)]) && loadConfig(file).Ok?
    ensures Arguments(args, loadConfig, bind) == Ok(true)
  {
    var cmdArgs := [("-config", file)];
    assert Remove(cmdArgs, "-config") == [];
  }

  /**
   A switch the configuration leaves unconsumed is an error naming it,
   unless it is `/export`.
   */
  lemma UnknownSwitchIsRejected(args: seq<string>, loadConfig: string -> Result<()>, bind: Entries<string, string> -> Result<Binding>)
    requires |args| > 0 && Tokens(args).Ok? && !HelpRequested(Tokens(args).value)
    requires !ContainsKey(Tokens(args).value, "-config") && !ContainsKey(Tokens(args).value, "/export")
    requires |Tokens(args).value| > 0
    requires bind(Tokens(args).value).Ok? && bind(Tokens(args).value).value.accepted
    requires var left := bind(Tokens(args).value).value.left; |left| > 0 && !ContainsKey(left, "/export")
    ensures var r := Arguments(args, loadConfig, bind);
      r.Fail? && r.error.kind == ArgumentException
      && r.error.message == UnknownArguments + JoinKeys(bind(Tokens(args).value).value.left)
  {
  }

  /**
   A true answer means no help was asked for, the configuration file (if
   any) loaded, and every other switch was consumed by the binding.
   */
  lemma AcceptedMeansConsumed(args: seq<string>, loadConfig: string -> Result<()>, bind: Entries<string, string> -> Result<Binding>)
    requires Arguments(args, loadConfig, bind) == Ok(true)
    ensures |args| > 0 && Tokens(args).Ok? && !HelpRequested(Tokens(args).value)
    ensures ContainsKey(Tokens(args).value, "-config") ==> loadConfig(Get(Tokens(args).value, "-config").value).Ok?
    ensures var cmdArgs := Tokens(args).value;
      var rest := if ContainsKey(cmdArgs, "-config") then Remove(cmdArgs, "-config") else cmdArgs;
      rest == [] || (bind(rest).Ok? && bind(rest).value.accepted && bind(rest).value.left == [])
  {
  }
}
