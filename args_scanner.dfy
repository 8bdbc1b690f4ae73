/** The token scanner of the schema-driven binder (src/args.rs, get_serialized_arguments).
    It walks the argument list once, after the program name, and writes the argument
    document into a text buffer: keys for flags, ` true` for flags that take no value,
    scalars and `[…]` arrays for bare tokens. What it writes depends on the buffer's last
    character and on one token of lookahead. */
module ArgsScanner {
  import opened Wrappers
  import opened Strings
  import opened Args

  /** What follows a token: nothing, a flag, or a bare value. */
  datatype Lookahead = AtEnd | FlagNext | ValueNext

  function LookaheadAt(tokens: seq<string>, i: nat): Lookahead
    requires i < |tokens|
  {
    if i + 1 == |tokens| then AtEnd
    else if StartsWith(tokens[i + 1], "-") then FlagNext
    else ValueNext
  }

  /** How a scan ends: the document, the help screen (with the option names it lists),
      the version screen, or a failure. */
  datatype ScanResult =
    | Document(text: string)
    | ShowHelp(options: seq<string>)
    | ShowVersion
    | Failed(error: ArgsError)

  /** The scanner between two tokens: still writing (buffer, and whether no key was written
      yet), or finished. */
  datatype ScanState =
    | Running(buffer: string, isFirst: bool)
    | Stopped(result: ScanResult)

  /** A key as written: `, "name":`, without the leading `, ` for the first key. */
  function KeyString(name: string, isFirst: bool): string {
    var keyString := ", \"" + name + "\":";
    if isFirst then keyString[2..] else keyString
  }

  /** Only the first key goes without a separator. */
  lemma KeyStringSeparator(name: string, isFirst: bool)
    ensures KeyString(name, isFirst) == (if isFirst then "" else ", ") + "\"" + name + "\":"
  {
    if isFirst {
      assert (", \"" + name + "\":")[2..] == "\"" + name + "\":";
    }
  }

  /** The short characters of a cluster, resolved one by one; the first failing character
      ends the resolution. */
  function ClusterNames(fields: seq<string>, chars: string): (r: Result<seq<string>, ArgsError>)
    ensures r.Success? ==>
              |r.value| == |chars| &&
              forall k :: 0 <= k < |chars| ==> OptionForChar(fields, chars[k]) == Success(r.value[k])
  {
    if |chars| == 0 then Success([])
    else
      var init := chars[..|chars| - 1];
      match ClusterNames(fields, init)
      case Failure(e) => Failure(e)
      case Success(names) =>
        match OptionForChar(fields, chars[|chars| - 1])
        case Failure(e) => Failure(e)
        case Success(name) => Success(names + [name])
  }

  /** A cluster fails exactly when one of its characters fails, and then with the error of
      the first failing character. */
  lemma {:induction false} ClusterNamesFailure(fields: seq<string>, chars: string, k: nat)
    requires k < |chars| && OptionForChar(fields, chars[k]).Failure?
    requires forall j :: 0 <= j < k ==> OptionForChar(fields, chars[j]).Success?
    ensures ClusterNames(fields, chars) == Failure(OptionForChar(fields, chars[k]).error)
  {
    var init := chars[..|chars| - 1];
    if k == |chars| - 1 {
      assert forall j :: 0 <= j < |init| ==> OptionForChar(fields, init[j]).Success?;
      ClusterNamesSuccess(fields, init);
    } else {
      ClusterNamesFailure(fields, init, k);
    }
  }

  lemma ClusterNamesSuccess(fields: seq<string>, chars: string)
    requires forall j :: 0 <= j < |chars| ==> OptionForChar(fields, chars[j]).Success?
    ensures ClusterNames(fields, chars).Success?
  {
    if |chars| > 0 {
      ClusterNamesSuccess(fields, chars[..|chars| - 1]);
    }
  }

  /** Resolves the characters of a cluster in order, stopping at the first failure. */
  method ResolveCluster(fields: seq<string>, chars: string) returns (r: Result<seq<string>, ArgsError>)
    ensures r == ClusterNames(fields, chars)
  {
    var names: seq<string> := [];
    for k := 0 to |chars|
      invariant ClusterNames(fields, chars[..k]) == Success(names)
    {
      assert chars[..k + 1][..k] == chars[..k];
      var name := OptionFromChar(chars[k], fields);
      if name.Failure? {
        ClusterFailureSticks(fields, chars, k + 1);
        return Failure(name.error);
      }
      names := names + [name.value];
    }
    assert chars[..|chars|] == chars;
    r := Success(names);
  }

  lemma {:induction false} ClusterFailureSticks(fields: seq<string>, chars: string, n: nat)
    requires n <= |chars| && ClusterNames(fields, chars[..n]).Failure?
    ensures ClusterNames(fields, chars) == ClusterNames(fields, chars[..n])
    decreases |chars| - n
  {
    if n < |chars| {
      assert chars[..n + 1][..n] == chars[..n];
      ClusterFailureSticks(fields, chars, n + 1);
    } else {
      assert chars[..n] == chars;
    }
  }

  /** The names a flag token refers to: one for `--name` (with `-` read as `_`), one per
      character for a cluster `-xyz`. */
  function FlagNames(fields: seq<string>, token: string): Result<seq<string>, ArgsError>
    requires StartsWith(token, "-")
  {
    if StartsWith(token, "--") then Success([Underscored(token[2..])])
    else ClusterNames(fields, token[1..])
  }

  /** Writes one resolved name: `help` and `version` end the scan, any other name is written
      as a key, followed by ` true` unless a bare value comes next. */
  function EmitName(fields: seq<string>, s: ScanState, name: string, next: Lookahead): ScanState {
    match s
    case Stopped(_) => s
    case Running(buffer, isFirst) =>
      if name == "help" then Stopped(ShowHelp(OptionNames(fields)))
      else if name == "version" then Stopped(ShowVersion)
      else Running(buffer + KeyString(name, isFirst) + (if next == ValueNext then "" else " true"), false)
  }

  function EmitNames(fields: seq<string>, s: ScanState, names: seq<string>, next: Lookahead): ScanState {
    if |names| == 0 then s
    else EmitName(fields, EmitNames(fields, s, names[..|names| - 1], next), names[|names| - 1], next)
  }

  /** A bare token as written into the document: digits as they are, anything else quoted. */
  function Encoded(token: string): string {
    if IsNumeric(token) then token else "\"" + token + "\""
  }

  /** The text a bare token appends, chosen by the buffer's last character and the lookahead:
      it opens an array, completes an open key, continues an array, or closes one. */
  function ValueString(buffer: string, token: string, next: Lookahead): Result<string, ArgsError> {
    var parsed := Encoded(token);
    if |buffer| == 0 then Failure(EmptyBuffer)
    else if buffer[|buffer| - 1] != ',' && next == ValueNext then Success(" [" + parsed + ",")
    else if buffer[|buffer| - 1] == ':' then Success(" " + parsed)
    else if next == ValueNext then Success(" " + parsed + ",")
    else Success(" " + parsed + "]")
  }

  function ValueStep(buffer: string, isFirst: bool, token: string, next: Lookahead): ScanState {
    match ValueString(buffer, token, next)
    case Failure(e) => Stopped(Failed(e))
    case Success(v) => Running(buffer + v, isFirst)
  }

  /** One token: a flag writes the keys of the names it refers to, a bare token a value. */
  function TokenStep(fields: seq<string>, s: ScanState, token: string, next: Lookahead): ScanState {
    if s.Stopped? then s
    else if StartsWith(token, "-") then
      match FlagNames(fields, token)
      case Failure(e) => Stopped(Failed(e))
      case Success(names) => EmitNames(fields, s, names, next)
    else ValueStep(s.buffer, s.isFirst, token, next)
  }

  /** The scanner after the first `n` tokens. */
  function ScanUpTo(fields: seq<string>, tokens: seq<string>, n: nat): ScanState
    requires n <= |tokens|
    decreases n, 2
  {
    if n == 0 then Running("", true) else ScanAt(fields, tokens, n - 1)
  }

  /** The scanner after token `i`. `ScanAt` and `StepAt` are one definition split in two only
      so that the verifier unfolds `ScanUpTo` one token at a time (`ScanStep`). */
  function ScanAt(fields: seq<string>, tokens: seq<string>, i: nat): ScanState
    requires i < |tokens|
    decreases i + 1, 1
  {
    StepAt(fields, tokens, i)
  }

  /** Token `i` applied to the scanner before it; see `ScanAt`. */
  function StepAt(fields: seq<string>, tokens: seq<string>, i: nat): ScanState
    requires i < |tokens|
    decreases i + 1, 0
  {
    TokenStep(fields, ScanUpTo(fields, tokens, i), tokens[i], LookaheadAt(tokens, i))
  }

  /** The scan of a whole argument list (program name first). A finished document is always
      the body between `{ ` and ` }`; with nothing after the program name it is `{  }`. */
  function Serialized(fields: seq<string>, arguments: seq<string>): (r: ScanResult)
    ensures r.Document? ==>
              |r.text| >= 4 && r.text[..2] == "{ " && r.text[|r.text| - 2..] == " }"
    ensures r.ShowHelp? ==> r.options == OptionNames(fields)
    ensures |arguments| <= 1 ==> r == Document("{  }")
  {
    var s := if |arguments| > 1 then ScanUpTo(fields, arguments[1..], |arguments| - 1) else Running("", true);
    match s
    case Stopped(result) =>
      assert StoppedProperly(fields, s) by { ScanStopsProperly(fields, arguments[1..], |arguments| - 1); }
      result
    case Running(buffer, _) => Document("{ " + buffer + " }")
  }

  /** A scan that stopped did so with a screen or a failure, never with a document, and a help
      screen lists the option names. */
  predicate StoppedProperly(fields: seq<string>, s: ScanState) {
    s.Stopped? ==> !s.result.Document? && (s.result.ShowHelp? ==> s.result.options == OptionNames(fields))
  }

  lemma {:induction false} ScanStopsProperly(fields: seq<string>, tokens: seq<string>, n: nat)
    requires n <= |tokens|
    ensures StoppedProperly(fields, ScanUpTo(fields, tokens, n))
  {
    if n > 0 {
      ScanStopsProperly(fields, tokens, n - 1);
      ScanStep(fields, tokens, n - 1);
      var s := ScanUpTo(fields, tokens, n - 1);
      if s.Running? && StartsWith(tokens[n - 1], "-") {
        var names := FlagNames(fields, tokens[n - 1]);
        if names.Success? {
          EmitNamesStopProperly(fields, s, names.value, LookaheadAt(tokens, n - 1));
        }
      }
    }
  }

  lemma {:induction false} EmitNamesStopProperly(fields: seq<string>, s: ScanState, names: seq<string>, next: Lookahead)
    requires StoppedProperly(fields, s)
    ensures StoppedProperly(fields, EmitNames(fields, s, names, next))
  {
    if |names| > 0 {
      EmitNamesStopProperly(fields, s, names[..|names| - 1], next);
    }
  }

  /** A finished scan stays finished: no later token changes its outcome. */
  lemma {:induction false} ScanStaysStopped(fields: seq<string>, tokens: seq<string>, i: nat, n: nat)
    requires i <= n <= |tokens| && ScanUpTo(fields, tokens, i).Stopped?
    ensures ScanUpTo(fields, tokens, n) == ScanUpTo(fields, tokens, i)
    decreases n - i
  {
    if i < n {
      ScanStaysStopped(fields, tokens, i, n - 1);
      ScanStep(fields, tokens, n - 1);
    }
  }

  /** Writes the argument document for `arguments` (program name first). */
  method SerializeArguments(fields: seq<string>, arguments: seq<string>) returns (r: ScanResult)
    ensures r == Serialized(fields, arguments)
  {
    var serializedArguments: string := "";
    if |arguments| > 1 {
      var s := ScanTokens(fields, arguments[1..]);
      if s.Stopped? {
        return s.result;
      }
      serializedArguments := s.buffer;
    }
    r := Document("{ " + serializedArguments + " }");
  }

  /** The token loop: each token in turn, until one stops the scan. */
  method ScanTokens(fields: seq<string>, tokens: seq<string>) returns (s: ScanState)
    ensures s == ScanUpTo(fields, tokens, |tokens|)
  {
    s := Running("", true);
    var index := 0;
    while index < |tokens| && s.Running?
      invariant 0 <= index <= |tokens|
      invariant s == ScanUpTo(fields, tokens, index)
    {
      s := WriteToken(fields, tokens, index, s.buffer, s.isFirst);
      index := index + 1;
    }
    if s.Stopped? {
      ScanStaysStopped(fields, tokens, index, |tokens|);
    }
  }

  lemma SerializedOfRunning(fields: seq<string>, arguments: seq<string>, buffer: string, isFirst: bool)
    requires |arguments| > 1 ==> ScanUpTo(fields, arguments[1..], |arguments| - 1) == Running(buffer, isFirst)
    requires |arguments| <= 1 ==> buffer == ""
    ensures Serialized(fields, arguments) == Document("{ " + buffer + " }")
  {
  }

  lemma SerializedOfStopped(fields: seq<string>, arguments: seq<string>, result: ScanResult)
    requires |arguments| > 1 && ScanUpTo(fields, arguments[1..], |arguments| - 1) == Stopped(result)
    ensures Serialized(fields, arguments) == result
  {
  }

  /** Writes one token, a flag or a bare value. */
  method WriteToken(fields: seq<string>, tokens: seq<string>, index: nat, buffer: string, isFirst: bool)
    returns (s: ScanState)
    requires index < |tokens| && ScanUpTo(fields, tokens, index) == Running(buffer, isFirst)
    ensures s == ScanUpTo(fields, tokens, index + 1)
  {
    ScanStep(fields, tokens, index);
    if StartsWith(tokens[index], "-") {
      s := WriteFlag(fields, tokens, index, buffer, isFirst);
    } else {
      s := WriteValue(tokens, index, buffer, isFirst);
    }
  }

  /** Writes the keys of the flag token `tokens[index]`, or stops at `help`, `version` or a
      short character that does not resolve. */
  method WriteFlag(fields: seq<string>, tokens: seq<string>, index: nat, buffer: string, isFirst: bool)
    returns (s: ScanState)
    requires index < |tokens| && StartsWith(tokens[index], "-")
    ensures s == TokenStep(fields, Running(buffer, isFirst), tokens[index], LookaheadAt(tokens, index))
  {
    var argument := tokens[index];
    var argumentNames: seq<string>;
    if StartsWith(argument, "--") {
      argumentNames := [Underscored(argument[2..])];
    } else {
      var resolved := ResolveCluster(fields, argument[1..]);
      if resolved.Failure? {
        return Stopped(Failed(resolved.error));
      }
      argumentNames := resolved.value;
    }
    s := WriteKeys(fields, argumentNames, tokens, index, buffer, isFirst);
  }

  /** Writes one key per resolved name, each followed by ` true` when the next token is a
      flag or there is none, and stops at the first `help` or `version`. */
  method WriteKeys(fields: seq<string>, argumentNames: seq<string>, tokens: seq<string>, index: nat,
                   buffer: string, isFirst: bool)
    returns (s: ScanState)
    requires index < |tokens|
    ensures s == EmitNames(fields, Running(buffer, isFirst), argumentNames, LookaheadAt(tokens, index))
  {
    ghost var before := Running(buffer, isFirst);
    ghost var next := LookaheadAt(tokens, index);
    var serializedArguments, isFirstArgument := buffer, isFirst;
    for k := 0 to |argumentNames|
      invariant EmitNames(fields, before, argumentNames[..k], next) == Running(serializedArguments, isFirstArgument)
    {
      var argumentName := argumentNames[k];
      assert argumentNames[..k + 1][..k] == argumentNames[..k];
      if argumentName == "help" {
        var options := OptionsFromStruct(fields);
        EmitNamesStoppedAfter(fields, before, argumentNames, k + 1, next);
        return Stopped(ShowHelp(options));
      } else if argumentName == "version" {
        EmitNamesStoppedAfter(fields, before, argumentNames, k + 1, next);
        return Stopped(ShowVersion);
      } else {
        var keyString := ", \"" + argumentName + "\":";
        if isFirstArgument {
          isFirstArgument := false;
          keyString := keyString[2..];
        }
        serializedArguments := serializedArguments + keyString;
        if index + 1 < |tokens| && StartsWith(tokens[index + 1], "-") {
          serializedArguments := serializedArguments + " true";
        } else if index + 1 == |tokens| {
          serializedArguments := serializedArguments + " true";
        }
      }
    }
    assert argumentNames[..|argumentNames|] == argumentNames;
    s := Running(serializedArguments, isFirstArgument);
  }

  /** Writes the bare token `tokens[index]` as a scalar or as part of an array, or stops
      when nothing was written before it. */
  method WriteValue(tokens: seq<string>, index: nat, buffer: string, isFirst: bool) returns (s: ScanState)
    requires index < |tokens| && !StartsWith(tokens[index], "-")
    ensures s == ValueStep(buffer, isFirst, tokens[index], LookaheadAt(tokens, index))
  {
    var argument := tokens[index];
    var valueString := "";
    var parsedArgument := if IsNumeric(argument) then argument else "\"" + argument + "\"";
    if |buffer| == 0 {
      return Stopped(Failed(EmptyBuffer));
    }
    var last := buffer[|buffer| - 1];
    if last != ',' && index + 1 < |tokens| && !StartsWith(tokens[index + 1], "-") {
      valueString := " [" + parsedArgument + ",";
    } else {
      if last == ':' {
        valueString := " " + parsedArgument;
      } else {
        if index + 1 < |tokens| && !StartsWith(tokens[index + 1], "-") {
          valueString := " " + parsedArgument + ",";
        } else {
          valueString := " " + parsedArgument + "]";
        }
      }
    }
    s := Running(buffer + valueString, isFirst);
  }

  lemma EmitNamesStoppedAfter(fields: seq<string>, s: ScanState, names: seq<string>, k: nat, next: Lookahead)
    requires k <= |names| && EmitNames(fields, s, names[..k], next).Stopped?
    ensures EmitNames(fields, s, names, next) == EmitNames(fields, s, names[..k], next)
    decreases |names| - k
  {
    if k < |names| {
      assert names[..k + 1][..k] == names[..k];
      EmitNamesStoppedAfter(fields, s, names, k + 1, next);
    } else {
      assert names[..k] == names;
    }
  }

  /** A bare token before any flag fails: the buffer it would inspect is still empty. */
  lemma LeadingValueFails(fields: seq<string>, arguments: seq<string>)
    requires |arguments| > 1 && !StartsWith(arguments[1], "-")
    ensures Serialized(fields, arguments) == Failed(EmptyBuffer)
  {
    var tokens := arguments[1..];
    assert ScanUpTo(fields, tokens, 1) == Stopped(Failed(EmptyBuffer));
    ScanStaysStopped(fields, tokens, 1, |tokens|);
    SerializedOfStopped(fields, arguments, Failed(EmptyBuffer));
  }

  /** `--help`, `-h`, `--version` or `-V` reached by the scan ends it with the help screen
      (listing the option names) or the version screen, whatever follows. */
  lemma ReservedFlagStopsScan(fields: seq<string>, arguments: seq<string>, i: nat)
    requires 1 <= i < |arguments|
    requires arguments[i] == "--help" || arguments[i] == "-h" || arguments[i] == "--version" || arguments[i] == "-V"
    requires ScanUpTo(fields, arguments[1..], i - 1).Running?
    ensures Serialized(fields, arguments) ==
              if arguments[i] == "--help" || arguments[i] == "-h" then ShowHelp(OptionNames(fields)) else ShowVersion
  {
    var tokens := arguments[1..];
    assert tokens[i - 1] == arguments[i];
    ScanStep(fields, tokens, i - 1);
    ReservedTokenStops(fields, ScanUpTo(fields, tokens, i - 1), tokens[i - 1], LookaheadAt(tokens, i - 1));
    SerializedStopsAt(fields, arguments, i);
  }

  /** The scan's outcome is that of the first token that stopped it. */
  lemma SerializedStopsAt(fields: seq<string>, arguments: seq<string>, i: nat)
    requires 1 <= i < |arguments| && ScanUpTo(fields, arguments[1..], i).Stopped?
    ensures Serialized(fields, arguments) == ScanUpTo(fields, arguments[1..], i).result
  {
    ScanStaysStopped(fields, arguments[1..], i, |arguments| - 1);
  }

  /** A reserved flag on a running scan stops it with the matching screen. */
  lemma ReservedTokenStops(fields: seq<string>, s: ScanState, token: string, next: Lookahead)
    requires s.Running?
    requires token == "--help" || token == "-h" || token == "--version" || token == "-V"
    ensures TokenStep(fields, s, token, next) ==
              Stopped(if token == "--help" || token == "-h" then ShowHelp(OptionNames(fields)) else ShowVersion)
  {
    var name := if token == "--help" || token == "-h" then "help" else "version";
    ReservedTokenNames(fields, token, name);
    FlagStep(fields, s, token, [name], next);
    EmitOneName(fields, s, name, next);
  }

  lemma ReservedTokenNames(fields: seq<string>, token: string, name: string)
    requires token == "--help" || token == "-h" || token == "--version" || token == "-V"
    requires name == if token == "--help" || token == "-h" then "help" else "version"
    ensures StartsWith(token, "-") && FlagNames(fields, token) == Success([name])
  {
    if token == "--help" || token == "--version" {
      assert token == "--" + name;
      ReservedLongNames(fields, name);
    } else {
      ReservedShortNames(fields, token[1]);
      assert token == ['-', token[1]];
    }
  }

  lemma ReservedLongNames(fields: seq<string>, name: string)
    requires name == "help" || name == "version"
    ensures StartsWith("--" + name, "-") && FlagNames(fields, "--" + name) == Success([name])
  {
    var token := "--" + name;
    assert token[..1] == "-" && token[..2] == "--";
    assert token[2..] == name;
    assert Underscored(name) == name;
  }

  lemma ReservedShortNames(fields: seq<string>, c: char)
    requires c == 'h' || c == 'V'
    ensures StartsWith(['-', c], "-")
    ensures FlagNames(fields, ['-', c]) == Success([if c == 'h' then "help" else "version"])
  {
    var token := ['-', c];
    assert token[..1] == "-";
    assert !StartsWith(token, "--") by { assert token[..2][1] != "--"[1]; }
    assert token[1..] == [c];
    ClusterOfOne(fields, c);
  }

  lemma ClusterOfOne(fields: seq<string>, c: char)
    ensures ClusterNames(fields, [c]) ==
              match OptionForChar(fields, c)
              case Success(name) => Success([name])
              case Failure(e) => Failure(e)
  {
    assert [c][..0] == [];
    assert ClusterNames(fields, [c][..0]) == Success([]);
    match OptionForChar(fields, c)
    case Success(name) =>
      assert [] + [name] == [name];
    case Failure(_) =>
  }

  lemma ScanStep(fields: seq<string>, tokens: seq<string>, i: nat)
    requires i < |tokens|
    ensures ScanUpTo(fields, tokens, i + 1) == TokenStep(fields, ScanUpTo(fields, tokens, i), tokens[i], LookaheadAt(tokens, i))
  {
    assert ScanAt(fields, tokens, i) == StepAt(fields, tokens, i);
  }

  lemma FlagStep(fields: seq<string>, s: ScanState, token: string, names: seq<string>, next: Lookahead)
    requires s.Running? && StartsWith(token, "-") && FlagNames(fields, token) == Success(names)
    ensures TokenStep(fields, s, token, next) == EmitNames(fields, s, names, next)
  {
  }

  lemma EmitOneName(fields: seq<string>, s: ScanState, name: string, next: Lookahead)
    ensures EmitNames(fields, s, [name], next) == EmitName(fields, s, name, next)
  {
    assert [name][..0] == [];
  }

  lemma ValueStepAt(fields: seq<string>, tokens: seq<string>, i: nat, buffer: string, isFirst: bool)
    requires i < |tokens| && !StartsWith(tokens[i], "-")
    requires ScanUpTo(fields, tokens, i) == Running(buffer, isFirst)
    ensures ScanUpTo(fields, tokens, i + 1) == ValueStep(buffer, isFirst, tokens[i], LookaheadAt(tokens, i))
  {
    ScanStep(fields, tokens, i);
  }

  /** A long flag `--name` writes the key `name` with `-` read as `_`, whether or not a field
      of that name exists, and closes it with ` true` exactly when no bare value follows
      (`KeyStringSeparator` says where the separator goes). */
  lemma LongFlagWritesKey(fields: seq<string>, s: ScanState, name: string, next: Lookahead)
    requires s.Running?
    requires Underscored(name) != "help" && Underscored(name) != "version"
    ensures TokenStep(fields, s, "--" + name, next) ==
              Running(s.buffer + KeyString(Underscored(name), s.isFirst) + (if next == ValueNext then "" else " true"), false)
  {
    var token := "--" + name;
    assert StartsWith(token, "-") && StartsWith(token, "--");
    assert token[2..] == name;
    var u := Underscored(name);
    assert FlagNames(fields, token) == Success([u]);
    FlagStep(fields, s, token, [u], next);
    EmitOneName(fields, s, u, next);
  }

  /** The long form of a field's option name writes exactly that field's key. */
  lemma OptionNameWritesField(fields: seq<string>, k: nat, s: ScanState, next: Lookahead)
    requires k < |fields| && '-' !in fields[k]
    requires fields[k] != "help" && fields[k] != "version"
    requires s.Running?
    ensures TokenStep(fields, s, "--" + OptionNames(fields)[k + 2], next) ==
              Running(s.buffer + KeyString(fields[k], s.isFirst) + (if next == ValueNext then "" else " true"), false)
  {
    var name := OptionNames(fields)[k + 2];
    UnderscoredHyphenated(fields[k]);
    LongFlagWritesKey(fields, s, name, next);
  }

  /** A bare token right after an open key, followed by a flag or by nothing, is written as
      that key's scalar. */
  lemma ScalarValue(fields: seq<string>, tokens: seq<string>, i: nat, buffer: string, isFirst: bool)
    requires i < |tokens| && !StartsWith(tokens[i], "-")
    requires ScanUpTo(fields, tokens, i) == Running(buffer, isFirst)
    requires |buffer| > 0 && buffer[|buffer| - 1] == ':'
    requires i + 1 == |tokens| || StartsWith(tokens[i + 1], "-")
    ensures ScanUpTo(fields, tokens, i + 1) == Running(buffer + " " + Encoded(tokens[i]), isFirst)
  {
    ValueStepAt(fields, tokens, i, buffer, isFirst);
  }

  /** The bare tokens `tokens[i..j]` as written into the document. */
  function EncodedTokens(tokens: seq<string>, i: nat, j: nat): (r: seq<string>)
    requires i <= j <= |tokens|
    ensures |r| == j - i
    decreases j
  {
    if j == i then [] else EncodedTokens(tokens, i, j - 1) + [Encoded(tokens[j - 1])]
  }

  /** Element `k` of the encoded run is the `k`-th token of the run, encoded. Kept apart
      from `EncodedTokens` so that proofs about whole runs do not see the quantifier. */
  lemma {:induction false} EncodedTokensElements(tokens: seq<string>, i: nat, j: nat)
    requires i <= j <= |tokens|
    ensures forall k :: 0 <= k < j - i ==> EncodedTokens(tokens, i, j)[k] == Encoded(tokens[i + k])
    decreases j
  {
    if j > i {
      EncodedTokensElements(tokens, i, j - 1);
    }
  }

  /** The text an array of `values` leaves after `buffer` while still open: ` [v1,` then
      ` v2,` and so on. */
  function OpenArray(buffer: string, values: seq<string>): string
    requires |values| > 0
  {
    if |values| == 1 then buffer + (" [" + values[0] + ",")
    else OpenArray(buffer, values[..|values| - 1]) + (" " + values[|values| - 1] + ",")
  }

  /** `values` separated by `, `. */
  function Joined(values: seq<string>): string
    requires |values| > 0
  {
    if |values| == 1 then values[0]
    else Joined(values[..|values| - 1]) + ", " + values[|values| - 1]
  }

  /** One more element written after an open array's text, as plain strings. */
  lemma AppendToArrayText(buffer: string, list: string, element: string, close: string)
    ensures (buffer + " [" + list + ",") + (" " + element + close) == buffer + " [" + (list + ", " + element) + close
  {
  }

  lemma {:induction false} OpenArrayText(buffer: string, values: seq<string>)
    requires |values| > 0
    ensures OpenArray(buffer, values) == buffer + " [" + Joined(values) + ","
  {
    if |values| > 1 {
      var init := values[..|values| - 1];
      OpenArrayText(buffer, init);
      AppendToArrayText(buffer, Joined(init), values[|values| - 1], ",");
    }
  }

  /** Closing an open array with one more element reads ` [v1, v2, …, vn]` after `buffer`. */
  lemma ClosedArrayText(buffer: string, values: seq<string>, last: string)
    requires |values| > 0
    ensures OpenArray(buffer, values) + (" " + last + "]") == buffer + " [" + Joined(values + [last]) + "]"
  {
    OpenArrayText(buffer, values);
    assert (values + [last])[..|values|] == values;
    AppendToArrayText(buffer, Joined(values), last, "]");
  }

  lemma OpenArrayStep(buffer: string, values: seq<string>, value: string)
    requires |values| > 0
    ensures OpenArray(buffer, values + [value]) == OpenArray(buffer, values) + (" " + value + ",")
  {
    assert (values + [value])[..|values|] == values;
  }

  lemma OpenArrayEndsOpen(buffer: string, values: seq<string>)
    requires |values| > 0
    ensures var open := OpenArray(buffer, values); |open| > 0 && open[|open| - 1] == ','
  {
  }

  /** A bare token after a `,` continues the array, or closes it when no bare token follows. */
  lemma ValueContinuesArray(buffer: string, isFirst: bool, token: string, next: Lookahead)
    requires |buffer| > 0 && buffer[|buffer| - 1] == ','
    ensures ValueStep(buffer, isFirst, token, next) ==
              Running(buffer + (" " + Encoded(token) + (if next == ValueNext then "," else "]")), isFirst)
  {
  }

  /** A bare token right after an open key, with another bare token after it, opens an array. */
  lemma ValueOpensArray(buffer: string, isFirst: bool, token: string)
    requires |buffer| > 0 && buffer[|buffer| - 1] == ':'
    ensures ValueStep(buffer, isFirst, token, ValueNext) == Running(buffer + (" [" + Encoded(token) + ","), isFirst)
  {
  }

  lemma LookaheadBeforeFlag(tokens: seq<string>, i: nat)
    requires i + 1 == |tokens| || (i + 1 < |tokens| && StartsWith(tokens[i + 1], "-"))
    ensures LookaheadAt(tokens, i) != ValueNext
  {
  }

  lemma EncodedTokensStep(tokens: seq<string>, i: nat, j: nat)
    requires i < j <= |tokens|
    ensures EncodedTokens(tokens, i, j) == EncodedTokens(tokens, i, j - 1) + [Encoded(tokens[j - 1])]
  {
  }

  /** A bare token on a running scan writes a value. */
  lemma ValueToken(fields: seq<string>, buffer: string, isFirst: bool, token: string, next: Lookahead)
    requires !StartsWith(token, "-")
    ensures TokenStep(fields, Running(buffer, isFirst), token, next) == ValueStep(buffer, isFirst, token, next)
  {
  }

  /** The tokens `tokens[i..j]` are all bare values. */
  predicate AllBare(tokens: seq<string>, i: nat, j: nat)
    requires i <= j <= |tokens|
    decreases j
  {
    j == i || (AllBare(tokens, i, j - 1) && !StartsWith(tokens[j - 1], "-"))
  }

  /** The scanner after the tokens `tokens[i..j]`, each written as a bare value, starting
      from `Running(buffer, isFirst)`. */
  function ValueRun(buffer: string, isFirst: bool, tokens: seq<string>, i: nat, j: nat): ScanState
    requires i <= j <= |tokens|
    decreases j
  {
    if j == i then Running(buffer, isFirst)
    else
      var s := ValueRun(buffer, isFirst, tokens, i, j - 1);
      if s.Stopped? then s else ValueStep(s.buffer, s.isFirst, tokens[j - 1], LookaheadAt(tokens, j - 1))
  }

  /** A run of bare tokens is scanned as values only. */
  lemma {:induction false} BareRun(fields: seq<string>, tokens: seq<string>, i: nat, j: nat, buffer: string, isFirst: bool)
    requires i <= j <= |tokens| && AllBare(tokens, i, j)
    requires ScanUpTo(fields, tokens, i) == Running(buffer, isFirst)
    ensures ScanUpTo(fields, tokens, j) == ValueRun(buffer, isFirst, tokens, i, j)
    decreases j
  {
    if j > i {
      BareRun(fields, tokens, i, j - 1, buffer, isFirst);
      ScanStep(fields, tokens, j - 1);
      var s := ValueRun(buffer, isFirst, tokens, i, j - 1);
      if s.Running? {
        ValueToken(fields, s.buffer, s.isFirst, tokens[j - 1], LookaheadAt(tokens, j - 1));
      }
    }
  }

  /** A bare token after a `,` continues the array, or closes it when no bare token follows. */
  lemma RunStepAfterComma(buffer: string, isFirst: bool, tokens: seq<string>, i: nat, j: nat, open: string)
    requires i < j <= |tokens| && ValueRun(buffer, isFirst, tokens, i, j - 1) == Running(open, isFirst)
    requires |open| > 0 && open[|open| - 1] == ','
    ensures ValueRun(buffer, isFirst, tokens, i, j) ==
              Running(open + (" " + Encoded(tokens[j - 1]) + (if LookaheadAt(tokens, j - 1) == ValueNext then "," else "]")), isFirst)
  {
    ValueContinuesArray(open, isFirst, tokens[j - 1], LookaheadAt(tokens, j - 1));
  }

  /** Bare tokens after an open key, each followed by another bare token, leave an open array. */
  lemma {:induction false} RunOpensArray(buffer: string, isFirst: bool, tokens: seq<string>, i: nat, j: nat)
    requires i < j < |tokens| && AllBare(tokens, i, j + 1)
    requires |buffer| > 0 && buffer[|buffer| - 1] == ':'
    ensures ValueRun(buffer, isFirst, tokens, i, j) == Running(OpenArray(buffer, EncodedTokens(tokens, i, j)), isFirst)
    decreases j
  {
    if j == i + 1 {
      RunOpensWithFirst(buffer, isFirst, tokens, i);
    } else {
      RunOpensArray(buffer, isFirst, tokens, i, j - 1);
      var values := EncodedTokens(tokens, i, j - 1);
      OpenArrayEndsOpen(buffer, values);
      RunStepAfterComma(buffer, isFirst, tokens, i, j, OpenArray(buffer, values));
      OpenArrayTextStep(buffer, tokens, i, j);
    }
  }

  lemma RunOpensWithFirst(buffer: string, isFirst: bool, tokens: seq<string>, i: nat)
    requires i + 1 < |tokens| && !StartsWith(tokens[i + 1], "-")
    requires |buffer| > 0 && buffer[|buffer| - 1] == ':'
    ensures ValueRun(buffer, isFirst, tokens, i, i + 1) == Running(OpenArray(buffer, EncodedTokens(tokens, i, i + 1)), isFirst)
  {
    assert LookaheadAt(tokens, i) == ValueNext;
    ValueOpensArray(buffer, isFirst, tokens[i]);
    EncodedTokensStep(tokens, i, i + 1);
  }

  lemma OpenArrayTextStep(buffer: string, tokens: seq<string>, i: nat, j: nat)
    requires i + 1 < j <= |tokens|
    ensures OpenArray(buffer, EncodedTokens(tokens, i, j - 1)) + (" " + Encoded(tokens[j - 1]) + ",") ==
              OpenArray(buffer, EncodedTokens(tokens, i, j))
  {
    EncodedTokensStep(tokens, i, j);
    OpenArrayStep(buffer, EncodedTokens(tokens, i, j - 1), Encoded(tokens[j - 1]));
  }

  lemma ClosedArrayTextStep(buffer: string, tokens: seq<string>, i: nat, j: nat)
    requires i + 1 < j <= |tokens|
    ensures OpenArray(buffer, EncodedTokens(tokens, i, j - 1)) + (" " + Encoded(tokens[j - 1]) + "]") ==
              buffer + " [" + Joined(EncodedTokens(tokens, i, j)) + "]"
  {
    EncodedTokensStep(tokens, i, j);
    ClosedArrayText(buffer, EncodedTokens(tokens, i, j - 1), Encoded(tokens[j - 1]));
  }

  /** The last bare token before a flag or the end of the arguments closes the array. */
  lemma RunClosesArray(buffer: string, isFirst: bool, tokens: seq<string>, i: nat, j: nat)
    requires i + 2 <= j <= |tokens| && AllBare(tokens, i, j)
    requires j == |tokens| || StartsWith(tokens[j], "-")
    requires |buffer| > 0 && buffer[|buffer| - 1] == ':'
    ensures ValueRun(buffer, isFirst, tokens, i, j) == Running(buffer + " [" + Joined(EncodedTokens(tokens, i, j)) + "]", isFirst)
  {
    RunOpensArray(buffer, isFirst, tokens, i, j - 1);
    LookaheadBeforeFlag(tokens, j - 1);
    RunClosesOpenArray(buffer, isFirst, tokens, i, j);
  }

  lemma RunClosesOpenArray(buffer: string, isFirst: bool, tokens: seq<string>, i: nat, j: nat)
    requires i + 2 <= j <= |tokens| && LookaheadAt(tokens, j - 1) != ValueNext
    requires ValueRun(buffer, isFirst, tokens, i, j - 1) == Running(OpenArray(buffer, EncodedTokens(tokens, i, j - 1)), isFirst)
    ensures ValueRun(buffer, isFirst, tokens, i, j) == Running(buffer + " [" + Joined(EncodedTokens(tokens, i, j)) + "]", isFirst)
  {
    var values := EncodedTokens(tokens, i, j - 1);
    OpenArrayEndsOpen(buffer, values);
    RunStepAfterComma(buffer, isFirst, tokens, i, j, OpenArray(buffer, values));
    ClosedArrayTextStep(buffer, tokens, i, j);
  }

  /** Two or more bare tokens `tokens[i..j]` after an open key become one array
      ` [v1, …, vn]`, closed at the next flag or at the end of the arguments. */
  lemma ArrayValue(fields: seq<string>, tokens: seq<string>, i: nat, j: nat, buffer: string, isFirst: bool)
    requires i + 2 <= j <= |tokens| && AllBare(tokens, i, j)
    requires j == |tokens| || StartsWith(tokens[j], "-")
    requires ScanUpTo(fields, tokens, i) == Running(buffer, isFirst)
    requires |buffer| > 0 && buffer[|buffer| - 1] == ':'
    ensures ScanUpTo(fields, tokens, j) == Running(buffer + " [" + Joined(EncodedTokens(tokens, i, j)) + "]", isFirst)
  {
    BareRun(fields, tokens, i, j, buffer, isFirst);
    RunClosesArray(buffer, isFirst, tokens, i, j);
  }

  /** A single long flag and nothing else gives the document `{ "name": true }`. */
  lemma SingleFlagDocument(fields: seq<string>, program: string, name: string)
    requires Underscored(name) != "help" && Underscored(name) != "version"
    ensures Serialized(fields, [program, "--" + name]) ==
              Document("{ \"" + Underscored(name) + "\": true }")
  {
    var arguments := [program, "--" + name];
    var u := Underscored(name);
    SingleFlagScan(fields, arguments[1..], name);
    SerializedOfRunning(fields, arguments, KeyString(u, true) + " true", false);
    FirstKeyTrueDocument(u);
  }

  lemma FirstKeyTrueDocument(name: string)
    ensures "{ " + (KeyString(name, true) + " true") + " }" == "{ \"" + name + "\": true }"
  {
    KeyStringSeparator(name, true);
  }

  lemma SingleFlagScan(fields: seq<string>, tokens: seq<string>, name: string)
    requires |tokens| == 1 && tokens[0] == "--" + name
    requires Underscored(name) != "help" && Underscored(name) != "version"
    ensures ScanUpTo(fields, tokens, 1) == Running(KeyString(Underscored(name), true) + " true", false)
  {
    LongFlagWritesKey(fields, Running("", true), name, AtEnd);
    ScanStep(fields, tokens, 0);
    assert "" + KeyString(Underscored(name), true) == KeyString(Underscored(name), true);
  }

  /** A long flag followed by one bare value gives the document `{ "name": value }`, the
      value quoted unless it is all digits. */
  lemma FlagWithValueDocument(fields: seq<string>, program: string, name: string, value: string)
    requires Underscored(name) != "help" && Underscored(name) != "version"
    requires !StartsWith(value, "-")
    ensures Serialized(fields, [program, "--" + name, value]) ==
              Document("{ \"" + Underscored(name) + "\": " + Encoded(value) + " }")
  {
    var arguments := [program, "--" + name, value];
    var u := Underscored(name);
    FlagWithValueScan(fields, arguments[1..], name);
    SerializedOfRunning(fields, arguments, KeyString(u, true) + " " + Encoded(value), false);
    FirstKeyDocument(u, Encoded(value));
  }

  lemma FirstKeyDocument(name: string, value: string)
    ensures "{ " + (KeyString(name, true) + " " + value) + " }" == "{ \"" + name + "\": " + value + " }"
  {
    KeyStringSeparator(name, true);
  }

  lemma FlagWithValueScan(fields: seq<string>, tokens: seq<string>, name: string)
    requires |tokens| == 2 && tokens[0] == "--" + name && !StartsWith(tokens[1], "-")
    requires Underscored(name) != "help" && Underscored(name) != "version"
    ensures ScanUpTo(fields, tokens, 2) == Running(KeyString(Underscored(name), true) + " " + Encoded(tokens[1]), false)
  {
    var key := KeyString(Underscored(name), true);
    LongFlagWritesKey(fields, Running("", true), name, ValueNext);
    ScanStep(fields, tokens, 0);
    assert "" + key + "" == key;
    KeyStringSeparator(Underscored(name), true);
    ScalarValue(fields, tokens, 1, key, false);
  }

  // The `is_first_argument` flag: set until the first key is written

  /** `isFirst` holds exactly while nothing has been written. */
  predicate FirstKeyFlagHolds(s: ScanState) {
    s.Running? ==> (s.isFirst <==> s.buffer == "")
  }

  /** At every point of the scan `isFirst` holds exactly while the buffer is empty, so every
      key but the first is written after `, ` (`KeyStringSeparator`). */
  lemma {:induction false} FirstKeyFlag(fields: seq<string>, tokens: seq<string>, n: nat)
    requires n <= |tokens|
    ensures FirstKeyFlagHolds(ScanUpTo(fields, tokens, n))
  {
    if n > 0 {
      FirstKeyFlag(fields, tokens, n - 1);
      ScanStep(fields, tokens, n - 1);
      TokenStepFirstKeyFlag(fields, ScanUpTo(fields, tokens, n - 1), tokens[n - 1], LookaheadAt(tokens, n - 1));
    }
  }

  lemma TokenStepFirstKeyFlag(fields: seq<string>, s: ScanState, token: string, next: Lookahead)
    requires FirstKeyFlagHolds(s)
    ensures FirstKeyFlagHolds(TokenStep(fields, s, token, next))
  {
    if s.Running? && StartsWith(token, "-") {
      var names := FlagNames(fields, token);
      if names.Success? {
        EmitNamesFirstKeyFlag(fields, s, names.value, next);
      }
    }
  }

  lemma {:induction false} EmitNamesFirstKeyFlag(fields: seq<string>, s: ScanState, names: seq<string>, next: Lookahead)
    requires FirstKeyFlagHolds(s)
    ensures FirstKeyFlagHolds(EmitNames(fields, s, names, next))
  {
    if |names| > 0 {
      EmitNamesFirstKeyFlag(fields, s, names[..|names| - 1], next);
      var name := names[|names| - 1];
      assert |KeyString(name, true)| > 0 && |KeyString(name, false)| > 0;
    }
  }

  /** A long flag after the first key is written with the `, ` separator. */
  lemma LaterKeySeparated(fields: seq<string>, tokens: seq<string>, i: nat, name: string)
    requires i < |tokens| && tokens[i] == "--" + name && ScanUpTo(fields, tokens, i).Running?
    requires ScanUpTo(fields, tokens, i).buffer != ""
    requires Underscored(name) != "help" && Underscored(name) != "version"
    ensures ScanUpTo(fields, tokens, i + 1) ==
              Running(ScanUpTo(fields, tokens, i).buffer + (", \"" + Underscored(name) + "\":") +
                      (if LookaheadAt(tokens, i) == ValueNext then "" else " true"), false)
  {
    FirstKeyFlag(fields, tokens, i);
    ScanStep(fields, tokens, i);
    LongFlagWritesKey(fields, ScanUpTo(fields, tokens, i), name, LookaheadAt(tokens, i));
  }

  // The names of one flag token

  /** `help` or `version` is one of the two reserved names. */
  predicate Reserved(name: string) {
    name == "help" || name == "version"
  }

  /** `buffer` with the keys for `names` appended, the first one with no separator when
      `isFirst` holds, each closed with ` true` unless a bare value comes next. */
  function WithKeys(buffer: string, names: seq<string>, isFirst: bool, next: Lookahead): string {
    if |names| == 0 then buffer
    else
      WithKeys(buffer, names[..|names| - 1], isFirst, next) +
      KeyString(names[|names| - 1], isFirst && |names| == 1) +
      (if next == ValueNext then "" else " true")
  }

  /** Names without `help` or `version` are all written as keys, in order, with the same
      ` true` decision. */
  lemma {:induction false} EmitNamesWritesKeys(fields: seq<string>, buffer: string, isFirst: bool,
                                              names: seq<string>, next: Lookahead)
    requires forall j :: 0 <= j < |names| ==> !Reserved(names[j])
    ensures EmitNames(fields, Running(buffer, isFirst), names, next) ==
              Running(WithKeys(buffer, names, isFirst, next), isFirst && |names| == 0)
  {
    if |names| > 0 {
      EmitNamesWritesKeys(fields, buffer, isFirst, names[..|names| - 1], next);
      assert !Reserved(names[|names| - 1]);
    }
  }

  /** The first reserved name among `names` stops the scan with its screen; the names after it
      are never written. */
  lemma {:induction false} EmitNamesStopsAtReserved(fields: seq<string>, s: ScanState, names: seq<string>,
                                                   k: nat, next: Lookahead)
    requires s.Running? && k < |names| && Reserved(names[k])
    requires forall j :: 0 <= j < k ==> !Reserved(names[j])
    ensures EmitNames(fields, s, names, next) ==
              Stopped(if names[k] == "help" then ShowHelp(OptionNames(fields)) else ShowVersion)
  {
    var init := names[..|names| - 1];
    if k == |names| - 1 {
      EmitNamesWritesKeys(fields, s.buffer, s.isFirst, init, next);
    } else {
      EmitNamesStopsAtReserved(fields, s, init, k, next);
    }
  }

  /** The cluster `-chars` is resolved as a whole and then written name by name. */
  lemma ClusterTokenStep(fields: seq<string>, s: ScanState, chars: string, names: seq<string>, next: Lookahead)
    requires s.Running? && (|chars| > 0 ==> chars[0] != '-')
    requires ClusterNames(fields, chars) == Success(names)
    ensures TokenStep(fields, s, "-" + chars, next) == EmitNames(fields, s, names, next)
  {
    var token := "-" + chars;
    assert token[..1] == "-" && token[1..] == chars;
    if |chars| > 0 {
      assert !StartsWith(token, "--") by { assert token[..2][1] != "--"[1]; }
    }
  }

  /** A resolved cluster with no reserved name writes one key per character, in order, all
      closed the same way. */
  lemma ClusterWritesKeys(fields: seq<string>, buffer: string, isFirst: bool, chars: string,
                          names: seq<string>, next: Lookahead)
    requires |chars| > 0 ==> chars[0] != '-'
    requires ClusterNames(fields, chars) == Success(names)
    requires forall j :: 0 <= j < |names| ==> !Reserved(names[j])
    ensures TokenStep(fields, Running(buffer, isFirst), "-" + chars, next) ==
              Running(WithKeys(buffer, names, isFirst, next), isFirst && |names| == 0)
  {
    ClusterTokenStep(fields, Running(buffer, isFirst), chars, names, next);
    EmitNamesWritesKeys(fields, buffer, isFirst, names, next);
  }

  /** `help` or `version` resolved anywhere in a cluster, `-ah` say, stops the scan with its
      screen once the names before it were written. */
  lemma ClusterStopsAtReserved(fields: seq<string>, s: ScanState, chars: string, names: seq<string>,
                               k: nat, next: Lookahead)
    requires s.Running? && (|chars| > 0 ==> chars[0] != '-')
    requires ClusterNames(fields, chars) == Success(names)
    requires k < |names| && Reserved(names[k])
    requires forall j :: 0 <= j < k ==> !Reserved(names[j])
    ensures TokenStep(fields, s, "-" + chars, next) ==
              Stopped(if names[k] == "help" then ShowHelp(OptionNames(fields)) else ShowVersion)
  {
    ClusterTokenStep(fields, s, chars, names, next);
    EmitNamesStopsAtReserved(fields, s, names, k, next);
  }
}
