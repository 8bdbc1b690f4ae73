/** The hand-written command-line reader (src/arguments.rs): a fixed table of four options and
    one pass over the arguments that updates the configuration in place. A flag `--possibilities-for`
    or `p` arms the reader so that the next bare token is read as an unsigned number. */
module Arguments {
  import opened Wrappers
  import opened Strings

  /** One entry of the option table. */
  datatype CliOption = CliOption(long: string, short: char, description: string)

  const HelpOption := CliOption("help", 'h', "Show this help message")
  const VersionOption := CliOption("version", 'V', "Show program version")
  const QuietOption := CliOption("quiet", 'q', "Enable quiet mode")
  const PossibilitiesOption :=
    CliOption("possibilities-for", 'p', "Show possible enrollments for student with this index")

  /** The table, in the order the help screen lists it. */
  const Options: seq<CliOption> := [HelpOption, VersionOption, QuietOption, PossibilitiesOption]

  /** No two entries share a long name or a short character. */
  lemma OptionsDistinct()
    ensures |Options| == 4
    ensures forall i, j :: 0 <= i < j < |Options| ==>
              Options[i].long != Options[j].long && Options[i].short != Options[j].short
  {
  }

  // ---------------------------------------------------------------------------------------
  // Unsigned numbers, as `str::parse::<usize>` reads them on a 64-bit target

  const UsizeMax: nat := 0xFFFF_FFFF_FFFF_FFFF

  function DigitValue(c: char): nat
    requires IsDigit(c)
  {
    c as int - '0' as int
  }

  /** The number a run of decimal digits denotes, leading zeros included; the empty run denotes 0. */
  function DigitsValue(digits: string): nat
    requires IsNumeric(digits)
  {
    if |digits| == 0 then 0
    else DigitsValue(digits[..|digits| - 1]) * 10 + DigitValue(digits[|digits| - 1])
  }

  /** An optional `+`, then at least one decimal digit, denoting at most `UsizeMax`; anything
      else (the empty token, a lone `+`, a sign `-`, any other character, an overflow) fails. */
  function ParseUnsigned(token: string): (r: Option<nat>)
    ensures r.Some? ==> r.value <= UsizeMax
    ensures r.Some? <==>
              var digits := if |token| > 0 && token[0] == '+' then token[1..] else token;
              |digits| > 0 && IsNumeric(digits) && DigitsValue(digits) <= UsizeMax
    ensures r.Some? ==> r.value == DigitsValue(if |token| > 0 && token[0] == '+' then token[1..] else token)
  {
    var digits := if |token| > 0 && token[0] == '+' then token[1..] else token;
    if |digits| == 0 || !IsNumeric(digits) then None
    else
      var value := DigitsValue(digits);
      if value <= UsizeMax then Some(value) else None
  }

  function DigitChar(d: nat): (c: char)
    requires d < 10
    ensures IsDigit(c) && DigitValue(c) == d
  {
    ('0' as int + d) as char
  }

  /** The decimal text of `n`, without sign or leading zeros. */
  function Decimal(n: nat): (r: string)
    ensures |r| > 0 && IsNumeric(r)
  {
    if n < 10 then [DigitChar(n)] else Decimal(n / 10) + [DigitChar(n % 10)]
  }

  /** The digits of `n` denote `n`. */
  lemma {:induction false} DecimalValue(n: nat)
    ensures DigitsValue(Decimal(n)) == n
  {
    var d := Decimal(n);
    if n >= 10 {
      DecimalValue(n / 10);
      assert d[..|d| - 1] == Decimal(n / 10);
    } else {
      assert d[..0] == [];
    }
  }

  /** Reading back the decimal text of any representable number gives the number, with or
      without a leading `+`. */
  lemma ParseDecimal(n: nat)
    requires n <= UsizeMax
    ensures ParseUnsigned(Decimal(n)) == Some(n)
    ensures ParseUnsigned("+" + Decimal(n)) == Some(n)
  {
    DecimalValue(n);
    assert Decimal(n)[0] != '+';
    assert ("+" + Decimal(n))[1..] == Decimal(n);
  }

  /** A leading zero does not change the number a run of digits denotes. */
  lemma {:induction false} LeadingZeroValue(digits: string)
    requires IsNumeric(digits)
    ensures IsNumeric("0" + digits) && DigitsValue("0" + digits) == DigitsValue(digits)
    decreases |digits|
  {
    var z := "0" + digits;
    if |digits| == 0 {
      assert z[..0] == [];
    } else {
      LeadingZeroValue(digits[..|digits| - 1]);
      assert z[..|z| - 1] == "0" + digits[..|digits| - 1];
    }
  }

  /** Any number of leading zeros leaves the number a run of digits denotes unchanged. */
  lemma {:induction false} LeadingZerosValue(zeros: nat, digits: string)
    requires IsNumeric(digits)
    ensures IsNumeric(Repeat('0', zeros) + digits)
    ensures DigitsValue(Repeat('0', zeros) + digits) == DigitsValue(digits)
    decreases zeros
  {
    if zeros == 0 {
      assert Repeat('0', zeros) + digits == digits;
    } else {
      var rest := Repeat('0', zeros - 1) + digits;
      LeadingZerosValue(zeros - 1, digits);
      LeadingZeroValue(rest);
      assert Repeat('0', zeros) + digits == "0" + rest;
    }
  }

  /** A run of digits, with or without a leading `+`, parses to the number it denotes. */
  lemma ParseDigits(digits: string)
    requires |digits| > 0 && IsNumeric(digits) && DigitsValue(digits) <= UsizeMax
    ensures ParseUnsigned(digits) == Some(DigitsValue(digits))
    ensures ParseUnsigned("+" + digits) == Some(DigitsValue(digits))
  {
    assert IsDigit(digits[0]);
    assert ("+" + digits)[1..] == digits;
  }

  /** Leading zeros are accepted and ignored: `0…0n` and `+0…0n` parse to `n`. */
  lemma ParseLeadingZeros(n: nat, zeros: nat)
    requires n <= UsizeMax
    ensures ParseUnsigned(Repeat('0', zeros) + Decimal(n)) == Some(n)
    ensures ParseUnsigned("+" + Repeat('0', zeros) + Decimal(n)) == Some(n)
  {
    var t := Repeat('0', zeros) + Decimal(n);
    DecimalValue(n);
    LeadingZerosValue(zeros, Decimal(n));
    ParseDigits(t);
    assert "+" + Repeat('0', zeros) + Decimal(n) == "+" + t;
  }

  /** `count` copies of `c`. */
  function Repeat(c: char, count: nat): (r: string)
    ensures |r| == count && forall i :: 0 <= i < count ==> r[i] == c
  {
    if count == 0 then "" else [c] + Repeat(c, count - 1)
  }

  /** One past the largest representable number does not parse. */
  lemma ParseOverflow()
    ensures ParseUnsigned(Decimal(UsizeMax + 1)) == None
  {
    DecimalValue(UsizeMax + 1);
    assert Decimal(UsizeMax + 1)[0] != '+';
  }

  // ---------------------------------------------------------------------------------------
  // The reader as a function of the arguments

  /** The two configuration fields the reader writes. */
  datatype Settings = Settings(beQuiet: bool, possibilitiesFor: nat)

  /** Whether the previous flag asked for a value. */
  datatype PreviousOption = PossibilitiesFor | NoOption

  /** How reading ends: all arguments read, the help or version screen (both exit the
      program), an unrecognised option (the whole long token, or the one short character),
      or a value for `possibilities-for` that is not a number (a panic in the program). */
  datatype ReadExit =
    | Completed
    | ShowHelp
    | ShowVersion
    | InvalidOption(subject: string)
    | InvalidNumber(token: string)

  /** The reader between two steps: still reading, or exited with the settings written so far. */
  datatype ReadState =
    | Reading(settings: Settings, previous: PreviousOption)
    | Exited(settings: Settings, exit: ReadExit)

  function ExitOf(s: ReadState): ReadExit {
    if s.Reading? then Completed else s.exit
  }

  /** A long flag `--name`. */
  function LongStep(s: ReadState, argument: string): ReadState
    requires s.Reading? && StartsWith(argument, "--")
  {
    var name := argument[2..];
    if name == HelpOption.long then Exited(s.settings, ShowHelp)
    else if name == VersionOption.long then Exited(s.settings, ShowVersion)
    else if name == QuietOption.long then Reading(s.settings.(beQuiet := true), s.previous)
    else if name == PossibilitiesOption.long then Reading(s.settings, PossibilitiesFor)
    else Exited(s.settings, InvalidOption(argument))
  }

  /** One character of a short cluster. */
  function CharStep(s: ReadState, c: char): ReadState {
    if s.Exited? then s
    else if c == HelpOption.short then Exited(s.settings, ShowHelp)
    else if c == VersionOption.short then Exited(s.settings, ShowVersion)
    else if c == QuietOption.short then Reading(s.settings.(beQuiet := true), s.previous)
    else if c == PossibilitiesOption.short then Reading(s.settings, PossibilitiesFor)
    else Exited(s.settings, InvalidOption([c]))
  }

  /** The first `n` characters of a short cluster, one after the other. */
  function ClusterUpTo(s: ReadState, chars: string, n: nat): ReadState
    requires n <= |chars|
  {
    if n == 0 then s else CharStep(ClusterUpTo(s, chars, n - 1), chars[n - 1])
  }

  /** A bare token: the value of an armed `possibilities-for`, or nothing; either way the
      reader is disarmed. */
  function ValueStep(s: ReadState, argument: string): ReadState
    requires s.Reading?
  {
    match s.previous
    case PossibilitiesFor =>
      (match ParseUnsigned(argument)
       case Some(n) => Reading(s.settings.(possibilitiesFor := n), NoOption)
       case None => Exited(s.settings, InvalidNumber(argument)))
    case NoOption => Reading(s.settings, NoOption)
  }

  function ArgumentStep(s: ReadState, argument: string): ReadState {
    if s.Exited? then s
    else if StartsWith(argument, "--") then LongStep(s, argument)
    else if StartsWith(argument, "-") then ClusterUpTo(s, argument[1..], |argument| - 1)
    else ValueStep(s, argument)
  }

  /** The reader after the first `n` tokens. */
  function ReadUpTo(start: ReadState, tokens: seq<string>, n: nat): ReadState
    requires n <= |tokens|
    decreases n, 2
  {
    if n == 0 then start else ReadAt(start, tokens, n - 1)
  }

  /** The reader after token `i`. `ReadAt` and `ArgumentAt` are one definition split in two
      only so that the verifier unfolds `ReadUpTo` one token at a time (`ReadStep`). */
  function ReadAt(start: ReadState, tokens: seq<string>, i: nat): ReadState
    requires i < |tokens|
    decreases i + 1, 1
  {
    ArgumentAt(start, tokens, i)
  }

  /** Token `i` read by the reader before it; see `ReadAt`. */
  function ArgumentAt(start: ReadState, tokens: seq<string>, i: nat): ReadState
    requires i < |tokens|
    decreases i + 1, 0
  {
    ArgumentStep(ReadUpTo(start, tokens, i), tokens[i])
  }

  /** Reading one more token is one `ArgumentStep`. */
  lemma ReadStep(start: ReadState, tokens: seq<string>, i: nat)
    requires i < |tokens|
    ensures ReadUpTo(start, tokens, i + 1) == ArgumentStep(ReadUpTo(start, tokens, i), tokens[i])
  {
    assert ReadAt(start, tokens, i) == ArgumentAt(start, tokens, i);
  }

  /** The reader over a whole argument list; the program name (index 0) is skipped. */
  function ReadFrom(settings: Settings, arguments: seq<string>): ReadState {
    if |arguments| > 1 then ReadUpTo(Reading(settings, NoOption), arguments[1..], |arguments| - 1)
    else Reading(settings, NoOption)
  }

  // ---------------------------------------------------------------------------------------
  // The reader as the program runs it

  /** The configuration the reader fills in. */
  class Config {
    var beQuiet: bool
    var possibilitiesFor: nat

    constructor(beQuiet: bool, possibilitiesFor: nat)
      ensures this.beQuiet == beQuiet && this.possibilitiesFor == possibilitiesFor
    {
      this.beQuiet := beQuiet;
      this.possibilitiesFor := possibilitiesFor;
    }

    function Current(): Settings
      reads this
    {
      Settings(beQuiet, possibilitiesFor)
    }
  }

  /** The state the program is in, told by its local variables. */
  function StateOf(settings: Settings, previous: PreviousOption, exit: ReadExit): ReadState {
    if exit == Completed then Reading(settings, previous) else Exited(settings, exit)
  }

  /** Reads `arguments` (program name first) into `config`, stopping at the first help,
      version, unrecognised option or malformed number; the fields written before that
      stop stay written. */
  method Read(arguments: seq<string>, config: Config) returns (exit: ReadExit)
    modifies config
    ensures exit == ExitOf(ReadFrom(old(config.Current()), arguments))
    ensures config.Current() == ReadFrom(old(config.Current()), arguments).settings
  {
    var previousOption := NoOption;
    exit := Completed;
    if |arguments| > 1 {
      var tokens := arguments[1..];
      ghost var start := Reading(config.Current(), NoOption);
      var index := 0;
      while index < |tokens|
        invariant 0 <= index <= |tokens| && exit == Completed
        invariant ReadUpTo(start, tokens, index) == Reading(config.Current(), previousOption)
      {
        var argument := tokens[index];
        ghost var before := Reading(config.Current(), previousOption);
        if StartsWith(argument, "--") {
          var name := argument[2..];
          if name == HelpOption.long {
            exit := ShowHelp;
          } else if name == VersionOption.long {
            exit := ShowVersion;
          } else if name == QuietOption.long {
            config.beQuiet := true;
          } else if name == PossibilitiesOption.long {
            previousOption := PossibilitiesFor;
          } else {
            exit := InvalidOption(argument);
          }
        } else if StartsWith(argument, "-") {
          previousOption, exit := ReadCluster(argument[1..], config, previousOption);
        } else {
          if previousOption == PossibilitiesFor {
            var parsed := ParseUnsigned(argument);
            if parsed.None? {
              exit := InvalidNumber(argument);
            } else {
              config.possibilitiesFor := parsed.value;
            }
          }
          if exit == Completed {
            previousOption := NoOption;
          }
        }
        ReadStep(start, tokens, index);
        assert ReadUpTo(start, tokens, index + 1) == StateOf(config.Current(), previousOption, exit);
        if exit != Completed {
          ReadStaysExited(start, tokens, index + 1, |tokens|);
          return;
        }
        index := index + 1;
      }
    }
  }

  /** The characters of one short cluster, in order, up to the first one that exits. */
  method ReadCluster(chars: string, config: Config, previous: PreviousOption)
      returns (previousAfter: PreviousOption, exit: ReadExit)
    modifies config
    ensures ClusterUpTo(Reading(old(config.Current()), previous), chars, |chars|) ==
              StateOf(config.Current(), previousAfter, exit)
  {
    ghost var before := Reading(config.Current(), previous);
    previousAfter, exit := previous, Completed;
    var k := 0;
    while k < |chars| && exit == Completed
      invariant 0 <= k <= |chars|
      invariant ClusterUpTo(before, chars, k) == StateOf(config.Current(), previousAfter, exit)
    {
      var c := chars[k];
      if c == HelpOption.short {
        exit := ShowHelp;
      } else if c == VersionOption.short {
        exit := ShowVersion;
      } else if c == QuietOption.short {
        config.beQuiet := true;
      } else if c == PossibilitiesOption.short {
        previousAfter := PossibilitiesFor;
      } else {
        exit := InvalidOption([c]);
      }
      k := k + 1;
    }
    if exit != Completed {
      ClusterStaysExited(before, chars, k, |chars|);
    }
  }

  // ---------------------------------------------------------------------------------------
  // What the reader guarantees

  /** An exited cluster stays exited. */
  lemma {:induction false} ClusterStaysExited(s: ReadState, chars: string, i: nat, n: nat)
    requires i <= n <= |chars| && ClusterUpTo(s, chars, i).Exited?
    ensures ClusterUpTo(s, chars, n) == ClusterUpTo(s, chars, i)
    decreases n - i
  {
    if i < n {
      ClusterStaysExited(s, chars, i, n - 1);
    }
  }

  /** Help, version and every error end the reading: no later argument changes the settings
      or the exit. */
  lemma {:induction false} ReadStaysExited(start: ReadState, tokens: seq<string>, i: nat, n: nat)
    requires i <= n <= |tokens| && ReadUpTo(start, tokens, i).Exited?
    ensures ReadUpTo(start, tokens, n) == ReadUpTo(start, tokens, i)
    decreases n - i
  {
    if i < n {
      ReadStaysExited(start, tokens, i, n - 1);
      ReadStep(start, tokens, n - 1);
    }
  }

  /** With only the program name the configuration is left as it was. */
  lemma ReadWithoutArguments(settings: Settings, arguments: seq<string>)
    requires |arguments| <= 1
    ensures ReadFrom(settings, arguments) == Reading(settings, NoOption)
  {
  }

  /** The reader before any token: the given settings, with no option waiting for a value. */
  function Start(settings: Settings): ReadState {
    Reading(settings, NoOption)
  }

  // Quiet mode: set by `--quiet` or `q`, never cleared

  lemma {:induction false} ClusterKeepsQuiet(s: ReadState, chars: string, n: nat)
    requires n <= |chars| && s.settings.beQuiet
    ensures ClusterUpTo(s, chars, n).settings.beQuiet
  {
    if n > 0 {
      ClusterKeepsQuiet(s, chars, n - 1);
    }
  }

  lemma ArgumentKeepsQuiet(s: ReadState, argument: string)
    requires s.settings.beQuiet
    ensures ArgumentStep(s, argument).settings.beQuiet
  {
    if s.Reading? && !StartsWith(argument, "--") && StartsWith(argument, "-") {
      ClusterKeepsQuiet(s, argument[1..], |argument| - 1);
    }
  }

  /** Once quiet mode is on, no later argument turns it off. */
  lemma {:induction false} QuietNeverCleared(start: ReadState, tokens: seq<string>, i: nat, n: nat)
    requires i <= n <= |tokens| && ReadUpTo(start, tokens, i).settings.beQuiet
    ensures ReadUpTo(start, tokens, n).settings.beQuiet
    decreases n - i
  {
    if i < n {
      QuietNeverCleared(start, tokens, i, n - 1);
      ReadStep(start, tokens, n - 1);
      ArgumentKeepsQuiet(ReadUpTo(start, tokens, n - 1), tokens[n - 1]);
    }
  }

  /** `--quiet` reached by the reader turns quiet mode on for good, whatever follows. */
  lemma QuietLongFlag(settings: Settings, arguments: seq<string>, i: nat)
    requires 1 <= i < |arguments| && arguments[i] == "--quiet"
    requires ReadUpTo(Start(settings), arguments[1..], i - 1).Reading?
    ensures ReadFrom(settings, arguments).settings.beQuiet
  {
    var tokens := arguments[1..];
    assert tokens[i - 1] == "--quiet" && "--quiet"[2..] == QuietOption.long;
    ReadStep(Start(settings), tokens, i - 1);
    assert ReadUpTo(Start(settings), tokens, i).settings.beQuiet;
    QuietNeverCleared(Start(settings), tokens, i, |tokens|);
  }

  /** A `q` reached inside a short cluster turns quiet mode on for good, whatever follows in
      the cluster or after it. */
  lemma QuietShortFlag(settings: Settings, arguments: seq<string>, i: nat, j: nat)
    requires 1 <= i < |arguments|
    requires StartsWith(arguments[i], "-") && !StartsWith(arguments[i], "--")
    requires j + 1 < |arguments[i]| && arguments[i][j + 1] == 'q'
    requires ReadUpTo(Start(settings), arguments[1..], i - 1).Reading?
    requires ClusterUpTo(ReadUpTo(Start(settings), arguments[1..], i - 1), arguments[i][1..], j).Reading?
    ensures ReadFrom(settings, arguments).settings.beQuiet
  {
    var tokens := arguments[1..];
    var before := ReadUpTo(Start(settings), tokens, i - 1);
    var chars := arguments[i][1..];
    assert chars[j] == 'q';
    assert ClusterUpTo(before, chars, j + 1).settings.beQuiet;
    ClusterKeepsQuiet(ClusterUpTo(before, chars, j + 1), chars[j + 1..], |chars| - j - 1);
    ClusterSplit(before, chars, j + 1);
    assert tokens[i - 1] == arguments[i];
    ReadStep(Start(settings), tokens, i - 1);
    QuietNeverCleared(Start(settings), tokens, i, |tokens|);
  }

  /** Reading a cluster is reading its first `k` characters, then the rest. */
  lemma {:induction false} ClusterSplit(s: ReadState, chars: string, k: nat)
    requires k <= |chars|
    ensures ClusterUpTo(s, chars, |chars|) == ClusterUpTo(ClusterUpTo(s, chars, k), chars[k..], |chars| - k)
  {
    ClusterSplitAt(s, chars, k, |chars|);
  }

  lemma {:induction false} ClusterSplitAt(s: ReadState, chars: string, k: nat, n: nat)
    requires k <= n <= |chars|
    ensures ClusterUpTo(s, chars, n) == ClusterUpTo(ClusterUpTo(s, chars, k), chars[k..], n - k)
    decreases n
  {
    if k < n {
      ClusterSplitAt(s, chars, k, n - 1);
      assert chars[k..][n - k - 1] == chars[n - 1];
    }
  }

  // The armed `possibilities-for`: kept across flags, dropped by any bare token

  lemma {:induction false} ClusterKeepsArmed(s: ReadState, chars: string, n: nat)
    requires n <= |chars| && s == Reading(s.settings, PossibilitiesFor)
    ensures ClusterUpTo(s, chars, n).Exited? || ClusterUpTo(s, chars, n).previous == PossibilitiesFor
  {
    if n > 0 {
      ClusterKeepsArmed(s, chars, n - 1);
    }
  }

  /** No flag disarms the reader: after any flag token it still waits for a value, unless the
      flag ended the reading. */
  lemma FlagsKeepArmed(s: ReadState, argument: string)
    requires s == Reading(s.settings, PossibilitiesFor) && StartsWith(argument, "-")
    ensures ArgumentStep(s, argument).Exited? || ArgumentStep(s, argument).previous == PossibilitiesFor
  {
    if !StartsWith(argument, "--") {
      ClusterKeepsArmed(s, argument[1..], |argument| - 1);
    }
  }

  /** Every bare token disarms the reader; with nothing armed it changes nothing, and when
      armed it stores the number the token denotes. */
  lemma BareTokenDisarms(s: ReadState, argument: string)
    requires s.Reading? && !StartsWith(argument, "-")
    ensures ArgumentStep(s, argument).Exited? || ArgumentStep(s, argument).previous == NoOption
    ensures s.previous == NoOption ==> ArgumentStep(s, argument) == Reading(s.settings, NoOption)
    ensures s.previous == PossibilitiesFor && ParseUnsigned(argument).Some? ==>
              ArgumentStep(s, argument) ==
                Reading(s.settings.(possibilitiesFor := ParseUnsigned(argument).value), NoOption)
    ensures s.previous == PossibilitiesFor && ParseUnsigned(argument).None? ==>
              ArgumentStep(s, argument) == Exited(s.settings, InvalidNumber(argument))
    ensures ArgumentStep(s, argument).Exited? <==>
              s.previous == PossibilitiesFor && ParseUnsigned(argument).None?
  {
  }

  /** `--possibilities-for` and the cluster character `p` arm the reader and change nothing else. */
  lemma PossibilitiesArms(s: ReadState)
    requires s.Reading?
    ensures ArgumentStep(s, "--possibilities-for") == Reading(s.settings, PossibilitiesFor)
    ensures CharStep(s, 'p') == Reading(s.settings, PossibilitiesFor)
  {
    assert "--possibilities-for"[2..] == PossibilitiesOption.long;
  }

  /** `--possibilities-for x` or `-p x` reached by the reader, with a bare `x` that is not a
      number, ends the reading reporting `x`, with the settings written before it. */
  lemma PossibilitiesMalformed(start: ReadState, tokens: seq<string>, i: nat)
    requires i + 1 < |tokens| && ReadUpTo(start, tokens, i).Reading?
    requires tokens[i] == "--possibilities-for" || tokens[i] == "-p"
    requires !StartsWith(tokens[i + 1], "-") && ParseUnsigned(tokens[i + 1]).None?
    ensures ReadUpTo(start, tokens, |tokens|) ==
              Exited(ReadUpTo(start, tokens, i).settings, InvalidNumber(tokens[i + 1]))
  {
    var before := ReadUpTo(start, tokens, i);
    ReadStep(start, tokens, i);
    ReadStep(start, tokens, i + 1);
    PossibilitiesArms(before);
    if tokens[i] == "-p" {
      ShortFlagStep(before, 'p');
    }
    assert ReadUpTo(start, tokens, i + 1) == Reading(before.settings, PossibilitiesFor);
    BareTokenDisarms(Reading(before.settings, PossibilitiesFor), tokens[i + 1]);
    ReadStaysExited(start, tokens, i + 2, |tokens|);
  }

  /** `--possibilities-for n` or `-p n` reached by the reader stores `n`, whatever was stored
      before, and leaves everything else as it was. */
  lemma PossibilitiesStored(start: ReadState, tokens: seq<string>, i: nat)
    requires i + 1 < |tokens| && ReadUpTo(start, tokens, i).Reading?
    requires tokens[i] == "--possibilities-for" || tokens[i] == "-p"
    requires !StartsWith(tokens[i + 1], "-") && ParseUnsigned(tokens[i + 1]).Some?
    ensures ReadUpTo(start, tokens, i + 2) ==
              Reading(ReadUpTo(start, tokens, i).settings.(possibilitiesFor := ParseUnsigned(tokens[i + 1]).value),
                      NoOption)
  {
    var before := ReadUpTo(start, tokens, i);
    ReadStep(start, tokens, i);
    ReadStep(start, tokens, i + 1);
    PossibilitiesArms(before);
    if tokens[i] == "-p" {
      ShortFlagStep(before, 'p');
    }
    assert ReadUpTo(start, tokens, i + 1) == Reading(before.settings, PossibilitiesFor);
    BareTokenDisarms(Reading(before.settings, PossibilitiesFor), tokens[i + 1]);
  }

  lemma DecimalIsBare(n: nat)
    ensures !StartsWith(Decimal(n), "-") && Decimal(n)[0] != '+'
  {
    assert IsDigit(Decimal(n)[0]);
  }

  /** In `-p -q 7` the `7` still belongs to `-p`, and quiet mode is on. */
  lemma ArmedAcrossFlags(settings: Settings, program: string, n: nat)
    requires n <= UsizeMax
    ensures ReadFrom(settings, [program, "-p", "-q", Decimal(n)]) ==
              Reading(Settings(true, n), NoOption)
  {
    var tokens := ["-p", "-q", Decimal(n)];
    assert [program, "-p", "-q", Decimal(n)][1..] == tokens;
    ShortFlagStep(Start(settings), 'p');
    ReadStep(Start(settings), tokens, 0);
    ReadStep(Start(settings), tokens, 1);
    ReadStep(Start(settings), tokens, 2);
    assert ReadUpTo(Start(settings), tokens, 1) == Reading(settings, PossibilitiesFor);
    ShortFlagStep(Reading(settings, PossibilitiesFor), 'q');
    assert ReadUpTo(Start(settings), tokens, 2) == Reading(settings.(beQuiet := true), PossibilitiesFor);
    ParseDecimal(n);
    DecimalIsBare(n);
  }

  /** `-p` takes one value: a second bare token after it is ignored. */
  lemma OneValuePerFlag(settings: Settings, program: string, n: nat, m: nat)
    requires n <= UsizeMax
    ensures ReadFrom(settings, [program, "-p", Decimal(n), Decimal(m)]) ==
              Reading(settings.(possibilitiesFor := n), NoOption)
  {
    var tokens := ["-p", Decimal(n), Decimal(m)];
    assert [program, "-p", Decimal(n), Decimal(m)][1..] == tokens;
    ShortFlagStep(Start(settings), 'p');
    ReadStep(Start(settings), tokens, 0);
    ReadStep(Start(settings), tokens, 1);
    ReadStep(Start(settings), tokens, 2);
    assert ReadUpTo(Start(settings), tokens, 1) == Reading(settings, PossibilitiesFor);
    ParseDecimal(n);
    DecimalIsBare(n);
    DecimalIsBare(m);
    assert ReadUpTo(Start(settings), tokens, 2) == Reading(settings.(possibilitiesFor := n), NoOption);
  }

  /** A value for `possibilities-for` that does not parse ends the reading. */
  lemma MalformedNumberFails(settings: Settings, program: string, token: string)
    requires !StartsWith(token, "-") && ParseUnsigned(token).None?
    ensures ReadFrom(settings, [program, "--possibilities-for", token]) ==
              Exited(settings, InvalidNumber(token))
  {
    var tokens := ["--possibilities-for", token];
    assert [program, "--possibilities-for", token][1..] == tokens;
    assert "--possibilities-for"[2..] == PossibilitiesOption.long;
    assert ReadUpTo(Start(settings), tokens, 1) == Reading(settings, PossibilitiesFor);
  }

  // The value of `possibilities_for` comes from the arguments or was there before

  lemma {:induction false} ClusterKeepsNumber(s: ReadState, chars: string, n: nat)
    requires n <= |chars|
    ensures ClusterUpTo(s, chars, n).settings.possibilitiesFor == s.settings.possibilitiesFor
  {
    if n > 0 {
      ClusterKeepsNumber(s, chars, n - 1);
    }
  }

  lemma ArgumentNumber(s: ReadState, argument: string)
    ensures ArgumentStep(s, argument).settings.possibilitiesFor == s.settings.possibilitiesFor ||
            ParseUnsigned(argument) == Some(ArgumentStep(s, argument).settings.possibilitiesFor)
  {
    if s.Reading? && !StartsWith(argument, "--") && StartsWith(argument, "-") {
      ClusterKeepsNumber(s, argument[1..], |argument| - 1);
    }
  }

  /** After reading, `possibilities_for` holds its earlier value or the number one of the
      tokens denotes. */
  lemma {:induction false} NumberFromTokens(start: ReadState, tokens: seq<string>, n: nat)
    requires n <= |tokens|
    ensures var v := ReadUpTo(start, tokens, n).settings.possibilitiesFor;
            v == start.settings.possibilitiesFor || exists k :: 0 <= k < n && ParseUnsigned(tokens[k]) == Some(v)
  {
    if n > 0 {
      var before := ReadUpTo(start, tokens, n - 1);
      var v := ReadUpTo(start, tokens, n).settings.possibilitiesFor;
      NumberFromTokens(start, tokens, n - 1);
      ArgumentNumber(before, tokens[n - 1]);
      ReadStep(start, tokens, n - 1);
      if v != before.settings.possibilitiesFor {
        assert ParseUnsigned(tokens[n - 1]) == Some(v);
      }
    }
  }

  /** Reading never makes up a number: the result is the configured value or parsed from an
      argument, and so it fits in a `usize` whenever the configured value did. */
  lemma NumberFromArguments(settings: Settings, arguments: seq<string>)
    ensures var v := ReadFrom(settings, arguments).settings.possibilitiesFor;
            v == settings.possibilitiesFor ||
            exists k :: 1 <= k < |arguments| && ParseUnsigned(arguments[k]) == Some(v)
    ensures settings.possibilitiesFor <= UsizeMax ==>
              ReadFrom(settings, arguments).settings.possibilitiesFor <= UsizeMax
  {
    if |arguments| > 1 {
      var tokens := arguments[1..];
      NumberFromTokens(Start(settings), tokens, |tokens|);
      var v := ReadFrom(settings, arguments).settings.possibilitiesFor;
      if v != settings.possibilitiesFor {
        var k :| 0 <= k < |tokens| && ParseUnsigned(tokens[k]) == Some(v);
        assert arguments[k + 1] == tokens[k];
      }
    }
  }

  // Help, version and unrecognised options end the reading

  /** The two-character flag `-c` reads the single character `c`. */
  lemma ShortFlagStep(s: ReadState, c: char)
    requires s.Reading? && c != '-'
    ensures ArgumentStep(s, ['-', c]) == CharStep(s, c)
  {
    var argument := ['-', c];
    assert StartsWith(argument, "-");
    assert !StartsWith(argument, "--") by {
      assert argument[..2][1] != "--"[1];
    }
    assert argument[1..] == [c];
    assert ClusterUpTo(s, [c], 1) == CharStep(s, c);
  }

  /** The reserved flags on a running reader. */
  lemma ReservedStep(s: ReadState, token: string)
    requires s.Reading? && token in ["--help", "-h", "--version", "-V"]
    ensures ArgumentStep(s, token) == Exited(s.settings, if token in ["--help", "-h"] then ShowHelp else ShowVersion)
  {
    if token == "-h" {
      ShortFlagStep(s, 'h');
    } else if token == "-V" {
      ShortFlagStep(s, 'V');
    } else {
      assert "--help"[2..] == "help" && "--version"[2..] == "version";
    }
  }

  /** `--help`, `--version`, `-h` or `-V` reached by the reader ends it with that screen;
      the settings are those written before it. */
  lemma ReservedOptionEndsReading(settings: Settings, arguments: seq<string>, i: nat)
    requires 1 <= i < |arguments|
    requires arguments[i] in ["--help", "-h", "--version", "-V"]
    requires ReadUpTo(Start(settings), arguments[1..], i - 1).Reading?
    ensures ReadFrom(settings, arguments) ==
              Exited(ReadUpTo(Start(settings), arguments[1..], i - 1).settings,
                     if arguments[i] in ["--help", "-h"] then ShowHelp else ShowVersion)
  {
    var tokens := arguments[1..];
    assert tokens[i - 1] == arguments[i];
    ReadStep(Start(settings), tokens, i - 1);
    ReservedStep(ReadUpTo(Start(settings), tokens, i - 1), arguments[i]);
    ReadStaysExited(Start(settings), tokens, i, |tokens|);
  }

  /** An unrecognised long flag, `--` alone included, ends the reading and reports the
      whole token. */
  lemma UnknownLongOption(s: ReadState, argument: string)
    requires s.Reading? && StartsWith(argument, "--")
    requires forall o :: o in Options ==> argument[2..] != o.long
    ensures ArgumentStep(s, argument) == Exited(s.settings, InvalidOption(argument))
  {
    assert HelpOption in Options && VersionOption in Options;
    assert QuietOption in Options && PossibilitiesOption in Options;
  }

  /** An unrecognised character in a short cluster ends the reading and reports that
      character alone; the characters before it have taken effect. */
  lemma UnknownShortOption(s: ReadState, argument: string, j: nat)
    requires s.Reading? && StartsWith(argument, "-") && !StartsWith(argument, "--")
    requires j + 1 < |argument|
    requires forall o :: o in Options ==> argument[j + 1] != o.short
    requires ClusterUpTo(s, argument[1..], j).Reading?
    ensures ArgumentStep(s, argument) ==
              Exited(ClusterUpTo(s, argument[1..], j).settings, InvalidOption([argument[j + 1]]))
  {
    var chars := argument[1..];
    assert HelpOption in Options && VersionOption in Options;
    assert QuietOption in Options && PossibilitiesOption in Options;
    assert chars[j] == argument[j + 1];
    ClusterStaysExited(s, chars, j + 1, |chars|);
  }
}
