/** Filling a configuration record from the command line (src/args.rs, parse_into): the
    record's field names drive the scanner, and the document it writes is decoded into a new
    record that replaces the old one. The JSON codec is a parameter: `decode` stands for
    reading a record of the configuration's type back from its text. */
module ArgsBinder {
  import opened Wrappers
  import opened Strings
  import opened Args
  import opened ArgsScanner

  /** How binding ends: a decoded record, the help or version screen (both exit the program),
      or a failure (a panic in the program). */
  datatype Binding<T> =
    | Decoded(value: T)
    | Help(options: seq<string>)
    | Version
    | Refused(error: ArgsError)

  /** The outcome of binding `arguments` (program name first) to a record with `fields`. */
  function Bind<T>(fields: seq<string>, arguments: seq<string>, decode: string -> Option<T>): (r: Binding<T>)
    ensures r.Decoded? <==>
              Serialized(fields, arguments).Document? && decode(Serialized(fields, arguments).text).Some?
    ensures r.Decoded? ==> decode(Serialized(fields, arguments).text) == Some(r.value)
    ensures r.Help? ==> r.options == OptionNames(fields)
  {
    match Serialized(fields, arguments)
    case Document(text) =>
      (match decode(text)
       case Some(value) => Decoded(value)
       case None => Refused(DecodeFailure))
    case ShowHelp(options) => Help(options)
    case ShowVersion => Version
    case Failed(e) => Refused(e)
  }

  /** The configuration record the program keeps, replaced as a whole when binding succeeds. */
  class Record<T> {
    var value: T

    constructor(initial: T)
      ensures value == initial
    {
      value := initial;
    }
  }

  /** Binds the command line to `config`: on a decoded document the record is replaced by the
      decoded one (nothing of the old record is kept), otherwise it is left alone. */
  method ParseInto<T>(config: Record<T>, fields: seq<string>, arguments: seq<string>, decode: string -> Option<T>)
      returns (outcome: Binding<T>)
    modifies config
    ensures outcome == Bind(fields, arguments, decode)
    ensures outcome.Decoded? ==> config.value == outcome.value
    ensures !outcome.Decoded? ==> config.value == old(config.value)
  {
    var serializedArguments := SerializeArguments(fields, arguments);
    match serializedArguments
    case Document(text) =>
      var deserialized := decode(text);
      if deserialized.Some? {
        config.value := deserialized.value;
        outcome := Decoded(deserialized.value);
      } else {
        outcome := Refused(DecodeFailure);
      }
    case ShowHelp(options) =>
      outcome := Help(options);
    case ShowVersion =>
      outcome := Version;
    case Failed(e) =>
      outcome := Refused(e);
  }

  /** With nothing after the program name the record is decoded from the empty document. */
  lemma BindWithoutArguments<T>(fields: seq<string>, arguments: seq<string>, decode: string -> Option<T>)
    requires |arguments| <= 1
    ensures Bind(fields, arguments, decode) ==
              if decode("{  }").Some? then Decoded(decode("{  }").value) else Refused(DecodeFailure)
  {
  }

  /** A bare token right after the program name fails before anything is decoded. */
  lemma BindLeadingValue<T>(fields: seq<string>, arguments: seq<string>, decode: string -> Option<T>)
    requires |arguments| > 1 && !StartsWith(arguments[1], "-")
    ensures Bind(fields, arguments, decode) == Refused(EmptyBuffer)
  {
    LeadingValueFails(fields, arguments);
  }

  /** A help or version flag reached while binding ends it with that screen; the help screen
      lists `help`, `version` and the hyphenated field names. */
  lemma BindReservedFlag<T>(fields: seq<string>, arguments: seq<string>, i: nat, decode: string -> Option<T>)
    requires 1 <= i < |arguments|
    requires arguments[i] == "--help" || arguments[i] == "-h" || arguments[i] == "--version" || arguments[i] == "-V"
    requires ScanUpTo(fields, arguments[1..], i - 1).Running?
    ensures Bind(fields, arguments, decode) ==
              if arguments[i] == "--help" || arguments[i] == "-h" then Help(OptionNames(fields)) else Version
  {
    ReservedFlagStopsScan(fields, arguments, i);
  }

  /** `--name value` alone decodes the document `{ "name": value }`. */
  lemma BindFlagWithValue<T>(fields: seq<string>, program: string, name: string, value: string, decode: string -> Option<T>)
    requires Underscored(name) != "help" && Underscored(name) != "version"
    requires !StartsWith(value, "-")
    requires decode("{ \"" + Underscored(name) + "\": " + Encoded(value) + " }").Some?
    ensures Bind(fields, [program, "--" + name, value], decode) ==
              Decoded(decode("{ \"" + Underscored(name) + "\": " + Encoded(value) + " }").value)
  {
    FlagWithValueDocument(fields, program, name, value);
  }
}
