# Command-line binding for a scheduling tool, in Dafny

This project models the argument handling of a small Rust command-line tool and proves properties of the model. It covers three parts of the tool.

- **The schema-driven binder** (`src/args.rs`). The names of a configuration record's fields become options: `help`, `version`, then each field name with `_` written as `-`. A short character (`-x`) is looked up by the field's first character. The two case forms split a pair of fields that share a first character. The command line is then scanned once and written into a JSON-like argument document:
  - a flag writes its key, followed by ` true` when no value follows it;
  - a bare token writes a scalar, or opens, continues or closes a `[…]` array, depending on the last character written and on the next token.

  `help` and `version` end the scan with their screen. The document is decoded into a new record, which replaces the old record only when decoding succeeds. Modules: `Args`, `ArgsScanner`, `ArgsBinder`.
- **The hand-written reader** (`src/arguments.rs`). This is a fixed table of four options (`help`/`h`, `version`/`V`, `quiet`/`q`, `possibilities-for`/`p`) and one loop that updates a `Config` in place.
  - A `p` flag arms the reader, and the next bare token is then parsed as a `usize`.
  - Help, version, an unrecognised option or a malformed number ends the loop.

  Module: `Arguments`.
- **The package metadata rule** (`src/info.rs`). The title falls back to the package name, and the default argument name falls back to `args`. Module: `Info`.

Shared helpers are in `Wrappers` (`Option`, `Result`) and `Strings` (prefixes, character replacement, ASCII case, digits).

The state-changing code is written as methods with loops:
- the option list (`OptionsFromStruct`);
- the short lookup (`OptionFromChar`);
- the cluster resolution (`ResolveCluster`);
- the scanner (`SerializeArguments` with its token loop `ScanTokens`, `WriteToken`, `WriteFlag`, `WriteKeys`, `WriteValue`);
- the binder (`ParseInto` on a `Record` object);
- the reader (`Read`, `ReadCluster` on a `Config` object).

Each method is proved equal to a specification function (`OptionNames`, `OptionForChar`, `ClusterNames`, `Serialized`, `Bind`, `ReadFrom`), and the properties are proved about those functions.

Panics and process exits become values:
- `ArgsError` covers "Not found", "Too many", the `unwrap` of an empty name's first character, the `unwrap` of an empty buffer's last character, and a document that does not decode;
- `ScanResult` and `Binding` carry the help and version screens;
- `ReadExit` covers help, version, `InvalidOption` and the `parse().unwrap()` of a non-number.

Behaviour the model follows exactly as the code has it:
- **A leading bare value fails.** A bare token before any flag does not bind to a field. The scanner inspects the last character of an empty buffer and stops with `EmptyBuffer` (`src/args.rs:131`; `ArgsScanner.LeadingValueFails`).
- **No defaults are merged.** The record becomes the decode of the document built from the command line alone (`src/args.rs:165-167`; `ArgsBinder.ParseInto`).
- **Unknown long options are not rejected by the scanner.** An unknown long option is written into the document as a key, whether or not such a field exists (`ArgsScanner.LongFlagWritesKey`). An unknown short character stops the scan with `NotFound`.
- **Clusters are resolved before anything is emitted.** All characters of a short cluster are resolved before any of its names takes effect, because the names are collected first (`src/args.rs:94`). So an unknown character anywhere in `-hz` fails before the `h` can show help.
- **The reader handles a cluster one character at a time.** In `read`, the characters of a cluster take effect one by one, so a `q` before a bad character has already set quiet mode (`Arguments.QuietShortFlag`, `Arguments.UnknownShortOption`).
- **`get_char_from_option` checks one-character strings.** It looks for the one-character string of the first letter among the option names, not for other options sharing that letter (`Args.CharFromOptionIgnoresSharedInitials`). The scanner does not call it.

## Model

| member | source | states |
|---|---|---|
| Args.OptionNames | src/args.rs:12-25 | the option list is `help`, `version`, then one entry per field, in field order, each the field name with `_` as `-` |
| Args.OptionsFromStruct | src/args.rs:12-25 | the loop that pushes the reserved names and then each hyphenated key builds exactly `OptionNames(fields)` |
| Args.UnderscoredHyphenated | src/args.rs:93 | reading a hyphenated field name back (`-` as `_`) gives the field name, for names without `-` |
| Args.CharFromOption | src/args.rs:27-45 | `help`→`h` and `version`→`V`; otherwise the first character unless that one-character string is an option, then its ASCII upper case unless that is one too; fails exactly when both are taken ("Too many") or the name is empty |
| Args.CharFromOptionIgnoresSharedInitials | src/args.rs:34-35 | options that merely share the first character (no one-character options) never move the short name to upper case |
| Args.FirstCharMatchesMembers | src/args.rs:56-62 | the collected matches are exactly the fields whose first character is the lower-cased short character |
| Args.PickMatch | src/args.rs:64-80 | no match is "Not found" (and only then); one match is selected; of two matches a lower-case character selects the first and any other character the second; more than two is "Too many" |
| Args.OptionForChar | src/args.rs:47-81 | `h`→`help`, `V`→`version`; any other result is a field whose first character is the lower-cased character; "Not found" exactly when no field starts with it; the empty-name failure exactly when a field name is empty |
| Args.OptionFromChar | src/args.rs:47-81 | the loop over the keys returns exactly `OptionForChar(fields, c)` |
| Args.ShortNameOfUniqueInitial | src/args.rs:64-66 | a field whose first character no other field shares answers to that character in either case |
| Args.ShortNamesOfSharedInitial | src/args.rs:68-73 | of two fields sharing a first character, the lower-case character selects the one earlier in `fields` (the JSON object's key order), the upper-case one the later |
| Args.ShortNameTooSimilar | src/args.rs:76 | three fields sharing a first character make that character fail with "Too many" |
| ArgsScanner.ClusterNames | src/args.rs:94 | a resolved cluster has one name per character, each the character's `OptionForChar` name |
| ArgsScanner.ClusterNamesFailure | src/args.rs:94 | a cluster fails with the error of its first failing character |
| ArgsScanner.ResolveCluster | src/args.rs:94 | resolving the characters in order, stopping at the first failure, returns exactly `ClusterNames` |
| ArgsScanner.KeyStringSeparator | src/args.rs:105-110 | a key is written as `"name":`, preceded by `, ` exactly when the `is_first_argument` flag is clear |
| ArgsScanner.FirstKeyFlag | src/args.rs:87-110 | at every point of the scan `is_first_argument` holds exactly while nothing has been written, so only the first key goes without `, ` |
| ArgsScanner.LaterKeySeparated | src/args.rs:105-118 | a long flag after something has been written appends `, "name":`, then ` true` unless a bare value follows |
| ArgsScanner.Serialized | src/args.rs:83-155 | a finished document is always `{ ` + body + ` }`, and `{  }` without arguments; a help screen lists `OptionNames(fields)` |
| ArgsScanner.SerializeArguments | src/args.rs:83-155 | the token loop over the buffer and the first-key flag returns exactly `Serialized(fields, arguments)` |
| ArgsScanner.ScanTokens | src/args.rs:90-149 | the loop over the tokens after the program name, which ends early once a token stops the scan, returns exactly the scanner state `ScanUpTo` gives after every token |
| ArgsScanner.WriteToken | src/args.rs:90-148 | one token advances the scan by exactly one step of the specification |
| ArgsScanner.WriteFlag | src/args.rs:91-121 | a flag token resolves its names and writes their keys as the specification's step |
| ArgsScanner.WriteKeys | src/args.rs:97-121 | the names of one flag are emitted in order, stopping at `help` or `version` |
| ArgsScanner.WriteValue | src/args.rs:123-148 | a bare token appends exactly the specification's value text, or fails on an empty buffer |
| ArgsScanner.ScanStopsProperly | src/args.rs:97-102 | a scan that stops ends with a screen or a failure, never a document, and its help screen lists the option names |
| ArgsScanner.ScanStaysStopped | src/args.rs:97-102 | once help, version or a failure has stopped the scan, no later token changes the outcome |
| ArgsScanner.LeadingValueFails | src/args.rs:131 | a bare first token fails with the empty-buffer error |
| ArgsScanner.EmitNamesWritesKeys | src/args.rs:97-121 | names without `help` or `version` are each written as a key, in order, only the first possibly without `, `, all closed the same way |
| ArgsScanner.EmitNamesStopsAtReserved | src/args.rs:97-102 | the first `help` or `version` among the names stops the scan with its screen; no name after it is written |
| ArgsScanner.ClusterWritesKeys | src/args.rs:94-121 | a resolved cluster `-xyz` with no reserved name writes one key per character, in order, all with the same ` true` decision |
| ArgsScanner.ClusterStopsAtReserved | src/args.rs:94-102 | `help` or `version` resolved anywhere in a cluster, as in `-ah`, stops the scan with that screen after the names before it |
| ArgsScanner.ReservedFlagStopsScan | src/args.rs:97-102 | `--help`/`-h` reached by the scan gives the help screen with `OptionNames(fields)`, `--version`/`-V` the version screen, whatever follows |
| ArgsScanner.LongFlagWritesKey | src/args.rs:92-119 | `--name` writes the key `name` with `-` as `_`, followed by ` true` exactly when no bare value follows |
| ArgsScanner.OptionNameWritesField | src/args.rs:93 | for a field name without `-`, the long option listed for it writes exactly that field's key |
| ArgsScanner.ScalarValue | src/args.rs:135-136 | one bare token after an open key, followed by a flag or by nothing, is written as that key's scalar |
| ArgsScanner.EncodedTokensElements | src/args.rs:126-129 | each element of an array run is its own token, unchanged when every character is numeric and quoted otherwise, in token order |
| ArgsScanner.ArrayValue | src/args.rs:131-143 | two or more bare tokens after an open key become one array ` [v1, …, vn]`, closed at the next flag or at the end |
| ArgsScanner.SingleFlagDocument | src/args.rs:105-118 | `prog --name` gives the document `{ "name": true }` |
| ArgsScanner.FlagWithValueDocument | src/args.rs:105-136 | `prog --name value` gives the document `{ "name": value }` |
| ArgsBinder.Bind | src/args.rs:157-168 | a record is decoded exactly when the scan gives a document that decodes, and it is that decode; a help screen lists the option names |
| ArgsBinder.ParseInto | src/args.rs:157-168 | the record is replaced by the decoded one on success and left unchanged on help, version or any failure |
| ArgsBinder.BindWithoutArguments | src/args.rs:152-165 | with only the program name the record is the decode of `{  }` |
| ArgsBinder.BindLeadingValue | src/args.rs:131 | a bare first token fails before anything is decoded |
| ArgsBinder.BindReservedFlag | src/args.rs:97-102 | help or version reached while binding ends it with that screen |
| ArgsBinder.BindFlagWithValue | src/args.rs:163-167 | `prog --name value` binds the decode of `{ "name": value }` |
| Arguments.OptionsDistinct | src/arguments.rs:11-21 | the table has four entries with pairwise distinct long names and short characters |
| Arguments.ParseUnsigned | src/arguments.rs:57 | a number is accepted exactly when the token is an optional `+` and then at least one digit, with a value that fits a `usize`; the accepted number is the value of those digits, leading zeros included |
| Arguments.ParseDigits | src/arguments.rs:57 | any run of digits that fits a `usize` parses, with or without `+`, to the number it denotes |
| Arguments.LeadingZerosValue | src/arguments.rs:57 | leading zeros do not change the number a run of digits denotes |
| Arguments.ParseLeadingZeros | src/arguments.rs:57 | `0…0n` and `+0…0n` parse to `n` for every representable `n` |
| Arguments.ParseDecimal | src/arguments.rs:57 | the decimal text of any representable number, with or without `+`, parses back to that number |
| Arguments.ParseOverflow | src/arguments.rs:57 | one past the largest `usize` does not parse |
| Arguments.Read | src/arguments.rs:28-65 | the loop over the arguments and the cluster characters leaves the config and the exit exactly as `ReadFrom` describes |
| Arguments.ReadCluster | src/arguments.rs:44-53 | the characters of a cluster take effect in order up to the first one that exits |
| Arguments.ReadStaysExited | src/arguments.rs:35-51 | help, version and unrecognised options end the reading; no later argument changes anything |
| Arguments.ReadWithoutArguments | src/arguments.rs:31 | with only the program name the config is left as it was |
| Arguments.QuietNeverCleared | src/arguments.rs:37-48 | once quiet mode is on, nothing turns it off |
| Arguments.QuietLongFlag | src/arguments.rs:37 | `--quiet` reached by the reader leaves quiet mode on at the end |
| Arguments.QuietShortFlag | src/arguments.rs:48 | a `q` reached in a short cluster leaves quiet mode on at the end |
| Arguments.FlagsKeepArmed | src/arguments.rs:33-54 | no flag token disarms a pending `possibilities-for` |
| Arguments.BareTokenDisarms | src/arguments.rs:55-62 | every bare token disarms the reader; with nothing armed it changes nothing; when armed, a token that parses is stored in `possibilities_for` and nothing else changes, and one that does not ends the reading with `InvalidNumber(token)` and the settings unchanged; it fails exactly when armed and not a number |
| Arguments.PossibilitiesArms | src/arguments.rs:38-49 | `--possibilities-for` and the cluster character `p` arm the reader and leave the settings unchanged |
| Arguments.PossibilitiesStored | src/arguments.rs:38-58 | `--possibilities-for n` or `-p n` reached by the reader stores the parsed `n`, whatever was stored before, and changes nothing else |
| Arguments.ArmedAcrossFlags | src/arguments.rs:38-61 | in `-p -q 7` the 7 is stored and quiet mode is on |
| Arguments.OneValuePerFlag | src/arguments.rs:55-62 | `-p` takes one value: a second bare token is ignored |
| Arguments.PossibilitiesMalformed | src/arguments.rs:38-58 | `--possibilities-for x` or `-p x` reached at any position, with `x` not a number, ends the reading reporting `x`, with the settings written before it, whatever follows |
| Arguments.MalformedNumberFails | src/arguments.rs:57 | `prog --possibilities-for x` with `x` not a number ends the reading with that token and the settings unchanged |
| Arguments.NumberFromArguments | src/arguments.rs:55-62 | the stored number is the earlier one or is parsed from one of the arguments, so it always fits a `usize` |
| Arguments.ReservedOptionEndsReading | src/arguments.rs:35-47 | `--help`, `-h`, `--version` or `-V` reached by the reader ends it with that screen and the settings written before it |
| Arguments.UnknownLongOption | src/arguments.rs:40 | an unrecognised long flag, `--` alone included, ends the reading and reports the whole token |
| Arguments.UnknownShortOption | src/arguments.rs:51 | an unrecognised short character ends the reading and reports that character alone, after the earlier characters took effect |
| Info.GetMetadata | src/info.rs:32-49 | without metadata the result is `(name, "args")`; otherwise each entry present in the metadata is used and each absent one falls back to the name or `args` |
| Info.EmptyMetadataIsAbsent | src/info.rs:36-45 | an empty metadata table gives the same result as none |
| Info.MetadataIgnoresDescriptionAndVersion | src/info.rs:32-49 | the result depends only on the name and the metadata |

## Left out

- JSON encoding and decoding with `serde_json` (`src/args.rs:6-7`, `src/args.rs:163-165`) are foreign code. The record's field names are a parameter `fields`, in the order in which the parsed JSON object (`serde_json::Value`) yields its keys. With `serde_json`'s default map that is sorted key order, not declaration order; with its `preserve_order` feature it is insertion order. That order decides which field counts as "earlier" when two share a first character; `get_struct_fields` itself is not modelled. Decoding is a parameter `decode: string -> Option<T>`.
- Reading the process arguments (`env::args`) and the debug `println!` (`src/args.rs:84`, `src/args.rs:159-161`) are process I/O. The argument list, program name first, is a parameter.
- The help, version and error screens (`src/show.rs`, `src/display.rs`, `src/error.rs`) and the process exit they perform are not part of this model. Help and version become outcome values; a help screen carries the option list it would print.
- A panic's message and unwinding are not modelled. Each panic site becomes an error value, and the run stops there.
- `info::get` (`src/info.rs:24-29`) reads the embedded manifest and parses TOML, which is foreign code. `Package` is given.
- The repository's two example programs (`example.rs`, `test.rs`) only call the binder and are not part of the core.
- Strings.IsNumeric: Rust's `char::is_numeric` also accepts non-ASCII digits and numerals. The model accepts only `0`-`9`, so such a token is quoted here but written unquoted by the program.
- Strings.IsAsciiLowercase: Rust's `char::is_lowercase` also holds for non-ASCII lower-case letters. The model takes only `a`-`z`, which only affects a non-ASCII short character with two matching fields.
- Arguments.ParseUnsigned: a 64-bit `usize` is assumed.
- Arguments.Config.possibilitiesFor is a `nat`. `Arguments.NumberFromArguments` shows that the reader only ever stores a value that fits a `usize`.
