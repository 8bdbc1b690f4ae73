/** The option schema of the schema-driven binder (src/args.rs): the option-name list derived
    from the record's field names, and the two short-name lookups. The field names are given
    in the order in which the parsed JSON object yields its keys: sorted by key with
    `serde_json`'s default map, insertion order with its `preserve_order` feature. */
module Args {
  import opened Wrappers
  import opened Strings

  /** Ways the binder stops without producing a record. */
  datatype ArgsError =
    | NotFound      // no field starts with the short character ("Not found")
    | TooMany       // more fields share a first character than two cases can tell apart ("Too many")
    | EmptyName     // a name without a first character (the `unwrap` of its first character)
    | EmptyBuffer   // a value with nothing written before it (the `unwrap` of the last character)
    | DecodeFailure // the argument document does not decode into the record

  /** A field name as a long option: every `_` becomes `-`. */
  function Hyphenated(field: string): string {
    ReplaceChar(field, '_', '-')
  }

  /** A long option as a field name: every `-` becomes `_`. */
  function Underscored(name: string): string {
    ReplaceChar(name, '-', '_')
  }

  /** A field name without `-` is recovered from its long option. */
  lemma UnderscoredHyphenated(field: string)
    requires '-' !in field
    ensures Underscored(Hyphenated(field)) == field
  {
    ReplaceCharRoundTrip(field, '_', '-');
  }

  function HyphenatedAll(fields: seq<string>): (r: seq<string>)
    ensures |r| == |fields|
    ensures forall i :: 0 <= i < |fields| ==> r[i] == Hyphenated(fields[i])
  {
    if |fields| == 0 then []
    else HyphenatedAll(fields[..|fields| - 1]) + [Hyphenated(fields[|fields| - 1])]
  }

  /** The option names: `help`, `version`, then each field in order, hyphenated. */
  function OptionNames(fields: seq<string>): (r: seq<string>)
    ensures |r| == |fields| + 2
    ensures r[0] == "help" && r[1] == "version"
    ensures forall i :: 0 <= i < |fields| ==> r[i + 2] == Hyphenated(fields[i])
  {
    ["help", "version"] + HyphenatedAll(fields)
  }

  /** Builds the option-name list by pushing the reserved names and then one name per field. */
  method OptionsFromStruct(fields: seq<string>) returns (options: seq<string>)
    ensures options == OptionNames(fields)
  {
    options := [];
    options := options + ["help"];
    options := options + ["version"];
    for i := 0 to |fields|
      invariant |options| == i + 2
      invariant options[0] == "help" && options[1] == "version"
      invariant forall k :: 0 <= k < i ==> options[k + 2] == Hyphenated(fields[k])
    {
      options := options + [Hyphenated(fields[i])];
    }
  }

  /** The short character proposed for `option`. `help` and `version` get `h` and `V`;
      otherwise the first character, unless `options` holds that character as a
      one-character string, in which case its ASCII upper-case form, unless that is
      held too. */
  function CharFromOption(option: string, options: seq<string>): (r: Result<char, ArgsError>)
    ensures option == "help" ==> r == Success('h')
    ensures option == "version" ==> r == Success('V')
    ensures option != "help" && option != "version" && r.Success? ==>
              |option| > 0 && [r.value] !in options &&
              (r.value == option[0] || r.value == AsciiUpper(option[0]))
    ensures option != "help" && option != "version" && |option| > 0 && [option[0]] !in options ==>
              r == Success(option[0])
    ensures r.Failure? <==>
              option != "help" && option != "version" &&
              (|option| == 0 || ([option[0]] in options && [AsciiUpper(option[0])] in options))
    ensures r.Failure? ==> r.error == (if |option| == 0 then EmptyName else TooMany)
  {
    if option == "help" then Success('h')
    else if option == "version" then Success('V')
    else if |option| == 0 then Failure(EmptyName)
    else if [option[0]] !in options then Success(option[0])
    else if [AsciiUpper(option[0])] !in options then Success(AsciiUpper(option[0]))
    else Failure(TooMany)
  }

  /** The short character ignores other options that merely share the first character:
      only one-character option strings move it to upper case. */
  lemma CharFromOptionIgnoresSharedInitials(option: string, options: seq<string>)
    requires option != "help" && option != "version" && |option| > 0
    requires forall o :: o in options ==> |o| != 1
    ensures CharFromOption(option, options) == Success(option[0])
  {
  }

  /** The fields, in order, whose first character is `ch`. */
  function FirstCharMatches(fields: seq<string>, ch: char): (r: seq<string>)
    ensures |r| <= |fields|
  {
    if |fields| == 0 then []
    else
      var last := fields[|fields| - 1];
      FirstCharMatches(fields[..|fields| - 1], ch) + (if |last| > 0 && last[0] == ch then [last] else [])
  }

  /** The matches are exactly the fields whose first character is `ch`. */
  lemma {:induction false} FirstCharMatchesMembers(fields: seq<string>, ch: char)
    ensures forall x :: x in FirstCharMatches(fields, ch) <==> x in fields && |x| > 0 && x[0] == ch
  {
    if |fields| > 0 {
      var init := fields[..|fields| - 1];
      FirstCharMatchesMembers(init, ch);
      assert fields == init + [fields[|fields| - 1]];
    }
  }

  /** The field a short character stands for. `h` and `V` are `help` and `version` whatever
      the fields are; any other character selects the fields whose first character is its
      ASCII lower-case form: one such field answers to either case, of two the first answers
      to a lower-case and the second to any other character, and none or more than two fail. */
  function OptionForChar(fields: seq<string>, c: char): (r: Result<string, ArgsError>)
    ensures c == 'h' ==> r == Success("help")
    ensures c == 'V' ==> r == Success("version")
    ensures c != 'h' && c != 'V' && r.Success? ==>
              r.value in fields && |r.value| > 0 && r.value[0] == AsciiLower(c)
    ensures r == Failure(NotFound) <==>
              c != 'h' && c != 'V' && "" !in fields &&
              forall f :: f in fields ==> f[0] != AsciiLower(c)
    ensures r == Failure(EmptyName) <==> c != 'h' && c != 'V' && "" in fields
  {
    if c == 'h' then Success("help")
    else if c == 'V' then Success("version")
    else if "" in fields then Failure(EmptyName)
    else
      var matches := FirstCharMatches(fields, AsciiLower(c));
      FirstCharMatchesMembers(fields, AsciiLower(c));
      assert |matches| == 0 ==> forall f :: f in fields ==> f[0] != AsciiLower(c);
      assert |matches| > 0 ==> matches[0] in matches;
      PickMatch(c, matches)
  }

  /** The choice among the fields matching `c`: the only one, or of two the first for a
      lower-case character and the second otherwise. */
  function PickMatch(c: char, matches: seq<string>): (r: Result<string, ArgsError>)
    ensures r.Success? ==> r.value in matches
    ensures r.Failure? ==> r.error == (if |matches| == 0 then NotFound else TooMany)
    ensures r == Failure(NotFound) <==> |matches| == 0
    ensures |matches| == 1 ==> r == Success(matches[0])
    ensures |matches| == 2 ==> r == Success(if IsAsciiLowercase(c) then matches[0] else matches[1])
    ensures |matches| > 2 ==> r == Failure(TooMany)
  {
    if |matches| != 0 then
      if |matches| == 1 then Success(matches[0])
      else if |matches| == 2 then
        if IsAsciiLowercase(c) then Success(matches[0]) else Success(matches[1])
      else Failure(TooMany)
    else Failure(NotFound)
  }

  /** Collects the fields whose first character matches, stopping at a field with none. */
  method OptionFromChar(c: char, fields: seq<string>) returns (r: Result<string, ArgsError>)
    ensures r == OptionForChar(fields, c)
  {
    if c == 'h' {
      return Success("help");
    } else if c == 'V' {
      return Success("version");
    }
    var firstCharMatches: seq<string> := [];
    for i := 0 to |fields|
      invariant "" !in fields[..i]
      invariant firstCharMatches == FirstCharMatches(fields[..i], AsciiLower(c))
    {
      var key := fields[i];
      if |key| == 0 {
        assert key in fields;
        return Failure(EmptyName);
      }
      assert fields[..i + 1] == fields[..i] + [key];
      if key[0] == AsciiLower(c) {
        firstCharMatches := firstCharMatches + [key];
      }
    }
    assert fields[..|fields|] == fields;
    assert "" !in fields;
    return PickMatch(c, firstCharMatches);
  }

  lemma MatchesOfNone(fields: seq<string>, ch: char)
    requires forall j :: 0 <= j < |fields| ==> |fields[j]| == 0 || fields[j][0] != ch
    ensures FirstCharMatches(fields, ch) == []
  {
  }

  lemma {:induction false} MatchesOfOne(fields: seq<string>, ch: char, i: nat)
    requires i < |fields| && |fields[i]| > 0 && fields[i][0] == ch
    requires forall j :: 0 <= j < |fields| && j != i ==> |fields[j]| == 0 || fields[j][0] != ch
    ensures FirstCharMatches(fields, ch) == [fields[i]]
  {
    var n := |fields|;
    var init := fields[..n - 1];
    if i == n - 1 {
      MatchesOfNone(init, ch);
    } else {
      MatchesOfOne(init, ch, i);
    }
  }

  lemma {:induction false} MatchesOfTwo(fields: seq<string>, ch: char, i: nat, j: nat)
    requires i < j < |fields|
    requires |fields[i]| > 0 && fields[i][0] == ch && |fields[j]| > 0 && fields[j][0] == ch
    requires forall k :: 0 <= k < |fields| && k != i && k != j ==> |fields[k]| == 0 || fields[k][0] != ch
    ensures FirstCharMatches(fields, ch) == [fields[i], fields[j]]
  {
    var n := |fields|;
    var init := fields[..n - 1];
    if j == n - 1 {
      MatchesOfOne(init, ch, i);
    } else {
      MatchesOfTwo(init, ch, i, j);
    }
  }

  lemma {:induction false} MatchesAtLeast(fields: seq<string>, ch: char, picks: seq<nat>)
    requires forall a :: 0 <= a < |picks| ==> picks[a] < |fields|
    requires forall a, b :: 0 <= a < b < |picks| ==> picks[a] < picks[b]
    requires forall a :: 0 <= a < |picks| ==> |fields[picks[a]]| > 0 && fields[picks[a]][0] == ch
    ensures |FirstCharMatches(fields, ch)| >= |picks|
    decreases |fields|
  {
    if |picks| > 0 {
      var n := |fields|;
      var last := picks[|picks| - 1];
      var init := fields[..n - 1];
      var rest := picks[..|picks| - 1];
      if last == n - 1 {
        MatchesAtLeast(init, ch, rest);
      } else {
        MatchesAtLeast(init, ch, picks);
      }
    }
  }

  /** A field whose first character no other field shares answers to that character in
      either ASCII case (unless the character is one of the reserved `h` and `V`). */
  lemma ShortNameOfUniqueInitial(fields: seq<string>, i: nat, c: char)
    requires "" !in fields && i < |fields|
    requires c != 'h' && c != 'V' && fields[i][0] == AsciiLower(c)
    requires forall j :: 0 <= j < |fields| && j != i ==> fields[j][0] != fields[i][0]
    ensures OptionForChar(fields, c) == Success(fields[i])
  {
    MatchesOfOne(fields, AsciiLower(c), i);
  }

  /** Two fields sharing a first character: a lower-case character selects the one earlier in
      `fields` (the JSON object's key order), any other character with the same lower-case form
      selects the later one. */
  lemma ShortNamesOfSharedInitial(fields: seq<string>, i: nat, j: nat, c: char)
    requires "" !in fields && i < j < |fields|
    requires c != 'h' && c != 'V'
    requires fields[i][0] == AsciiLower(c) && fields[j][0] == AsciiLower(c)
    requires forall k :: 0 <= k < |fields| && k != i && k != j ==> fields[k][0] != AsciiLower(c)
    ensures OptionForChar(fields, c) == Success(if IsAsciiLowercase(c) then fields[i] else fields[j])
  {
    MatchesOfTwo(fields, AsciiLower(c), i, j);
  }

  /** Three fields sharing a first character cannot be told apart by any character with that
      lower-case form. */
  lemma ShortNameTooSimilar(fields: seq<string>, i: nat, j: nat, k: nat, c: char)
    requires "" !in fields && i < j < k < |fields|
    requires c != 'h' && c != 'V'
    requires fields[i][0] == AsciiLower(c) && fields[j][0] == AsciiLower(c) && fields[k][0] == AsciiLower(c)
    ensures OptionForChar(fields, c) == Failure(TooMany)
  {
    MatchesAtLeast(fields, AsciiLower(c), [i, j, k]);
  }
}
