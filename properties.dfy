/**
 * What the watcher's pipeline promises, stated over the specification
 * functions of module `Watcher`: how a line of the dump is accepted, which
 * line wins for a repeated key, how each watched field is read, and what
 * reaches the metrics sink.
 */
module WatcherProperties {
  import opened Strings
  import opened Numbers
  import opened Watcher

  // ---------------------------------------------------------------------
  // Snapshot parser
  // ---------------------------------------------------------------------

  /** `line` is accepted and stores a value under `key`. */
  predicate Defines(line: string, key: string) {
    ParseLine(line).Some? && ParseLine(line).value.0 == key
  }

  /** Occurrences in a concatenation add up. */
  lemma {:induction false} CountAppend(a: string, b: string, c: char)
    ensures Count(a + b, c) == Count(a, c) + Count(b, c)
    decreases |a|
  {
    if a == [] {
      assert a + b == b;
    } else {
      CountAppend(a[1..], b, c);
      assert (a + b)[0] == a[0];
      assert (a + b)[1..] == a[1..] + b;
      assert Count(a + b, c) == (if a[0] == c then 1 else 0) + Count(a[1..] + b, c);
    }
  }

  /** A line is accepted exactly when it holds one colon: none, or two and
      more, make `line.split(':')` give other than two parts. */
  lemma ParseLineOneColon(line: string)
    ensures ParseLine(line).Some? <==> Count(line, ':') == 1
  {
    SplitCount(line, ':');
  }

  /** An accepted line stores its two halves around the colon, stripped. */
  lemma ParseLineHalves(key: string, value: string)
    requires ':' !in key && ':' !in value
    ensures ParseLine(key + ":" + value) == Some((Strip(key), Strip(value)))
  {
    SplitTwo(key, ':', value);
  }

  /** A value that itself holds a colon (a timestamp) drops its whole line. */
  lemma ParseLineColonInValue(key: string, value: string)
    requires ':' in value
    ensures ParseLine(key + ":" + value) == None
  {
    CountAppend(key + ":", value, ':');
    CountAppend(key, ":", ':');
    CountZero(value, ':');
    SplitCount(key + ":" + value, ':');
  }

  /** Two colons anywhere in a line drop it. */
  lemma ParseLineTwoColons(line: string, i: nat, j: nat)
    requires i < j < |line| && line[i] == ':' && line[j] == ':'
    ensures ParseLine(line) == None
  {
    CountTwoAt(line, ':', i, j);
    SplitCount(line, ':');
  }

  /** Two occurrences at distinct positions count at least twice. */
  lemma {:induction false} CountTwoAt(s: string, c: char, i: nat, j: nat)
    requires i < j < |s| && s[i] == c && s[j] == c
    ensures Count(s, c) >= 2
    decreases |s|
  {
    if i == 0 {
      assert s[1..][j - 1] == c;
      CountZero(s[1..], c);
    } else {
      CountTwoAt(s[1..], c, i - 1, j - 1);
    }
  }

  /** The `DATE` line of a status dump is dropped: its timestamp holds colons. */
  lemma DateLineDropped()
    ensures ParseLine("DATE     : 2022-07-29 10:09:40 +0100") == None
  {
    ParseLineTwoColons("DATE     : 2022-07-29 10:09:40 +0100", 9, 24);
  }

  /** The `STARTTIME` line is dropped the same way. */
  lemma StartTimeLineDropped()
    ensures ParseLine("STARTTIME: 2022-07-28 17:04:29 +0100") == None
  {
    ParseLineTwoColons("STARTTIME: 2022-07-28 17:04:29 +0100", 9, 24);
  }

  /** The `END APC` footer line is dropped the same way. */
  lemma EndApcLineDropped()
    ensures ParseLine("END APC  : 2022-07-29 10:09:40 +0100") == None
  {
    ParseLineTwoColons("END APC  : 2022-07-29 10:09:40 +0100", 9, 24);
  }

  /** The stored key and value are stripped and hold no colon. */
  lemma ParseLineStripped(line: string)
    requires ParseLine(line).Some?
    ensures var (k, v) := ParseLine(line).value;
      && Strip(k) == k && Strip(v) == v && ':' !in k && ':' !in v
  {
    var parts := Split(line, ':');
    SplitPiecesFree(line, ':');
    StripIdempotent(parts[0]);
    StripIdempotent(parts[1]);
    StripWithout(parts[0], ':');
    StripWithout(parts[1], ':');
  }

  /** Stripping cannot introduce a character. */
  lemma StripWithout(s: string, c: char)
    requires c !in s
    ensures c !in Strip(s)
  {
    var t := Strip(s);
    var i := |s| - |TrimLeft(s)|;
    StripSpec(s);
    assert forall k :: 0 <= k < |t| ==> t[k] == s[i + k];
  }

  /** Line `i` stores `value` under `key` and no later line defines `key`. */
  predicate LastDefinition(lines: seq<string>, i: int, key: string, value: string) {
    && 0 <= i < |lines|
    && ParseLine(lines[i]) == Some((key, value))
    && forall j :: i < j < |lines| ==> !Defines(lines[j], key)
  }

  /** For a repeated key the map holds the value of its LAST accepted line:
      a later line overwrites, nothing accumulates. */
  lemma {:induction false} EntriesLastWins(lines: seq<string>, key: string)
    requires key in Entries(lines)
    ensures exists i :: LastDefinition(lines, i, key, Entries(lines)[key])
    decreases |lines|
  {
    var n := |lines| - 1;
    var init := lines[..n];
    var value := Entries(lines)[key];
    if Defines(lines[n], key) {
      assert ParseLine(lines[n]) == Some((key, value));
      assert LastDefinition(lines, n, key, value);
    } else {
      assert value == Entries(init)[key];
      EntriesLastWins(init, key);
      var i :| LastDefinition(init, i, key, value);
      LastDefinitionExtend(init, lines[n], i, key, value);
      assert init + [lines[n]] == lines;
    }
  }

  /** A line that does not define `key` keeps the last definition the last one. */
  lemma LastDefinitionExtend(lines: seq<string>, line: string, i: int, key: string, value: string)
    requires LastDefinition(lines, i, key, value) && !Defines(line, key)
    ensures LastDefinition(lines + [line], i, key, value)
  {
    var longer := lines + [line];
    assert forall j :: 0 <= j < |lines| ==> longer[j] == lines[j];
    assert longer[|lines|] == line;
  }

  /** A key that some accepted line defines is in the map. */
  lemma {:induction false} EntriesHasDefined(lines: seq<string>, i: int, key: string)
    requires 0 <= i < |lines| && Defines(lines[i], key)
    ensures key in Entries(lines)
    decreases |lines|
  {
    var n := |lines| - 1;
    if i < n {
      assert lines[..n][i] == lines[i];
      EntriesHasDefined(lines[..n], i, key);
    }
  }

  /** A key is in the map exactly when some accepted line defines it. */
  lemma EntriesKeys(lines: seq<string>, key: string)
    ensures key in Entries(lines) <==> exists i :: 0 <= i < |lines| && Defines(lines[i], key)
  {
    if key in Entries(lines) {
      EntriesLastWins(lines, key);
      var i :| LastDefinition(lines, i, key, Entries(lines)[key]);
      assert Defines(lines[i], key);
    } else {
      forall i | 0 <= i < |lines| && Defines(lines[i], key)
        ensures false
      {
        EntriesHasDefined(lines, i, key);
      }
    }
  }

  /** Every stored key and value is a stripped, colon-free text. */
  lemma EntriesStripped(lines: seq<string>, key: string)
    requires key in Entries(lines)
    ensures Strip(key) == key && Strip(Entries(lines)[key]) == Entries(lines)[key]
    ensures ':' !in key && ':' !in Entries(lines)[key]
  {
    EntriesLastWins(lines, key);
    var i :| LastDefinition(lines, i, key, Entries(lines)[key]);
    ParseLineStripped(lines[i]);
  }

  /** A dump of one `KEY : VALUE` line parses back to that one entry. */
  lemma RenderRoundTrip(key: string, value: string)
    requires ':' !in key && ':' !in value && '\n' !in key && '\n' !in value
    requires Strip(key) == key && Strip(value) == value
    ensures StatusMap(key + " : " + value) == map[key := value]
  {
    var line := key + " : " + value;
    RenderLine(key, value);
    SplitNoSeparator(line, '\n');
    assert [line][..0] == [];
    assert Entries([line]) == map[key := value];
  }

  /** Two lines for the same key: the later value is the one kept. */
  lemma RenderTwice(key: string, first: string, second: string)
    requires ':' !in key && ':' !in first && ':' !in second
    requires '\n' !in key && '\n' !in first && '\n' !in second
    requires Strip(key) == key && Strip(first) == first && Strip(second) == second
    ensures StatusMap((key + " : " + first) + "\n" + (key + " : " + second)) == map[key := second]
  {
    var line1, line2 := key + " : " + first, key + " : " + second;
    RenderLine(key, first);
    RenderLine(key, second);
    SplitTwo(line1, '\n', line2);
    assert [line1][..0] == [];
    assert Entries([line1]) == map[key := first];
    assert [line1, line2][..1] == [line1];
    assert Entries([line1, line2]) == map[key := first][key := second];
  }

  /** Worked example: `A : 1` followed by `A : 2` leaves `A` mapped to `2`. */
  lemma SampleDuplicateKey(output: string)
    requires output == "A : 1\nA : 2"
    ensures StatusMap(output) == map["A" := "2"]
  {
    StripNoPadding("A");
    StripNoPadding("1");
    StripNoPadding("2");
    assert output == ("A" + " : " + "1") + "\n" + ("A" + " : " + "2");
    RenderTwice("A", "1", "2");
  }

  /** The line `KEY : VALUE`, as `apcaccess` prints it, is accepted and
      gives back its key and value. */
  lemma RenderLine(key: string, value: string)
    requires ':' !in key && ':' !in value && '\n' !in key && '\n' !in value
    requires Strip(key) == key && Strip(value) == value
    ensures '\n' !in key + " : " + value
    ensures ParseLine(key + " : " + value) == Some((key, value))
  {
    var line := key + " : " + value;
    assert line == (key + " ") + ":" + (" " + value);
    assert '\n' !in line by {
      assert forall k :: 0 <= k < |line| ==>
        line[k] == (if k < |key| then key[k] else if k < |key| + 3 then " : "[k - |key|] else value[k - |key| - 3]);
    }
    assert ':' !in key + " " && ':' !in " " + value;
    ParseLineHalves(key + " ", " " + value);
    StripPadded("", key, " ");
    assert "" + key + " " == key + " ";
    StripPadded(" ", value, "");
    assert " " + value + "" == " " + value;
  }

  // ---------------------------------------------------------------------
  // Value normaliser
  // ---------------------------------------------------------------------

  /** Percent and voltage fields keep the number before the first space;
      the unit word is discarded, and a non-number raises. */
  lemma PlainNumberReading(key: string, value: string, word: string)
    requires key in PlainNumberFields && value != NotApplicable
    requires word <= value && ' ' !in word && (|word| == |value| || value[|word|] == ' ')
    ensures ParseFloat(word).Some? ==> Convert(key, value) == Keep(Num(ParseFloat(word).value))
    ensures ParseFloat(word).None? ==> Convert(key, value) == Raise(word)
  {
    FirstPieceUnique(value, ' ', word);
  }

  /** A duration `<number> <unit>` becomes number times the unit's seconds;
      a non-number raises. */
  lemma DurationReading(key: string, number: string, unit: string)
    requires key in DurationFields && ' ' !in number && ' ' !in unit
    ensures ParseFloat(number).Some? ==>
      Convert(key, number + " " + unit) == Keep(Num(ParseFloat(number).value * Multiplier(unit)))
    ensures ParseFloat(number).None? ==> Convert(key, number + " " + unit) == Raise(number)
  {
    var value := number + " " + unit;
    DurationIsNotPlain(key);
    SplitTwo(number, ' ', unit);
    SpacedIsApplicable(value, |number|);
    assert Convert(key, value) == Seconds(number, unit);
  }

  /** A value with a space in it is not the "N/A" sentinel. */
  lemma SpacedIsApplicable(value: string, i: nat)
    requires i < |value| && value[i] == ' '
    ensures value != NotApplicable
  {
  }

  /** A duration that is not exactly two words on single spaces is dropped. */
  lemma DurationMalformed(key: string, value: string)
    requires key in DurationFields && Count(value, ' ') != 1
    ensures Convert(key, value) == Skip
  {
    DurationIsNotPlain(key);
    SplitCount(value, ' ');
  }

  /** The two numeric field groups do not overlap. */
  lemma DurationIsNotPlain(key: string)
    requires key in DurationFields
    ensures key !in PlainNumberFields
  {
  }

  /** The unit table: days, hours and minutes in seconds; any other word is 1. */
  lemma UnitSeconds(unit: string)
    ensures unit == "Days" ==> Multiplier(unit) == 86400.0
    ensures unit == "Hours" ==> Multiplier(unit) == 3600.0
    ensures unit == "Minutes" ==> Multiplier(unit) == 60.0
    ensures unit !in {"Days", "Hours", "Minutes"} ==> Multiplier(unit) == 1.0
  {
  }

  /** Any other watched field keeps its raw text. */
  lemma PassThroughVerbatim(key: string, value: string)
    requires key !in PlainNumberFields && key !in DurationFields && value != NotApplicable
    ensures Convert(key, value) == Keep(Str(value))
  {
  }

  /** The "N/A" sentinel never reaches the output, whatever the key. */
  lemma NotApplicableDropped(values: map<string, string>, watchlist: seq<string>, key: string)
    requires key in values && values[key] == NotApplicable
    ensures key !in Normalized(values, watchlist)
  {
  }

  /** An unwatched key never reaches the output, whatever its value. */
  lemma UnwatchedDropped(values: map<string, string>, watchlist: seq<string>, key: string)
    requires key !in watchlist
    ensures key !in Normalized(values, watchlist)
  {
  }

  /** Removing an unwatched key changes neither the result nor whether the
      call raises. */
  lemma UnwatchedSame(values: map<string, string>, watchlist: seq<string>, key: string)
    requires key !in watchlist
    ensures Normalized(values - {key}, watchlist) == Normalized(values, watchlist)
    ensures Raises(values - {key}, watchlist) <==> Raises(values, watchlist)
  {
    var rest := values - {key};
    assert forall k :: k in rest <==> k in values && k != key;
    assert forall k :: k in rest ==> rest[k] == values[k];
  }

  /** The two digit runs of `99.0`. */
  lemma ChargeDigits(word: string)
    requires word == "99.0"
    ensures |word| == 4 && word[2] == '.' && AllDigits(word[..2]) && AllDigits(word[3..])
    ensures DigitsValue(word[..2]) == 99 && DigitsValue(word[3..]) == 0
  {
    assert word[..2] == "99" && word[3..] == "0";
  }

  /** `99.0` reads as 99. */
  lemma ReadNinetyNine(word: string)
    requires word == "99.0"
    ensures ParseFloat(word) == Some(99.0)
  {
    ChargeDigits(word);
    ParseFixedPoint(word, 2);
  }

  /** Worked example: a battery charge of `99.0 Percent` reads as 99. */
  lemma SampleCharge(key: string, value: string)
    requires key in PlainNumberFields && value == "99.0 Percent"
    ensures Convert(key, value) == Keep(Num(99.0))
  {
    var word := value[..4];
    assert word == "99.0";
    ReadNinetyNine(word);
    PlainNumberReading(key, value, word);
  }

  /** Worked example: a charge of `5\x1c Percent` raises, because `float`
      keeps the separator control that `str.strip()` would remove. */
  lemma SampleSeparatorCharge(key: string, value: string)
    requires key in PlainNumberFields && value == "5\U{1c} Percent"
    ensures Convert(key, value) == Raise("5\U{1c}")
  {
    var word := value[..2];
    assert word == "5\U{1c}";
    ParseFloatSeparator(word, 1);
    PlainNumberReading(key, value, word);
  }

  /** The two digit runs of `157.2`. */
  lemma RunTimeDigits(number: string)
    requires number == "157.2"
    ensures |number| == 5 && number[3] == '.' && AllDigits(number[..3]) && AllDigits(number[4..])
    ensures DigitsValue(number[..3]) == 157 && DigitsValue(number[4..]) == 2
  {
    assert number[..3] == "157" && number[4..] == "2";
    assert "157"[..2] == "15" && "15"[..1] == "1";
    assert DigitsValue("15") == 15;
  }

  /** `157.2` reads as 157 + 2/10. */
  lemma ReadRunTime(number: string)
    requires number == "157.2"
    ensures ParseFloat(number) == Some(157.2)
  {
    RunTimeDigits(number);
    ParseFixedPoint(number, 3);
  }

  /** Worked example: `157.2 Minutes` of run time left is 9432 seconds. */
  lemma SampleTimeLeft(key: string, value: string)
    requires key in DurationFields && value == "157.2 Minutes"
    ensures Convert(key, value) == Keep(Num(9432.0))
  {
    var number, unit := value[..5], value[6..];
    assert value == number + " " + unit by {
      assert value[5] == ' ';
    }
    assert ParseFloat(number) == Some(157.2) by {
      ReadRunTime(number);
    }
    assert ' ' !in number && ' ' !in unit && Multiplier(unit) == 60.0 by {
      assert number == "157.2" && unit == "Minutes";
    }
    DurationReading(key, number, unit);
  }

  /** A duration whose number is a run of zeros is zero seconds, whatever
      its unit word. */
  lemma ZeroDuration(key: string, number: string, unit: string)
    requires key in DurationFields && ' ' !in unit
    requires number != [] && AllDigits(number) && DigitsValue(number) == 0
    ensures Convert(key, number + " " + unit) == Keep(Num(0.0))
  {
    assert ParseFloat(number) == Some(0.0) by {
      DigitsParse(number);
    }
    DurationReading(key, number, unit);
  }

  /** Worked example: `0 Seconds` on battery is zero seconds. */
  lemma SampleZeroDuration(key: string, value: string)
    requires key in DurationFields && value == "0 Seconds"
    ensures Convert(key, value) == Keep(Num(0.0))
  {
    var number, unit := value[..1], value[2..];
    assert value == number + " " + unit by {
      assert value[1] == ' ';
    }
    assert number == "0" && unit == "Seconds";
    assert DigitsValue(number) == 0;
    ZeroDuration(key, number, unit);
  }

  /** The field-by-field outcomes behind `SampleMetrics`. */
  lemma SampleOutcomes(charge: string, left: string, status: string, absent: string,
                       values: map<string, string>, outcomes: map<string, Outcome>)
    requires charge in PlainNumberFields && left in DurationFields
    requires status !in PlainNumberFields && status !in DurationFields
    requires charge != left && charge != status && charge != absent
    requires left != status && left != absent && status != absent
    requires values.Keys == {status, charge, left, absent}
    requires values[status] != NotApplicable
    requires values[charge] == "99.0 Percent" && values[left] == "157.2 Minutes"
    requires values[absent] == NotApplicable
    requires outcomes == map[status := Keep(Str(values[status])), charge := Keep(Num(99.0)),
      left := Keep(Num(9432.0)), absent := Skip]
    ensures forall k :: k in values ==> Convert(k, values[k]) == outcomes[k]
  {
    forall k | k in values
      ensures Convert(k, values[k]) == outcomes[k]
    {
      if k == charge {
        SampleCharge(k, values[k]);
      } else if k == left {
        SampleTimeLeft(k, values[k]);
      } else if k == status {
        PassThroughVerbatim(k, values[k]);
      }
    }
  }

  /** `Normalized` read off the outcome of each field. */
  lemma NormalizedFromOutcomes(values: map<string, string>, watchlist: seq<string>,
                               outcomes: map<string, Outcome>)
    requires outcomes.Keys == values.Keys
    requires forall k :: k in values ==> Convert(k, values[k]) == outcomes[k]
    ensures Normalized(values, watchlist) ==
      map k | k in outcomes && k in watchlist && outcomes[k].Keep? :: outcomes[k].v
    ensures Raises(values, watchlist) <==>
      exists k :: k in outcomes && k in watchlist && outcomes[k].Raise?
  {
  }

  /** The metrics behind `SampleMetrics`: the text fields are not forwarded. */
  lemma SampleNumbers(charge: string, left: string, status: string, model: string, text: string, name: string)
    requires charge != left && charge != status && left != status
    requires model != charge && model != left && model != status
    ensures Metrics(map[status := Str(text), charge := Num(99.0), left := Num(9432.0), model := Str(name)]) ==
      map[charge := 99.0, left := 9432.0]
  {
    var metrics := map[status := Str(text), charge := Num(99.0), left := Num(9432.0), model := Str(name)];
    assert Metrics(metrics).Keys == {charge, left};
  }

  /** No field behind `SampleMetrics` raises. */
  lemma SampleNoRaise(charge: string, left: string, status: string, absent: string, text: string,
                      outcomes: map<string, Outcome>)
    requires outcomes == map[status := Keep(Str(text)), charge := Keep(Num(99.0)),
      left := Keep(Num(9432.0)), absent := Skip]
    ensures forall k :: k in outcomes ==> !outcomes[k].Raise?
  {
  }

  /** The kept fields behind `SampleMetrics`. */
  lemma SampleKept(charge: string, left: string, status: string, absent: string, text: string,
                   watchlist: seq<string>, outcomes: map<string, Outcome>)
    requires charge != left && charge != status && charge != absent
    requires left != status && left != absent && status != absent
    requires status in watchlist && charge in watchlist && left in watchlist
    requires outcomes == map[status := Keep(Str(text)), charge := Keep(Num(99.0)),
      left := Keep(Num(9432.0)), absent := Skip]
    ensures (map k | k in outcomes && k in watchlist && outcomes[k].Keep? :: outcomes[k].v) ==
      map[status := Str(text), charge := Num(99.0), left := Num(9432.0)]
  {
    var kept := map k | k in outcomes && k in watchlist && outcomes[k].Keep? :: outcomes[k].v;
    assert kept.Keys == {status, charge, left};
  }

  /** Four of the fields behind `SampleMetrics`. */
  lemma SampleWatched(charge: string, left: string, status: string, absent: string,
                      values: map<string, string>, watchlist: seq<string>)
    requires charge in PlainNumberFields && left in DurationFields
    requires status !in PlainNumberFields && status !in DurationFields
    requires charge != left && charge != status && charge != absent
    requires left != status && left != absent && status != absent
    requires values.Keys == {status, charge, left, absent}
    requires values[status] == "ONLINE"
    requires values[charge] == "99.0 Percent" && values[left] == "157.2 Minutes"
    requires values[absent] == NotApplicable
    requires status in watchlist && charge in watchlist && left in watchlist
    ensures !Raises(values, watchlist)
    ensures Normalized(values, watchlist) == map[status := Str("ONLINE"), charge := Num(99.0), left := Num(9432.0)]
  {
    var outcomes := map[status := Keep(Str(values[status])), charge := Keep(Num(99.0)),
      left := Keep(Num(9432.0)), absent := Skip];
    SampleOutcomes(charge, left, status, absent, values, outcomes);
    NormalizedFromOutcomes(values, watchlist, outcomes);
    SampleNoRaise(charge, left, status, absent, values[status], outcomes);
    SampleKept(charge, left, status, absent, values[status], watchlist, outcomes);
  }

  /** Adding a field to the dump adds its outcome, if kept, to the result. */
  lemma NormalizedInsert(values: map<string, string>, watchlist: seq<string>, key: string, value: string)
    requires key !in values
    ensures Normalized(values[key := value], watchlist) ==
      if key in watchlist && Convert(key, value).Keep?
      then Normalized(values, watchlist)[key := Convert(key, value).v]
      else Normalized(values, watchlist)
  {
    var grown := values[key := value];
    var before, after := Normalized(values, watchlist), Normalized(grown, watchlist);
    var expected := if key in watchlist && Convert(key, value).Keep?
      then before[key := Convert(key, value).v] else before;
    forall k | k != key
      ensures (k in after <==> k in before) && (k in after ==> after[k] == before[k])
    {
      if k in grown {
        assert k in values && grown[k] == values[k];
      }
    }
    assert after.Keys == expected.Keys;
  }

  /** Adding a field to the dump makes the call raise iff the field raises
      or the call raised already. */
  lemma RaisesInsert(values: map<string, string>, watchlist: seq<string>, key: string, value: string)
    requires key !in values
    ensures Raises(values[key := value], watchlist) <==>
      Raises(values, watchlist) || (key in watchlist && Convert(key, value).Raise?)
  {
    var grown := values[key := value];
    if Raises(values, watchlist) {
      var k :| k in values && k in watchlist && Convert(k, values[k]).Raise?;
      assert grown[k] == values[k];
    }
    if Raises(grown, watchlist) && !(key in watchlist && Convert(key, value).Raise?) {
      var k :| k in grown && k in watchlist && Convert(k, grown[k]).Raise?;
      assert k in values && grown[k] == values[k];
    }
  }

  /**
   * Worked example on five lines of the sample dump (`STATUS`, `BCHARGE`,
   * `TIMELEFT`, `XOFFBATT` and `MODEL`), all watched, stated for any field
   * names of the same kinds: the charge and the run time left become
   * numbers, the status and the model name stay text, the "N/A" field is
   * dropped, and the sink receives exactly the two numbers.
   */
  lemma SampleMetrics(charge: string, left: string, status: string, absent: string, model: string,
                      values: map<string, string>, watchlist: seq<string>)
    requires charge in PlainNumberFields && left in DurationFields
    requires status !in PlainNumberFields && status !in DurationFields
    requires model !in PlainNumberFields && model !in DurationFields
    requires charge != left && charge != status && charge != absent && charge != model
    requires left != status && left != absent && left != model
    requires status != absent && status != model && absent != model
    requires values.Keys == {model, status, charge, left, absent}
    requires values[model] == "Smart-UPS_1500" && values[status] == "ONLINE"
    requires values[charge] == "99.0 Percent" && values[left] == "157.2 Minutes"
    requires values[absent] == NotApplicable
    requires watchlist == [status, charge, left, absent, model]
    ensures !Raises(values, watchlist)
    ensures Normalized(values, watchlist) ==
      map[status := Str("ONLINE"), charge := Num(99.0), left := Num(9432.0), model := Str("Smart-UPS_1500")]
    ensures Metrics(Normalized(values, watchlist)) == map[charge := 99.0, left := 9432.0]
  {
    var rest := values - {model};
    assert rest.Keys == {status, charge, left, absent};
    assert values == rest[model := values[model]];
    SampleWatched(charge, left, status, absent, rest, watchlist);
    PassThroughVerbatim(model, values[model]);
    NormalizedInsert(rest, watchlist, model, values[model]);
    RaisesInsert(rest, watchlist, model, values[model]);
    SampleNumbers(charge, left, status, model, "ONLINE", "Smart-UPS_1500");
  }

  /** Worked example: a duration with no unit word is dropped, not raised. */
  lemma SampleBareDuration()
    ensures Convert("TIMELEFT", "30") == Skip
  {
    DurationMalformed("TIMELEFT", "30");
  }

  // ---------------------------------------------------------------------
  // Emission
  // ---------------------------------------------------------------------

  /** Entries with pairwise distinct names have as many names as entries. */
  lemma {:induction false} DistinctNames(sent: seq<(string, real)>)
    requires forall i, j :: 0 <= i < j < |sent| ==> sent[i].0 != sent[j].0
    ensures |Names(sent)| == |sent|
    decreases |sent|
  {
    if sent != [] {
      var n := |sent| - 1;
      DistinctNames(sent[..n]);
      assert Names(sent) == Names(sent[..n]) + {sent[n].0} by {
        assert forall i :: 0 <= i < n ==> sent[..n][i] == sent[i];
      }
      assert sent[n].0 !in Names(sent[..n]);
    }
  }

  /** What the sink receives is exactly the numeric part of the normalised
      map: one call per numeric entry, with that entry's number. */
  lemma EmitsMetrics(sent: seq<(string, real)>, metrics: map<string, Value>)
    requires Emits(sent, metrics)
    ensures Names(sent) == Metrics(metrics).Keys
    ensures |sent| == |Metrics(metrics)|
    ensures forall i :: 0 <= i < |sent| ==> Metrics(metrics)[sent[i].0] == sent[i].1
  {
    DistinctNames(sent);
    assert Names(sent) == Metrics(metrics).Keys;
  }
}
