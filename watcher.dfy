/**
 * The text-to-metrics pipeline of the UPS watcher (main.py): the
 * `apcaccess status` dump is parsed into a key/value map, the watched keys
 * are normalised (numbers read, durations converted to seconds, "N/A"
 * dropped, other fields passed through as text), and only the numeric
 * results are forwarded to the metrics sink.
 *
 * The pure functions in this module are the specification; the class
 * `UpsWatcher` holds the step-by-step methods, each proved against them.
 */
module Watcher {
  import opened Strings
  import opened Numbers

  /** A normalised field: a number, or the raw text of a pass-through field. */
  datatype Value = Num(n: real) | Str(s: string)

  /** What one watched field contributes to the result of `process_values`. */
  datatype Outcome = Skip | Keep(v: Value) | Raise(token: string)

  /** A call that either returns or raises the `ValueError` of `float(token)`. */
  datatype Result<T> = Ok(value: T) | Err(token: string)

  /** The sentinel `apcaccess` prints for a value that does not apply. */
  const NotApplicable: string := "N/A"

  /** `<number> <unit>` fields whose unit word is discarded. */
  const PlainNumberFields: set<string> := {"BCHARGE", "MBATTCHG", "BATTV", "NOMBATTV"}

  /** `<number> <unit>` fields that are converted to seconds. */
  const DurationFields: set<string> :=
    {"TIMELEFT", "MINTIMEL", "MAXTIME", "ALARMDEL", "TONBATT", "CUMONBATT"}

  // ---------------------------------------------------------------------
  // Snapshot parser: `apcaccess_output_to_dict`
  // ---------------------------------------------------------------------

  /**
   * One line of the dump: `line.split(':')` must give exactly two parts,
   * which become the stripped key and value. Any other line adds nothing,
   * in particular a line whose value itself holds a colon.
   */
  function ParseLine(line: string): Option<(string, string)>
  {
    var parts := Split(line, ':');
    if |parts| == 2 then Some((Strip(parts[0]), Strip(parts[1]))) else None
  }

  /** The map built from `lines` in order; a later line overwrites an earlier key. */
  function Entries(lines: seq<string>): map<string, string>
    decreases |lines|
  {
    if lines == [] then map[]
    else
      var m := Entries(lines[..|lines| - 1]);
      match ParseLine(lines[|lines| - 1])
      case None => m
      case Some((k, v)) => m[k := v]
  }

  /** The map `apcaccess_output_to_dict` returns for a whole dump. */
  function StatusMap(output: string): map<string, string>
  {
    Entries(Split(output, '\n'))
  }

  // ---------------------------------------------------------------------
  // Value normaliser: `process_values`
  // ---------------------------------------------------------------------

  /** Seconds per unit word of a duration; an unknown word counts as seconds. */
  function Multiplier(unit: string): (m: real)
    ensures m >= 1.0
  {
    if unit == "Days" then 3600.0 * 24.0
    else if unit == "Hours" then 3600.0
    else if unit == "Minutes" then 60.0
    else 1.0
  }

  /** `float(token)` as a field outcome. */
  function Number(token: string): Outcome
  {
    match ParseFloat(token)
    case Some(x) => Keep(Num(x))
    case None => Raise(token)
  }

  /** A duration `<number> <unit>` already split into its two words, in seconds. */
  function Seconds(number: string, unit: string): Outcome
  {
    match ParseFloat(number)
    case Some(x) => Keep(Num(x * Multiplier(unit)))
    case None => Raise(number)
  }

  /** The decision table for one watched key and its raw value. */
  function Convert(key: string, value: string): (o: Outcome)
    ensures o.Raise? ==> key in PlainNumberFields || key in DurationFields
    ensures o.Keep? && o.v.Str? ==> key !in PlainNumberFields && key !in DurationFields && o.v.s == value
  {
    if value == NotApplicable then Skip
    else if key in PlainNumberFields then Number(Split(value, ' ')[0])
    else if key in DurationFields then
      var words := Split(value, ' ');
      if |words| != 2 then Skip else Seconds(words[0], words[1])
    else Keep(Str(value))
  }

  /** Some watched key's value makes `float` raise, so `process_values` raises. */
  predicate Raises(values: map<string, string>, watchlist: seq<string>)
  {
    exists k :: k in values && k in watchlist && Convert(k, values[k]).Raise?
  }

  /** The map `process_values` returns when it does not raise. */
  function Normalized(values: map<string, string>, watchlist: seq<string>): (r: map<string, Value>)
    ensures forall k :: k in r ==> k in values && k in watchlist
    ensures forall k :: k in r ==> values[k] != NotApplicable
  {
    map k | k in values && k in watchlist && Convert(k, values[k]).Keep? :: Convert(k, values[k]).v
  }

  // ---------------------------------------------------------------------
  // Emission filter: `send_to_datadog`
  // ---------------------------------------------------------------------

  /** The names of the entries handed to the sink. */
  function Names(sent: seq<(string, real)>): set<string>
  {
    set i | 0 <= i < |sent| :: sent[i].0
  }

  /**
   * `sent` is what `send_to_datadog` hands to the sink for `metrics`:
   * every numeric entry exactly once, with its value, and nothing else.
   */
  predicate Emits(sent: seq<(string, real)>, metrics: map<string, Value>)
  {
    && (forall i :: 0 <= i < |sent| ==> sent[i].0 in metrics && metrics[sent[i].0] == Num(sent[i].1))
    && (forall i, j :: 0 <= i < j < |sent| ==> sent[i].0 != sent[j].0)
    && (forall k :: k in metrics && metrics[k].Num? ==> k in Names(sent))
  }

  /** The numeric part of a normalised map, as a name-to-number map. */
  function Metrics(metrics: map<string, Value>): (r: map<string, real>)
    ensures forall k :: k in r <==> k in metrics && metrics[k].Num?
  {
    map k | k in metrics && metrics[k].Num? :: metrics[k].n
  }

  /** The watcher; its watch list is fixed when it is constructed. */
  class UpsWatcher {
    const watchlist: seq<string>

    constructor (watchlist: seq<string>)
      ensures this.watchlist == watchlist
    {
      this.watchlist := watchlist;
    }

    /** `apcaccess_output_to_dict`: never fails, whatever the text. */
    static method OutputToDict(output: string) returns (result: map<string, string>)
      ensures result == StatusMap(output)
    {
      var lines := Split(output, '\n');
      result := map[];
      for i := 0 to |lines|
        invariant result == Entries(lines[..i])
      {
        assert lines[..i + 1][..i] == lines[..i];
        var parts := Split(lines[i], ':');
        if |parts| != 2 {
          continue;
        }
        var key, value := Strip(parts[0]), Strip(parts[1]);
        result := result[key := value];
      }
      assert lines[..|lines|] == lines;
    }

    /**
     * `process_values`: keeps the watched keys, drops "N/A", reads numbers
     * and durations, passes other fields through; raises, with the whole
     * call, as soon as one numeric token does not parse.
     */
    method ProcessValues(values: map<string, string>) returns (r: Result<map<string, Value>>)
      ensures r.Err? <==> Raises(values, watchlist)
      ensures r.Ok? ==> r.value == Normalized(values, watchlist)
      ensures r.Err? ==> exists k :: k in values && k in watchlist && Convert(k, values[k]) == Raise(r.token)
    {
      var finalValues: map<string, Value> := map[];
      var todo := values.Keys;
      while todo != {}
        invariant todo <= values.Keys
        invariant forall k :: k in finalValues <==>
          k in values && k !in todo && k in watchlist && Convert(k, values[k]).Keep?
        invariant forall k :: k in finalValues ==> finalValues[k] == Convert(k, values[k]).v
        invariant forall k :: k in values && k !in todo && k in watchlist ==> !Convert(k, values[k]).Raise?
        decreases todo
      {
        var key :| key in todo;
        todo := todo - {key};
        var value := values[key];
        if key !in watchlist {
          continue;
        }
        var finalValue: Value;
        if value == NotApplicable {
          continue;
        } else if key in PlainNumberFields {
          var number := ParseFloat(Split(value, ' ')[0]);
          if number.None? {
            return Err(Split(value, ' ')[0]);
          }
          finalValue := Num(number.value);
        } else if key in DurationFields {
          var split := Split(value, ' ');
          if |split| != 2 {
            continue;
          }
          match Seconds(split[0], split[1])
          case Raise(token) =>
            return Err(token);
          case Keep(v) =>
            finalValue := v;
          case Skip =>
            assert false;
            continue;
        } else {
          finalValue := Str(value);
        }
        finalValues := finalValues[key := finalValue];
      }
      r := Ok(finalValues);
    }

    /** `send_to_datadog`: forwards each numeric entry and skips the text ones. */
    method SendToDatadog(metrics: map<string, Value>) returns (sent: seq<(string, real)>)
      ensures Emits(sent, metrics)
    {
      sent := [];
      var todo := metrics.Keys;
      while todo != {}
        invariant todo <= metrics.Keys
        invariant forall i :: 0 <= i < |sent| ==>
          sent[i].0 in metrics && sent[i].0 !in todo && metrics[sent[i].0] == Num(sent[i].1)
        invariant forall i, j :: 0 <= i < j < |sent| ==> sent[i].0 != sent[j].0
        invariant forall k :: k in metrics && k !in todo && metrics[k].Num? ==> k in Names(sent)
        decreases todo
      {
        var name :| name in todo;
        todo := todo - {name};
        var value := metrics[name];
        if !value.Num? {
          continue;
        }
        assert Names(sent + [(name, value.n)]) == Names(sent) + {name} by {
          var grown := sent + [(name, value.n)];
          assert grown[|sent|].0 == name;
          assert forall i :: 0 <= i < |sent| ==> grown[i] == sent[i];
        }
        sent := sent + [(name, value.n)];
      }
    }

    /** One cycle of `start`, given the text `apcaccess status` printed. */
    method PollOnce(output: string) returns (r: Result<seq<(string, real)>>)
      ensures r.Err? <==> Raises(StatusMap(output), watchlist)
      ensures r.Ok? ==> Emits(r.value, Normalized(StatusMap(output), watchlist))
      ensures r.Err? ==>
        exists k :: k in StatusMap(output) && k in watchlist && Convert(k, StatusMap(output)[k]) == Raise(r.token)
    {
      var values := OutputToDict(output);
      var processed := ProcessValues(values);
      if processed.Err? {
        return Err(processed.token);
      }
      var sent := SendToDatadog(processed.value);
      r := Ok(sent);
    }
  }
}
