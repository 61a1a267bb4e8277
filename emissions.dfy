/** The emissions estimator of the arrivals scraper: the IATA code pulled out of
    the origin or destination text, the coordinate lookup, the split of the
    factor table into manufacturer families, the choice of a factor (table hit
    or family fallback), and `calculate_co2_emission` up to, but not including,
    the floating-point product `round(haversine(...) * factor)`. */
module Emissions {
  import opened Wrappers
  import opened Strings
  import FactorTable

  /** Which listing a run scrapes; it decides whether the listed airport is the origin or the destination. */
  datatype Direction = Arrival | Departure

  /** The airport every listed flight departs from or arrives at (Anchorage). */
  const HomeAirport: string := "ANC"

  /** Latitude and longitude of an airport, in degrees. */
  datatype Coord = Coord(lat: real, lon: real)

  /** The airport database: IATA code to coordinates. */
  type AirportDb = map<string, Coord>

  /** `get_airport_coords`: the latitude and longitude of a known code, `(None, None)` otherwise. */
  function GetAirportCoords(db: AirportDb, code: string): (r: (Option<real>, Option<real>))
    ensures r.0.Some? <==> code in db
    ensures r.1.Some? <==> code in db
    ensures code in db ==> Coord(r.0.value, r.1.value) == db[code]
  {
    if code in db then (Some(db[code].lat), Some(db[code].lon)) else (None, None)
  }

  // ----- IATA extraction -------------------------------------------------------

  /** `text.split('(')[1].split(' / ')[0]`; `None` is the `IndexError` raised when
      the text has no `(`. */
  function ExtractIata(text: string): (r: Option<string>)
    ensures r.None? <==> '(' !in text
  {
    var parts := Split(text, "(");
    SplitPieces(text, "(");
    ContainsChar(text, '(');
    if |parts| < 2 then None else Some(Split(parts[1], " / ")[0])
  }

  /** The first occurrence of a character is where it first appears. */
  lemma FindChar(s: string, c: char, i: nat)
    requires i < |s| && s[i] == c && c !in s[..i]
    ensures Find(s, [c]) == Some(i)
  {
    assert OccursAt(s, [c], i);
    forall j | 0 <= j < i
      ensures !OccursAt(s, [c], j)
    {
      assert s[..i][j] == s[j];
    }
  }

  /** A text without the character has no occurrence of it. */
  lemma FindNoChar(s: string, c: char)
    requires c !in s
    ensures Find(s, [c]) == None
  {
    ContainsChar(s, c);
  }

  /** The IATA code taken from `pre + "(" + mid + tail`, where `pre` and `mid` hold
      no `(` and `tail` is empty or starts a new `(`: the prefix of `mid` that ends
      where the first `" / "` starts, or all of `mid`. A closing `)` is not removed. */
  lemma IataFromParts(pre: string, mid: string, tail: string)
    requires '(' !in pre && '(' !in mid
    requires tail == [] || tail[0] == '('
    ensures var r := ExtractIata(pre + "(" + mid + tail);
      && r.Some? && r.value <= mid && !Contains(r.value, " / ")
      && (r.value == mid || OccursAt(mid, " / ", |r.value|))
      && forall j :: 0 <= j < |r.value| ==> !OccursAt(mid, " / ", j)
  {
    var text := pre + "(" + mid + tail;
    var after := mid + tail;
    assert text[..|pre|] == pre && text[|pre|] == '(';
    FindChar(text, '(', |pre|);
    assert text[|pre| + 1..] == after;
    if tail == [] {
      assert after == mid;
      FindNoChar(mid, '(');
    } else {
      assert after[..|mid|] == mid && after[|mid|] == '(';
      FindChar(after, '(', |mid|);
      assert after[..|mid|] == mid;
    }
    assert Split(after, "(")[0] == mid;
    assert Split(text, "(") == [pre] + Split(after, "(");
    SplitHead(mid, " / ");
  }

  /** The departures branch's guard and the arrivals branch's crash both come from
      a text without `(`. */
  lemma NoParenNoIata(text: string)
    requires '(' !in text
    ensures ExtractIata(text) == None
  {
  }

  /** A needle whose first character is absent from the text does not occur in it. */
  lemma NotContainedFirstChar(s: string, sub: string)
    requires |sub| > 0 && sub[0] !in s
    ensures !Contains(s, sub)
  {
    ContainsIff(s, sub);
    forall i: nat | i + |sub| <= |s|
      ensures !OccursAt(s, sub, i)
    {
      assert s[i..i + |sub|][0] == s[i];
    }
  }

  /** In `code + " / " + rest` with a space-free `code`, the first `" / "` starts
      right after `code`. */
  lemma SlashAfterSpaceFree(code: string, rest: string)
    requires SpaceFree(code)
    ensures OccursAt(code + " / " + rest, " / ", |code|)
    ensures forall j :: 0 <= j < |code| ==> !OccursAt(code + " / " + rest, " / ", j)
  {
    var mid := code + " / " + rest;
    assert mid[|code|..|code| + 3] == " / ";
    forall j | 0 <= j < |code|
      ensures !OccursAt(mid, " / ", j)
    {
      assert mid[j] == code[j];
      if j + 3 <= |mid| {
        assert mid[j..j + 3][0] == mid[j];
      }
    }
  }

  /** The format the listing normally shows, `"City (IATA / ICAO)"`: the code is the
      text between `(` and `" / "`. */
  lemma IataBeforeSlash(pre: string, code: string, rest: string)
    requires '(' !in pre && '(' !in code && '(' !in rest
    requires SpaceFree(code)
    ensures ExtractIata(pre + "(" + code + " / " + rest) == Some(code)
  {
    var mid := code + " / " + rest;
    assert pre + "(" + code + " / " + rest == pre + "(" + mid + [];
    assert '(' !in mid;
    IataFromParts(pre, mid, []);
    var r := ExtractIata(pre + "(" + mid + []).value;
    SlashAfterSpaceFree(code, rest);
    if |r| < |code| {
      assert false;
    } else if |r| > |code| {
      assert false;
    }
    assert r == mid[..|code|] == code;
    assert ExtractIata(pre + "(" + mid + []) == Some(code);
  }

  /** The arrivals listing's `"Seattle (SEA / KSEA)"` yields `SEA`. */
  lemma IataOfSeattle()
    ensures ExtractIata("Seattle (SEA / KSEA)") == Some("SEA")
  {
    assert "Seattle (SEA / KSEA)" == "Seattle " + "(" + "SEA" + " / " + "KSEA)";
    IataBeforeSlash("Seattle ", "SEA", "KSEA)");
  }

  /** Without `" / "`, everything after `(` is the code, closing `)` included. */
  lemma IataKeepsClosingParen(pre: string, code: string)
    requires '(' !in pre && '(' !in code
    requires !Contains(code + ")", " / ")
    ensures ExtractIata(pre + "(" + code + ")") == Some(code + ")")
  {
    var mid := code + ")";
    assert pre + "(" + code + ")" == pre + "(" + mid + [];
    IataFromParts(pre, mid, []);
    var r := ExtractIata(pre + "(" + mid + []).value;
    if r != mid {
      ContainsIff(mid, " / ");
      assert false;
    }
  }

  // ----- Family partition ------------------------------------------------------

  /** `"Boeing" in key`. */
  predicate IsBoeingName(key: string) { Contains(key, "Boeing") }

  /** `"Airbus" in key`. */
  predicate IsAirbusName(key: string) { Contains(key, "Airbus") }

  /** The keys whose factors go into `boeing_values`. */
  function BoeingKeys(table: map<string, real>): set<string>
  {
    set k | k in table && IsBoeingName(k)
  }

  /** The keys whose factors go into `airbus_values`. */
  function AirbusKeys(table: map<string, real>): set<string>
  {
    set k | k in table && IsAirbusName(k)
  }

  /** The keys whose factors go into `non_boeing_airbus_values`. */
  function OtherKeys(table: map<string, real>): set<string>
  {
    set k | k in table && !IsBoeingName(k) && !IsAirbusName(k)
  }

  /** The three groups cover the table's keys, the other group is exactly the keys
      naming neither manufacturer, and it shares no key with the other two. */
  lemma FamilyPartition(table: map<string, real>)
    ensures BoeingKeys(table) + AirbusKeys(table) + OtherKeys(table) == table.Keys
    ensures forall k :: k in OtherKeys(table) <==> k in table && !IsBoeingName(k) && !IsAirbusName(k)
    ensures OtherKeys(table) !! (BoeingKeys(table) + AirbusKeys(table))
  {
  }

  /** The groups are sets of the dict's distinct keys: a key written on several
      lines of the literal contributes one factor. */
  lemma GroupsOfDistinctKeys()
    ensures BoeingKeys(FactorTable.Table) + AirbusKeys(FactorTable.Table) + OtherKeys(FactorTable.Table)
      == set i | 0 <= i < |FactorTable.FactorLiteral| :: FactorTable.FactorLiteral[i].0
  {
    FamilyPartition(FactorTable.Table);
  }

  /** `'Unknown'` is one of the keys averaged into the other group. */
  lemma UnknownInOtherGroup()
    ensures "Unknown" in OtherKeys(FactorTable.Table)
  {
    FactorTable.UnknownEntry();
    UnknownNamesNoMaker();
    OtherKeyOf(FactorTable.Table, "Unknown");
  }

  /** The word "Unknown" names neither manufacturer. */
  lemma UnknownNamesNoMaker()
    ensures !IsBoeingName("Unknown") && !IsAirbusName("Unknown")
  {
    NotContainedFirstChar("Unknown", "Boeing");
    NotContainedFirstChar("Unknown", "Airbus");
  }

  /** A key naming neither manufacturer is in the other group. */
  lemma OtherKeyOf(table: map<string, real>, key: string)
    requires key in table && !IsBoeingName(key) && !IsAirbusName(key)
    ensures key in OtherKeys(table)
  {
  }

  /** An ICAO-style key such as `B737` names neither manufacturer, so it is averaged into the other group. */
  lemma IcaoKeyInOtherGroup(table: map<string, real>, key: string)
    requires key in table && |key| < 6
    ensures key in OtherKeys(table)
  {
    ContainsIff(key, "Boeing");
    ContainsIff(key, "Airbus");
  }

  // ----- Factor selection ------------------------------------------------------

  /** The family means, left opaque: they are floating-point averages over the groups. */
  datatype FamilyAverages = FamilyAverages(boeing: real, airbus: real, other: real)

  /** Where a factor comes from: the table's own entry or one of the three family means. */
  datatype FactorSource = TableEntry(value: real) | BoeingAverage | AirbusAverage | OtherAverage

  /** `re.match(r'B\d+', model)`: a `B` at the start followed by at least one digit. */
  predicate StartsWithBoeingCode(model: string)
  {
    |model| >= 2 && model[0] == 'B' && '0' <= model[1] <= '9'
  }

  /** The match is anchored at the start and reads two characters: what follows them
      does not change it. */
  lemma BoeingCodeReadsTwoCharacters(model: string, rest: string)
    requires |model| >= 2
    ensures StartsWithBoeingCode(model + rest) == StartsWithBoeingCode(model)
  {
    assert (model + rest)[0] == model[0] && (model + rest)[1] == model[1];
  }

  /** ICAO-style type codes match; the manufacturer's name, a bare `B` and other makers' codes do not. */
  lemma BoeingCodeExamples()
    ensures StartsWithBoeingCode("B738") && StartsWithBoeingCode("B77W")
    ensures !StartsWithBoeingCode("Boeing 737-800") && !StartsWithBoeingCode("B") && !StartsWithBoeingCode("A320")
  {
  }

  /** The factor `calculate_co2_emission` multiplies by: an exact table hit is always
      used; otherwise the fallback checks run in order (Boeing name or `B` code,
      then Airbus name, then the rest). */
  function SelectFactor(table: map<string, real>, model: string): (r: FactorSource)
    ensures model in table ==> r == TableEntry(table[model])
    ensures model !in table ==> !r.TableEntry?
    ensures model !in table ==> (r == BoeingAverage <==> IsBoeingName(model) || StartsWithBoeingCode(model))
    ensures model !in table ==> (r == AirbusAverage <==> !IsBoeingName(model) && !StartsWithBoeingCode(model) && IsAirbusName(model))
    ensures model !in table ==> (r == OtherAverage <==> !IsBoeingName(model) && !StartsWithBoeingCode(model) && !IsAirbusName(model))
  {
    if model in table then TableEntry(table[model])
    else if IsBoeingName(model) || StartsWithBoeingCode(model) then BoeingAverage
    else if IsAirbusName(model) then AirbusAverage
    else OtherAverage
  }

  /** The number a factor source stands for. */
  function FactorValue(src: FactorSource, avgs: FamilyAverages): real
  {
    match src
    case TableEntry(v) => v
    case BoeingAverage => avgs.boeing
    case AirbusAverage => avgs.airbus
    case OtherAverage => avgs.other
  }

  /** The sentinel model hits the table with factor 0.0. */
  lemma UnknownModelFactor()
    ensures SelectFactor(FactorTable.Table, "Unknown") == TableEntry(0.0)
  {
    FactorTable.UnknownEntry();
  }

  /** Fallback and partition agree on names: an unseen model that names neither
      manufacturer and does not start with a `B` code gets the mean of exactly the
      group it would join; one naming Airbus (and not Boeing) gets the Airbus mean. */
  lemma FallbackMatchesGroup(table: map<string, real>, model: string)
    requires model !in table
    ensures SelectFactor(table, model) == OtherAverage ==> model in OtherKeys(table[model := 0.0])
    ensures IsAirbusName(model) && !IsBoeingName(model) && !StartsWithBoeingCode(model) ==>
      SelectFactor(table, model) == AirbusAverage && model in AirbusKeys(table[model := 0.0])
  {
  }

  /** Fallback and partition disagree on ICAO-style codes: an unseen `B752` gets the
      Boeing mean, while a key `B752` in the table would be averaged into the other group. */
  lemma IcaoCodeFallsBackToBoeing(table: map<string, real>)
    requires "B752" !in table
    ensures SelectFactor(table, "B752") == BoeingAverage
    ensures "B752" in OtherKeys(table["B752" := 0.0])
  {
    IcaoKeyInOtherGroup(table["B752" := 0.0], "B752");
  }

  // ----- Emission estimate -----------------------------------------------------

  /** What `calculate_co2_emission` produces for one row. */
  datatype Co2Outcome =
    | Raised            // an exception escapes and ends the run
    | UnknownEmission   // the string 'Unknown'
    | Estimated(dep: Coord, dest: Coord, factor: FactorSource)
                        // round(haversine(dep, dest) * factor), not modelled further

  /** The index of the first line break (`\n` or `\r`) in `t`, or `|t|` when it has none. */
  function LineEnd(t: string): (k: nat)
    ensures k <= |t|
    ensures forall j :: 0 <= j < k ==> t[j] != '\n' && t[j] != '\r'
    ensures k < |t| ==> t[k] == '\n' || t[k] == '\r'
  {
    if t == [] then 0
    else if t[0] == '\n' || t[0] == '\r' then 0
    else 1 + LineEnd(t[1..])
  }

  /** The lines that iterating over a text file opened with universal newlines
      yields for the text `t`, without their terminators: a line ends at `\r\n`,
      `\r` or `\n`, and no empty line follows a final terminator. */
  function FileLines(t: string): (ls: seq<string>)
    ensures forall i :: 0 <= i < |ls| ==> '\n' !in ls[i] && '\r' !in ls[i]
    decreases |t|
  {
    if t == [] then []
    else
      var k := LineEnd(t);
      if k == |t| then [t]
      else
        var next := if t[k] == '\r' && k + 1 < |t| && t[k + 1] == '\n' then k + 2 else k + 1;
        [t[..k]] + FileLines(t[next..])
  }

  /** A text without line breaks, written with its terminator, reads back as that one line. */
  lemma SingleLine(e: string)
    requires '\n' !in e && '\r' !in e
    ensures FileLines(e + "\n") == [e]
  {
    var t := e + "\n";
    assert t[|e|] == '\n';
    assert forall j :: 0 <= j < |e| ==> t[j] == e[j];
    var k := LineEnd(t);
    assert k == |e|;
    assert t[..k] == e;
    assert t[k + 1..] == [];
  }

  /** The models one `f.write(f"{model}\n")` lists in the file: the stripped lines
      of what it wrote. */
  function EntryModels(e: string): set<string>
  {
    set l | l in FileLines(e + "\n") :: Strip(l)
  }

  /** A model without line breaks lists exactly its stripped self. */
  lemma EntryModelsOfLine(e: string)
    requires '\n' !in e && '\r' !in e
    ensures EntryModels(e) == {Strip(e)}
  {
    SingleLine(e);
  }

  /** Stripping a line without line breaks leaves none. */
  lemma StripKeepsNoBreak(l: string)
    requires '\n' !in l && '\r' !in l
    ensures '\n' !in Strip(l) && '\r' !in Strip(l)
  {
    var r := Strip(l);
    var a := LeadingSpace(l);
    forall k | 0 <= k < |r|
      ensures r[k] != '\n' && r[k] != '\r'
    {
      assert r[k] == l[a + k];
    }
  }

  /** A model with a line break is read back as lines without one, so what it
      wrote never lists the model itself. */
  lemma LineBreakNotListed(e: string)
    requires '\n' in e || '\r' in e
    ensures e !in EntryModels(e)
  {
    var ls := FileLines(e + "\n");
    forall l | l in ls
      ensures Strip(l) != e
    {
      StripKeepsNoBreak(l);
    }
  }

  /** The models already listed in the missing-models file (`missing_aircraft_models.txt`):
      the stripped lines of everything written to it, one `write` per entry of `log`. */
  function ExistingModels(log: seq<string>): set<string>
  {
    if log == [] then {} else ExistingModels(log[..|log| - 1]) + EntryModels(log[|log| - 1])
  }

  /** A model appended to the file adds the models its written text lists. */
  lemma ExistingModelsAppend(log: seq<string>, model: string)
    ensures ExistingModels(log + [model]) == ExistingModels(log) + EntryModels(model)
  {
    assert (log + [model])[..|log|] == log;
  }

  /** The missing-models file after a table miss: the model is written, followed
      by a line break, unless it is already listed. */
  function LogMissingModel(log: seq<string>, model: string): (r: seq<string>)
    ensures model in ExistingModels(log) ==> r == log
    ensures model !in ExistingModels(log) ==> r == log + [model]
  {
    if model in ExistingModels(log) then log else log + [model]
  }

  /** Logging a stripped model without line breaks twice writes it once. */
  lemma LogMissingModelOnce(log: seq<string>, model: string)
    requires Strip(model) == model && '\n' !in model && '\r' !in model
    ensures LogMissingModel(LogMissingModel(log, model), model) == LogMissingModel(log, model)
  {
    var once := LogMissingModel(log, model);
    if once != log {
      ExistingModelsAppend(log, model);
      EntryModelsOfLine(model);
      assert model in ExistingModels(once);
    }
  }

  /** A model with a line break is never listed by what it wrote, so every miss
      writes it again. */
  lemma LineBreakModelLoggedAgain(log: seq<string>, model: string)
    requires '\n' in model || '\r' in model
    requires model !in ExistingModels(log)
    ensures LogMissingModel(LogMissingModel(log, model), model) == log + [model, model]
  {
    ExistingModelsAppend(log, model);
    LineBreakNotListed(model);
    assert log + [model] + [model] == log + [model, model];
  }

  /** The (departure, destination) codes of a flight whose listed airport has code `code`. */
  function Endpoints(dir: Direction, code: string): (string, string)
  {
    if dir == Arrival then (code, HomeAirport) else (HomeAirport, code)
  }

  /** `calculate_co2_emission(flight, flight_type)` for a row whose listed airport
      text is `location` and whose `'Aircraft Info'` is `model` (`None` is a missing
      value, NaN in the frame), together with the missing-models file after the call. */
  function CalculateCo2Emission(db: AirportDb, table: map<string, real>, dir: Direction,
                                location: string, model: Option<string>, log: seq<string>): (r: (Co2Outcome, seq<string>))
    // The arrivals branch has no guard: a text without '(' raises.
    ensures '(' !in location ==> r == (if dir == Arrival then Raised else UnknownEmission, log)
  {
    var code := ExtractIata(location);
    if code.None? then
      (if dir == Arrival then Raised else UnknownEmission, log)
    else
      var ends := Endpoints(dir, code.value);
      var depCoords := GetAirportCoords(db, ends.0);
      var destCoords := GetAirportCoords(db, ends.1);
      if depCoords.0.None? || destCoords.0.None? then (UnknownEmission, log)
      else
        var dep := Coord(depCoords.0.value, depCoords.1.value);
        var dest := Coord(destCoords.0.value, destCoords.1.value);
        match model
        case None =>
          // the table misses NaN, pd.notna(NaN) skips the log, `"Boeing" in NaN` raises
          (Raised, log)
        case Some(m) =>
          if m in table then (Estimated(dep, dest, TableEntry(table[m])), log)
          else (Estimated(dep, dest, SelectFactor(table, m)), LogMissingModel(log, m))
  }

  /** The cases of an estimate once the text has a code: an endpoint missing from the
      database gives 'Unknown'; a missing model raises; otherwise the estimate from
      both endpoints' coordinates and the selected factor, and on a table miss the
      model is logged. */
  lemma Co2EmissionCases(db: AirportDb, table: map<string, real>, dir: Direction,
                         location: string, model: Option<string>, log: seq<string>)
    requires '(' in location
    ensures var r := CalculateCo2Emission(db, table, dir, location, model, log);
      var ends := Endpoints(dir, ExtractIata(location).value);
      if ends.0 !in db || ends.1 !in db then r == (UnknownEmission, log)
      else if model.None? then r == (Raised, log)
      else (r.0 == Estimated(db[ends.0], db[ends.1], SelectFactor(table, model.value))
        && r.1 == (if model.value in table then log else LogMissingModel(log, model.value)))
  {
  }

  /** One estimate appends at most one write to the missing-models file: the row's
      own model, which the table misses. */
  lemma Co2LogStep(db: AirportDb, table: map<string, real>, dir: Direction,
                   location: string, model: Option<string>, log: seq<string>)
    ensures var r := CalculateCo2Emission(db, table, dir, location, model, log);
      log <= r.1 && |r.1| <= |log| + 1
      && (|r.1| > |log| ==> model == Some(r.1[|log|]) && r.1[|log|] !in table)
  {
  }

  /** The outcome of an estimate does not depend on the missing-models file. */
  lemma Co2OutcomeIgnoresLog(db: AirportDb, table: map<string, real>, dir: Direction,
                             location: string, model: Option<string>, log1: seq<string>, log2: seq<string>)
    ensures CalculateCo2Emission(db, table, dir, location, model, log1).0
         == CalculateCo2Emission(db, table, dir, location, model, log2).0
  {
  }

  /** Running the estimator twice on the same row gives the same outcome, and the
      second run leaves the missing-models file as the first left it. */
  lemma EstimateIdempotent(db: AirportDb, table: map<string, real>, dir: Direction,
                           location: string, model: string, log: seq<string>)
    requires Strip(model) == model && '\n' !in model && '\r' !in model
    ensures var first := CalculateCo2Emission(db, table, dir, location, Some(model), log);
      var second := CalculateCo2Emission(db, table, dir, location, Some(model), first.1);
      second == first
  {
    var first := CalculateCo2Emission(db, table, dir, location, Some(model), log);
    var second := CalculateCo2Emission(db, table, dir, location, Some(model), first.1);
    if '(' in location {
      Co2EmissionCases(db, table, dir, location, Some(model), log);
      Co2EmissionCases(db, table, dir, location, Some(model), first.1);
      var ends := Endpoints(dir, ExtractIata(location).value);
      if ends.0 in db && ends.1 in db && model !in table {
        LogMissingModelOnce(log, model);
      }
    }
  }
}
