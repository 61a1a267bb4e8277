/** The static emissions-factor table of the scraper: aircraft model name to
    kilograms of CO2 per kilometre, written as a Python dict literal whose
    entries are listed here in source order, repeated lines included. */
module FactorTable {

  /** The literal's `key: value` lines, in order; several keys are written twice. */
  const FactorLiteral: seq<(string, real)> := [
    ("Aerospatiale AS350 B2 AStar", 4.5),
    ("Aerospatiale AS350 B2 AStar", 4.5),
    ("Aerospatiale ATR 72-212F", 4.0),
    ("Aerospatiale ATR 72-212F", 4.0),
    ("Aerospatiale ATR 72-600", 4.2),
    ("Aerospatiale ATR 72-600", 4.2),
    ("AgustaWestland AW139", 4.5),
    ("AgustaWestland AW139", 4.5),
    ("Airbus A220-100", 6.0),
    ("Airbus A220-100", 6.0),
    ("Airbus A220-371", 6.5),
    ("Airbus A220-371", 6.5),
    ("Airbus A300B4-605R(F)", 10.5),
    ("Airbus A300B4-605R(F)", 10.5),
    ("Airbus A300F4-605R", 10.5),
    ("Airbus A300F4-605R", 10.5),
    ("Airbus A319-114", 6.5),
    ("Airbus A319-114", 6.5),
    ("Airbus A319-131", 6.5),
    ("Airbus A319-131", 6.5),
    ("Airbus A319-132", 6.5),
    ("Airbus A319-132", 6.5),
    ("Airbus A320-214", 6.5),
    ("Airbus A320-214", 6.5),
    ("Airbus A320-232", 6.5),
    ("Airbus A320-232", 6.5),
    ("Airbus A321-211", 6.5),
    ("Airbus A321-211", 6.5),
    ("Airbus A321-253NX", 6.5),
    ("Airbus A321-253NX", 6.5),
    ("Airbus A330-202", 10.5),
    ("Airbus A330-202", 10.5),
    ("Airbus A330-243", 10.5),
    ("Airbus A330-243", 10.5),
    ("Airbus A330-243(F)", 10.5),
    ("Airbus A330-243(F)", 10.5),
    ("Airbus A330-302", 10.5),
    ("Airbus A330-302", 10.5),
    ("Airbus A330-900neo", 10.5),
    ("Airbus A330-900neo", 10.5),
    ("Airbus A350-941", 10.5),
    ("Airbus A350-941", 10.5),
    ("B190", 4.5),
    ("B208B", 4.0),
    ("B737", 7.0),
    ("B737-8", 7.0),
    ("B737-900ER", 7.8),
    ("B738", 7.8),
    ("B739", 8.0),
    ("B741", 9.3),
    ("B742", 10.0),
    ("B744", 10.0),
    ("B748", 10.5),
    ("B763", 9.0),
    ("B77F", 12.5),
    ("B77L", 12.5),
    ("Beech 1900C", 4.5),
    ("Beech 1900C", 4.5),
    ("Beech 1900C-1", 4.5),
    ("Beech 1900C-1", 4.5),
    ("Beech 1900D", 4.5),
    ("Beech 1900D", 4.5),
    ("Beech B200 Super King Air", 4.5),
    ("Boeing 717", 7.0),
    ("Boeing 737 MAX 8", 6.0),
    ("Boeing 737 MAX 9/Boeing 737-9", 6.5),
    ("Boeing 737-31BF", 7.0),
    ("Boeing 737-330", 7.0),
    ("Boeing 737-3Q8F", 7.0),
    ("Boeing 737-436F", 7.5),
    ("Boeing 737-700", 7.2),
    ("Boeing 737-790", 7.5),
    ("Boeing 737-790SF", 7.5),
    ("Boeing 737-7B5 BBJ", 7.5),
    ("Boeing 737-8", 7.0),
    ("Boeing 737-800", 7.8),
    ("Boeing 737-800WL", 7.8),
    ("Boeing 737-824", 7.8),
    ("Boeing 737-832", 7.8),
    ("Boeing 737-852", 7.8),
    ("Boeing 737-890", 7.5),
    ("Boeing 737-8F2", 7.0),
    ("Boeing 737-8FH", 7.0),
    ("Boeing 737-9", 8.0),
    ("Boeing 737-900", 7.8),
    ("Boeing 737-900ER", 7.8),
    ("Boeing 737-900WL", 7.8),
    ("Boeing 737-924ER", 7.8),
    ("Boeing 737-932ER", 8.0),
    ("Boeing 737-990", 8.0),
    ("Boeing 737-990ER", 8.0),
    ("Boeing 737-9GPER", 8.0),
    ("Boeing 747-400", 9.3),
    ("Boeing 747-409F", 10.0),
    ("Boeing 747-409LCF Dreamlifter", 10.0),
    ("Boeing 747-412F", 10.0),
    ("Boeing 747-412SF", 10.0),
    ("Boeing 747-419SF", 10.0),
    ("Boeing 747-422", 10.0),
    ("Boeing 747-428ERF", 10.5),
    ("Boeing 747-428ERF", 10.5),
    ("Boeing 747-428F", 10.5),
    ("Boeing 747-428SF", 10.0),
    ("Boeing 747-443", 10.0),
    ("Boeing 747-446F", 10.0),
    ("Boeing 747-446SF", 10.0),
    ("Boeing 747-44AF", 10.0),
    ("Boeing 747-45EF", 10.0),
    ("Boeing 747-45ESF", 10.0),
    ("Boeing 747-467ERF", 10.5),
    ("Boeing 747-46NF", 10.0),
    ("Boeing 747-47UF", 10.0),
    ("Boeing 747-481", 10.5),
    ("Boeing 747-481F", 10.5),
    ("Boeing 747-481SF", 10.5),
    ("Boeing 747-48EF", 10.0),
    ("Boeing 747-48ESF", 10.0),
    ("Boeing 747-4B5", 10.0),
    ("Boeing 747-4B5ERF", 10.0),
    ("Boeing 747-4B5F", 10.0),
    ("Boeing 747-4B5SF", 10.0),
    ("Boeing 747-4EVERF", 10.5),
    ("Boeing 747-4FTF", 10.0),
    ("Boeing 747-4H6F", 10.0),
    ("Boeing 747-4H6LCF Dreamlifter", 10.0),
    ("Boeing 747-4H6SF", 10.0),
    ("Boeing 747-4HAERF", 10.0),
    ("Boeing 747-4HQERF", 10.0),
    ("Boeing 747-4J6LCF Dreamlifter", 10.0),
    ("Boeing 747-4KZF", 10.0),
    ("Boeing 747-4R7F", 10.0),
    ("Boeing 747-8", 10.5),
    ("Boeing 747-867F", 10.5),
    ("Boeing 747-87UF", 10.0),
    ("Boeing 747-8B5F", 10.5),
    ("Boeing 747-8F", 10.5),
    ("Boeing 747-8HTF", 10.5),
    ("Boeing 747-8KZF", 10.5),
    ("Boeing 747-8R7F", 10.5),
    ("Boeing 747-8U", 10.5),
    ("Boeing 757-223", 8.0),
    ("Boeing 757-231", 8.0),
    ("Boeing 757-232", 8.0),
    ("Boeing 757-236SF", 8.0),
    ("Boeing 757-23ASF", 8.0),
    ("Boeing 757-23N", 8.0),
    ("Boeing 757-24ASF", 8.0),
    ("Boeing 757-251", 8.0),
    ("Boeing 757-256", 8.0),
    ("Boeing 757-26D", 8.0),
    ("Boeing 757-27BSF", 8.0),
    ("Boeing 757-2B7", 8.0),
    ("Boeing 757-2B7SF", 8.0),
    ("Boeing 757-2Q8", 8.0),
    ("Boeing 767-300F", 9.0),
    ("Boeing 767-306ERSF", 9.0),
    ("Boeing 767-31AER", 9.0),
    ("Boeing 767-31BER", 9.0),
    ("Boeing 767-323ERSF", 9.0),
    ("Boeing 767-324ER", 9.0),
    ("Boeing 767-332ER", 9.0),
    ("Boeing 767-338ERSF", 9.0),
    ("Boeing 767-34AERF", 9.0),
    ("Boeing 767-36NER", 9.0),
    ("Boeing 767-375ER", 9.0),
    ("Boeing 767-37DERSF", 9.0),
    ("Boeing 767-38EER", 9.0),
    ("Boeing 767-3JHF", 9.0),
    ("Boeing 767-3S1ER", 9.0),
    ("Boeing 767-3S2F", 9.0),
    ("Boeing 767-3Y0ERSF", 9.0),
    ("Boeing 777-200LR / Boeing 777F", 12.5),
    ("Boeing 777-300ER", 12.5),
    ("Boeing 777-F", 12.5),
    ("Boeing 777-F16", 12.5),
    ("Boeing 777-F1B", 12.5),
    ("Boeing 777-F1H", 12.5),
    ("Boeing 777-F6N", 12.5),
    ("Boeing 777-FB5", 12.5),
    ("Boeing 777-FBT", 12.5),
    ("Boeing 777-FEZ", 12.5),
    ("Boeing 777-FFT", 10.5),
    ("Boeing 777-FFX", 12.5),
    ("Boeing 777-FHT", 12.5),
    ("Boeing 777-FS2", 12.5),
    ("Boeing 777-FZB", 12.5),
    ("Boeing 77F", 12.5),
    ("Boeing 77L", 12.5),
    ("Boeing 787-8 BBJ", 9.0),
    ("Boeing 787-8", 9.0),
    ("Boeing 787-9", 9.5),
    ("Bombardier BD-100-1A10 Challenger 300", 5.0),
    ("Bombardier BD-100-1A10 Challenger 350", 5.0),
    ("Bombardier BD-700-1A10 Global 6000", 5.0),
    ("Bombardier BD-700-1A10 Global Express XRS", 5.0),
    ("Bombardier BD-700-2A12 Global 7500", 5.0),
    ("C208", 4.0),
    ("CASA 212-200", 4.5),
    ("CASA 212-200CB", 4.5),
    ("CASA C-212-CC Aviocar 200", 4.5),
    ("Cessna 208B Grand Caravan EX", 4.0),
    ("Cessna 208b Grand Caravan", 4.0),
    ("Cessna 208b Grand Caravan", 4.0),
    ("Cessna 208B Super Cargomaster", 4.0),
    ("Cessna 408 SkyCourier", 4.0),
    ("DC93", 8.0),
    ("De Havilland Canada DHC-8-100 Dash 8 / 8Q", 5.0),
    ("De Havilland Canada DHC-8-102 Dash 8", 5.0),
    ("De Havilland Canada DHC-8-102A Dash 8", 5.0),
    ("De Havilland Canada DHC-8-103 Dash 8", 5.0),
    ("De Havilland Canada DHC-8-106 Dash 8", 5.0),
    ("De Havilland Canada DHC-8-Q402 Dash 8", 5.0),
    ("DH8", 5.0),
    ("DH8A", 5.0),
    ("DH8D", 5.0),
    ("Diamond DA 42 Twin Star", 3.5),
    ("Douglas C-118A", 8.0),
    ("Douglas DC-6B", 8.0),
    ("E75L", 5.5),
    ("Embraer 170-200LR-175LR", 5.5),
    ("Embraer 175 (long wing)", 5.5),
    ("Embraer 190-100AR", 6.0),
    ("Embraer 190-100LR", 6.0),
    ("Embraer EMB 545 Legacy 450", 6.0),
    ("Embraer EMB 550 Legacy 500", 6.0),
    ("Embraer Praetor 600", 6.0),
    ("Eurocopter AS350 B2 AStar", 4.5),
    ("Eurocopter EC135 P2+", 4.5),
    ("Fokker 100", 6.0),
    ("GLF4", 5.0),
    ("Gulfstream Aerospace GV", 5.0),
    ("Gulfstream Aerospace GV-SP (G550)", 5.0),
    ("Gulfstream Aerospace GVI (G650ER)", 5.0),
    ("Learjet 35A", 4.0),
    ("Learjet 60", 4.5),
    ("Lockheed 100-30 Hercules", 12.0),
    ("Lockheed L-182 / 282 / 382 (L-100) Hercules", 12.0),
    ("McDonnell Douglas MD-11F", 11.0),
    ("McDonnell Douglas MD-82SF", 8.0),
    ("McDonnell Douglas MD-83SF", 8.0),
    ("MD11", 12.0),
    ("MD82", 8.0),
    ("MD83", 8.0),
    ("Pilatus PC-12", 3.5),
    ("Pilatus PC-12/45", 3.5),
    ("Piper PA-24-250 Comanche 250", 4.5),
    ("Piper PA-31-350 Navajo Chieftain", 4.5),
    ("Saab 2000", 5.0),
    ("Saab 340A", 5.0),
    ("Saab 340A(F)", 5.0),
    ("SB20", 5.0),
    ("SF34", 5.0),
    ("Sikorsky S-92A", 4.5),
    ("Unknown", 0.0)
  ]

  /** The dict a Python dict literal builds from `entries`: every key written in the
      literal is a key, and a repeated key keeps the value of its last line. */
  function DictOf(entries: seq<(string, real)>): (d: map<string, real>)
    ensures d.Keys == set i | 0 <= i < |entries| :: entries[i].0
  {
    if entries == [] then map[]
    else
      var init := entries[..|entries| - 1];
      var last := entries[|entries| - 1];
      var d := DictOf(init)[last.0 := last.1];
      assert forall i :: 0 <= i < |init| ==> init[i] == entries[i];
      d
  }

  /** `co2_emissions_per_km`. */
  const Table: map<string, real> := DictOf(FactorLiteral)

  /** A key maps to the value on the last line that writes it. */
  lemma {:induction false} DictOfLastWins(entries: seq<(string, real)>, i: nat)
    requires i < |entries|
    requires forall j :: i < j < |entries| ==> entries[j].0 != entries[i].0
    ensures entries[i].0 in DictOf(entries) && DictOf(entries)[entries[i].0] == entries[i].1
    decreases |entries|
  {
    if i < |entries| - 1 {
      var init := entries[..|entries| - 1];
      assert forall j :: i < j < |init| ==> init[j] == entries[j];
      DictOfLastWins(init, i);
    }
  }

  /** The dict has at most one key per line of the literal, and strictly fewer keys
      than lines once some key is written twice. */
  lemma {:induction false} DictOfSize(entries: seq<(string, real)>, i: nat, j: nat)
    requires i < j < |entries| && entries[i].0 == entries[j].0
    ensures |DictOf(entries)| < |entries|
    decreases |entries|
  {
    var init := entries[..|entries| - 1];
    var last := entries[|entries| - 1];
    if j == |entries| - 1 {
      assert init[i] == entries[i];
      assert last.0 in DictOf(init);
      DictOfAtMost(init);
    } else {
      assert init[i] == entries[i] && init[j] == entries[j];
      DictOfSize(init, i, j);
    }
  }

  /** The dict never has more keys than the literal has lines. */
  lemma {:induction false} DictOfAtMost(entries: seq<(string, real)>)
    ensures |DictOf(entries)| <= |entries|
    decreases |entries|
  {
    if entries != [] {
      DictOfAtMost(entries[..|entries| - 1]);
    }
  }

  /** The sentinel model `"Unknown"` is in the table with factor 0.0. */
  lemma UnknownEntry()
    ensures "Unknown" in Table && Table["Unknown"] == 0.0
  {
    DictOfLastWins(FactorLiteral, |FactorLiteral| - 1);
  }
}
