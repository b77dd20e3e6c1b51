/** Customer/Comparison.jsx: compares two cars from a bundled CSV file. The file's text is
    trimmed and split into lines, the header line is dropped, and each line is split on
    ','; the first three fields are the name, the variant and the fuel mileage and the
    rest, joined back with ',', are the features. Fetching the file is a parameter: the
    page is given its text. */
module Comparison {
  import opened Http
  import Text
  import Lists

  /** One parsed line. `values[1]` and `values[2]` are `undefined` on a line with fewer
      fields; the name always exists, since a split has at least one piece. */
  datatype CarRecord = CarRecord(name: string, variant: Option<string>, mileage: Option<string>,
                                 features: string)

  /** `values[k]`, or `undefined` past the end. */
  function Field(values: seq<string>, k: nat): (r: Option<string>)
    ensures r.Some? <==> k < |values|
    ensures r.Some? ==> r.value == values[k]
  {
    if k < |values| then Some(values[k]) else None
  }

  /** The record of one line. */
  function ParseRow(row: string): CarRecord {
    var values := Text.Split(row, ',');
    CarRecord(values[0], Field(values, 1), Field(values, 2),
              if |values| <= 3 then "" else Text.Join(values[3..], ','))
  }

  /** The line a record with all four fields comes from. */
  function FormatRow(name: string, variant: string, mileage: string, features: string): string {
    name + "," + variant + "," + mileage + "," + features
  }

  /** A line with at least three commas is rebuilt exactly from its record, and the name,
      variant and mileage hold no comma. */
  lemma RowRoundTrip(row: string)
    requires |Text.Split(row, ',')| >= 4
    ensures var c := ParseRow(row);
            c.variant.Some? && c.mileage.Some?
            && ',' !in c.name && ',' !in c.variant.value && ',' !in c.mileage.value
            && FormatRow(c.name, c.variant.value, c.mileage.value, c.features) == row
  {
    var v := Text.Split(row, ',');
    var c := ParseRow(row);
    var v1, v2 := v[1..], v[2..];
    JoinFront(v, ',');
    JoinFront(v1, ',');
    assert v1[1..] == v2 && v2[1..] == v[3..];
    JoinFront(v2, ',');
    assert Text.Join(v2, ',') == c.mileage.value + "," + c.features;
  }

  /** The other half: a record whose first three fields hold no comma is parsed back from
      its line, whatever the features hold. */
  lemma FormatRoundTrip(name: string, variant: string, mileage: string, features: string)
    requires ',' !in name && ',' !in variant && ',' !in mileage
    ensures ParseRow(FormatRow(name, variant, mileage, features))
            == CarRecord(name, Some(variant), Some(mileage), features)
  {
    var rest := Text.Split(features, ',');
    var parts := [name, variant, mileage] + rest;
    var p1, p2 := parts[1..], parts[2..];
    assert p1 == [variant, mileage] + rest && p2 == [mileage] + rest && p2[1..] == rest;
    JoinFront(parts, ',');
    JoinFront(p1, ',');
    assert p1[1..] == p2;
    JoinFront(p2, ',');
    assert Text.Join(p2, ',') == mileage + "," + features;
    assert Text.Join(parts, ',') == FormatRow(name, variant, mileage, features);
    Text.SplitOfJoin(parts, ',');
    assert parts[3..] == rest;
  }

  /** Joining two or more pieces puts the first in front of a separator. */
  lemma JoinFront(parts: seq<string>, sep: char)
    requires |parts| >= 2
    ensures Text.Join(parts, sep) == parts[0] + [sep] + Text.Join(parts[1..], sep)
  {
  }

  /** The lines after the header: the trimmed text split on '\n', without its first line. */
  function DataRows(text: string): (r: seq<string>)
    ensures forall i :: 0 <= i < |r| ==> '\n' !in r[i]
    ensures Text.Join([Text.Split(Text.Trim(text), '\n')[0]] + r, '\n') == Text.Trim(text)
  {
    var rows := Text.Split(Text.Trim(text), '\n');
    assert rows == [rows[0]] + rows[1..];
    rows[1..]
  }

  /** The records of the file, one per line after the header, in file order. */
  function ParseCsv(text: string): (r: seq<CarRecord>)
    ensures |r| == |DataRows(text)|
    ensures forall i :: 0 <= i < |r| ==> r[i] == ParseRow(DataRows(text)[i])
  {
    var rows := DataRows(text);
    seq(|rows|, i requires 0 <= i < |rows| => ParseRow(rows[i]))
  }

  /** A file made of a header and lines with no surrounding whitespace gives exactly
      those lines back as data rows: the header, and nothing else, is dropped. */
  lemma DataRowsOfFile(header: string, rows: seq<string>)
    requires '\n' !in header && forall i :: 0 <= i < |rows| ==> '\n' !in rows[i]
    requires var text := Text.Join([header] + rows, '\n');
             text == [] || (!Text.IsSpace(text[0]) && !Text.IsSpace(text[|text| - 1]))
    ensures DataRows(Text.Join([header] + rows, '\n')) == rows
  {
    var text := Text.Join([header] + rows, '\n');
    Text.TrimOfTrimmed(text);
    Text.SplitOfJoin([header] + rows, '\n');
    assert ([header] + rows)[1..] == rows;
  }

  /** An empty or blank file has no records. */
  lemma BlankFileHasNoRecords(text: string)
    requires forall k :: 0 <= k < |text| ==> Text.IsSpace(text[k])
    ensures ParseCsv(text) == []
  {
    Text.TrimCutsOnlySpace(text);
    Text.TrimEndsNotSpace(text);
    assert Text.Trim(text) == [];
    assert Text.Split([], '\n') == [[]];
  }

  /** `car["Car Name"].toLowerCase() === input.toLowerCase()` */
  predicate NameMatches(c: CarRecord, input: string) {
    Text.Lower(c.name) == Text.Lower(input)
  }

  /** `i` is the first record whose name matches. */
  predicate FirstMatchAt(cars: seq<CarRecord>, input: string, i: int) {
    0 <= i < |cars| && NameMatches(cars[i], input)
    && forall k :: 0 <= k < i ==> !NameMatches(cars[k], input)
  }

  /** `carsData.find(...)`: the first record whose name equals the input ignoring case,
      or none when no name does. */
  function FindCar(cars: seq<CarRecord>, input: string): (r: Option<CarRecord>)
    ensures r.None? <==> forall i :: 0 <= i < |cars| ==> !NameMatches(cars[i], input)
    ensures r.Some? ==> exists i :: FirstMatchAt(cars, input, i) && cars[i] == r.value
  {
    if cars == [] then None
    else if NameMatches(cars[0], input) then
      assert FirstMatchAt(cars, input, 0);
      Some(cars[0])
    else
      var r := FindCar(cars[1..], input);
      if r.Some? then
        var j :| FirstMatchAt(cars[1..], input, j) && cars[1..][j] == r.value;
        assert FirstMatchAt(cars, input, j + 1);
        r
      else
        r
  }

  /** Which letters of the input are capitals does not change the car found. */
  lemma FindCarIgnoresCase(cars: seq<CarRecord>, input: string)
    ensures FindCar(cars, Text.Lower(input)) == FindCar(cars, input)
  {
    Text.LowerIdempotent(input);
    FindCarSameKey(cars, Text.Lower(input), input);
  }

  lemma {:induction false} FindCarSameKey(cars: seq<CarRecord>, a: string, b: string)
    requires Text.Lower(a) == Text.Lower(b)
    ensures FindCar(cars, a) == FindCar(cars, b)
  {
    if cars != [] {
      FindCarSameKey(cars[1..], a, b);
    }
  }

  /** The names of all records. */
  function Names(cars: seq<CarRecord>): (r: seq<string>)
    ensures |r| == |cars|
    ensures forall i :: 0 <= i < |cars| ==> r[i] == cars[i].name
  {
    seq(|cars|, i requires 0 <= i < |cars| => cars[i].name)
  }

  /** `[...new Set(carsData.map(car => car["Car Name"]))]`, the suggestions of both
      inputs. */
  function CarNames(cars: seq<CarRecord>): seq<string> {
    Lists.Distinct(Names(cars))
  }

  /** The suggestions name every record exactly once, in the order in which the names
      first appear in the file. */
  lemma CarNamesListEachNameOnce(cars: seq<CarRecord>)
    ensures Lists.NoDuplicates(CarNames(cars))
    ensures forall n :: n in CarNames(cars) <==> exists i :: 0 <= i < |cars| && cars[i].name == n
    ensures forall i, j :: 0 <= i < j < |CarNames(cars)| ==>
              Lists.FirstIndex(Names(cars), CarNames(cars)[i]) < Lists.FirstIndex(Names(cars), CarNames(cars)[j])
  {
    var names := Names(cars);
    Lists.DistinctInFirstOccurrenceOrder(names);
    forall n ensures n in CarNames(cars) <==> exists i :: 0 <= i < |cars| && cars[i].name == n {
      if n in names {
        var i :| 0 <= i < |names| && names[i] == n;
        assert cars[i].name == n;
      }
      if exists i :: 0 <= i < |cars| && cars[i].name == n {
        var i :| 0 <= i < |cars| && cars[i].name == n;
        assert names[i] == n;
      }
    }
  }

  class ComparisonPage {
    var carsData: seq<CarRecord>
    var car1Name: string
    var car2Name: string
    var car1: Option<CarRecord>
    var car2: Option<CarRecord>

    constructor ()
      ensures carsData == [] && car1Name == "" && car2Name == "" && car1.None? && car2.None?
    {
      carsData := [];
      car1Name := "";
      car2Name := "";
      car1 := None;
      car2 := None;
    }

    /** The effect once the file's text has arrived. */
    method Load(text: string)
      modifies this`carsData
      ensures carsData == ParseCsv(text)
    {
      carsData := ParseCsv(text);
    }

    /** Typing in the first input. */
    method SetCar1Name(name: string)
      modifies this`car1Name
      ensures car1Name == name
    {
      car1Name := name;
    }

    /** Typing in the second input. */
    method SetCar2Name(name: string)
      modifies this`car2Name
      ensures car2Name == name
    {
      car2Name := name;
    }

    /** `compareCars`: each input picks its car independently; the records are kept. */
    method CompareCars()
      modifies this`car1, this`car2
      ensures car1 == FindCar(carsData, car1Name) && car2 == FindCar(carsData, car2Name)
      ensures Shown() <==> (exists i :: 0 <= i < |carsData| && NameMatches(carsData[i], car1Name))
                           && (exists j :: 0 <= j < |carsData| && NameMatches(carsData[j], car2Name))
    {
      car1 := FindCar(carsData, car1Name);
      car2 := FindCar(carsData, car2Name);
    }

    /** `car1 && car2`: the two cards are shown, otherwise the hint to enter valid names. */
    predicate Shown()
      reads this
    {
      car1.Some? && car2.Some?
    }
  }
}
