/**
 * What the scene metadata becomes before any band is processed
 * (asterl1t.py:146-163): the band-to-gain map built from the GAIN lines, the
 * thermal bands forced to normal gain, the corner coordinates, the solar
 * direction, the list of image sub-datasets and the band label of each.
 * The metadata dictionary is a `map`, the metadata list a `seq` of lines and
 * each sub-dataset a pair (name, description); the conversion of a text to a
 * float is a parameter.
 */
module Metadata {
  import opened Wrappers
  import opened Strings
  import opened Errors
  import opened Calibration

  // ---------------------------------------------------------------------------
  // Numbers in metadata values

  /** Every field is a number. */
  predicate AllNumbers(fields: seq<string>, toReal: string -> Option<real>)
  {
    forall k :: 0 <= k < |fields| ==> toReal(fields[k]).Some?
  }

  /** `np.array(fields, dtype=float)`: every field converted; the first field
      that is not a number raises. */
  function ParseReals(fields: seq<string>, toReal: string -> Option<real>): (r: Result<seq<real>, SceneError>)
    ensures r.Success? <==> AllNumbers(fields, toReal)
    ensures r.Success? ==>
              |r.value| == |fields| && forall k :: 0 <= k < |fields| ==> r.value[k] == toReal(fields[k]).value
    ensures r.Failure? ==>
              exists k :: 0 <= k < |fields| && toReal(fields[k]).None? && r.error == NotANumber(fields[k])
  {
    if fields == [] then Success([])
    else match toReal(fields[0])
      case None => Failure(NotANumber(fields[0]))
      case Some(x) =>
        match ParseReals(fields[1..], toReal)
        case Failure(e) => Failure(e)
        case Success(rest) => Success([x] + rest)
  }

  /** Line 146: `SOLARDIRECTION` split on ", " into (azimuth, elevation). */
  function SolarDirection(metadata: map<string, string>, toReal: string -> Option<real>): (r: Result<seq<real>, SceneError>)
    ensures "SOLARDIRECTION" !in metadata ==> r == Failure(MissingMetadata("SOLARDIRECTION"))
    ensures "SOLARDIRECTION" in metadata ==>
              var fields := Split(metadata["SOLARDIRECTION"], ", ");
              && (r.Success? <==> AllNumbers(fields, toReal))
              && (r.Success? ==>
                    |r.value| == |fields| && forall k :: 0 <= k < |fields| ==> toReal(fields[k]) == Some(r.value[k]))
              && (r.Failure? ==> r.error.NotANumber?)
  {
    if "SOLARDIRECTION" !in metadata then Failure(MissingMetadata("SOLARDIRECTION"))
    else
      var fields := Split(metadata["SOLARDIRECTION"], ", ");
      ParseReals(fields, toReal)
  }

  /** Lines 150-151: a corner given as "latitude, longitude" becomes the pair
      (longitude, latitude), i.e. (x, y). */
  function Corner(metadata: map<string, string>, key: string, toReal: string -> Option<real>): (r: Result<seq<real>, SceneError>)
    ensures key !in metadata ==> r == Failure(MissingMetadata(key))
    ensures key in metadata ==>
              var fields := Split(metadata[key], ", ");
              && (r.Success? <==> AllNumbers(fields, toReal))
              && (r.Failure? ==>
                    exists k :: 0 <= k < |fields| && toReal(fields[k]).None? && r.error == NotANumber(fields[k]))
    ensures r.Success? ==>
              var fields := Split(metadata[key], ", ");
              |r.value| == |fields| &&
              forall k :: 0 <= k < |fields| ==> toReal(fields[|fields| - 1 - k]) == Some(r.value[k])
  {
    if key !in metadata then Failure(MissingMetadata(key))
    else
      ParseReversed(Split(metadata[key], ", "), toReal);
      ParseReals(Reverse(Split(metadata[key], ", ")), toReal)
  }

  /** Converting the fields in reverse order succeeds exactly when every field is a number,
      and gives the fields' values from last to first. */
  lemma ParseReversed(fields: seq<string>, toReal: string -> Option<real>)
    ensures var r := ParseReals(Reverse(fields), toReal);
            && (r.Success? <==> AllNumbers(fields, toReal))
            && (r.Failure? ==>
                  exists k :: 0 <= k < |fields| && toReal(fields[k]).None? && r.error == NotANumber(fields[k]))
            && (r.Success? ==>
                  |r.value| == |fields| &&
                  forall k :: 0 <= k < |fields| ==> toReal(fields[|fields| - 1 - k]) == Some(r.value[k]))
  {
    var reversed := Reverse(fields);
    assert forall k :: 0 <= k < |fields| ==> reversed[k] == fields[|fields| - 1 - k];
    assert forall k :: 0 <= k < |fields| ==> fields[k] == reversed[|fields| - 1 - k];
  }

  /** A corner written "lat, lon" with two numbers comes out as [lon, lat]. */
  lemma CornerSwapsToLonLat(lat: string, lon: string, toReal: string -> Option<real>)
    requires !Contains(lat, ", ") && !Contains(lon, ", ")
    requires toReal(lat).Some? && toReal(lon).Some?
    ensures Corner(map["UPPERLEFT" := lat + ", " + lon], "UPPERLEFT", toReal)
            == Success([toReal(lon).value, toReal(lat).value])
  {
    SplitPair(lat, lon);
    assert Reverse([lat, lon]) == [lon, lat];
    ParseRealsPair(lon, lat, toReal);
  }

  /** Two pieces free of ", " joined by ", " split back into the two pieces. */
  lemma {:induction false} SplitPair(a: string, b: string)
    requires !Contains(a, ", ") && !Contains(b, ", ")
    ensures Split(a + ", " + b, ", ") == [a, b]
    decreases |a|
  {
    var sep := ", ";
    var s := a + sep + b;
    if |a| == 0 {
      assert s[..|sep|] == sep;
      assert s[|sep|..] == b;
      SplitCountIffContains(b, sep);
      JoinSplit(b, sep);
    } else {
      assert s[..2] != sep by {
        if |a| >= 2 {
          assert s[..2] == a[..2];
        } else {
          assert s[1] == ',';
        }
      }
      assert !Contains(a[1..], sep);
      SplitPair(a[1..], b);
      assert s[1..] == a[1..] + sep + b;
      assert [s[0]] + a[1..] == a;
    }
  }

  lemma ParseRealsPair(a: string, b: string, toReal: string -> Option<real>)
    requires toReal(a).Some? && toReal(b).Some?
    ensures ParseReals([a, b], toReal) == Success([toReal(a).value, toReal(b).value])
  {
    var x, y := toReal(a).value, toReal(b).value;
    assert [b][1..] == [];
    assert ParseReals([b][1..], toReal) == Success([]);
    assert [y] + [] == [y];
    assert ParseReals([b], toReal) == Success([y]);
    assert [a, b][1..] == [b];
    assert [x] + [y] == [x, y];
  }

  // ---------------------------------------------------------------------------
  // Selecting lines and sub-datasets

  /** `[x for x in xs if sub in x]`: the texts that contain `sub`, in their order. */
  function Filter(xs: seq<string>, sub: string): (r: seq<string>)
    ensures |r| <= |xs|
    ensures forall x :: x in r <==> x in xs && Contains(x, sub)
  {
    if xs == [] then []
    else
      assert forall x :: x in xs <==> x == xs[0] || x in xs[1..];
      (if Contains(xs[0], sub) then [xs[0]] else []) + Filter(xs[1..], sub)
  }

  /** Line 159: the names of the sub-datasets, each given as (name, description),
      whose name contains "ImageData". */
  function ImageDataNames(subDatasets: seq<(string, string)>): (r: seq<string>)
    ensures |r| <= |subDatasets|
    ensures forall x :: x in r <==> Contains(x, "ImageData") && exists i :: 0 <= i < |subDatasets| && subDatasets[i].0 == x
  {
    var names := seq(|subDatasets|, i requires 0 <= i < |subDatasets| => subDatasets[i].0);
    assert forall x :: x in names <==> exists i :: 0 <= i < |subDatasets| && subDatasets[i].0 == x by {
      forall x ensures x in names <==> exists i :: 0 <= i < |subDatasets| && subDatasets[i].0 == x {
        if x in names {
          var i :| 0 <= i < |names| && names[i] == x;
        }
        if exists i :: 0 <= i < |subDatasets| && subDatasets[i].0 == x {
          var i :| 0 <= i < |subDatasets| && subDatasets[i].0 == x;
          assert names[i] == x;
        }
      }
    }
    Filter(names, "ImageData")
  }

  /** Line 163: `name.split('ImageData')[-1]`, the band label of a sub-dataset. It holds
      no "ImageData", and a name containing "ImageData" ends with "ImageData" and the label. */
  function BandLabel(name: string): (label_: string)
    ensures !Contains(label_, "ImageData")
    ensures Contains(name, "ImageData") ==>
              |label_| + 9 <= |name| && name[|name| - |label_| - 9..] == "ImageData" + label_
  {
    AfterLastIsSuffix(name, "ImageData");
    AfterLast(name, "ImageData")
  }

  // ---------------------------------------------------------------------------
  // The band-to-gain map (lines 147-148)

  /** Line 147 on one GAIN line: every '0' removed, the text after the first '=' up to
      the next '=' taken, and that text split on ", ". A line without '=' raises. */
  function GainEntry(line: string): (r: Result<seq<string>, SceneError>)
    ensures r.Failure? <==> !Contains(DeleteAll(line, '0'), "=")
    ensures r.Failure? ==> r.error == GainLineWithoutEquals(line)
    ensures r.Success? ==>
              |r.value| >= 1 && |Split(DeleteAll(line, '0'), "=")| >= 2 &&
              Join(r.value, ", ") == Split(DeleteAll(line, '0'), "=")[1]
    ensures r.Success? ==> forall k :: 0 <= k < |r.value| ==> '0' !in r.value[k] && !Contains(r.value[k], ", ")
  {
    var cleaned := DeleteAll(line, '0');
    var halves := Split(cleaned, "=");
    SplitCountIffContains(cleaned, "=");
    if |halves| < 2 then Failure(GainLineWithoutEquals(line))
    else
      var fields := Split(halves[1], ", ");
      JoinSplit(halves[1], ", ");
      SplitPiecesFree(halves[1], ", ");
      SplitPiecesFromText(cleaned, "=");
      SplitPiecesFromText(halves[1], ", ");
      Success(fields)
  }

  /** Every GAIN line before position `k` converts, so none of them raises. */
  predicate ConvertBefore(lines: seq<string>, k: int)
  {
    forall j :: 0 <= j < k && j < |lines| ==> GainEntry(lines[j]).Success?
  }

  /** The list comprehension of line 147: one entry per GAIN line, in order; the first
      line without '=' raises. */
  function GainEntries(lines: seq<string>): (r: Result<seq<seq<string>>, SceneError>)
    ensures r.Success? <==> forall k :: 0 <= k < |lines| ==> GainEntry(lines[k]).Success?
    ensures r.Success? ==>
              |r.value| == |lines| && forall k :: 0 <= k < |lines| ==> GainEntry(lines[k]) == Success(r.value[k])
    ensures r.Failure? ==>
              exists k :: 0 <= k < |lines| && GainEntry(lines[k]) == Failure(r.error) && ConvertBefore(lines, k)
  {
    if lines == [] then Success([])
    else match GainEntry(lines[0])
      case Failure(e) => Failure(e)
      case Success(entry) =>
        match GainEntries(lines[1..])
        case Failure(e) => Failure(e)
        case Success(rest) => Success([entry] + rest)
  }

  /** `dict(entries)`: every entry must be a pair (the first that is not raises), and a
      later pair overrides an earlier one with the same key. */
  function DictOfPairs(entries: seq<seq<string>>): (r: Result<map<string, string>, SceneError>)
    ensures r.Success? <==> forall k :: 0 <= k < |entries| ==> |entries[k]| == 2
    ensures r.Failure? ==>
              exists k :: 0 <= k < |entries| && |entries[k]| != 2 && r.error == GainEntryNotPair(entries[k]) &&
                (forall j :: 0 <= j < k ==> |entries[j]| == 2)
    decreases |entries|
  {
    if entries == [] then Success(map[])
    else
      var last := entries[|entries| - 1];
      var front := entries[..|entries| - 1];
      match DictOfPairs(front)
      case Failure(e) => Failure(e)
      case Success(m) =>
        assert forall k :: 0 <= k < |front| ==> front[k] == entries[k];
        if |last| != 2 then Failure(GainEntryNotPair(last))
        else Success(m[last[0] := last[1]])
  }

  /** The keys of the dictionary are the first elements of the entries. */
  lemma {:induction false} DictOfPairsKeys(entries: seq<seq<string>>)
    requires DictOfPairs(entries).Success?
    ensures forall key :: key in DictOfPairs(entries).value <==>
              exists k :: 0 <= k < |entries| && entries[k][0] == key
    decreases |entries|
  {
    if entries != [] {
      var front := entries[..|entries| - 1];
      assert forall k :: 0 <= k < |front| ==> front[k] == entries[k];
      DictOfPairsKeys(front);
    }
  }

  /** A later entry with the same key wins: each key maps to the value of its LAST entry. */
  lemma {:induction false} LaterEntryWins(entries: seq<seq<string>>, k: nat)
    requires DictOfPairs(entries).Success? && k < |entries|
    requires forall j :: k < j < |entries| ==> entries[j][0] != entries[k][0]
    ensures entries[k][0] in DictOfPairs(entries).value
    ensures DictOfPairs(entries).value[entries[k][0]] == entries[k][1]
    decreases |entries|
  {
    var front := entries[..|entries| - 1];
    if k < |entries| - 1 {
      assert forall j :: 0 <= j < |front| ==> front[j] == entries[j];
      LaterEntryWins(front, k);
    }
  }

  /** Line 147 as a whole: the GAIN lines, their entries, the dictionary. */
  function GainMap(metadataList: seq<string>): (r: Result<map<string, string>, SceneError>)
    ensures r.Success? ==> forall key :: key in r.value ==> '0' !in key && !Contains(key, ", ")
  {
    var lines := Filter(metadataList, "GAIN");
    match GainEntries(lines)
    case Failure(e) => Failure(e)
    case Success(entries) =>
      var d := DictOfPairs(entries);
      if d.Success? then
        DictOfPairsKeys(entries);
        assert forall key :: key in d.value ==> '0' !in key && !Contains(key, ", ") by {
          forall key | key in d.value ensures '0' !in key && !Contains(key, ", ") {
            var k :| 0 <= k < |entries| && entries[k][0] == key;
            assert GainEntry(lines[k]) == Success(entries[k]);
          }
        }
        d
      else d
  }

  /** The labels of the thermal bands, forced to normal gain on line 148. */
  const ThermalLabels: seq<string> := ["10", "11", "12", "13", "14"]

  /** The thermal labels are the labels of the last five bands, slots 10 to 14. */
  lemma ThermalLabelsAreLastFive()
    ensures forall i :: 0 <= i < 5 ==> ThermalLabels[i] == Label(BandIndex[10 + i])
    ensures forall b: Band :: Label(b) in ThermalLabels <==> Index(b) >= 10
  {
    forall b: Band ensures Label(b) in ThermalLabels <==> Index(b) >= 10 {
      match b
      case B1 => case B2 => case B3B => case B3N => case B4 =>
      case B5 => case B6 => case B7 => case B8 => case B9 =>
      case B10 => case B11 => case B12 => case B13 => case B14 =>
    }
  }

  /** The label of a thermal band is one of the thermal labels. */
  lemma ThermalLabelOf(b: Band)
    requires Index(b) >= 10
    ensures Label(b) in ThermalLabels
  {
    match b
    case B10 => assert Label(b) == ThermalLabels[0];
    case B11 => assert Label(b) == ThermalLabels[1];
    case B12 => assert Label(b) == ThermalLabels[2];
    case B13 => assert Label(b) == ThermalLabels[3];
    case B14 => assert Label(b) == ThermalLabels[4];
  }

  /** `m` after its first `i` thermal labels have been set to "NOR", one after the other. */
  function ForcedUpTo(m: map<string, string>, i: nat): map<string, string>
    requires i <= |ThermalLabels|
  {
    if i == 0 then m else ForcedUpTo(m, i - 1)[ThermalLabels[i - 1] := "NOR"]
  }

  /** After `i` steps the first `i` thermal labels map to "NOR" and the other keys keep
      their value. */
  lemma {:induction false} ForcedUpToSpec(m: map<string, string>, i: nat)
    requires i <= |ThermalLabels|
    ensures ForcedUpTo(m, i).Keys == m.Keys + set j | 0 <= j < i :: ThermalLabels[j]
    ensures forall j :: 0 <= j < i ==> ForcedUpTo(m, i)[ThermalLabels[j]] == "NOR"
    ensures forall key :: key in m && key !in ThermalLabels[..i] ==> ForcedUpTo(m, i)[key] == m[key]
  {
    if i > 0 {
      ForcedUpToSpec(m, i - 1);
      assert ThermalLabels[..i] == ThermalLabels[..i - 1] + [ThermalLabels[i - 1]];
    }
  }

  /** The gain map after line 148: every thermal label maps to "NOR", whatever the
      metadata said, and every other entry is the parsed one. */
  function WithThermalNormal(m: map<string, string>): (r: map<string, string>)
    ensures r.Keys == m.Keys + set t | t in ThermalLabels
    ensures forall t :: t in ThermalLabels ==> r[t] == "NOR"
    ensures forall key :: key in m && key !in ThermalLabels ==> r[key] == m[key]
  {
    ForcedUpToSpec(m, 5);
    assert ThermalLabels[..5] == ThermalLabels;
    assert (set j | 0 <= j < 5 :: ThermalLabels[j]) == set t | t in ThermalLabels;
    ForcedUpTo(m, 5)
  }

  /** Line 148: `gain_dict[b] = 'NOR'` for each thermal label in turn. */
  method ForceThermalGains(parsed: map<string, string>) returns (gains: map<string, string>)
    ensures gains == WithThermalNormal(parsed)
  {
    gains := parsed;
    for i := 0 to |ThermalLabels|
      invariant gains == ForcedUpTo(parsed, i)
    {
      gains := gains[ThermalLabels[i] := "NOR"];
    }
  }
}
