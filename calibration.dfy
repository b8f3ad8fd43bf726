/**
 * The static calibration tables of the ASTER L1T product (asterl1t.py:12-50):
 * the unit-conversion coefficients per band and gain, the band order of the
 * output, the three ground-resolution tiers and the solar irradiance of the
 * reflective bands. The gaps of the coefficient table (NaN in the source) and
 * the bands missing from the irradiance table are `None`.
 */
module Calibration {
  import opened Wrappers

  /** The fifteen ASTER bands: VNIR 1, 2, 3N and the backward-looking 3B; SWIR 4-9; TIR 10-14. */
  datatype Band = B1 | B2 | B3B | B3N | B4 | B5 | B6 | B7 | B8 | B9 | B10 | B11 | B12 | B13 | B14

  /** The gain settings, in the column order of `ucc_header`. */
  datatype Gain = HGH | NOR | LG1 | LG2

  /** `band_index`: the bands in the order of the output slots. */
  const BandIndex: seq<Band> :=
    [B1, B2, B3B, B3N, B4, B5, B6, B7, B8, B9, B10, B11, B12, B13, B14]

  /** The label of a band as it appears in metadata and sub-dataset names. */
  function Label(b: Band): string
  {
    match b
    case B1 => "1"    case B2 => "2"    case B3B => "3B"  case B3N => "3N"
    case B4 => "4"    case B5 => "5"    case B6 => "6"    case B7 => "7"
    case B8 => "8"    case B9 => "9"    case B10 => "10"  case B11 => "11"
    case B12 => "12"  case B13 => "13"  case B14 => "14"
  }

  /** `index_dict`: the output slot of a band; it is the band's position in `band_index`. */
  function Index(b: Band): (i: nat)
    ensures i < |BandIndex| == 15 && BandIndex[i] == b
  {
    match b
    case B1 => 0    case B2 => 1    case B3B => 2   case B3N => 3
    case B4 => 4    case B5 => 5    case B6 => 6    case B7 => 7
    case B8 => 8    case B9 => 9    case B10 => 10  case B11 => 11
    case B12 => 12  case B13 => 13  case B14 => 14
  }

  /** The band a label names; `None` where `index_dict[label]` raises KeyError. */
  function ParseBand(s: string): (r: Option<Band>)
    ensures r.Some? ==> Label(r.value) == s
    ensures r.None? ==> forall b: Band :: Label(b) != s
  {
    if s == "1" then Some(B1) else if s == "2" then Some(B2)
    else if s == "3B" then Some(B3B) else if s == "3N" then Some(B3N)
    else if s == "4" then Some(B4) else if s == "5" then Some(B5)
    else if s == "6" then Some(B6) else if s == "7" then Some(B7)
    else if s == "8" then Some(B8) else if s == "9" then Some(B9)
    else if s == "10" then Some(B10) else if s == "11" then Some(B11)
    else if s == "12" then Some(B12) else if s == "13" then Some(B13)
    else if s == "14" then Some(B14) else None
  }

  /** `index_dict` is a bijection between the fifteen labels and the slots 0..14:
      every slot is the index of exactly one label, and parsing a label gives back its band. */
  lemma IndexBijection()
    ensures forall i :: 0 <= i < 15 ==> Index(BandIndex[i]) == i
    ensures forall b: Band :: ParseBand(Label(b)) == Some(b)
    ensures forall b1: Band, b2: Band :: Index(b1) == Index(b2) ==> b1 == b2
  {
    forall b: Band ensures ParseBand(Label(b)) == Some(b) {
      match b
      case B1 => case B2 => case B3B => case B3N => case B4 =>
      case B5 => case B6 => case B7 => case B8 => case B9 =>
      case B10 => case B11 => case B12 => case B13 => case B14 =>
    }
  }

  /** `band_str in band_index[:10]`: the label is one of the first ten (VNIR and SWIR). */
  predicate AmongFirstTen(s: string)
  {
    exists i :: 0 <= i < 10 && Label(BandIndex[i]) == s
  }

  /** The first-ten test on a label is the test "slot below 10" on its band, and it
      rejects every label that names no band. */
  lemma AmongFirstTenIffIndex(s: string)
    ensures AmongFirstTen(s) <==> ParseBand(s).Some? && Index(ParseBand(s).value) < 10
  {
    if AmongFirstTen(s) {
      var i :| 0 <= i < 10 && Label(BandIndex[i]) == s;
      IndexBijection();
      assert ParseBand(s) == Some(BandIndex[i]);
    }
    if ParseBand(s).Some? && Index(ParseBand(s).value) < 10 {
      var b := ParseBand(s).value;
      assert Label(BandIndex[Index(b)]) == s;
    }
  }

  /** The gain labels of `ucc_header`. */
  function GainLabel(g: Gain): string
  {
    match g
    case HGH => "HGH"  case NOR => "NOR"  case LG1 => "LG1"  case LG2 => "LG2"
  }

  /** The gain a label names; `None` where `ucc_dict[band][gain]` raises KeyError. */
  function ParseGain(s: string): (r: Option<Gain>)
    ensures r.Some? ==> GainLabel(r.value) == s
    ensures r.None? ==> forall g: Gain :: GainLabel(g) != s
  {
    if s == "HGH" then Some(HGH) else if s == "NOR" then Some(NOR)
    else if s == "LG1" then Some(LG1) else if s == "LG2" then Some(LG2)
    else None
  }

  function Column(g: Gain): nat
  {
    match g case HGH => 0 case NOR => 1 case LG1 => 2 case LG2 => 3
  }

  /** `ucc`: one row per band in `band_index` order, one column per gain; NaN is `None`. */
  const Ucc: seq<seq<Option<real>>> := [
    [Some(0.676),  Some(1.688),    Some(2.25),   None],
    [Some(0.708),  Some(1.415),    Some(1.89),   None],
    [Some(0.423),  Some(0.862),    Some(1.15),   None],
    [Some(0.423),  Some(0.862),    Some(1.15),   None],
    [Some(0.1087), Some(0.2174),   Some(0.2900), Some(0.2900)],
    [Some(0.0348), Some(0.0696),   Some(0.0925), Some(0.4090)],
    [Some(0.0313), Some(0.0625),   Some(0.0830), Some(0.3900)],
    [Some(0.0299), Some(0.0597),   Some(0.0795), Some(0.3320)],
    [Some(0.0209), Some(0.0417),   Some(0.0556), Some(0.2450)],
    [Some(0.0159), Some(0.0318),   Some(0.0424), Some(0.2650)],
    [None,         Some(0.006822), None,         None],
    [None,         Some(0.006780), None,         None],
    [None,         Some(0.006590), None,         None],
    [None,         Some(0.005693), None,         None],
    [None,         Some(0.005225), None,         None]
  ]

  /** `ucc_dict[band][gain]`: the unit-conversion coefficient, `None` for a gap. */
  function Coefficient(b: Band, g: Gain): (c: Option<real>)
    ensures c.Some? ==> c.value > 0.0
  {
    Ucc[Index(b)][Column(g)]
  }

  /** Every band has a coefficient at normal gain. */
  lemma NormalAlwaysDefined(b: Band)
    ensures Coefficient(b, NOR).Some?
  {
    match b
    case B1 => case B2 => case B3B => case B3N => case B4 =>
    case B5 => case B6 => case B7 => case B8 => case B9 =>
    case B10 => case B11 => case B12 => case B13 => case B14 =>
  }

  /** The thermal bands 10-14 have a coefficient under normal gain and under no other gain. */
  lemma ThermalOnlyNormal(b: Band, g: Gain)
    requires Index(b) >= 10
    ensures Coefficient(b, g).Some? <==> g == NOR
  {
    match b
    case B10 => case B11 => case B12 => case B13 => case B14 =>
  }

  /** Low gain 2 is undefined exactly for the VNIR bands 1, 2, 3B, 3N and the thermal bands. */
  lemma LowGain2Gaps(b: Band)
    ensures Coefficient(b, LG2).None? <==> (Index(b) < 4 || Index(b) >= 10)
  {
    match b
    case B1 => case B2 => case B3B => case B3N => case B4 =>
    case B5 => case B6 => case B7 => case B8 => case B9 =>
    case B10 => case B11 => case B12 => case B13 => case B14 =>
  }

  /** Higher gain means a smaller coefficient: HGH < NOR < LG1 <= LG2 wherever defined. */
  lemma GainOrdering(b: Band)
    requires Index(b) < 10
    ensures Coefficient(b, HGH).value < Coefficient(b, NOR).value < Coefficient(b, LG1).value
    ensures Coefficient(b, LG2).Some? ==> Coefficient(b, LG1).value <= Coefficient(b, LG2).value
  {
    match b
    case B1 => case B2 => case B3B => case B3N => case B4 =>
    case B5 => case B6 => case B7 => case B8 => case B9 =>
  }

  /** `res`: 15 m for four bands, 30 m for six, 90 m for five, in `band_index` order. */
  const Res: seq<nat> := [15, 15, 15, 15] + [30, 30, 30, 30, 30, 30] + [90, 90, 90, 90, 90]

  /** `resolution_dict[label]`: the native ground resolution of a band in metres,
      one of three tiers: VNIR 15 m, SWIR 30 m, TIR 90 m. */
  function Resolution(b: Band): (m: nat)
    ensures Index(b) < 4 ==> m == 15
    ensures 4 <= Index(b) < 10 ==> m == 30
    ensures 10 <= Index(b) ==> m == 90
  {
    Res[Index(b)]
  }

  /** `irradiance_dict`: solar spectral irradiance of the nine reflective bands. */
  const IrradianceTable: map<string, real> := map[
    "1" := 1848.99, "2" := 1555.74, "3N" := 1119.47, "4" := 231.25, "5" := 79.81,
    "6" := 74.99, "7" := 68.66, "8" := 59.74, "9" := 56.92
  ]

  /** `irradiance_dict[label]`; `None` where the lookup raises KeyError. */
  function Irradiance(s: string): (r: Option<real>)
    ensures r.Some? ==> r.value > 0.0
  {
    if s in IrradianceTable then Some(IrradianceTable[s]) else None
  }

  /** The irradiance table covers exactly the first ten bands except 3B. */
  lemma IrradianceCoverage(b: Band)
    ensures Irradiance(Label(b)).Some? <==> Index(b) < 10 && b != B3B
  {
    match b
    case B1 => case B2 => case B3B => case B3N => case B4 =>
    case B5 => case B6 => case B7 => case B8 => case B9 =>
    case B10 => case B11 => case B12 => case B13 => case B14 =>
  }

  /** Band 3B passes the first-ten test but has no irradiance. */
  lemma BackwardBandHasNoIrradiance()
    ensures AmongFirstTen(Label(B3B)) && Irradiance(Label(B3B)).None?
  {
    assert Label(BandIndex[2]) == "3B";
  }
}
