/**
 * `process_aster_dataset` (asterl1t.py:52-205): the output is allocated as 15
 * slots in radiance mode and 10 in reflectance mode, each a copy of
 * `destination`; the scene constants are read from the metadata once; then
 * each image sub-dataset, in order, is read, reprojected, converted and
 * written into the slot `index_dict` gives its band. Slot `k` of the model is
 * `aster_array[:, :, k]`.
 *
 * The specification is a fold over the sub-datasets (`Fill`), one pure step
 * per band (`BandStep`); the method `FillBands` does the same on an array of
 * slots updated in place, and `ProcessAsterDataset` is the whole procedure.
 */
module Scene {
  import opened Wrappers
  import opened Strings
  import opened Errors
  import opened Calibration
  import opened Calendar
  import opened Radiometry
  import opened Metadata

  /** The arguments of `rasterio.transform.from_bounds(west, south, east, north, width, height)`
      at line 176: the georeferencing of a band in its native grid. */
  datatype SourceGeometry = SourceGeometry(west: real, south: real, east: real, north: real, width: nat, height: nat)

  /** What the procedure gets from outside the model: the conversion of a text to a float,
      the reading of a band raster by name (line 171), the reprojection of a band onto a
      grid shaped like `destination` (lines 178-188), and numpy's cosine and sine. */
  datatype Environment = Environment(
    toReal: string -> Option<real>,
    readBand: string -> Grid,
    reproject: (Grid, SourceGeometry, Grid) -> Grid,
    cos: real -> real,
    sin: real -> real)

  /** The scene file as the procedure sees it: `GetMetadata()`, `GetMetadata_List()` and
      `GetSubDatasets()` (lines 137, 146-153). */
  datatype SceneFile = SceneFile(
    metadata: map<string, string>,
    metadataList: seq<string>,
    subDatasets: seq<(string, string)>)

  /** The values lines 146-157 compute once for the whole scene. */
  datatype SceneConstants = SceneConstants(
    solarDirection: seq<real>,
    gains: map<string, string>,
    upperLeft: seq<real>,
    lowerRight: seq<real>,
    distance: real)

  /** A band written into one output slot. */
  datatype SlotWrite = SlotWrite(slot: nat, grid: Grid)

  /** The cosine stays in [-1, 1]. */
  ghost predicate CosineInRange(env: Environment)
  {
    forall x :: -1.0 <= env.cos(x) <= 1.0
  }

  /** Lines 139-142: the number of output slots. */
  function SlotCount(returnRadiance: bool): (n: nat)
    ensures n == |BandIndex| || n == 10
    ensures returnRadiance <==> n == 15
  {
    if returnRadiance then 15 else 10
  }

  /** Lines 139-142: every slot starts as a copy of `destination`. */
  function Allocate(destination: Grid, returnRadiance: bool): (slots: seq<Grid>)
    ensures |slots| == SlotCount(returnRadiance)
    ensures forall k :: 0 <= k < |slots| ==> slots[k] == destination
  {
    seq(SlotCount(returnRadiance), _ => destination)
  }

  /** Lines 146-157 in their order: the solar direction, the gain map (before the thermal
      bands are forced), the two corners, the date and from it the Earth-Sun distance. */
  function ReadConstants(env: Environment, scene: SceneFile): (r: Result<SceneConstants, SceneError>)
    requires CosineInRange(env)
    ensures r.Success? ==> 1.0 - Eccentricity <= r.value.distance <= 1.0 + Eccentricity
    ensures r.Success? ==>
              && "SOLARDIRECTION" in scene.metadata && "UPPERLEFT" in scene.metadata
              && "LOWERRIGHT" in scene.metadata && "CALENDARDATE" in scene.metadata
  {
    var meta := scene.metadata;
    match SolarDirection(meta, env.toReal)
    case Failure(e) => Failure(e)
    case Success(solar) =>
      match GainMap(scene.metadataList)
      case Failure(e) => Failure(e)
      case Success(gains) =>
        match Corner(meta, "UPPERLEFT", env.toReal)
        case Failure(e) => Failure(e)
        case Success(ul) =>
          match Corner(meta, "LOWERRIGHT", env.toReal)
          case Failure(e) => Failure(e)
          case Success(lr) =>
            if "CALENDARDATE" !in meta then Failure(MissingMetadata("CALENDARDATE"))
            else match ParseDate(meta["CALENDARDATE"])
              case Failure(e) => Failure(e)
              case Success(date) =>
                Success(SceneConstants(solar, gains, ul, lr, EarthSunDistance(DayOfYear(date), env.cos)))
  }

  /** The shape of a raster, `src.shape[1]` (columns) and `src.shape[0]` (rows). */
  function Columns(g: Grid): nat
  {
    if |g| == 0 then 0 else |g[0]|
  }

  /** Line 176: the corners give west = ul[0], south = lr[1], east = lr[0], north = ul[1];
      a corner with fewer than two numbers raises. */
  function Geometry(c: SceneConstants, source: Grid): (r: Result<SourceGeometry, SceneError>)
    ensures r.Failure? <==> |c.upperLeft| < 2 || |c.lowerRight| < 2
    ensures r.Success? ==>
              && r.value.west == c.upperLeft[0] && r.value.north == c.upperLeft[1]
              && r.value.east == c.lowerRight[0] && r.value.south == c.lowerRight[1]
              && r.value.width == Columns(source) && r.value.height == |source|
  {
    if |c.upperLeft| < 2 || |c.lowerRight| < 2 then Failure(CornerTooShort)
    else Success(SourceGeometry(c.upperLeft[0], c.lowerRight[1], c.lowerRight[0], c.upperLeft[1],
                                Columns(source), |source|))
  }

  /** Lines 163-203 for one sub-dataset `name`, in the order of the source: the label, its
      slot (line 164), its gain (line 165), the read and the reprojection (lines 169-188),
      the radiance (lines 190-191), and either the write of the radiance (line 195) or, for
      a band among the first ten, the write of the reflectance (lines 199-203). `None`:
      nothing is written. */
  function BandStep(env: Environment, c: SceneConstants, destination: Grid, returnRadiance: bool, name: string)
    : (r: Result<Option<SlotWrite>, SceneError>)
    ensures ParseBand(BandLabel(name)).None? ==> r == Failure(UnknownBand(BandLabel(name)))
    ensures r.Success? && r.value.Some? ==>
              ParseBand(BandLabel(name)).Some? && r.value.value.slot == Index(ParseBand(BandLabel(name)).value)
    ensures r.Success? && r.value.Some? ==> r.value.value.slot < SlotCount(returnRadiance)
  {
    var label_ := BandLabel(name);
    match ParseBand(label_)
    case None => Failure(UnknownBand(label_))
    case Some(band) =>
      if label_ !in c.gains then Failure(MissingGain(label_))
      else
        var source := env.readBand(name);
        match Geometry(c, source)
        case Failure(e) => Failure(e)
        case Success(geometry) =>
          var reprojected := env.reproject(source, geometry, destination);
          match ParseGain(c.gains[label_])
          case None => Failure(UnknownGain(label_, c.gains[label_]))
          case Some(gain) =>
            var radiance := RadianceGrid(reprojected, Coefficient(band, gain));
            if returnRadiance then Success(Some(SlotWrite(Index(band), radiance)))
            else if AmongFirstTen(label_) then
              match Irradiance(label_)
              case None => Failure(NoIrradiance(label_))
              case Some(irradiance) =>
                if |c.solarDirection| < 2 then Failure(NoSolarElevation)
                else
                  AmongFirstTenIffIndex(label_);
                  var sinElevation := env.sin(Radians(c.solarDirection[1]));
                  Success(Some(SlotWrite(Index(band), ReflectanceGrid(radiance, c.distance, irradiance, sinElevation))))
            else Success(None)
  }

  /** One band's effect on the slots: its write, if any. */
  function Apply(slots: seq<Grid>, w: Option<SlotWrite>): (r: seq<Grid>)
    requires w.Some? ==> w.value.slot < |slots|
    ensures |r| == |slots|
    ensures forall k :: 0 <= k < |slots| ==> r[k] == if w.Some? && w.value.slot == k then w.value.grid else slots[k]
  {
    if w.Some? then slots[w.value.slot := w.value.grid] else slots
  }

  /** The loop of lines 161-203 over `names`, starting from `slots`: each step writes its
      slot or raises, and the first raise ends the procedure. */
  function Fill(env: Environment, c: SceneConstants, destination: Grid, returnRadiance: bool,
                slots: seq<Grid>, names: seq<string>): (r: Result<seq<Grid>, SceneError>)
    requires |slots| == SlotCount(returnRadiance)
    ensures r.Success? ==> |r.value| == |slots|
    decreases |names|
  {
    if names == [] then Success(slots)
    else
      match Fill(env, c, destination, returnRadiance, slots, names[..|names| - 1])
      case Failure(e) => Failure(e)
      case Success(s) =>
        match BandStep(env, c, destination, returnRadiance, names[|names| - 1])
        case Failure(e) => Failure(e)
        case Success(w) => Success(Apply(s, w))
  }

  /** The whole procedure: allocate, read the constants, force the thermal gains, and
      run the loop over the image sub-datasets. */
  function SceneOutput(env: Environment, scene: SceneFile, destination: Grid, returnRadiance: bool)
    : (r: Result<seq<Grid>, SceneError>)
    requires CosineInRange(env)
    ensures r.Success? ==> |r.value| == SlotCount(returnRadiance)
  {
    match ReadConstants(env, scene)
    case Failure(e) => Failure(e)
    case Success(c) =>
      Fill(env, c.(gains := WithThermalNormal(c.gains)), destination, returnRadiance,
           Allocate(destination, returnRadiance), ImageDataNames(scene.subDatasets))
  }

  // ---------------------------------------------------------------------------
  // The loop on an array of slots

  /** Lines 161-203 on the output array: the slots are updated in place, one band at a time. */
  method FillBands(slots: array<Grid>, env: Environment, c: SceneConstants, destination: Grid,
                   returnRadiance: bool, names: seq<string>) returns (outcome: Result<(), SceneError>)
    requires slots.Length == SlotCount(returnRadiance)
    modifies slots
    ensures outcome.Success? <==> Fill(env, c, destination, returnRadiance, old(slots[..]), names).Success?
    ensures outcome.Success? ==> slots[..] == Fill(env, c, destination, returnRadiance, old(slots[..]), names).value
    ensures outcome.Failure? ==> Fill(env, c, destination, returnRadiance, old(slots[..]), names) == Failure(outcome.error)
  {
    ghost var initial := slots[..];
    var k := 0;
    while k < |names|
      invariant 0 <= k <= |names|
      invariant Fill(env, c, destination, returnRadiance, initial, names[..k]) == Success(slots[..])
    {
      var step := BandStep(env, c, destination, returnRadiance, names[k]);
      FillPrefix(env, c, destination, returnRadiance, initial, names, k);
      if step.Failure? {
        FailureIsFinal(env, c, destination, returnRadiance, initial, names, k + 1);
        return Failure(step.error);
      }
      if step.value.Some? {
        slots[step.value.value.slot] := step.value.value.grid;
      }
      k := k + 1;
    }
    assert names[..k] == names;
    return Success(());
  }

  /** The procedure itself: allocate the slots, read the scene constants, force the thermal
      gains on the gain map, and fill the slots. */
  method ProcessAsterDataset(env: Environment, scene: SceneFile, destination: Grid, returnRadiance: bool)
    returns (r: Result<array<Grid>, SceneError>)
    requires CosineInRange(env)
    ensures r.Success? <==> SceneOutput(env, scene, destination, returnRadiance).Success?
    ensures r.Success? ==> fresh(r.value)
    ensures r.Success? ==> r.value[..] == SceneOutput(env, scene, destination, returnRadiance).value
    ensures r.Failure? ==> SceneOutput(env, scene, destination, returnRadiance) == Failure(r.error)
  {
    var slots := new Grid[SlotCount(returnRadiance)](_ => destination);
    assert slots[..] == Allocate(destination, returnRadiance);
    var constants := ReadConstants(env, scene);
    if constants.Failure? {
      return Failure(constants.error);
    }
    var gains := ForceThermalGains(constants.value.gains);
    var c := constants.value.(gains := gains);
    var outcome := FillBands(slots, env, c, destination, returnRadiance, ImageDataNames(scene.subDatasets));
    if outcome.Failure? {
      return Failure(outcome.error);
    }
    return Success(slots);
  }

  /** Once a step raises, the loop ends with that error whatever comes after. */
  lemma {:induction false} FailureIsFinal(env: Environment, c: SceneConstants, destination: Grid, returnRadiance: bool,
                                          slots: seq<Grid>, names: seq<string>, k: nat)
    requires |slots| == SlotCount(returnRadiance) && 0 < k <= |names|
    requires Fill(env, c, destination, returnRadiance, slots, names[..k - 1]).Success?
    requires BandStep(env, c, destination, returnRadiance, names[k - 1]).Failure?
    ensures Fill(env, c, destination, returnRadiance, slots, names)
            == Failure(BandStep(env, c, destination, returnRadiance, names[k - 1]).error)
    decreases |names|
  {
    assert names[..k][..k - 1] == names[..k - 1];
    if k < |names| {
      assert names[..|names| - 1][..k - 1] == names[..k - 1];
      assert names[..|names| - 1][k - 1] == names[k - 1];
      FailureIsFinal(env, c, destination, returnRadiance, slots, names[..|names| - 1], k);
    } else {
      assert names[..k] == names;
    }
  }

  /** The loop over the first k + 1 names is the loop over the first k followed by step k. */
  lemma FillPrefix(env: Environment, c: SceneConstants, destination: Grid, returnRadiance: bool,
                   slots: seq<Grid>, names: seq<string>, k: nat)
    requires |slots| == SlotCount(returnRadiance) && k < |names|
    ensures Fill(env, c, destination, returnRadiance, slots, names[..k + 1]) ==
            match Fill(env, c, destination, returnRadiance, slots, names[..k])
            case Failure(e) => Failure(e)
            case Success(s) =>
              match BandStep(env, c, destination, returnRadiance, names[k])
              case Failure(e) => Failure(e)
              case Success(w) => Success(Apply(s, w))
  {
    assert names[..k + 1][..k] == names[..k];
    assert names[..k + 1][k] == names[k];
  }

  // ---------------------------------------------------------------------------
  // Which slots the loop writes

  /** Sub-dataset `name` writes slot `i`. */
  predicate WritesSlot(env: Environment, c: SceneConstants, destination: Grid, returnRadiance: bool, name: string, i: nat)
  {
    var r := BandStep(env, c, destination, returnRadiance, name);
    r.Success? && r.value.Some? && r.value.value.slot == i
  }

  /** A reference for the loop: slot `i` holds what the LAST sub-dataset writing it wrote,
      or `initial` if none writes it. */
  function LastWrite(env: Environment, c: SceneConstants, destination: Grid, returnRadiance: bool,
                     names: seq<string>, i: nat, initial: Grid): Grid
    decreases |names|
  {
    if names == [] then initial
    else if WritesSlot(env, c, destination, returnRadiance, names[|names| - 1], i) then
      BandStep(env, c, destination, returnRadiance, names[|names| - 1]).value.value.grid
    else LastWrite(env, c, destination, returnRadiance, names[..|names| - 1], i, initial)
  }

  /** When the loop completes, every slot holds its last write, or its initial value. */
  lemma {:induction false} FillIsLastWrite(env: Environment, c: SceneConstants, destination: Grid, returnRadiance: bool,
                                           slots: seq<Grid>, names: seq<string>)
    requires |slots| == SlotCount(returnRadiance)
    requires Fill(env, c, destination, returnRadiance, slots, names).Success?
    ensures forall i :: 0 <= i < |slots| ==>
              Fill(env, c, destination, returnRadiance, slots, names).value[i]
              == LastWrite(env, c, destination, returnRadiance, names, i, slots[i])
    decreases |names|
  {
    if names != [] {
      FillIsLastWrite(env, c, destination, returnRadiance, slots, names[..|names| - 1]);
    }
  }

  /** A slot no sub-dataset writes keeps its initial value. */
  lemma {:induction false} UnwrittenKeepsInitial(env: Environment, c: SceneConstants, destination: Grid, returnRadiance: bool,
                                                 names: seq<string>, i: nat, initial: Grid)
    requires forall k :: 0 <= k < |names| ==> !WritesSlot(env, c, destination, returnRadiance, names[k], i)
    ensures LastWrite(env, c, destination, returnRadiance, names, i, initial) == initial
    decreases |names|
  {
    if names != [] {
      var front := names[..|names| - 1];
      assert !WritesSlot(env, c, destination, returnRadiance, names[|names| - 1], i);
      assert forall k :: 0 <= k < |front| ==> front[k] == names[k];
      UnwrittenKeepsInitial(env, c, destination, returnRadiance, front, i, initial);
    }
  }

  /** The last sub-dataset that writes a slot decides its content. */
  lemma {:induction false} LastWriterWins(env: Environment, c: SceneConstants, destination: Grid, returnRadiance: bool,
                                          names: seq<string>, k: nat, i: nat, initial: Grid)
    requires k < |names| && WritesSlot(env, c, destination, returnRadiance, names[k], i)
    requires forall j :: k < j < |names| ==> !WritesSlot(env, c, destination, returnRadiance, names[j], i)
    ensures LastWrite(env, c, destination, returnRadiance, names, i, initial)
            == BandStep(env, c, destination, returnRadiance, names[k]).value.value.grid
    decreases |names|
  {
    if k < |names| - 1 {
      var front := names[..|names| - 1];
      assert !WritesSlot(env, c, destination, returnRadiance, names[|names| - 1], i);
      assert front[k] == names[k];
      assert forall j :: k < j < |front| ==> front[j] == names[j];
      LastWriterWins(env, c, destination, returnRadiance, front, k, i, initial);
    }
  }

  /** Lines 139-142, 195, 203: a slot that no image sub-dataset writes is still a copy of
      `destination` in the output. */
  lemma UnwrittenSlotKeepsDestination(env: Environment, scene: SceneFile, destination: Grid, returnRadiance: bool, i: nat)
    requires CosineInRange(env)
    requires SceneOutput(env, scene, destination, returnRadiance).Success?
    requires i < SlotCount(returnRadiance)
    requires var c := ReadConstants(env, scene).value;
             var names := ImageDataNames(scene.subDatasets);
             forall k :: 0 <= k < |names| ==>
               !WritesSlot(env, c.(gains := WithThermalNormal(c.gains)), destination, returnRadiance, names[k], i)
    ensures SceneOutput(env, scene, destination, returnRadiance).value[i] == destination
  {
    var c := ReadConstants(env, scene).value;
    var c' := c.(gains := WithThermalNormal(c.gains));
    var names := ImageDataNames(scene.subDatasets);
    var slots := Allocate(destination, returnRadiance);
    FillIsLastWrite(env, c', destination, returnRadiance, slots, names);
    UnwrittenKeepsInitial(env, c', destination, returnRadiance, names, i, destination);
  }

  // ---------------------------------------------------------------------------
  // Which lookups fail, and where each band goes

  /** Reflectance mode (lines 197-203) writes only the first ten bands, so every write is
      in bounds of the ten slots; band 3B is not among the bands it writes. */
  lemma ReflectanceModeWrites(env: Environment, c: SceneConstants, destination: Grid, name: string)
    ensures var r := BandStep(env, c, destination, false, name);
            r.Success? && r.value.Some? ==>
              && ParseBand(BandLabel(name)).Some?
              && Index(ParseBand(BandLabel(name)).value) < 10
              && ParseBand(BandLabel(name)).value != B3B
              && r.value.value.slot < 10
  {
    var label_ := BandLabel(name);
    AmongFirstTenIffIndex(label_);
    if ParseBand(label_).Some? {
      IrradianceCoverage(ParseBand(label_).value);
      IndexBijection();
    }
  }

  /** In reflectance mode a thermal band (10-14) never writes its slot. */
  lemma ThermalNeverWrittenInReflectance(env: Environment, c: SceneConstants, destination: Grid, name: string)
    requires ParseBand(BandLabel(name)).Some? && Index(ParseBand(BandLabel(name)).value) >= 10
    ensures var r := BandStep(env, c, destination, false, name);
            r.Success? ==> r.value.None?
  {
    AmongFirstTenIffIndex(BandLabel(name));
  }

  /** Band 3B passes the first-ten test of line 199 but has no irradiance, so in reflectance
      mode its sub-dataset always raises. */
  lemma BackwardBandFailsInReflectance(env: Environment, c: SceneConstants, destination: Grid, name: string)
    requires BandLabel(name) == "3B"
    ensures BandStep(env, c, destination, false, name).Failure?
  {
    BackwardBandHasNoIrradiance();
  }

  /** In radiance mode every band that gets through its lookups writes its own slot. */
  lemma RadianceModeWritesEveryBand(env: Environment, c: SceneConstants, destination: Grid, name: string)
    ensures var r := BandStep(env, c, destination, true, name);
            r.Success? ==> r.value.Some? && r.value.value.slot == Index(ParseBand(BandLabel(name)).value)
  {
  }

  /** The lookups a band must get through before its radiance exists: its slot (line 164),
      its gain (line 165), the corners of `from_bounds` (line 176) and its coefficient
      column (line 191). */
  predicate LookupsSucceed(c: SceneConstants, name: string)
  {
    var label_ := BandLabel(name);
    && ParseBand(label_).Some? && label_ in c.gains
    && |c.upperLeft| >= 2 && |c.lowerRight| >= 2
    && ParseGain(c.gains[label_]).Some?
  }

  /** The grid `reproject` gives for sub-dataset `name` (lines 169-188). */
  function Reprojected(env: Environment, c: SceneConstants, destination: Grid, name: string): Grid
    requires |c.upperLeft| >= 2 && |c.lowerRight| >= 2
  {
    var source := env.readBand(name);
    env.reproject(source, Geometry(c, source).value, destination)
  }

  /** Each lookup of lines 164-201 raises its own error, in the order of the source: an unknown
      label, a label without a gain, a corner with fewer than two numbers, an unknown gain, and
      in reflectance mode a band among the first ten without an irradiance or a solar
      direction without an elevation. */
  lemma BandStepFailures(env: Environment, c: SceneConstants, destination: Grid, returnRadiance: bool, name: string)
    ensures var label_ := BandLabel(name);
            var r := BandStep(env, c, destination, returnRadiance, name);
            && (ParseBand(label_).None? ==> r == Failure(UnknownBand(label_)))
            && (ParseBand(label_).Some? && label_ !in c.gains ==> r == Failure(MissingGain(label_)))
            && (ParseBand(label_).Some? && label_ in c.gains && (|c.upperLeft| < 2 || |c.lowerRight| < 2) ==>
                  r == Failure(CornerTooShort))
            && (ParseBand(label_).Some? && label_ in c.gains && |c.upperLeft| >= 2 && |c.lowerRight| >= 2 &&
                ParseGain(c.gains[label_]).None? ==>
                  r == Failure(UnknownGain(label_, c.gains[label_])))
            && (LookupsSucceed(c, name) && !returnRadiance && AmongFirstTen(label_) && Irradiance(label_).None? ==>
                  r == Failure(NoIrradiance(label_)))
            && (LookupsSucceed(c, name) && !returnRadiance && AmongFirstTen(label_) && Irradiance(label_).Some? &&
                |c.solarDirection| < 2 ==>
                  r == Failure(NoSolarElevation))
  {
  }

  /** Lines 190-195: once its lookups succeed, a band in radiance mode writes, into its own
      slot, its reprojected grid converted pixel by pixel to radiance with the coefficient of
      its band and gain. */
  lemma RadianceModeWrite(env: Environment, c: SceneConstants, destination: Grid, name: string)
    requires LookupsSucceed(c, name)
    ensures var label_ := BandLabel(name);
            var band := ParseBand(label_).value;
            var coef := Coefficient(band, ParseGain(c.gains[label_]).value);
            var g := Reprojected(env, c, destination, name);
            var r := BandStep(env, c, destination, true, name);
            && r.Success? && r.value.Some? && r.value.value.slot == Index(band)
            && SameShape(r.value.value.grid, g)
            && forall i, j :: 0 <= i < |g| && 0 <= j < |g[i]| ==> r.value.value.grid[i][j] == Radiance(g[i][j], coef)
  {
  }

  /** Lines 190-203: once its lookups succeed, a band in reflectance mode writes nothing unless
      it is among the first ten; if it is, and has an irradiance and the solar direction has an
      elevation, it writes into its own slot the radiance of each pixel turned into reflectance
      with the scene's Earth-Sun distance, the band's irradiance and the sine of the elevation. */
  lemma ReflectanceModeWrite(env: Environment, c: SceneConstants, destination: Grid, name: string)
    requires LookupsSucceed(c, name)
    ensures var label_ := BandLabel(name);
            var r := BandStep(env, c, destination, false, name);
            !AmongFirstTen(label_) ==> r == Success(None)
    ensures var label_ := BandLabel(name);
            var band := ParseBand(label_).value;
            var coef := Coefficient(band, ParseGain(c.gains[label_]).value);
            var g := Reprojected(env, c, destination, name);
            var r := BandStep(env, c, destination, false, name);
            AmongFirstTen(label_) && Irradiance(label_).Some? && |c.solarDirection| >= 2 ==>
              var sinElevation := env.sin(Radians(c.solarDirection[1]));
              && r.Success? && r.value.Some? && r.value.value.slot == Index(band)
              && SameShape(r.value.value.grid, g)
              && forall i, j :: 0 <= i < |g| && 0 <= j < |g[i]| ==>
                   r.value.value.grid[i][j]
                   == Reflectance(Radiance(g[i][j], coef), c.distance, Irradiance(label_).value, sinElevation)
  {
  }

  /** The worked example carried to the output: in radiance mode a band 1 sub-dataset at high
      gain whose reprojected pixel is 101 writes 67.6 at that pixel of slot 0. */
  lemma WorkedExampleInSlot(env: Environment, c: SceneConstants, destination: Grid, name: string, i: nat, j: nat)
    requires ParseBand(BandLabel(name)) == Some(B1)
    requires BandLabel(name) in c.gains && c.gains[BandLabel(name)] == "HGH"
    requires |c.upperLeft| >= 2 && |c.lowerRight| >= 2
    requires var g := Reprojected(env, c, destination, name);
             i < |g| && j < |g[i]| && g[i][j] == Some(101.0)
    ensures var r := BandStep(env, c, destination, true, name);
            && r.Success? && r.value.Some? && r.value.value.slot == 0
            && i < |r.value.value.grid| && j < |r.value.value.grid[i]|
            && r.value.value.grid[i][j] == Some(67.6)
  {
    RadianceModeWrite(env, c, destination, name);
    WorkedExample();
  }

  /** In the output of a completed procedure, a slot holds what the last image sub-dataset
      writing it wrote (with `RadianceModeWrite` and `ReflectanceModeWrite`: that band's
      radiance or reflectance). */
  lemma OutputSlotHoldsLastWrite(env: Environment, scene: SceneFile, destination: Grid, returnRadiance: bool,
                                 k: nat, i: nat)
    requires CosineInRange(env)
    requires SceneOutput(env, scene, destination, returnRadiance).Success?
    requires i < SlotCount(returnRadiance)
    requires var c := ReadConstants(env, scene).value;
             var c' := c.(gains := WithThermalNormal(c.gains));
             var names := ImageDataNames(scene.subDatasets);
             && k < |names| && WritesSlot(env, c', destination, returnRadiance, names[k], i)
             && forall j :: k < j < |names| ==> !WritesSlot(env, c', destination, returnRadiance, names[j], i)
    ensures var c := ReadConstants(env, scene).value;
            var c' := c.(gains := WithThermalNormal(c.gains));
            var names := ImageDataNames(scene.subDatasets);
            SceneOutput(env, scene, destination, returnRadiance).value[i]
            == BandStep(env, c', destination, returnRadiance, names[k]).value.value.grid
  {
    var c := ReadConstants(env, scene).value;
    var c' := c.(gains := WithThermalNormal(c.gains));
    var names := ImageDataNames(scene.subDatasets);
    var slots := Allocate(destination, returnRadiance);
    FillIsLastWrite(env, c', destination, returnRadiance, slots, names);
    LastWriterWins(env, c', destination, returnRadiance, names, k, i, destination);
  }

  /** After line 148 (see `WithThermalNormal`) the thermal bands neither miss a gain nor
      have an unknown one: with corners of two numbers, a thermal band writes its normal-gain radiance in radiance
      mode and nothing in reflectance mode, and its coefficient is defined. */
  lemma ThermalGainsResolve(env: Environment, c: SceneConstants, destination: Grid, returnRadiance: bool, name: string)
    requires forall t :: t in ThermalLabels ==> t in c.gains && c.gains[t] == "NOR"
    requires ParseBand(BandLabel(name)).Some? && Index(ParseBand(BandLabel(name)).value) >= 10
    requires |c.upperLeft| >= 2 && |c.lowerRight| >= 2
    ensures var band := ParseBand(BandLabel(name)).value;
            var source := env.readBand(name);
            var reprojected := env.reproject(source, Geometry(c, source).value, destination);
            && Coefficient(band, NOR).Some?
            && BandStep(env, c, destination, returnRadiance, name)
               == if returnRadiance then Success(Some(SlotWrite(Index(band), RadianceGrid(reprojected, Coefficient(band, NOR)))))
                  else Success(None)
  {
    var label_ := BandLabel(name);
    var band := ParseBand(label_).value;
    ThermalLabelOf(band);
    assert label_ in c.gains && c.gains[label_] == "NOR";
    NormalAlwaysDefined(band);
    var source := env.readBand(name);
    var reprojected := env.reproject(source, Geometry(c, source).value, destination);
    var radiance := RadianceGrid(reprojected, Coefficient(band, NOR));
    if returnRadiance {
      assert BandStep(env, c, destination, returnRadiance, name) == Success(Some(SlotWrite(Index(band), radiance)));
    } else {
      AmongFirstTenIffIndex(label_);
      assert !AmongFirstTen(label_);
    }
  }

  /** The worked example of the calibration: band 1 at high gain, digital number 101, gives
      radiance (101 - 1) * 0.676 = 67.6. */
  lemma WorkedExample()
    ensures Radiance(Some(101.0), Coefficient(B1, HGH)) == Some(67.6)
  {
  }

  // ---------------------------------------------------------------------------
  // The shape of the output

  /** The reprojection always fills a grid of the shape of `destination` (line 178). */
  ghost predicate ReprojectionKeepsShape(env: Environment, destination: Grid)
  {
    forall source, geometry :: SameShape(env.reproject(source, geometry, destination), destination)
  }

  /** Every slot the loop writes has the shape of `destination`. */
  lemma StepKeepsShape(env: Environment, c: SceneConstants, destination: Grid, returnRadiance: bool, name: string)
    requires ReprojectionKeepsShape(env, destination)
    ensures var r := BandStep(env, c, destination, returnRadiance, name);
            r.Success? && r.value.Some? ==> SameShape(r.value.value.grid, destination)
  {
    var r := BandStep(env, c, destination, returnRadiance, name);
    if r.Success? && r.value.Some? {
      var label_ := BandLabel(name);
      var band := ParseBand(label_).value;
      var source := env.readBand(name);
      var reprojected := env.reproject(source, Geometry(c, source).value, destination);
      var radiance := RadianceGrid(reprojected, Coefficient(band, ParseGain(c.gains[label_]).value));
      SameShapeTransitive(radiance, reprojected, destination);
      if !returnRadiance {
        var irradiance := Irradiance(label_).value;
        var sinElevation := env.sin(Radians(c.solarDirection[1]));
        SameShapeTransitive(ReflectanceGrid(radiance, c.distance, irradiance, sinElevation), radiance, destination);
      }
    }
  }

  lemma SameShapeTransitive(a: Grid, b: Grid, d: Grid)
    requires SameShape(a, b) && SameShape(b, d)
    ensures SameShape(a, d)
  {
  }

  /** The output is M x N x B: with a shape-keeping reprojection, every slot of a completed
      run has the shape of `destination`. */
  lemma {:induction false} FillKeepsShape(env: Environment, c: SceneConstants, destination: Grid, returnRadiance: bool,
                                          slots: seq<Grid>, names: seq<string>)
    requires |slots| == SlotCount(returnRadiance)
    requires ReprojectionKeepsShape(env, destination)
    requires forall k :: 0 <= k < |slots| ==> SameShape(slots[k], destination)
    requires Fill(env, c, destination, returnRadiance, slots, names).Success?
    ensures forall k :: 0 <= k < |slots| ==>
              SameShape(Fill(env, c, destination, returnRadiance, slots, names).value[k], destination)
    decreases |names|
  {
    if names != [] {
      FillKeepsShape(env, c, destination, returnRadiance, slots, names[..|names| - 1]);
      StepKeepsShape(env, c, destination, returnRadiance, names[|names| - 1]);
    }
  }

  /** The whole output: B slots (15 or 10), each of the shape of `destination`. */
  lemma OutputShape(env: Environment, scene: SceneFile, destination: Grid, returnRadiance: bool)
    requires CosineInRange(env) && ReprojectionKeepsShape(env, destination)
    requires SceneOutput(env, scene, destination, returnRadiance).Success?
    ensures var out := SceneOutput(env, scene, destination, returnRadiance).value;
            |out| == SlotCount(returnRadiance) && forall k :: 0 <= k < |out| ==> SameShape(out[k], destination)
  {
    var c := ReadConstants(env, scene).value;
    FillKeepsShape(env, c.(gains := WithThermalNormal(c.gains)), destination, returnRadiance,
                   Allocate(destination, returnRadiance), ImageDataNames(scene.subDatasets));
  }
}
