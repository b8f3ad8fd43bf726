# ASTER L1T calibration, modelled in Dafny

This project models `process_aster_dataset` of `asterl1t.py` and the calibration tables it
uses. The procedure turns an ASTER Level 1T scene into an M x N x B array of at-sensor
radiance or top-of-atmosphere reflectance. It does this in three stages:

- It allocates the output: 15 slots in radiance mode, 10 in reflectance mode, each a
  copy of `destination`.
- It reads the scene metadata once: the solar direction, the gain of each band (thermal
  bands forced to normal gain), the two corners and the acquisition date. The date gives
  the Earth-Sun distance.
- For every sub-dataset whose name contains `ImageData` it takes the band label, reads
  and reprojects the band, and converts its digital numbers to radiance. It then writes
  that radiance, or the reflectance computed from it, into the band's slot.

The modules follow the structure of the file:

| module | file | what it holds |
|---|---|---|
| `Wrappers` | wrappers.dfy | `Option` (absent lookup, NaN) and `Result` (raised exception) |
| `Errors` | errors.dfy | one constructor per exception the procedure can raise |
| `Strings` | strings.dfy | the Python string operations used on metadata: `in`, `split`, `join`, `replace`, `[::-1]`, slicing, digit conversion |
| `Calibration` | calibration.dfy | `ucc`, `band_index`, `index_dict`, `resolution_dict`, `irradiance_dict` |
| `Calendar` | calendar.dfy | the acquisition date and its day of the year |
| `Radiometry` | radiometry.dfy | Earth-Sun distance, radiance and reflectance per pixel and per band |
| `Metadata` | metadata.dfy | solar direction, corners, gain map, image sub-datasets, band labels |
| `Scene` | scene.dfy | allocation, the per-band step, the loop and the whole procedure |

The pure parts are functions:
- the tables, the metadata parsing and the per-pixel laws;
- one band's step (`Scene.BandStep`);
- the loop as a left fold over the sub-datasets (`Scene.Fill`);
- the whole procedure as a value (`Scene.SceneOutput`).

The imperative parts are methods proved against those functions:
- `Metadata.ForceThermalGains` updates the gain map one thermal label at a time.
- `Scene.FillBands` writes the slots of an `array<Grid>` in place.
- `Scene.ProcessAsterDataset` allocates that array and runs the procedure.

A raised exception is a `Failure`, and the model raises in the order the source does.

Data model:
- A pixel is a `real`. NaN is `None`.
- A band is a sequence of rows.
- Slot `k` of the output is `aster_array[:, :, k]`.

Some of the procedure's inputs come from outside the model. `Scene.Environment` holds them
as function parameters:
- the conversion of a metadata text to a float;
- the reading of a band by name;
- the reprojection;
- numpy's cosine and sine.

Three facts about the code shape the model:

- The docstring (asterl1t.py:111) says the output has 9 or 14 bands. The code allocates 15
  slots in radiance mode and 10 in reflectance mode (asterl1t.py:139-142). The model follows
  the code, so `Scene.SlotCount` gives 15 or 10.
- In reflectance mode, band 3B passes the first-ten test of line 199. It then has no entry
  in `irradiance_dict`, so line 201 raises KeyError and the whole call fails. The model
  raises too, see `Scene.BackwardBandFailsInReflectance`.
- A gain without a coefficient (NaN in `ucc`) raises nothing at line 191. The whole band
  becomes NaN, see `Radiometry.UndefinedCoefficientBlanksBand`.

## Model

| member | source | states |
|---|---|---|
| Calibration.Index | asterl1t.py:31-38 | the slot of a band is below 15 and is the band's position in `band_index` |
| Calibration.ParseBand | asterl1t.py:164 | a label names the band whose label it is; a label that names no band has no slot (KeyError) |
| Calibration.IndexBijection | asterl1t.py:31-38 | `index_dict` maps the 15 labels one-to-one onto 0..14 in `band_index` order, and each label maps back to its band |
| Calibration.AmongFirstTenIffIndex | asterl1t.py:199 | a label is among `band_index[:10]` exactly when it names a band whose slot is below 10 |
| Calibration.ParseGain | asterl1t.py:30-33 | a gain text is one of the four column headers, or the lookup fails |
| Calibration.Coefficient | asterl1t.py:12-33 | every defined unit-conversion coefficient is positive; NaN entries are `None` |
| Calibration.NormalAlwaysDefined | asterl1t.py:12-28 | every band has a coefficient at normal gain |
| Calibration.ThermalOnlyNormal | asterl1t.py:23-27 | bands 10-14 have a coefficient under NOR and under no other gain |
| Calibration.LowGain2Gaps | asterl1t.py:12-28 | LG2 is undefined exactly for bands 1, 2, 3B, 3N and the thermal bands |
| Calibration.GainOrdering | asterl1t.py:13-22 | for bands 1-9, HGH < NOR < LG1 <= LG2 wherever defined |
| Calibration.Resolution | asterl1t.py:35-36 | 15 m for slots 0-3, 30 m for slots 4-9, 90 m for slots 10-14 |
| Calibration.Irradiance | asterl1t.py:40-50 | every defined solar irradiance is positive |
| Calibration.IrradianceCoverage | asterl1t.py:40-50 | a band has an irradiance exactly when it is among the first ten and is not 3B |
| Calibration.BackwardBandHasNoIrradiance | asterl1t.py:199-201 | 3B passes the first-ten test but has no irradiance |
| Calendar.DaysBeforeIsRunningSum | asterl1t.py:155 | each month starts where the previous one ends, and December ends the year |
| Calendar.IsValidDate | asterl1t.py:155 | what `datetime.datetime` accepts: years 1-9999, months 1-12, a day within its month; no accepted day is past 31 |
| Calendar.LeapDayRule | asterl1t.py:155 | `datetime` accepts February 29 exactly in leap years, and the first of every month of every year 1-9999 |
| Calendar.DayOfYear | asterl1t.py:155 | `tm_yday` of a valid date lies in 1..365, or 1..366 in a leap year |
| Calendar.DateOfDay | asterl1t.py:155 | every day number of a year is the day of the year of exactly the date it builds |
| Calendar.DayOfYearInverse | asterl1t.py:155 | the day of the year is one-to-one: the date is recovered from it |
| Calendar.DateSlicesCover | asterl1t.py:154 | the slices `[0:4]`, `[4:6]`, `[6:]` put together give back the whole date string |
| Calendar.DateFields | asterl1t.py:154 | the conversion succeeds exactly when all three slices are numbers, and then year, month and day are the numbers they spell; otherwise it raises NotANumber on the first slice, in the order year, month, day, that is not a number |
| Calendar.ParseDate | asterl1t.py:153-155 | a date is accepted exactly when its three numbers form a valid date, and then it is those numbers |
| Calendar.ParseFormatDate | asterl1t.py:153-155 | every valid date written as YYYYMMDD is read back unchanged |
| Calendar.DayOfYearExamples | asterl1t.py:153-155 | `20170615` is day 166 of a common year; January 1st is day 1 of every year |
| Calendar.DatePartExamples | asterl1t.py:154 | the slices of `20170615` are `2017`, `06`, `15` and read as 2017, 6, 15 |
| Calendar.LeapDatePartExamples | asterl1t.py:154 | the slices of `20480101` are `2048`, `01`, `01` and read as 2048, 1, 1 |
| Calendar.ParseDateUint8 | asterl1t.py:154-155 | as written, through `np.uint8`: the date is the three converted fields each taken modulo 256, accepted exactly when that date is valid (its year then below 256); a field that is not a number raises as with integers |
| Calendar.Uint8ShiftsYear | asterl1t.py:154-155 | `20170615` is read as 2017 with integers but as year 225 through `np.uint8` |
| Calendar.Uint8RejectsYear2048 | asterl1t.py:154-155 | `20480101` is accepted with integers but becomes year 0 through `np.uint8`, which `datetime` rejects |
| Calendar.Uint8KeepsDayOfYear | asterl1t.py:154-155 | a date string the integer reading accepts with a year in 2000-2099 other than 2048 is accepted through `np.uint8` too, with the same day of the year |
| Calendar.WrappedYearKeepsCalendar | asterl1t.py:154-155 | for the years 2000-2099 except 2048 the year modulo 256 keeps the date valid and the day of the year unchanged |
| Strings.ContainsIffOccurs | asterl1t.py:147 | `sub in s` holds exactly when `sub` occurs at some position of `s` |
| Strings.Split | asterl1t.py:146 | `split` always yields at least one piece |
| Strings.JoinSplit | asterl1t.py:146-147 | joining the pieces of a split with the separator gives back the text |
| Strings.SplitFirstIsPrefix | asterl1t.py:147 | the first piece of a split is a prefix of the text |
| Strings.SplitPiecesFree | asterl1t.py:147 | no piece of a split contains the separator |
| Strings.SplitPiecesFromText | asterl1t.py:147 | every character of every piece occurs in the text |
| Strings.SplitCountIffContains | asterl1t.py:147 | a split yields two pieces or more exactly when the separator occurs |
| Strings.AfterLastIsSuffix | asterl1t.py:163 | `split(sep)[-1]` holds no `sep`; the text ends with `sep` and that piece, or is that piece when `sep` does not occur |
| Strings.DeleteAll | asterl1t.py:147 | `replace(c, '')` leaves no `c`, keeps the count of every other character, and never lengthens |
| Strings.DeleteAllKeepsOrder | asterl1t.py:147 | `replace(c, '')` works piece by piece (the result for `a + b` is the result for `a` followed by that for `b`), dropping `c` and keeping any other character, so the kept characters stay in order |
| Strings.DeleteAbsent | asterl1t.py:147 | removing a character that does not occur changes nothing |
| Strings.Reverse | asterl1t.py:150-151 | `[::-1]` has the same length and element `i` is element `n - 1 - i` of the original |
| Strings.Slice | asterl1t.py:154 | slicing within bounds is the subsequence; an end past the text is clamped to it; a start past the text or past the end gives the empty string |
| Strings.ParseDecimal | asterl1t.py:154 | a text is a number exactly when it is a non-empty digit string, and its value is below 10^length |
| Strings.ParsePadded | asterl1t.py:154 | a zero-padded number is read back as itself |
| Radiometry.Radians | asterl1t.py:157 | `np.radians` / `np.deg2rad`: 180 degrees is pi, 90 degrees is pi / 2, and the sign of the angle is kept |
| Radiometry.EarthSunDistance | asterl1t.py:157 | with any cosine in [-1, 1] the distance lies in [1 - 0.01672, 1 + 0.01672] |
| Radiometry.Radiance | asterl1t.py:190-191 | a value exactly 0 becomes NaN whatever the coefficient; a NaN coefficient gives NaN; the result is defined exactly for a defined nonzero value and a defined coefficient |
| Radiometry.RadianceInverse | asterl1t.py:190-191 | the digital number is recovered from the radiance, and radiance 0 comes exactly from digital number 1 |
| Radiometry.RadianceMonotone | asterl1t.py:191 | with a positive coefficient a larger digital number gives a larger radiance |
| Radiometry.RadianceGrid | asterl1t.py:190-191 | the band keeps its shape and every pixel is converted by the per-pixel law |
| Radiometry.UndefinedCoefficientBlanksBand | asterl1t.py:191 | a NaN coefficient turns every pixel of the band to NaN instead of raising |
| Radiometry.Reflectance | asterl1t.py:201 | the reflectance is defined exactly when the radiance is and the denominator is not zero |
| Radiometry.ReflectanceIsScaledRadiance | asterl1t.py:201 | reflectance is radiance times the scene constant pi d^2 / (irradiance sin(elevation)) |
| Radiometry.ReflectanceLinear | asterl1t.py:201 | scaling the radiance scales the reflectance by the same amount |
| Radiometry.ReflectanceInverse | asterl1t.py:157-201 | with the sun above the horizon the factor is positive and the radiance is recovered from the reflectance |
| Radiometry.FactorPositive | asterl1t.py:157-201 | positive irradiance, sine and distance make the reflectance factor positive |
| Radiometry.ReflectanceGrid | asterl1t.py:201 | the band keeps its shape and every pixel is converted by the per-pixel law |
| Metadata.ParseReals | asterl1t.py:146 | the conversion succeeds exactly when every field is a number, and keeps each value in place; otherwise it raises on a field that is not |
| Metadata.SolarDirection | asterl1t.py:146 | a missing SOLARDIRECTION raises KeyError; otherwise it succeeds exactly when every ", "-separated field is a number, giving one value per field in order, and raises NotANumber otherwise |
| Metadata.Corner | asterl1t.py:150-151 | a missing corner raises KeyError; a present one succeeds exactly when every field is a number, giving the fields in reverse order, each converted, and otherwise raises on a field that is not a number |
| Metadata.ParseReversed | asterl1t.py:150-151 | converting the fields of `[::-1]` succeeds exactly when every field is a number, and gives the values from last field to first |
| Metadata.CornerSwapsToLonLat | asterl1t.py:150-151 | a corner written "lat, lon" becomes [lon, lat] |
| Metadata.SplitPair | asterl1t.py:150-151 | two pieces free of ", " joined by ", " split back into the two pieces |
| Metadata.Filter | asterl1t.py:147 | the kept texts are exactly those containing the substring, and there are no more of them than the inputs |
| Metadata.ImageDataNames | asterl1t.py:159 | the names kept are exactly the sub-dataset names containing "ImageData" |
| Metadata.BandLabel | asterl1t.py:163 | the label holds no "ImageData", and a name containing it ends with "ImageData" followed by the label |
| Metadata.GainEntry | asterl1t.py:147 | a line raises exactly when no '=' is left once every '0' is removed; otherwise the pieces joined by ", " give the text between the first '=' and the next one (or the end), and no piece holds '0' or ", " |
| Metadata.GainEntries | asterl1t.py:147 | one entry per GAIN line in order; on failure the error is that of a line every earlier line of which converts, so the first line that raises decides the error |
| Metadata.DictOfPairs | asterl1t.py:147 | `dict()` succeeds exactly when every entry is a pair; otherwise it raises on the first entry that is not |
| Metadata.DictOfPairsKeys | asterl1t.py:147 | the keys of the dictionary are exactly the first elements of the entries |
| Metadata.LaterEntryWins | asterl1t.py:147 | a key maps to the value of its last entry |
| Metadata.GainMap | asterl1t.py:147 | no key of the gain map holds '0' or ", " |
| Metadata.ThermalLabelsAreLastFive | asterl1t.py:148 | the forced labels are the labels of slots 10-14, and no other band's |
| Metadata.ThermalLabelOf | asterl1t.py:148 | the label of a thermal band is a forced label |
| Metadata.ForcedUpToSpec | asterl1t.py:148 | after i assignments the first i thermal labels map to NOR and every other key keeps its value |
| Metadata.WithThermalNormal | asterl1t.py:148 | after line 148 every thermal label maps to NOR, the other entries are unchanged, and the keys are the old ones plus the thermal labels |
| Metadata.ForceThermalGains | asterl1t.py:148 | the loop of assignments yields the map `WithThermalNormal` describes |
| Scene.SlotCount | asterl1t.py:139-142 | 15 slots exactly in radiance mode, otherwise 10 |
| Scene.Allocate | asterl1t.py:139-142 | every slot starts as a copy of `destination` |
| Scene.ReadConstants | asterl1t.py:146-157 | on success the four metadata keys were present and the Earth-Sun distance is within one eccentricity of 1 |
| Scene.Geometry | asterl1t.py:176 | raises exactly when a corner has fewer than two numbers; otherwise west = ul[0], north = ul[1], east = lr[0], south = lr[1], and the band's own width and height |
| Scene.BandStep | asterl1t.py:163-203 | an unknown label raises KeyError; a band writes only the slot `index_dict` gives it, and that slot is in bounds |
| Scene.BandStepFailures | asterl1t.py:164-201 | each lookup raises its own error in source order: unknown label (164), missing gain (165), short corner (176), unknown gain (191), and in reflectance mode missing irradiance or missing elevation (201) |
| Scene.RadianceModeWrite | asterl1t.py:190-195 | once the lookups succeed, radiance mode writes into the band's slot the reprojected grid converted pixel by pixel with the band's coefficient at its gain |
| Scene.ReflectanceModeWrite | asterl1t.py:190-203 | once the lookups succeed, reflectance mode writes nothing for a band outside the first ten; otherwise, given an irradiance and an elevation, it writes into the band's slot each pixel's radiance turned into reflectance with the scene's distance, the band's irradiance and the sine of the elevation |
| Scene.WorkedExampleInSlot | asterl1t.py:190-195 | a band 1 sub-dataset at high gain whose reprojected pixel is 101 writes 67.6 at that pixel of slot 0 |
| Scene.OutputSlotHoldsLastWrite | asterl1t.py:161-205 | in the output, a slot holds the grid written by the last image sub-dataset that writes it |
| Scene.Apply | asterl1t.py:195-203 | a write changes its slot and no other |
| Scene.Fill | asterl1t.py:161-203 | a completed loop keeps the number of slots |
| Scene.SceneOutput | asterl1t.py:139-205 | a completed procedure returns 15 or 10 slots according to the mode |
| Scene.FillBands | asterl1t.py:161-203 | the in-place loop completes exactly when the fold does and leaves the slots the fold gives, or raises the fold's error |
| Scene.ProcessAsterDataset | asterl1t.py:139-205 | the procedure returns a newly allocated array holding exactly the slots `SceneOutput` gives, or its error |
| Scene.FailureIsFinal | asterl1t.py:161-203 | once a band raises, the procedure ends with that error whatever follows |
| Scene.FillPrefix | asterl1t.py:161-203 | the loop over k + 1 names is the loop over k names followed by step k |
| Scene.FillIsLastWrite | asterl1t.py:161-203 | after the loop every slot holds the last write to it, or its initial value |
| Scene.UnwrittenKeepsInitial | asterl1t.py:195-203 | a slot no band writes keeps its initial value |
| Scene.LastWriterWins | asterl1t.py:195-203 | the last band that writes a slot decides its content |
| Scene.UnwrittenSlotKeepsDestination | asterl1t.py:139-203 | in the output, a slot no image sub-dataset writes is still `destination` |
| Scene.ReflectanceModeWrites | asterl1t.py:197-203 | in reflectance mode only bands among the first ten other than 3B write, and always below slot 10 |
| Scene.ThermalNeverWrittenInReflectance | asterl1t.py:199-203 | in reflectance mode bands 10-14 never write |
| Scene.BackwardBandFailsInReflectance | asterl1t.py:199-201 | in reflectance mode band 3B always raises |
| Scene.RadianceModeWritesEveryBand | asterl1t.py:193-195 | in radiance mode every band that gets through its lookups writes its own slot |
| Scene.ThermalGainsResolve | asterl1t.py:148-199 | with the forced gains a thermal band writes its normal-gain radiance in radiance mode and nothing in reflectance mode |
| Scene.WorkedExample | asterl1t.py:190-191 | band 1 at high gain, digital number 101, gives radiance 67.6 |
| Scene.StepKeepsShape | asterl1t.py:178-203 | every band written has the shape of `destination` |
| Scene.FillKeepsShape | asterl1t.py:161-203 | after the loop every slot has the shape of `destination` |
| Scene.OutputShape | asterl1t.py:139-205 | the output is M x N x B: B slots, each of the shape of `destination` |

## Left out

- Opening the scene and reading rasters (`gdal.Open`, `GetSubDatasets`, `GetMetadata`,
  `rasterio.open`, `src.read`) is file I/O. The scene is given as a metadata map, a
  metadata list and a list of sub-datasets, and band reading is the parameter `readBand`.
- `rasterio.warp.reproject` and `rasterio.transform.from_bounds` are library code and not
  part of this model. The reprojection is the parameter `reproject`. The model records
  which corner values feed the west, south, east and north arguments. The resampling
  method is folded into `reproject`; its default, bilinear (line 56), is not modelled.
- `return_radiance` defaults to False, that is reflectance mode (line 57). In the model the
  mode is the required argument `returnRadiance` of Scene.SceneOutput and
  Scene.ProcessAsterDataset; a caller omitting it in the source gets `returnRadiance == false`.
- The destination transform and CRS are the same for every band, so they are folded into
  `reproject`.
- Floating point is not modelled. Pixels and constants are reals. NaN is `None`, and so is
  any value without a finite meaning. Rounding to float32 and float64 and IEEE infinities
  are left out. The conversion of a metadata text to a float is the parameter `toReal`.
- `np.cos`, `np.sin` and `np.pi` are not modelled exactly. Cosine and sine are
  parameters; of the cosine only its range [-1, 1] is used. `Pi` is
  3.141592653589793, the shortest decimal that rounds to the double nearest pi. It is not
  that double's exact value.
- `pyproj.Proj` (line 144) has no effect on the result. The `print` of line 167 is output
  only. The CRS dictionary of line 174 is a constant argument of the reprojection.
- The dtype of `destination` is left out. The model assumes a floating-point `destination`.
  Line 178 gives each band's grid the dtype of `destination`, and `reproject` casts the
  resampled values into it. With an integer `destination`, those values would be truncated,
  and line 190 would raise as soon as one pixel is 0, because NaN has no integer value.
  Lines 140-142 give `aster_array` that dtype too, so every written value would be cast.
  The model keeps every value as it is computed.
- Calendar.ParseDate reads only ASCII digit strings. Python's integer conversion also
  accepts surrounding whitespace, a sign, underscores and non-ASCII decimal digits.
- Scene.ReadConstants and Scene.SceneOutput read the date with Calendar.ParseDate, as
  integers. Line 154 converts the parts through `np.uint8`; that conversion is modelled
  apart, by Calendar.ParseDateUint8 (see "## Findings").
- Metadata.Filter states which texts are kept, not their order. The definition keeps the
  order of the inputs.
- Metadata.ImageDataNames states which names are kept, not their order. The definition
  keeps the order of the sub-datasets.
- Metadata.GainMap states only a property of the keys. What each key maps to is stated by
  Metadata.DictOfPairsKeys and Metadata.LaterEntryWins.
- Radiometry.EarthSunDistance states only the bounds of the distance. It does not state the
  yearly period of the cosine, because the cosine is a parameter.
- Scene.ReadConstants states the keys it needs and the range of the distance. Its other
  fields are stated by the functions it calls, in order.
- Scene.Fill states only the number of slots. What each slot holds is stated by
  Scene.FillIsLastWrite, Scene.UnwrittenKeepsInitial and Scene.LastWriterWins.

## Findings

| source | as written | input that shows it | evidently intended | confidence | as-written member | corrected member |
|---|---|---|---|---|---|---|
| asterl1t.py:154 | year, month and day go through `np.uint8`, which cannot hold a four-digit year; with the wrap-around of numpy 1.x the year is kept modulo 256 | `CALENDARDATE` = `20480101`: the year becomes 0 and `datetime` raises ValueError. With `20170615` the date becomes year 225. The day of the year still comes out right for 2000-2099 except 2048 (Calendar.Uint8KeepsDayOfYear) | the year read as an integer, so that every valid date is accepted unchanged (Calendar.ParseFormatDate) | not executed; numpy 2 raises OverflowError instead of wrapping | Calendar.Uint8RejectsYear2048 | Calendar.ParseDate |
