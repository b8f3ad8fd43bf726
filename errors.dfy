/**
 * The exceptions that abort `process_aster_dataset`. Every one of them ends the
 * whole call: the output array built so far is discarded.
 */
module Errors {

  datatype SceneError =
    | MissingMetadata(key: string)          // KeyError on aster.GetMetadata()[key]
    | NotANumber(field: string)             // a metadata field numpy cannot convert
    | GainLineWithoutEquals(line: string)   // IndexError: `split('=')[1]` of a GAIN line
    | GainEntryNotPair(fields: seq<string>) // ValueError: dict() of an entry that is not a pair
    | InvalidDate(year: int, month: int, day: int)  // ValueError from datetime.datetime
    | CornerTooShort                        // IndexError: ul[0], lr[1], lr[0] or ul[1]
    | UnknownBand(band: string)            // KeyError: index_dict[band_str]
    | MissingGain(band: string)            // KeyError: gain_dict[band_str]
    | UnknownGain(band: string, gain: string)  // KeyError: ucc_dict[band_str][gain]
    | NoIrradiance(band: string)           // KeyError: irradiance_dict[band_str]
    | NoSolarElevation                      // IndexError: solar_direction[1]
}
