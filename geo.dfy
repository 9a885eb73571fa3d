/** Turning a photo's GPS metadata (degrees, minutes and seconds of arc plus a
    hemisphere letter) into signed decimal degrees. */
module Geo {
  import opened Common

  /** A GPSLatitude or GPSLongitude tag: degrees, minutes and seconds of arc. */
  datatype Dms = Dms(degrees: real, minutes: real, seconds: real)

  /** The hemisphere letters that make a coordinate negative: south and west. */
  predicate NegativeRef(ref: string) {
    ref == "S" || ref == "W"
  }

  /** convertDMSToDD: degrees + minutes/60 + seconds/3600, negated for "S" and "W".
      Stated in seconds of arc: 3600 times the result is the signed total of seconds. */
  function ConvertDMSToDD(dms: Dms, ref: string): (dd: real)
    ensures 3600.0 * dd == (if NegativeRef(ref) then -1.0 else 1.0)
                           * (3600.0 * dms.degrees + 60.0 * dms.minutes + dms.seconds)
  {
    var dd := dms.degrees + dms.minutes / 60.0 + dms.seconds / 3600.0;
    if NegativeRef(ref) then -dd else dd
  }

  /** `tag || fallback`: a missing or empty reference tag gives way to the fallback. */
  function RefOrDefault(tag: Option<string>, fallback: string): (ref: string)
    ensures tag.Some? && tag.value != "" ==> ref == tag.value
    ensures tag.None? || tag.value == "" ==> ref == fallback
  {
    match tag
    case Some(r) => if r != "" then r else fallback
    case None => fallback
  }

  /** The decimal latitude of an upload: its reference letter defaults to "N". */
  function DecimalLatitude(lat: Dms, latRefTag: Option<string>): (d: real)
    ensures d == (if latRefTag.Some? && NegativeRef(latRefTag.value) then -1.0 else 1.0)
                 * ConvertDMSToDD(lat, "N")
  {
    ConvertDMSToDD(lat, RefOrDefault(latRefTag, "N"))
  }

  /** The decimal longitude of an upload: its reference letter defaults to "W". */
  function DecimalLongitude(lon: Dms, lonRefTag: Option<string>): (d: real)
    ensures d == (if lonRefTag.None? || lonRefTag.value == "" || NegativeRef(lonRefTag.value) then -1.0 else 1.0)
                 * ConvertDMSToDD(lon, "E")
  {
    ConvertDMSToDD(lon, RefOrDefault(lonRefTag, "W"))
  }

  /** The opposite hemisphere letter gives the opposite sign, and any letter other
      than "S" and "W" counts as north or east. */
  lemma HemisphereSign(dms: Dms, other: string)
    requires !NegativeRef(other)
    ensures ConvertDMSToDD(dms, "S") == -ConvertDMSToDD(dms, "N")
    ensures ConvertDMSToDD(dms, "W") == -ConvertDMSToDD(dms, "E")
    ensures ConvertDMSToDD(dms, other) == ConvertDMSToDD(dms, "N")
  {
  }

  /** For a position away from the equator or meridian, the result is negative
      exactly when the letter is "S" or "W". */
  lemma SignFollowsRef(dms: Dms, ref: string)
    requires dms.degrees >= 0.0 && dms.minutes >= 0.0 && dms.seconds >= 0.0
    requires dms.degrees + dms.minutes + dms.seconds > 0.0
    ensures ConvertDMSToDD(dms, ref) < 0.0 <==> NegativeRef(ref)
  {
  }

  /** Without reference tags, a latitude reads as north and a longitude as west. */
  lemma MissingRefDefaults(lat: Dms, lon: Dms)
    ensures DecimalLatitude(lat, None) == ConvertDMSToDD(lat, "N")
    ensures DecimalLongitude(lon, None) == -ConvertDMSToDD(lon, "E")
  {
  }

  /** 40 degrees 26 minutes 46 seconds is 72803/1800 = 40.44611... degrees; south of the equator it is negative. */
  lemma RegressionExample()
    ensures ConvertDMSToDD(Dms(40.0, 26.0, 46.0), "N") == 72803.0 / 1800.0
    ensures ConvertDMSToDD(Dms(40.0, 26.0, 46.0), "S") == -72803.0 / 1800.0
  {
  }
}
