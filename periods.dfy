/** Period tagging of the weather records: every hourly record is marked as belonging to the
    cooling period, the heating period or neither, from the start and end date codes of the two
    periods given for the climate zone. The tag already present in the file is overwritten. */
module Periods {

  /** One hourly weather record: the date code MMDDHH, the direct normal and the horizontal
      diffuse irradiation, and the period tag. */
  datatype WeatherRecord = WeatherRecord(code: int, direct: real, diffuse: real, tag: int)

  const NonACPeriod: int := 0
  const HeatingPeriod: int := 1
  const CoolingPeriod: int := 2

  /** A date code lies in the period from `start` to `end`; a period whose start comes after
      its end runs over the turn of the year. */
  predicate InWindow(code: int, start: int, end: int)
  {
    if start <= end then start <= code <= end else start <= code || code <= end
  }

  /** The tag of one record, decided in the program's order: the three cooling tests first,
      then the three heating tests, otherwise the non-conditioned period. */
  function PeriodTag(code: int, hStart: int, hEnd: int, cStart: int, cEnd: int): (t: int)
    ensures t == NonACPeriod || t == HeatingPeriod || t == CoolingPeriod
  {
    if cStart <= code <= cEnd then CoolingPeriod
    else if cStart > cEnd && cStart <= code then CoolingPeriod
    else if cStart > cEnd && code <= cEnd then CoolingPeriod
    else if hStart <= code <= hEnd then HeatingPeriod
    else if hStart > hEnd && hStart <= code then HeatingPeriod
    else if hStart > hEnd && code <= hEnd then HeatingPeriod
    else NonACPeriod
  }

  /** The tag is the cooling period exactly for codes in the cooling window, the heating period
      exactly for the codes outside it that are in the heating window, and the non-conditioned
      period for all other codes. Where the two windows overlap, cooling wins. */
  lemma PeriodTagWindows(code: int, hStart: int, hEnd: int, cStart: int, cEnd: int)
    ensures PeriodTag(code, hStart, hEnd, cStart, cEnd) == CoolingPeriod
            <==> InWindow(code, cStart, cEnd)
    ensures PeriodTag(code, hStart, hEnd, cStart, cEnd) == HeatingPeriod
            <==> !InWindow(code, cStart, cEnd) && InWindow(code, hStart, hEnd)
    ensures PeriodTag(code, hStart, hEnd, cStart, cEnd) == NonACPeriod
            <==> !InWindow(code, cStart, cEnd) && !InWindow(code, hStart, hEnd)
  {
  }

  /** The records with their tags replaced, everything else kept. */
  function Tagged(s: seq<WeatherRecord>, hStart: int, hEnd: int, cStart: int, cEnd: int)
    : (r: seq<WeatherRecord>)
    ensures |r| == |s|
    ensures forall i :: 0 <= i < |s| ==>
              r[i].code == s[i].code && r[i].direct == s[i].direct && r[i].diffuse == s[i].diffuse
    ensures forall i :: 0 <= i < |s| ==>
              r[i].tag == PeriodTag(s[i].code, hStart, hEnd, cStart, cEnd)
  {
    seq(|s|, i requires 0 <= i < |s| => s[i].(tag := PeriodTag(s[i].code, hStart, hEnd, cStart, cEnd)))
  }

  /** After tagging, every record carries one of the three period tags. */
  lemma TaggedTags(s: seq<WeatherRecord>, hStart: int, hEnd: int, cStart: int, cEnd: int)
    ensures forall i :: 0 <= i < |s| ==>
              0 <= Tagged(s, hStart, hEnd, cStart, cEnd)[i].tag <= 2
  {
  }

  /** Tagging the records in place, one after the other. */
  method TagPeriods(a: array<WeatherRecord>, hStart: int, hEnd: int, cStart: int, cEnd: int)
    modifies a
    ensures a[..] == Tagged(old(a[..]), hStart, hEnd, cStart, cEnd)
  {
    ghost var s := a[..];
    var i := 0;
    while i < a.Length
      invariant 0 <= i <= a.Length
      invariant a[..i] == Tagged(s, hStart, hEnd, cStart, cEnd)[..i]
      invariant a[i..] == s[i..]
    {
      var r := a[i];
      a[i] := r.(tag := PeriodTag(r.code, hStart, hEnd, cStart, cEnd));
      assert a[..i + 1] == a[..i] + [a[i]];
      assert Tagged(s, hStart, hEnd, cStart, cEnd)[..i + 1]
          == Tagged(s, hStart, hEnd, cStart, cEnd)[..i] + [Tagged(s, hStart, hEnd, cStart, cEnd)[i]];
      i := i + 1;
    }
    assert a[..] == a[..a.Length];
  }
}
