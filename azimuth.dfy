/** Window orientation: the compass label or angle of the window face, and the horizontal angle
    between the window normal and the sun. Angles are in degrees, 0 = south, east negative,
    west positive, north = +180. */
module Azimuth {
  import opened Results

  /** The sixteen compass labels, in order from north-north-east clockwise round to north. */
  const CompassLabels: seq<string> := [
    "北北東", "北東", "東北東", "東", "東南東", "南東", "南南東", "南",
    "南南西", "南西", "西南西", "西", "西北西", "北西", "北北西", "北"
  ]

  /** How the orientation of a window face is given: a compass label or an angle. */
  datatype AzimuthSpec = Label(name: string) | Angle(degrees: real)

  /** The position of the first occurrence of `x` in `s`, or `|s|` when it does not occur. */
  function IndexOf(s: seq<string>, x: string): (i: nat)
    ensures i <= |s|
    ensures i < |s| ==> s[i] == x
    ensures forall j :: 0 <= j < i ==> s[j] != x
    ensures i == |s| <==> x !in s
  {
    if s == [] then 0
    else if s[0] == x then 0
    else 1 + IndexOf(s[1..], x)
  }

  /** No compass label appears twice. */
  lemma LabelsDistinct()
    ensures forall i, j :: 0 <= i < j < |CompassLabels| ==> CompassLabels[i] != CompassLabels[j]
  {
  }

  /** The azimuth of a label position lies in (-180, 180]. */
  lemma LabelAngleRange(i: int)
    requires 0 <= i < |CompassLabels|
    ensures -180.0 < (i - 7) as real * 22.5 <= 180.0
  {
  }

  /** The azimuth of the window face in degrees. A label stands for (position - 7) * 22.5,
      so that south is 0, east -90, west +90 and north +180; an angle is accepted when it lies
      in (-180, 180]. Anything else is rejected. */
  function Azwj(spec: AzimuthSpec): (r: Result<real>)
    ensures spec.Label? && spec.name !in CompassLabels ==> r == Err(InvalidAzimuth)
    ensures spec.Angle? ==> (r.Ok? <==> -180.0 < spec.degrees <= 180.0)
    ensures spec.Angle? && r.Ok? ==> r.value == spec.degrees
    ensures r.Err? ==> r.error == InvalidAzimuth
    ensures r.Ok? ==> -180.0 < r.value <= 180.0
  {
    match spec
    case Label(name) =>
      var i := IndexOf(CompassLabels, name);
      if i < |CompassLabels| then LabelAngleRange(i); Ok((i - 7) as real * 22.5) else Err(InvalidAzimuth)
    case Angle(a) =>
      if -180.0 < a <= 180.0 then Ok(a) else Err(InvalidAzimuth)
  }

  /** The label at position `i` gives the azimuth (i - 7) * 22.5. */
  lemma {:induction false} LabelAzimuth(i: int)
    requires 0 <= i < |CompassLabels|
    ensures Azwj(Label(CompassLabels[i])).Ok? && Azwj(Label(CompassLabels[i])).value == (i - 7) as real * 22.5
  {
    var k := IndexOf(CompassLabels, CompassLabels[i]);
    assert k <= i;
    LabelsDistinct();
    assert k == i;
  }

  /** The cardinal points: south faces 0, east -90, west +90 and north +180. */
  lemma CardinalAzimuths()
    ensures Azwj(Label("南")).Ok? && Azwj(Label("南")).value == 0.0
    ensures Azwj(Label("東")).Ok? && Azwj(Label("東")).value == -90.0
    ensures Azwj(Label("西")).Ok? && Azwj(Label("西")).value == 90.0
    ensures Azwj(Label("北")).Ok? && Azwj(Label("北")).value == 180.0
  {
    LabelAzimuth(7);
    LabelAzimuth(3);
    LabelAzimuth(11);
    LabelAzimuth(15);
  }

  /** Two different labels never give the same azimuth. */
  lemma {:induction false} LabelAzimuthsDistinct(i: int, j: int)
    requires 0 <= i < |CompassLabels| && 0 <= j < |CompassLabels| && i != j
    ensures Azwj(Label(CompassLabels[i])).value != Azwj(Label(CompassLabels[j])).value
  {
    LabelAzimuth(i);
    LabelAzimuth(j);
  }

  /** The horizontal angle between the window normal and the sun's azimuth `azsdt`, brought
      back into range by one turn in either direction. The wrap fires only strictly beyond
      +/-180, so both -180 and +180 are kept as they are. */
  function Azwjdt(azwj: real, azsdt: real): (r: real)
    ensures var d := azsdt - azwj; r == d || r == d + 360.0 || r == d - 360.0
    ensures -180.0 <= azsdt - azwj <= 180.0 ==> r == azsdt - azwj
    ensures -540.0 <= azsdt - azwj <= 540.0 ==> -180.0 <= r <= 180.0
  {
    var d := azsdt - azwj;
    if d < -180.0 then d + 360.0
    else if d > 180.0 then d - 360.0
    else d
  }

  /** For a window azimuth and a sun azimuth both in (-180, 180], the relative angle is the one
      representative of their difference modulo a whole turn that lies in [-180, 180]; off the
      two ends it is the only one. */
  lemma {:induction false} AzwjdtCanonical(azwj: real, azsdt: real, k: int)
    requires -180.0 < azwj <= 180.0 && -180.0 < azsdt <= 180.0
    requires -180.0 < azsdt - azwj + k as real * 360.0 < 180.0
    ensures Azwjdt(azwj, azsdt) == azsdt - azwj + k as real * 360.0
  {
    var d := azsdt - azwj;
    var r := Azwjdt(azwj, azsdt);
    var e := d + k as real * 360.0;
    // r and e differ by a whole number of turns and both lie in [-180, 180] with e inside.
    var m: int := if r == d then k else if r == d + 360.0 then k - 1 else k + 1;
    assert e - r == m as real * 360.0;
    assert -360.0 < m as real * 360.0 < 360.0;
    TurnMultiple(m);
  }

  /** A sun exactly opposite the window on the negative side keeps the difference -180, where
      the documented formula (1) of the relative azimuth would give +180. Both describe the
      same direction. */
  lemma AzwjdtKeepsMinus180(azwj: real)
    ensures Azwjdt(azwj, azwj - 180.0) == -180.0
    ensures Azwjdt(azwj, azwj + 180.0) == 180.0
  {
  }

  /** A non-zero whole number of turns is at least one turn in size. */
  lemma TurnMultiple(m: int)
    ensures m >= 1 ==> m as real * 360.0 >= 360.0
    ensures m <= -1 ==> m as real * 360.0 <= -360.0
  {
  }
}
