/** The dimensions of a window and its shading devices, and their assembly from a list of
    named values: required sizes are validated, optional lengths default to zero and the
    attachment offsets of the overhang and the fins default to, and are capped by, the
    distance they belong to. Lengths are in metres. */
module Geometry {
  import opened Results

  /** The eighteen dimensions of a window with an overhang above (y+), a sill board below (y-)
      and fins at the two sides (x+, x-):
      X1, X3 the distances from the window edges to the fins; X2 the window width;
      X1yp .. X3ym where the overhang (yp) and the sill board (ym) end beyond the window;
      Y1, Y3 the distances from the window edges to the overhang and the sill board; Y2 the
      window height; Y1xp .. Y3xm where the fins end above and below the window;
      Zxp, Zxm, Zyp, Zym the depths of the four devices. */
  datatype Geometry = Geometry(
    X1: real, X2: real, X3: real,
    X1yp: real, X1ym: real, X3yp: real, X3ym: real,
    Y1: real, Y2: real, Y3: real,
    Y1xp: real, Y1xm: real, Y3xp: real, Y3xm: real,
    Zxp: real, Zxm: real, Zyp: real, Zym: real)

  /** The dimensions as the eighteen-element list, in the fixed order
      X1, X2, X3, X1yp, X1ym, X3yp, X3ym, Y1, Y2, Y3, Y1xp, Y1xm, Y3xp, Y3xm, Zxp, Zxm, Zyp, Zym. */
  function ToList(g: Geometry): (s: seq<real>)
    ensures |s| == 18
    ensures s[1] == g.X2 && s[8] == g.Y2
  {
    [g.X1, g.X2, g.X3, g.X1yp, g.X1ym, g.X3yp, g.X3ym,
     g.Y1, g.Y2, g.Y3, g.Y1xp, g.Y1xm, g.Y3xp, g.Y3xm,
     g.Zxp, g.Zxm, g.Zyp, g.Zym]
  }

  /** The dimensions read back from an eighteen-element list in the same order. */
  function FromList(s: seq<real>): (g: Geometry)
    requires |s| == 18
    ensures g.X2 == s[1] && g.Y2 == s[8]
  {
    Geometry(s[0], s[1], s[2], s[3], s[4], s[5], s[6], s[7], s[8],
             s[9], s[10], s[11], s[12], s[13], s[14], s[15], s[16], s[17])
  }

  /** The list form loses nothing: reading back the list gives the same dimensions, and
      listing read-back values gives the same list. */
  lemma ListRoundTrip(g: Geometry, s: seq<real>)
    requires |s| == 18
    ensures FromList(ToList(g)) == g
    ensures ToList(FromList(s)) == s
  {
    assert ToList(FromList(s)) == s by {
      var t := ToList(FromList(s));
      assert forall k :: 0 <= k < 18 ==> t[k] == s[k];
    }
  }

  /** The window area X2 * Y2. */
  function Area(g: Geometry): (a: real)
    ensures a == ToList(g)[1] * ToList(g)[8]
  {
    g.X2 * g.Y2
  }

  /** Dimensions the assembly accepts: a window of positive size, no negative length, and
      every attachment offset within the distance it belongs to. */
  predicate Valid(g: Geometry)
  {
    g.X2 > 0.0 && g.Y2 > 0.0 &&
    g.X1 >= 0.0 && g.X3 >= 0.0 && g.Y1 >= 0.0 && g.Y3 >= 0.0 &&
    g.Zxp >= 0.0 && g.Zxm >= 0.0 && g.Zyp >= 0.0 && g.Zym >= 0.0 &&
    0.0 <= g.X1yp <= g.X1 && 0.0 <= g.X1ym <= g.X1 &&
    0.0 <= g.X3yp <= g.X3 && 0.0 <= g.X3ym <= g.X3 &&
    0.0 <= g.Y1xp <= g.Y1 && 0.0 <= g.Y1xm <= g.Y1 &&
    0.0 <= g.Y3xp <= g.Y3 && 0.0 <= g.Y3xm <= g.Y3
  }

  /** A valid window has a positive area. */
  lemma ValidAreaPositive(g: Geometry)
    requires Valid(g)
    ensures Area(g) > 0.0
  {
  }

  // ---------------------------------------------------------------------------------------
  // The raw dictionary

  /** The dictionary built from the name/value pairs in order: a later value for a name
      replaces an earlier one. */
  function DictOf(entries: seq<(string, real)>): (d: map<string, real>)
    ensures forall k :: k in d <==> exists i :: 0 <= i < |entries| && entries[i].0 == k
  {
    if entries == [] then map[]
    else
      var last := entries[|entries| - 1];
      DictOf(entries[..|entries| - 1])[last.0 := last.1]
  }

  /** Each name is bound to the value of its last occurrence in the list. */
  lemma {:induction false} DictOfLastWins(entries: seq<(string, real)>, i: int)
    requires 0 <= i < |entries|
    requires forall j :: i < j < |entries| ==> entries[j].0 != entries[i].0
    ensures entries[i].0 in DictOf(entries) && DictOf(entries)[entries[i].0] == entries[i].1
  {
    if i < |entries| - 1 {
      var front := entries[..|entries| - 1];
      DictOfLastWins(front, i);
      assert front[i] == entries[i];
    }
  }

  // ---------------------------------------------------------------------------------------
  // The validation table

  /** How a dimension is validated: required (must be given and positive), optional (zero
      when missing, never negative) or attached to the optional distance at position `parent`
      of the table (that distance when missing, never negative, capped by that distance). */
  datatype Kind = Required | Optional | Attached(parent: nat)

  /** The dimension names in the order in which they are validated. */
  const FieldNames: seq<string> := [
    "X1", "X2", "X3", "Y1", "Y2", "Y3", "Zxp", "Zxm", "Zyp", "Zym",
    "X1yp", "X1ym", "X3yp", "X3ym", "Y1xp", "Y1xm", "Y3xp", "Y3xm"
  ]

  /** The rule for each name of `FieldNames`, at the same position. */
  const Kinds: seq<Kind> := [
    Optional, Required, Optional, Optional, Required, Optional,
    Optional, Optional, Optional, Optional,
    Attached(0), Attached(0), Attached(2), Attached(2),
    Attached(3), Attached(3), Attached(5), Attached(5)
  ]

  /** For each position of the output list, the position of its name in `FieldNames`. */
  const OutputOrder: seq<nat> := [0, 1, 2, 10, 11, 12, 13, 3, 4, 5, 14, 15, 16, 17, 6, 7, 8, 9]

  /** The table is consistent: one rule per name, names distinct, every attachment refers
      to an optional distance validated before it, and the output order is a permutation. */
  lemma TableWellFormed()
    ensures |FieldNames| == |Kinds| == |OutputOrder| == 18
    ensures forall i, j :: 0 <= i < j < 18 ==> FieldNames[i] != FieldNames[j]
    ensures forall i :: 0 <= i < 18 && Kinds[i].Attached? ==>
              Kinds[i].parent < i && Kinds[Kinds[i].parent] == Optional
    ensures forall k :: 0 <= k < 18 ==> OutputOrder[k] < 18
    ensures forall k, m :: 0 <= k < m < 18 ==> OutputOrder[k] != OutputOrder[m]
  {
    NamesDistinct();
    KindsWellFormed();
    OutputOrderInjective();
  }

  lemma NamesDistinct()
    ensures |FieldNames| == 18
    ensures forall i, j :: 0 <= i < j < 18 ==> FieldNames[i] != FieldNames[j]
  {
  }

  lemma KindsWellFormed()
    ensures |FieldNames| == |Kinds| == 18
    ensures forall i :: 0 <= i < 18 && Kinds[i].Attached? ==>
              Kinds[i].parent < i && Kinds[Kinds[i].parent] == Optional
  {
  }

  lemma OutputOrderInjective()
    ensures |OutputOrder| == 18
    ensures forall k :: 0 <= k < 18 ==> OutputOrder[k] < 18
    ensures forall k, m :: 0 <= k < m < 18 ==> OutputOrder[k] != OutputOrder[m]
  {
  }

  /** No name of the table occurs among the names before it. */
  lemma NameFresh(k: nat)
    requires k < 18
    ensures FieldNames[k] !in FieldNames[..k]
  {
    NamesDistinct();
  }

  /** The value bound to `name`, or `default` when it is not given. */
  function GetOr(d: map<string, real>, name: string, default: real): (v: real)
    ensures name in d ==> v == d[name]
    ensures name !in d ==> v == default
  {
    if name in d then d[name] else default
  }

  /** Whether the given dimensions make the validation of field `i` stop the run. */
  predicate Rejects(d: map<string, real>, i: nat)
    requires i < 18
  {
    var name := FieldNames[i];
    if Kinds[i].Required? then name !in d || d[name] <= 0.0
    else name in d && d[name] < 0.0
  }

  /** The error a rejected field `i` reports. */
  function Rejection(d: map<string, real>, i: nat): (e: Error)
    requires i < 18 && Rejects(d, i)
    ensures FieldNames[i] !in d ==> e == MissingDimension(FieldNames[i])
    ensures FieldNames[i] in d ==> e == InvalidDimension(FieldNames[i], d[FieldNames[i]])
  {
    var name := FieldNames[i];
    if name !in d then MissingDimension(name) else InvalidDimension(name, d[name])
  }

  /** The value field `i` takes after validation: the given value of a required dimension;
      the given value or zero for an optional one; for an attachment, the given value or
      the parent distance when missing, never more than the parent distance. */
  function Value(d: map<string, real>, i: nat): (v: real)
    requires i < 18
  {
    var name := FieldNames[i];
    match Kinds[i]
    case Required => GetOr(d, name, 0.0)
    case Optional => GetOr(d, name, 0.0)
    case Attached(p) =>
      var parent := if p < 18 then GetOr(d, FieldNames[p], 0.0) else 0.0;
      var given := GetOr(d, name, parent);
      if given > parent then parent else given
  }

  /** What validation makes of each kind of dimension: a required one keeps its positive
      value; an optional one keeps its value or becomes zero; an attachment offset becomes
      its parent distance when missing or larger, keeps its value otherwise, and is then
      never negative and never beyond the parent distance. */
  lemma ValueProperties(d: map<string, real>, i: nat)
    requires i < 18
    ensures Kinds[i].Required? && !Rejects(d, i) ==> Value(d, i) == d[FieldNames[i]] && Value(d, i) > 0.0
    ensures Kinds[i].Optional? ==> Value(d, i) == GetOr(d, FieldNames[i], 0.0)
    ensures Kinds[i].Optional? && !Rejects(d, i) ==> Value(d, i) >= 0.0
    ensures Kinds[i].Attached? && Kinds[i].parent < 18 ==>
              var parent := GetOr(d, FieldNames[Kinds[i].parent], 0.0);
              var name := FieldNames[i];
              Value(d, i) <= parent &&
              (name !in d || d[name] >= parent ==> Value(d, i) == parent) &&
              (name in d && d[name] <= parent ==> Value(d, i) == d[name]) &&
              (!Rejects(d, i) && parent >= 0.0 ==> Value(d, i) >= 0.0)
  {
  }

  /** The first field at or after `from` whose validation stops the run, or 18 if none. */
  function FirstRejected(d: map<string, real>, from: nat): (j: nat)
    requires from <= 18
    ensures from <= j <= 18
    ensures j < 18 ==> Rejects(d, j)
    ensures forall m :: from <= m < j ==> !Rejects(d, m)
    decreases 18 - from
  {
    if from == 18 then 18
    else if Rejects(d, from) then from
    else FirstRejected(d, from + 1)
  }

  /** The dimensions assembled from field values indexed as in `FieldNames`. */
  function Assemble(v: seq<real>): (g: Geometry)
    requires |v| == 18
    ensures forall k :: 0 <= k < 18 ==> ToList(g)[k] == v[OutputOrder[k]]
  {
    Geometry(v[0], v[1], v[2], v[10], v[11], v[12], v[13], v[3], v[4], v[5],
             v[14], v[15], v[16], v[17], v[6], v[7], v[8], v[9])
  }

  /** The outcome of validating the raw dictionary `d`: the error of the first rejected field
      in validation order, or the assembled dimensions, which are then valid and hold, at
      each output position, the validated value of the field named there. */
  function Resolve(d: map<string, real>): (r: Result<Geometry>)
    ensures r.Ok? <==> forall j :: 0 <= j < 18 ==> !Rejects(d, j)
    ensures r.Ok? ==> forall k :: 0 <= k < 18 ==> ToList(r.value)[k] == Value(d, OutputOrder[k])
  {
    var j := FirstRejected(d, 0);
    if j < 18 then Err(Rejection(d, j))
    else
      OutputOrderInjective();
      Ok(Assemble(Validated(d)))
  }

  /** The validated values of all eighteen fields, in validation order. */
  function Validated(d: map<string, real>): (v: seq<real>)
    ensures |v| == 18 && forall i :: 0 <= i < 18 ==> v[i] == Value(d, i)
  {
    seq(18, i requires 0 <= i < 18 => Value(d, i))
  }

  /** Whatever the assembly accepts is a valid set of dimensions. */
  lemma ResolveValid(d: map<string, real>)
    requires Resolve(d).Ok?
    ensures Valid(Resolve(d).value)
  {
    var v := Validated(d);
    assert Resolve(d).value == Assemble(v);
    assert forall j :: 0 <= j < 18 ==> !Rejects(d, j);
    // The four parent distances are optional fields: never negative once accepted.
    ValueProperties(d, 0); ValueProperties(d, 2); ValueProperties(d, 3); ValueProperties(d, 5);
    ValueProperties(d, 1); ValueProperties(d, 4);
    ValueProperties(d, 6); ValueProperties(d, 7); ValueProperties(d, 8); ValueProperties(d, 9);
    ValueProperties(d, 10); ValueProperties(d, 11); ValueProperties(d, 12); ValueProperties(d, 13);
    ValueProperties(d, 14); ValueProperties(d, 15); ValueProperties(d, 16); ValueProperties(d, 17);
  }

  /** The accepted dimensions field by field: X2 and Y2 as given; the other distances and
      the depths as given or zero; each attachment offset as given when it does not exceed
      its parent distance, and that distance otherwise. */
  lemma ResolveFieldByField(d: map<string, real>)
    requires Resolve(d).Ok?
    ensures Resolve(d).value.X2 == d["X2"] && Resolve(d).value.Y2 == d["Y2"]
    ensures Resolve(d).value.X1 == GetOr(d, "X1", 0.0)
    ensures Resolve(d).value.X3 == GetOr(d, "X3", 0.0)
    ensures Resolve(d).value.Y1 == GetOr(d, "Y1", 0.0)
    ensures Resolve(d).value.Y3 == GetOr(d, "Y3", 0.0)
    ensures Resolve(d).value.Zxp == GetOr(d, "Zxp", 0.0)
    ensures Resolve(d).value.Zxm == GetOr(d, "Zxm", 0.0)
    ensures Resolve(d).value.Zyp == GetOr(d, "Zyp", 0.0)
    ensures Resolve(d).value.Zym == GetOr(d, "Zym", 0.0)
    ensures Resolve(d).value.X1yp == (if "X1yp" in d && d["X1yp"] <= Resolve(d).value.X1 then d["X1yp"] else Resolve(d).value.X1)
    ensures Resolve(d).value.X1ym == (if "X1ym" in d && d["X1ym"] <= Resolve(d).value.X1 then d["X1ym"] else Resolve(d).value.X1)
    ensures Resolve(d).value.X3yp == (if "X3yp" in d && d["X3yp"] <= Resolve(d).value.X3 then d["X3yp"] else Resolve(d).value.X3)
    ensures Resolve(d).value.X3ym == (if "X3ym" in d && d["X3ym"] <= Resolve(d).value.X3 then d["X3ym"] else Resolve(d).value.X3)
    ensures Resolve(d).value.Y1xp == (if "Y1xp" in d && d["Y1xp"] <= Resolve(d).value.Y1 then d["Y1xp"] else Resolve(d).value.Y1)
    ensures Resolve(d).value.Y1xm == (if "Y1xm" in d && d["Y1xm"] <= Resolve(d).value.Y1 then d["Y1xm"] else Resolve(d).value.Y1)
    ensures Resolve(d).value.Y3xp == (if "Y3xp" in d && d["Y3xp"] <= Resolve(d).value.Y3 then d["Y3xp"] else Resolve(d).value.Y3)
    ensures Resolve(d).value.Y3xm == (if "Y3xm" in d && d["Y3xm"] <= Resolve(d).value.Y3 then d["Y3xm"] else Resolve(d).value.Y3)
  {
    TableWellFormed();
    var v := Validated(d);
    assert Resolve(d).value == Assemble(v);
    assert forall j :: 0 <= j < 18 ==> !Rejects(d, j);
    forall i | 0 <= i < 18 {
      ValueProperties(d, i);
    }
  }

  /** Validates field `k` of the dictionary `dict` in place: fills in a missing optional value
      or attachment offset, caps an attachment offset at its parent distance, or reports the
      field's error. An attachment's parent distance has already been validated. */
  method CheckField(dict: map<string, real>, k: nat) returns (r: Result<map<string, real>>)
    requires k < 18
    requires Kinds[k].Attached? ==> Kinds[k].parent < 18 && FieldNames[Kinds[k].parent] in dict
    ensures r.Err? <==> Rejects(dict, k)
    ensures r.Err? ==> r.error == Rejection(dict, k)
    ensures r.Ok? ==> r.value == dict[FieldNames[k] := Value(dict, k)]
  {
    var name := FieldNames[k];
    match Kinds[k] {
      case Required =>
        if name !in dict {
          return Err(MissingDimension(name));
        } else if dict[name] <= 0.0 {
          return Err(InvalidDimension(name, dict[name]));
        }
        r := Ok(dict);
      case Optional =>
        if name !in dict {
          r := Ok(dict[name := 0.0]);
        } else if dict[name] < 0.0 {
          r := Err(InvalidDimension(name, dict[name]));
        } else {
          r := Ok(dict);
        }
      case Attached(p) =>
        var parent := dict[FieldNames[p]];
        if name !in dict {
          r := Ok(dict[name := parent]);
        } else if dict[name] < 0.0 {
          r := Err(InvalidDimension(name, dict[name]));
        } else if dict[name] > parent {
          r := Ok(dict[name := parent]);
        } else {
          r := Ok(dict);
        }
    }
  }

  /** Validation of field `k` sees the same thing in the partly validated dictionary `dict`
      as in the raw one: the field itself is untouched and its parent distance, already
      validated, holds the value the raw dictionary gives it. */
  lemma CheckSeesRaw(raw: map<string, real>, dict: map<string, real>, k: nat)
    requires k < 18
    requires (FieldNames[k] in dict <==> FieldNames[k] in raw)
    requires FieldNames[k] in raw ==> dict[FieldNames[k]] == raw[FieldNames[k]]
    requires Kinds[k].Attached? ==>
               (Kinds[k].parent < 18 && Kinds[Kinds[k].parent] == Optional &&
                FieldNames[Kinds[k].parent] in dict &&
                dict[FieldNames[Kinds[k].parent]] == Value(raw, Kinds[k].parent))
    ensures Rejects(dict, k) == Rejects(raw, k)
    ensures Rejects(raw, k) ==> Rejection(dict, k) == Rejection(raw, k)
    ensures Value(dict, k) == Value(raw, k)
  {
  }

  /** Assembles the dimensions from name/value pairs: the pairs are entered in a dictionary
      one after the other, then each field is validated in table order, with a missing or
      oversized value replaced in place, and the first rejected field stops the assembly. */
  method SetWSSize(entries: seq<(string, real)>) returns (r: Result<Geometry>)
    ensures r == Resolve(DictOf(entries))
  {
    var raw := EnterPairs(entries);
    var checked := ValidateFields(raw);
    if checked.Err? {
      return Err(checked.error);
    }
    var dict := checked.value;
    // Emit the validated values in the fixed output order.
    var values := seq(18, j requires 0 <= j < 18 => dict[FieldNames[j]]);
    assert values == Validated(raw);
    r := Ok(Assemble(values));
  }

  /** The first `k` names are bound in `dict` to the first `k` values, and every other name
      is bound in `dict` as in `raw`. */
  ghost predicate Agrees(names: seq<string>, vals: seq<real>, raw: map<string, real>, dict: map<string, real>, k: nat)
    requires k <= |names| && k <= |vals|
  {
    (forall j :: 0 <= j < k ==> names[j] in dict && dict[names[j]] == vals[j]) &&
    (forall n :: n !in names[..k] ==> (n in dict <==> n in raw) && (n in raw ==> dict[n] == raw[n]))
  }

  /** Binding a name that does not occur before it to its value extends the agreement. */
  lemma AgreesExtend(names: seq<string>, vals: seq<real>, raw: map<string, real>, dict: map<string, real>, k: nat)
    requires k < |names| && k < |vals| && Agrees(names, vals, raw, dict, k)
    requires names[k] !in names[..k]
    ensures Agrees(names, vals, raw, dict[names[k] := vals[k]], k + 1)
  {
    var next := dict[names[k] := vals[k]];
    forall j | 0 <= j < k
      ensures names[j] in next && next[names[j]] == vals[j]
    {
      assert names[..k][j] == names[j];
    }
    assert names[..k + 1] == names[..k] + [names[k]];
  }

  /** The first `k` fields of `raw` are accepted and hold their validated values in `dict`,
      and every other name is bound in `dict` as in `raw`. */
  ghost predicate ValidatedUpTo(raw: map<string, real>, dict: map<string, real>, k: nat)
    requires k <= 18
  {
    (forall j :: 0 <= j < k ==> !Rejects(raw, j)) &&
    Agrees(FieldNames, Validated(raw), raw, dict, k)
  }

  /** After the first `k` fields, field `k` is validated in `dict` as it would be in `raw`. */
  lemma NextFieldSeesRaw(raw: map<string, real>, dict: map<string, real>, k: nat)
    requires k < 18 && ValidatedUpTo(raw, dict, k)
    ensures Kinds[k].Attached? ==> Kinds[k].parent < 18 && FieldNames[Kinds[k].parent] in dict
    ensures Rejects(dict, k) == Rejects(raw, k)
    ensures Rejects(raw, k) ==> Rejection(dict, k) == Rejection(raw, k)
    ensures Value(dict, k) == Value(raw, k)
  {
    KindsWellFormed();
    NameFresh(k);
    CheckSeesRaw(raw, dict, k);
  }

  /** Accepting field `k` extends the validated prefix by one. */
  lemma NextFieldValidated(raw: map<string, real>, dict: map<string, real>, k: nat)
    requires k < 18 && ValidatedUpTo(raw, dict, k) && !Rejects(raw, k)
    ensures ValidatedUpTo(raw, dict[FieldNames[k] := Value(raw, k)], k + 1)
  {
    NameFresh(k);
    AgreesExtend(FieldNames, Validated(raw), raw, dict, k);
  }

  /** Validates the eighteen fields of the raw dictionary in table order, each in place,
      stopping at the first rejected one. */
  method ValidateFields(raw: map<string, real>) returns (r: Result<map<string, real>>)
    ensures r.Err? <==> FirstRejected(raw, 0) < 18
    ensures r.Err? ==> r.error == Rejection(raw, FirstRejected(raw, 0))
    ensures r.Ok? ==> forall j :: 0 <= j < 18 ==>
              FieldNames[j] in r.value && r.value[FieldNames[j]] == Value(raw, j)
  {
    var dict := raw;
    var k := 0;
    assert FieldNames[..0] == [];
    while k < 18
      invariant 0 <= k <= 18
      invariant ValidatedUpTo(raw, dict, k)
    {
      NextFieldSeesRaw(raw, dict, k);
      var checked := CheckField(dict, k);
      if checked.Err? {
        FirstRejectedAt(raw, k);
        return Err(checked.error);
      }
      NextFieldValidated(raw, dict, k);
      dict := checked.value;
      k := k + 1;
    }
    assert FirstRejected(raw, 0) == 18;
    r := Ok(dict);
  }

  /** Enters the name/value pairs into a dictionary one after the other. */
  method EnterPairs(entries: seq<(string, real)>) returns (dict: map<string, real>)
    ensures dict == DictOf(entries)
  {
    dict := map[];
    var i := 0;
    while i < |entries|
      invariant 0 <= i <= |entries|
      invariant dict == DictOf(entries[..i])
    {
      assert entries[..i + 1][..i] == entries[..i];
      dict := dict[entries[i].0 := entries[i].1];
      i := i + 1;
    }
    assert entries[..i] == entries;
  }

  /** When field `k` is the first to be rejected, the assembly reports it. */
  lemma FirstRejectedAt(d: map<string, real>, k: nat)
    requires k < 18 && Rejects(d, k)
    requires forall j :: 0 <= j < k ==> !Rejects(d, j)
    ensures FirstRejected(d, 0) == k
    ensures Resolve(d) == Err(Rejection(d, k))
  {
    var j := FirstRejected(d, 0);
    assert !(j < k);
    assert !(j > k);
  }
}
