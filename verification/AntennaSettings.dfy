/**
  The settings an optimization may give to antennas: ranges, step grids, change limits and dimensions.
  Angles and powers are integers in millionths of a degree or of a dBm.
  Source: backend/services/optimization_service.py, backend/schemas/requests.py
*/
module AntennaSettings {
  import opened Arithmetic
  import opened Wrappers

  /** Antenna identifiers, numbered in the order in which the source sorts the strings. */
  type Id = int

  datatype Field = Tilt | TxPower | Azimuth

  datatype Range = Range(min: int, current: int, max: int)

  datatype Antenna = Antenna(id: Id, tilt: Range, txPower: Range, azimuth: int)

  datatype Setting = Setting(tilt: int, txPower: int, azimuth: int) {
    function Get(field: Field): int {
      match field
      case Tilt => tilt
      case TxPower => txPower
      case Azimuth => azimuth
    }

    function With(field: Field, value: int): Setting {
      match field
      case Tilt => this.(tilt := value)
      case TxPower => this.(txPower := value)
      case Azimuth => this.(azimuth := value)
    }
  }

  /** Settings are determined by their fields. */
  lemma SameSetting(a: Setting, b: Setting)
    requires forall field: Field :: a.Get(field) == b.Get(field)
    ensures a == b
  {
    assert a.Get(Tilt) == b.Get(Tilt) && a.Get(TxPower) == b.Get(TxPower) && a.Get(Azimuth) == b.Get(Azimuth);
  }

  type Settings = map<Id, Setting>

  const FULL_TURN := 360_000_000

  /** The part of an optimization request that bounds the search. */
  datatype SearchSpace = SearchSpace(
    antennas: seq<Antenna>,
    variables: set<Field>,
    eligible: Option<seq<Id>>,
    tiltStep: int, powerStep: int, azimuthStep: int,
    maxTiltChange: Option<int>, maxPowerChange: Option<int>, maxAzimuthChange: Option<int>,
    maxChangedAntennas: Option<nat>,
    preventTotalPowerIncrease: bool,
    milliwatts: int -> real)

  predicate ValidRange(r: Range) {
    r.min <= r.current <= r.max
  }

  predicate ValidLimit(limit: Option<int>) {
    limit.Some? ==> limit.value > 0
  }

  /** What the request validators demand. */
  ghost predicate Valid(space: SearchSpace) {
    && (forall i, j :: 0 <= i < j < |space.antennas| ==> space.antennas[i].id != space.antennas[j].id)
    && (forall a :: a in space.antennas ==>
          ValidRange(a.tilt) && ValidRange(a.txPower) && 0 <= a.azimuth <= FULL_TURN)
    && space.tiltStep > 0 && space.powerStep > 0 && space.azimuthStep > 0
    && ValidLimit(space.maxTiltChange) && ValidLimit(space.maxPowerChange) && ValidLimit(space.maxAzimuthChange)
  }

  // ---------- Values of one field

  function Abs(x: int): nat {
    if x < 0 then -x else x
  }

  function CeilDiv(a: nat, b: nat): (q: nat)
    requires b > 0
    ensures a <= q * b && q * b < a + b
  {
    DivMod(a + b - 1, b);
    (a + b - 1) / b
  }

  /** The current value, the values whole steps away from it, and the ends of the range. */
  predicate OnStepGrid(v: int, min: int, max: int, step: int, current: int, includeUpper: bool)
    requires step > 0
  {
    || v == current
    || v == min
    || (includeUpper && v == max)
    || (min <= v <= max && Abs(v - current) % step == 0 && (includeUpper || v != max))
  }

  /** The ring-th values are exactly what one more step away adds. */
  lemma NextRing(d: nat, step: nat, ring: nat)
    requires step > 0 && ring > 0
    ensures d % step == 0 && d <= ring * step <==> (d % step == 0 && d <= (ring - 1) * step) || d == ring * step
    ensures (ring - 1) * step < ring * step
  {
    Distribute(ring - 1, 1, step);
    DivModUnique(ring * step, step, ring, 0);
    if d % step == 0 && d <= ring * step && d > (ring - 1) * step {
      DivMod(d, step);
      var q := d / step;
      if q <= ring - 1 {
        MulMonotone(q, ring - 1, step);
      } else if q >= ring + 1 {
        MulMonotone(ring + 1, q, step);
        Distribute(ring, 1, step);
      }
    }
  }

  ghost predicate NoDuplicates(s: seq<int>) {
    forall i, j :: 0 <= i < j < |s| ==> s[i] != s[j]
  }

  /** Within `rings` steps of the current value. */
  predicate WithinRings(v: int, min: int, max: int, step: int, current: int, includeUpper: bool, rings: nat)
    requires step > 0
  {
    v == current
    || (min <= v <= max && (includeUpper || v != max) && Abs(v - current) % step == 0 && Abs(v - current) <= rings * step)
  }

  /** A value of the range that the source keeps. */
  predicate Keeps(v: int, min: int, max: int, includeUpper: bool) {
    min <= v <= max && (includeUpper || v != max)
  }

  method AppendInRange(values: seq<int>, value: int, min: int, max: int, includeUpper: bool) returns (r: seq<int>)
    ensures r == values + if Keeps(value, min, max, includeUpper) then [value] else []
    ensures forall v :: v in r <==> v in values || (v == value && Keeps(v, min, max, includeUpper))
  {
    r := values;
    if value < min || value > max {
      return;
    }
    if !includeUpper && value == max {
      return;
    }
    r := r + [value];
  }

  lemma RingValues(v: int, min: int, max: int, step: int, current: int, includeUpper: bool, ring: nat, offset: int)
    requires step > 0 && ring > 0 && offset == ring * step
    ensures WithinRings(v, min, max, step, current, includeUpper, ring)
       <==> WithinRings(v, min, max, step, current, includeUpper, ring - 1)
            || (Keeps(v, min, max, includeUpper) && (v == current + offset || v == current - offset))
    ensures v == current + offset || v == current - offset ==> !WithinRings(v, min, max, step, current, includeUpper, ring - 1)
  {
    NextRing(Abs(v - current), step, ring);
    MulMonotone(1, ring, step);
  }

  lemma EnoughRings(v: int, min: int, max: int, step: int, current: int, includeUpper: bool, rings: nat)
    requires step > 0 && min <= current <= max
    requires Abs(current - min) <= rings * step && Abs(max - current) <= rings * step
    ensures OnStepGrid(v, min, max, step, current, includeUpper)
       <==> WithinRings(v, min, max, step, current, includeUpper, rings) || v == min || (includeUpper && v == max)
  {
  }

  /** Ring after ring from the current value outwards, the value above before the value below. */
  function Rings(min: int, max: int, step: int, current: int, includeUpper: bool, rings: nat): seq<int> {
    if rings == 0 then [current]
    else
      Rings(min, max, step, current, includeUpper, rings - 1)
      + (if Keeps(current + rings * step, min, max, includeUpper) then [current + rings * step] else [])
      + (if Keeps(current - rings * step, min, max, includeUpper) then [current - rings * step] else [])
  }

  function MaxRings(min: int, max: int, step: int, current: int): (n: nat)
    requires step > 0
    ensures Abs(current - min) <= n * step && Abs(max - current) <= n * step
  {
    CeilDiv(if Abs(current - min) >= Abs(max - current) then Abs(current - min) else Abs(max - current), step)
  }

  function WithEnd(values: seq<int>, end: int): seq<int> {
    if end !in values then values + [end] else values
  }

  /** The source's list in its order: the rings, then the ends of the range if they were not met. */
  function RangedList(min: int, max: int, step: int, current: int, includeUpper: bool): seq<int>
    requires step > 0
  {
    var rings := Rings(min, max, step, current, includeUpper, MaxRings(min, max, step, current));
    WithEnd(if includeUpper then WithEnd(rings, max) else rings, min)
  }

  lemma {:induction false} RingsMembers(min: int, max: int, step: int, current: int, includeUpper: bool, rings: nat)
    requires step > 0
    ensures forall v :: v in Rings(min, max, step, current, includeUpper, rings) <==>
              WithinRings(v, min, max, step, current, includeUpper, rings)
    ensures NoDuplicates(Rings(min, max, step, current, includeUpper, rings))
  {
    if rings > 0 {
      hide WithinRings, Keeps;
      RingsMembers(min, max, step, current, includeUpper, rings - 1);
      var offset := rings * step;
      MulMonotone(1, rings, step);
      forall v ensures v in Rings(min, max, step, current, includeUpper, rings) <==>
                         WithinRings(v, min, max, step, current, includeUpper, rings)
               ensures v == current + offset || v == current - offset ==>
                         v !in Rings(min, max, step, current, includeUpper, rings - 1)
      {
        RingValues(v, min, max, step, current, includeUpper, rings, offset);
      }
      AppendTwo(Rings(min, max, step, current, includeUpper, rings - 1), current + offset, current - offset,
                Keeps(current + offset, min, max, includeUpper), Keeps(current - offset, min, max, includeUpper));
    }
  }

  lemma AppendTwo(s: seq<int>, x: int, y: int, keepX: bool, keepY: bool)
    requires NoDuplicates(s) && x !in s && y !in s && x != y
    ensures NoDuplicates(s + (if keepX then [x] else []) + (if keepY then [y] else []))
  {
  }

  /** Exactly the step grid; duplicate-free as built, so the closing de-duplication of the source has nothing to remove. */
  lemma RangedListIsStepGrid(min: int, max: int, step: int, current: int, includeUpper: bool)
    requires min <= current <= max && step > 0
    ensures forall v :: v in RangedList(min, max, step, current, includeUpper) <==>
              OnStepGrid(v, min, max, step, current, includeUpper)
    ensures NoDuplicates(RangedList(min, max, step, current, includeUpper))
    ensures RangedList(min, max, step, current, includeUpper) != []
    ensures RangedList(min, max, step, current, includeUpper)[0] == current
  {
    hide Rings, OnStepGrid, WithinRings, MaxRings;
    var n := MaxRings(min, max, step, current);
    RingsMembers(min, max, step, current, includeUpper, n);
    StartsWithCurrent(min, max, step, current, includeUpper, n);
    forall v ensures OnStepGrid(v, min, max, step, current, includeUpper)
      <==> WithinRings(v, min, max, step, current, includeUpper, n) || v == min || (includeUpper && v == max)
    {
      EnoughRings(v, min, max, step, current, includeUpper, n);
    }
  }

  lemma {:induction false} StartsWithCurrent(min: int, max: int, step: int, current: int, includeUpper: bool, rings: nat)
    ensures Rings(min, max, step, current, includeUpper, rings) != []
    ensures Rings(min, max, step, current, includeUpper, rings)[0] == current
  {
    if rings > 0 {
      StartsWithCurrent(min, max, step, current, includeUpper, rings - 1);
    }
  }

  method RangedValues(min: int, max: int, step: int, current: int, includeUpper: bool) returns (values: seq<int>)
    requires min <= current <= max && step > 0
    ensures values == RangedList(min, max, step, current, includeUpper)
    ensures forall v :: v in values <==> OnStepGrid(v, min, max, step, current, includeUpper)
    ensures NoDuplicates(values)
    ensures values != [] && values[0] == current
  {
    hide OnStepGrid, Keeps;
    values := [current];
    var reach := if Abs(current - min) >= Abs(max - current) then Abs(current - min) else Abs(max - current);
    var maxRings := CeilDiv(reach, step);
    for ring := 1 to maxRings + 1
      invariant values == Rings(min, max, step, current, includeUpper, ring - 1)
    {
      values := AppendInRange(values, current + ring * step, min, max, includeUpper);
      values := AppendInRange(values, current - ring * step, min, max, includeUpper);
    }
    if includeUpper && max !in values {
      values := values + [max];
    }
    if min !in values {
      values := values + [min];
    }
    RangedListIsStepGrid(min, max, step, current, includeUpper);
  }

  function TurnDistance(a: int, b: int, circular: bool): int {
    var d := Abs(a - b);
    if circular && FULL_TURN - d < d then FULL_TURN - d else d
  }

  predicate WithinLimit(v: int, current: int, maximum: Option<int>, circular: bool) {
    maximum.None? || TurnDistance(v, current, circular) <= maximum.value
  }

  function KeptValues(values: seq<int>, current: int, maximum: Option<int>, circular: bool): (kept: seq<int>)
    ensures forall v :: v in kept <==> v in values && WithinLimit(v, current, maximum, circular)
    ensures maximum.None? ==> kept == values
  {
    if values == [] then []
    else
      var last := values[|values| - 1];
      assert forall v :: v in values <==> v in values[..|values| - 1] || v == last;
      KeptValues(values[..|values| - 1], current, maximum, circular)
      + if WithinLimit(last, current, maximum, circular) then [last] else []
  }

  method LimitParameterChange(values: seq<int>, current: int, maximum: Option<int>, circular: bool)
    returns (kept: seq<int>)
    ensures kept == KeptValues(values, current, maximum, circular)
  {
    if maximum.None? {
      return values;
    }
    kept := [];
    for i := 0 to |values|
      invariant kept == KeptValues(values[..i], current, maximum, circular)
    {
      assert values[..i + 1][..i] == values[..i];
      var distance := Abs(values[i] - current);
      if circular && FULL_TURN - distance < distance {
        distance := FULL_TURN - distance;
      }
      if distance <= maximum.value {
        kept := kept + [values[i]];
      }
    }
    assert values[..|values|] == values;
  }

  /** The values that the request allows for a field of an antenna. */
  predicate LegalValue(a: Antenna, field: Field, v: int, space: SearchSpace)
    requires space.tiltStep > 0 && space.powerStep > 0 && space.azimuthStep > 0
  {
    match field
    case Tilt =>
      && OnStepGrid(v, a.tilt.min, a.tilt.max, space.tiltStep, a.tilt.current, true)
      && WithinLimit(v, a.tilt.current, space.maxTiltChange, false)
    case TxPower =>
      && OnStepGrid(v, a.txPower.min, a.txPower.max, space.powerStep, a.txPower.current, true)
      && WithinLimit(v, a.txPower.current, space.maxPowerChange, false)
    case Azimuth =>
      && OnStepGrid(v, 0, FULL_TURN, space.azimuthStep, a.azimuth, false)
      && WithinLimit(v, a.azimuth, space.maxAzimuthChange, true)
  }

  function CandidateList(a: Antenna, field: Field, space: SearchSpace): seq<int>
    requires space.tiltStep > 0 && space.powerStep > 0 && space.azimuthStep > 0
  {
    match field
    case Tilt =>
      KeptValues(RangedList(a.tilt.min, a.tilt.max, space.tiltStep, a.tilt.current, true), a.tilt.current, space.maxTiltChange, false)
    case TxPower =>
      KeptValues(RangedList(a.txPower.min, a.txPower.max, space.powerStep, a.txPower.current, true),
                 a.txPower.current, space.maxPowerChange, false)
    case Azimuth =>
      KeptValues(RangedList(0, FULL_TURN, space.azimuthStep, a.azimuth, false), a.azimuth, space.maxAzimuthChange, true)
  }

  method CandidateValuesForField(a: Antenna, field: Field, space: SearchSpace) returns (values: seq<int>)
    requires Valid(space) && a in space.antennas
    ensures values == CandidateList(a, field, space)
    ensures forall v :: v in values <==> LegalValue(a, field, v, space)
  {
    hide RangedList, OnStepGrid, WithinLimit, KeptValues;
    match field
    case Tilt =>
      values := RangedValues(a.tilt.min, a.tilt.max, space.tiltStep, a.tilt.current, true);
      values := LimitParameterChange(values, a.tilt.current, space.maxTiltChange, false);
    case TxPower =>
      values := RangedValues(a.txPower.min, a.txPower.max, space.powerStep, a.txPower.current, true);
      values := LimitParameterChange(values, a.txPower.current, space.maxPowerChange, false);
    case Azimuth =>
      values := RangedValues(0, FULL_TURN, space.azimuthStep, a.azimuth, false);
      values := LimitParameterChange(values, a.azimuth, space.maxAzimuthChange, true);
  }

  // ---------- Dimensions

  datatype Dimension = Dimension(id: Id, field: Field, values: seq<int>)

  ghost predicate StrictlyIncreasing(s: seq<int>) {
    forall i, j :: 0 <= i < j < |s| ==> s[i] < s[j]
  }

  function InsertDistinct(s: seq<int>, x: int): (r: seq<int>)
    requires StrictlyIncreasing(s)
    ensures StrictlyIncreasing(r)
    ensures forall v :: v in r <==> v in s || v == x
  {
    if s == [] then [x]
    else
      var n := |s| - 1;
      if s[n] < x then s + [x]
      else if s[n] == x then s
      else
        var below := InsertDistinct(s[..n], x);
        assert forall v :: v in s <==> v in s[..n] || v == s[n];
        assert forall i :: 0 <= i < |below| ==> below[i] in below;
        below + [s[n]]
  }

  /** `sorted(set(values))`. */
  function SortedSet(values: seq<int>): (r: seq<int>)
    ensures StrictlyIncreasing(r)
    ensures forall v :: v in r <==> v in values
  {
    if values == [] then []
    else
      assert forall v :: v in values <==> v in values[..|values| - 1] || v == values[|values| - 1];
      InsertDistinct(SortedSet(values[..|values| - 1]), values[|values| - 1])
  }

  predicate Eligible(id: Id, space: SearchSpace) {
    space.eligible.None? || space.eligible.value == [] || id in space.eligible.value
  }

  const FIELDS: seq<Field> := [Tilt, TxPower, Azimuth]

  lemma AllFields()
    ensures forall field: Field :: field in FIELDS
  {
    forall field: Field ensures field in FIELDS {
      match field
      case Tilt => assert FIELDS[0] == field;
      case TxPower => assert FIELDS[1] == field;
      case Azimuth => assert FIELDS[2] == field;
    }
  }

  predicate Varies(id: Id, field: Field, space: SearchSpace) {
    Eligible(id, space) && field in space.variables
  }

  function FieldKeys(id: Id, fields: seq<Field>, space: SearchSpace): seq<(Id, Field)> {
    if fields == [] then []
    else
      var last := fields[|fields| - 1];
      FieldKeys(id, fields[..|fields| - 1], space) + if Varies(id, last, space) then [(id, last)] else []
  }

  /** Antenna by antenna, field by field: what the search varies. */
  function DimensionKeys(antennas: seq<Antenna>, space: SearchSpace): seq<(Id, Field)> {
    if antennas == [] then []
    else
      DimensionKeys(antennas[..|antennas| - 1], space) + FieldKeys(antennas[|antennas| - 1].id, FIELDS, space)
  }

  function Keys(dims: seq<Dimension>): (r: seq<(Id, Field)>)
    ensures |r| == |dims|
  {
    seq(|dims|, i requires 0 <= i < |dims| => (dims[i].id, dims[i].field))
  }

  /** The dimension lists, in increasing order, exactly the legal values of its antenna's field. */
  ghost predicate IsDimension(d: Dimension, space: SearchSpace)
    requires Valid(space)
  {
    && StrictlyIncreasing(d.values)
    && exists a :: a in space.antennas && a.id == d.id && forall v :: v in d.values <==> LegalValue(a, d.field, v, space)
  }

  ghost predicate AreDimensions(dims: seq<Dimension>, space: SearchSpace)
    requires Valid(space)
  {
    && Keys(dims) == DimensionKeys(space.antennas, space)
    && forall i :: 0 <= i < |dims| ==> IsDimension(dims[i], space)
  }

  lemma NewDimension(a: Antenna, d: Dimension, space: SearchSpace)
    requires Valid(space) && a in space.antennas && d.id == a.id && StrictlyIncreasing(d.values)
    requires forall v :: v in d.values <==> LegalValue(a, d.field, v, space)
    ensures IsDimension(d, space)
  {
  }

  method AntennaDimensions(a: Antenna, space: SearchSpace) returns (dims: seq<Dimension>)
    requires Valid(space) && a in space.antennas && Eligible(a.id, space)
    ensures Keys(dims) == FieldKeys(a.id, FIELDS, space)
    ensures forall k :: 0 <= k < |dims| ==> IsDimension(dims[k], space)
  {
    hide Eligible, LegalValue, IsDimension, Valid, FieldKeys, Keys, SortedSet;
    dims := [];
    NoFields(a.id, space);
    for f := 0 to |FIELDS|
      invariant Keys(dims) == FieldKeys(a.id, FIELDS[..f], space)
      invariant forall k :: 0 <= k < |dims| ==> IsDimension(dims[k], space)
    {
      NextField(a.id, f, space);
      if FIELDS[f] in space.variables {
        var values := CandidateValuesForField(a, FIELDS[f], space);
        var d := Dimension(a.id, FIELDS[f], SortedSet(values));
        NewDimension(a, d, space);
        AppendKey(dims, d);
        dims := dims + [d];
      }
    }
    assert FIELDS[..|FIELDS|] == FIELDS;
  }

  lemma NoFields(id: Id, space: SearchSpace)
    ensures Keys([]) == FieldKeys(id, FIELDS[..0], space)
  {
  }

  lemma NextField(id: Id, f: nat, space: SearchSpace)
    requires f < |FIELDS|
    ensures FieldKeys(id, FIELDS[..f + 1], space)
         == FieldKeys(id, FIELDS[..f], space) + if Varies(id, FIELDS[f], space) then [(id, FIELDS[f])] else []
  {
    assert FIELDS[..f + 1][..f] == FIELDS[..f];
  }

  lemma AppendKey(dims: seq<Dimension>, d: Dimension)
    ensures Keys(dims + [d]) == Keys(dims) + [(d.id, d.field)]
  {
  }

  method OptimizationDimensions(space: SearchSpace) returns (dims: seq<Dimension>)
    requires Valid(space)
    ensures AreDimensions(dims, space)
  {
    dims := [];
    for i := 0 to |space.antennas|
      invariant Keys(dims) == DimensionKeys(space.antennas[..i], space)
      invariant forall k :: 0 <= k < |dims| ==> IsDimension(dims[k], space)
    {
      var a := space.antennas[i];
      ghost var before := Keys(dims);
      assert space.antennas[..i + 1][..i] == space.antennas[..i];
      if Eligible(a.id, space) {
        var added := AntennaDimensions(a, space);
        dims := dims + added;
        assert Keys(dims) == before + Keys(added);
      } else {
        NoKeys(a.id, FIELDS, space);
      }
    }
    assert space.antennas[..|space.antennas|] == space.antennas;
  }

  lemma {:induction false} NoKeys(id: Id, fields: seq<Field>, space: SearchSpace)
    requires !Eligible(id, space)
    ensures FieldKeys(id, fields, space) == []
  {
    if fields != [] {
      NoKeys(id, fields[..|fields| - 1], space);
    }
  }

  /** The antenna of an identifier is unique. */
  lemma SameAntenna(space: SearchSpace, a: Antenna, b: Antenna)
    requires Valid(space) && a in space.antennas && b in space.antennas && a.id == b.id
    ensures a == b
  {
  }

  lemma {:induction false} SameElements(s: seq<int>, t: seq<int>)
    requires StrictlyIncreasing(s) && StrictlyIncreasing(t) && forall v :: v in s <==> v in t
    ensures s == t
  {
    if |s| == 0 || |t| == 0 {
      if |s| > 0 {
        LastIsGreatest(s);
      }
      if |t| > 0 {
        LastIsGreatest(t);
      }
    } else {
      var m, n := |s| - 1, |t| - 1;
      LastIsGreatest(s);
      LastIsGreatest(t);
      ButLast(s);
      ButLast(t);
      assert s[m] == t[n];
      forall v ensures v in s[..m] <==> v in t[..n] {
        assert v in s <==> v in t;
      }
      SameElements(s[..m], t[..n]);
      assert s == s[..m] + [s[m]] && t == t[..n] + [t[n]];
    }
  }

  lemma LastIsGreatest(s: seq<int>)
    requires s != [] && StrictlyIncreasing(s)
    ensures s[|s| - 1] in s && forall v :: v in s ==> v <= s[|s| - 1]
  {
  }

  lemma ButLast(s: seq<int>)
    requires s != [] && StrictlyIncreasing(s)
    ensures StrictlyIncreasing(s[..|s| - 1])
    ensures forall v :: v in s[..|s| - 1] <==> v in s && v != s[|s| - 1]
  {
  }

  /** A request has only one list of dimensions. */
  lemma DimensionsAreUnique(space: SearchSpace, first: seq<Dimension>, second: seq<Dimension>)
    requires Valid(space) && AreDimensions(first, space) && AreDimensions(second, space)
    ensures first == second
  {
    assert |first| == |Keys(first)| == |Keys(second)| == |second|;
    forall i | 0 <= i < |first| ensures first[i] == second[i] {
      assert Keys(first)[i] == Keys(second)[i];
      assert IsDimension(first[i], space) && IsDimension(second[i], space);
      DimensionIsUnique(space, first[i], second[i]);
    }
  }

  lemma DimensionIsUnique(space: SearchSpace, first: Dimension, second: Dimension)
    requires Valid(space) && IsDimension(first, space) && IsDimension(second, space)
    requires first.id == second.id && first.field == second.field
    ensures first == second
  {
    hide LegalValue;
    var a :| a in space.antennas && a.id == first.id && forall v :: v in first.values <==> LegalValue(a, first.field, v, space);
    var b :| b in space.antennas && b.id == second.id && forall v :: v in second.values <==> LegalValue(b, second.field, v, space);
    SameAntenna(space, a, b);
    SameElements(first.values, second.values);
  }

  // ---------- Legal settings

  function SettingOf(a: Antenna): Setting {
    Setting(a.tilt.current, a.txPower.current, a.azimuth)
  }

  function BaselineSettings(antennas: seq<Antenna>): Settings {
    if antennas == [] then map[]
    else
      var last := antennas[|antennas| - 1];
      BaselineSettings(antennas[..|antennas| - 1])[last.id := SettingOf(last)]
  }

  function Baseline(space: SearchSpace): Settings {
    BaselineSettings(space.antennas)
  }

  /** Every antenna has a setting; varied fields have legal values and all others their starting value. */
  ghost predicate Legal(settings: Settings, space: SearchSpace)
    requires Valid(space)
  {
    && settings.Keys == Baseline(space).Keys
    && (forall a :: a in space.antennas ==> a.id in settings)
    && forall a, field :: a in space.antennas ==>
         if Varies(a.id, field, space)
         then LegalValue(a, field, settings[a.id].Get(field), space)
         else settings[a.id].Get(field) == SettingOf(a).Get(field)
  }

  lemma {:induction false} BaselineLookup(antennas: seq<Antenna>)
    requires forall i, j :: 0 <= i < j < |antennas| ==> antennas[i].id != antennas[j].id
    ensures forall i :: 0 <= i < |antennas| ==>
              antennas[i].id in BaselineSettings(antennas) && BaselineSettings(antennas)[antennas[i].id] == SettingOf(antennas[i])
    ensures forall id :: id in BaselineSettings(antennas) ==> exists i :: 0 <= i < |antennas| && antennas[i].id == id
  {
    if antennas != [] {
      BaselineLookup(antennas[..|antennas| - 1]);
    }
  }

  lemma BaselineIsLegal(space: SearchSpace)
    requires Valid(space)
    ensures Legal(Baseline(space), space)
  {
    BaselineLookup(space.antennas);
  }

  lemma {:induction false} KeysVary(antennas: seq<Antenna>, space: SearchSpace, id: Id, field: Field)
    ensures (id, field) in DimensionKeys(antennas, space)
       <==> (exists a :: a in antennas && a.id == id) && Varies(id, field, space)
  {
    if antennas != [] {
      var rest, last := antennas[..|antennas| - 1], antennas[|antennas| - 1];
      KeysVary(rest, space, id, field);
      FieldKeysVary(last.id, FIELDS, space, id, field);
      AllFields();
      if exists a :: a in antennas && a.id == id {
        var a :| a in antennas && a.id == id;
        assert a in rest || a == last;
      }
    }
  }

  lemma {:induction false} FieldKeysVary(id: Id, fields: seq<Field>, space: SearchSpace, id': Id, field: Field)
    ensures (id', field) in FieldKeys(id, fields, space) <==> id' == id && field in fields && Varies(id, field, space)
  {
    if fields != [] {
      FieldKeysVary(id, fields[..|fields| - 1], space, id', field);
    }
  }

  /** Giving one varied field another of its dimension's values keeps settings legal. */
  lemma MutationIsLegal(settings: Settings, space: SearchSpace, dims: seq<Dimension>, i: nat, value: int)
    requires Valid(space) && AreDimensions(dims, space) && Legal(settings, space)
    requires i < |dims| && value in dims[i].values
    ensures dims[i].id in settings
    ensures Legal(settings[dims[i].id := settings[dims[i].id].With(dims[i].field, value)], space)
  {
    var d := dims[i];
    assert IsDimension(d, space);
    var owner :| owner in space.antennas && owner.id == d.id && forall v :: v in d.values <==> LegalValue(owner, d.field, v, space);
    assert Keys(dims)[i] == (d.id, d.field);
    KeysVary(space.antennas, space, d.id, d.field);
    var changed := settings[d.id := settings[d.id].With(d.field, value)];
    assert changed.Keys == settings.Keys;
    forall a, field | a in space.antennas
      ensures if Varies(a.id, field, space)
              then LegalValue(a, field, changed[a.id].Get(field), space)
              else changed[a.id].Get(field) == SettingOf(a).Get(field)
    {
      if a.id == d.id && field == d.field {
        SameAntenna(space, a, owner);
      }
    }
  }
}
