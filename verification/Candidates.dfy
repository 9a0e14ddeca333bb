/**
  Candidates of an optimization: which full configurations are allowed, how they are recorded as
  changes against the starting setup, and what the changes cost.
  Source: backend/services/optimization_service.py
*/
module Candidates {
  import opened Wrappers
  import opened AntennaSettings

  // ---------- The rules on full configurations

  function ChangedAntennas(settings: Settings, baseline: Settings): set<Id>
    requires settings.Keys <= baseline.Keys
  {
    set id | id in settings && settings[id] != baseline[id]
  }

  function Ids(antennas: seq<Antenna>): (ids: seq<Id>)
    ensures |ids| == |antennas|
  {
    seq(|antennas|, i requires 0 <= i < |antennas| => antennas[i].id)
  }

  /** Transmit power of all antennas together, in milliwatts; the conversion from dBm is a parameter. */
  function TotalPower(ids: seq<Id>, settings: Settings, milliwatts: int -> real): real
    requires forall i :: 0 <= i < |ids| ==> ids[i] in settings
  {
    if ids == [] then 0.0
    else
      TotalPower(ids[..|ids| - 1], settings, milliwatts) + milliwatts(settings[ids[|ids| - 1]].txPower)
  }

  predicate Allowed(settings: Settings, space: SearchSpace)
    requires settings.Keys <= Baseline(space).Keys
    requires forall a :: a in space.antennas ==> a.id in settings && a.id in Baseline(space)
  {
    var ids := Ids(space.antennas);
    && (space.maxChangedAntennas.Some? ==> |ChangedAntennas(settings, Baseline(space))| <= space.maxChangedAntennas.value)
    && (space.preventTotalPowerIncrease ==>
          TotalPower(ids, settings, space.milliwatts) <= TotalPower(ids, Baseline(space), space.milliwatts))
  }

  /** Legal settings that also meet the rules on full configurations. */
  ghost predicate Admissible(settings: Settings, space: SearchSpace)
    requires Valid(space)
  {
    BaselineLookup(space.antennas);
    Legal(settings, space) && Allowed(settings, space)
  }

  /** The antennas whose setting is not the current one. */
  function Moved(settings: Settings, antennas: seq<Antenna>): set<Id>
    requires forall a :: a in antennas ==> a.id in settings
  {
    set a | a in antennas && settings[a.id] != SettingOf(a) :: a.id
  }

  /** The power of all antennas together, at their settings and as they are. */
  function PowerAt(settings: Settings, antennas: seq<Antenna>, milliwatts: int -> real): real
    requires forall a :: a in antennas ==> a.id in settings
  {
    if antennas == [] then 0.0
    else milliwatts(settings[antennas[0].id].txPower) + PowerAt(settings, antennas[1..], milliwatts)
  }

  function PowerNow(antennas: seq<Antenna>, milliwatts: int -> real): real {
    if antennas == [] then 0.0 else milliwatts(antennas[0].txPower.current) + PowerNow(antennas[1..], milliwatts)
  }

  lemma {:induction false} PowerAdds(antennas: seq<Antenna>, settings: Settings, milliwatts: int -> real)
    requires forall a :: a in antennas ==> a.id in settings
    ensures forall i :: 0 <= i < |antennas| ==> Ids(antennas)[i] in settings
    ensures TotalPower(Ids(antennas), settings, milliwatts) == PowerAt(settings, antennas, milliwatts)
  {
    forall i | 0 <= i < |antennas| ensures Ids(antennas)[i] in settings {
      assert antennas[i] in antennas;
    }
    if antennas != [] {
      PowerAdds(antennas[1..], settings, milliwatts);
      FirstPower(Ids(antennas), settings, milliwatts);
      assert Ids(antennas)[1..] == Ids(antennas[1..]);
    }
  }

  lemma {:induction false} FirstPower(ids: seq<Id>, settings: Settings, milliwatts: int -> real)
    requires ids != [] && forall i :: 0 <= i < |ids| ==> ids[i] in settings
    ensures TotalPower(ids, settings, milliwatts) == milliwatts(settings[ids[0]].txPower) + TotalPower(ids[1..], settings, milliwatts)
  {
    var n := |ids| - 1;
    if n > 0 {
      FirstPower(ids[..n], settings, milliwatts);
      assert ids[..n][1..] == ids[1..][..n - 1];
    } else {
      assert ids[..0] == [] && ids[1..] == [];
    }
  }

  lemma {:induction false} PowerOfBaseline(antennas: seq<Antenna>, settings: Settings, milliwatts: int -> real)
    requires forall a :: a in antennas ==> a.id in settings && settings[a.id] == SettingOf(a)
    ensures PowerAt(settings, antennas, milliwatts) == PowerNow(antennas, milliwatts)
  {
    if antennas != [] {
      PowerOfBaseline(antennas[1..], settings, milliwatts);
    }
  }

  /** The two rules: no more antennas moved than the cap, and no more power than now where that is asked for. */
  lemma AllowedMeans(settings: Settings, space: SearchSpace)
    requires Valid(space) && settings.Keys == Baseline(space).Keys
    ensures forall a :: a in space.antennas ==> a.id in settings && a.id in Baseline(space)
    ensures Allowed(settings, space)
       <==> && (space.maxChangedAntennas.Some? ==> |Moved(settings, space.antennas)| <= space.maxChangedAntennas.value)
            && (space.preventTotalPowerIncrease ==>
                  PowerAt(settings, space.antennas, space.milliwatts) <= PowerNow(space.antennas, space.milliwatts))
  {
    hide TotalPower, PowerAt, PowerNow;
    BaselineLookup(space.antennas);
    forall a | a in space.antennas ensures a.id in settings && a.id in Baseline(space) && Baseline(space)[a.id] == SettingOf(a) {
      var i :| 0 <= i < |space.antennas| && space.antennas[i] == a;
    }
    forall id ensures id in ChangedAntennas(settings, Baseline(space)) <==> id in Moved(settings, space.antennas) {
      if id in ChangedAntennas(settings, Baseline(space)) {
        var i :| 0 <= i < |space.antennas| && space.antennas[i].id == id;
        assert space.antennas[i] in space.antennas;
      }
    }
    assert ChangedAntennas(settings, Baseline(space)) == Moved(settings, space.antennas);
    PowerAdds(space.antennas, settings, space.milliwatts);
    PowerAdds(space.antennas, Baseline(space), space.milliwatts);
    PowerOfBaseline(space.antennas, Baseline(space), space.milliwatts);
  }

  lemma BaselineIsAdmissible(space: SearchSpace)
    requires Valid(space)
    ensures Admissible(Baseline(space), space)
  {
    BaselineIsLegal(space);
    BaselineLookup(space.antennas);
    assert ChangedAntennas(Baseline(space), Baseline(space)) == {};
  }

  // ---------- Recording a configuration as changes

  datatype Change = Change(id: Id, field: Field, from: int, to: int, delta: int)

  function FieldChanges(id: Id, fields: seq<Field>, settings: Settings, baseline: Settings): seq<Change>
    requires id in settings && id in baseline
  {
    if fields == [] then []
    else
      var field := fields[|fields| - 1];
      var before, after := baseline[id].Get(field), settings[id].Get(field);
      FieldChanges(id, fields[..|fields| - 1], settings, baseline)
      + if before == after then [] else [Change(id, field, before, after, after - before)]
  }

  function ChangesOf(ids: seq<Id>, settings: Settings, baseline: Settings): seq<Change>
    requires forall i :: 0 <= i < |ids| ==> ids[i] in settings && ids[i] in baseline
  {
    if ids == [] then []
    else
      ChangesOf(ids[..|ids| - 1], settings, baseline) + FieldChanges(ids[|ids| - 1], FIELDS, settings, baseline)
  }

  /** `sorted(settings)`. */
  function SortedIds(space: SearchSpace): (ids: seq<Id>)
    ensures StrictlyIncreasing(ids)
    ensures forall id :: id in ids <==> exists a :: a in space.antennas && a.id == id
  {
    var ids := Ids(space.antennas);
    assert forall i :: 0 <= i < |ids| ==> ids[i] == space.antennas[i].id && space.antennas[i] in space.antennas;
    assert forall a :: a in space.antennas ==> a.id in ids by {
      forall a | a in space.antennas ensures a.id in ids {
        var i :| 0 <= i < |space.antennas| && space.antennas[i] == a;
        assert ids[i] == a.id;
      }
    }
    SortedSet(ids)
  }

  method ParameterChanges(ids: seq<Id>, settings: Settings, baseline: Settings) returns (changes: seq<Change>)
    requires forall i :: 0 <= i < |ids| ==> ids[i] in settings && ids[i] in baseline
    ensures changes == ChangesOf(ids, settings, baseline)
  {
    changes := [];
    for i := 0 to |ids|
      invariant changes == ChangesOf(ids[..i], settings, baseline)
    {
      ghost var before := changes;
      assert ids[..i + 1][..i] == ids[..i];
      for f := 0 to |FIELDS|
        invariant changes == before + FieldChanges(ids[i], FIELDS[..f], settings, baseline)
      {
        assert FIELDS[..f + 1][..f] == FIELDS[..f];
        var from, to := baseline[ids[i]].Get(FIELDS[f]), settings[ids[i]].Get(FIELDS[f]);
        if from != to {
          changes := changes + [Change(ids[i], FIELDS[f], from, to, to - from)];
        }
      }
      assert FIELDS[..|FIELDS|] == FIELDS;
    }
    assert ids[..|ids|] == ids;
  }

  function Apply(settings: Settings, changes: seq<Change>): (r: Settings)
    requires forall i :: 0 <= i < |changes| ==> changes[i].id in settings
    ensures r.Keys == settings.Keys
  {
    if changes == [] then settings
    else
      var c := changes[|changes| - 1];
      var before := Apply(settings, changes[..|changes| - 1]);
      before[c.id := before[c.id].With(c.field, c.to)]
  }

  lemma ApplyNothing(settings: Settings)
    ensures Apply(settings, []) == settings
  {
  }

  lemma {:induction false} ApplyAppend(settings: Settings, first: seq<Change>, second: seq<Change>)
    requires forall i :: 0 <= i < |first| ==> first[i].id in settings
    requires forall i :: 0 <= i < |second| ==> second[i].id in settings
    ensures Apply(settings, first + second) == Apply(Apply(settings, first), second)
  {
    if second == [] {
      assert first + second == first;
    } else {
      assert (first + second)[..|first + second| - 1] == first + second[..|second| - 1];
      ApplyAppend(settings, first, second[..|second| - 1]);
    }
  }

  lemma {:induction false} ApplyFields(id: Id, fields: seq<Field>, settings: Settings, baseline: Settings, current: Settings)
    requires id in settings && id in baseline && id in current && current[id] == baseline[id]
    ensures forall i :: 0 <= i < |FieldChanges(id, fields, settings, baseline)| ==>
              FieldChanges(id, fields, settings, baseline)[i].id == id
    ensures var r := Apply(current, FieldChanges(id, fields, settings, baseline));
            && (forall other :: other in r && other != id ==> r[other] == current[other])
            && forall field: Field :: r[id].Get(field) == if field in fields then settings[id].Get(field) else current[id].Get(field)
  {
    if fields != [] {
      var rest, last := fields[..|fields| - 1], fields[|fields| - 1];
      ApplyFields(id, rest, settings, baseline, current);
      var early, all := FieldChanges(id, rest, settings, baseline), FieldChanges(id, fields, settings, baseline);
      assert forall field: Field :: field in fields <==> field in rest || field == last;
      if baseline[id].Get(last) == settings[id].Get(last) {
        assert all == early;
      } else {
        assert all[..|all| - 1] == early;
        WithField(Apply(current, early)[id], last, settings[id].Get(last));
      }
    }
  }

  lemma WithField(s: Setting, field: Field, value: int)
    ensures forall other: Field :: s.With(field, value).Get(other) == if other == field then value else s.Get(other)
  {
  }

  lemma {:induction false} FieldChangesDiffer(id: Id, fields: seq<Field>, settings: Settings, baseline: Settings)
    requires id in settings && id in baseline
    ensures forall c :: c in FieldChanges(id, fields, settings, baseline) ==>
              c.id == id && c.from != c.to && c.delta == c.to - c.from
              && c.from == baseline[id].Get(c.field) && c.to == settings[id].Get(c.field)
  {
    if fields != [] {
      FieldChangesDiffer(id, fields[..|fields| - 1], settings, baseline);
    }
  }

  ghost predicate Agree(a: Setting, b: Setting, fields: seq<Field>) {
    forall field :: field in fields ==> a.Get(field) == b.Get(field)
  }

  lemma {:induction false} NoFieldChanges(id: Id, fields: seq<Field>, settings: Settings, baseline: Settings)
    requires id in settings && id in baseline
    ensures FieldChanges(id, fields, settings, baseline) == [] <==> Agree(settings[id], baseline[id], fields)
  {
    if fields != [] {
      var rest, last := fields[..|fields| - 1], fields[|fields| - 1];
      NoFieldChanges(id, rest, settings, baseline);
      assert forall field: Field :: field in fields <==> field in rest || field == last;
      assert FieldChanges(id, fields, settings, baseline) == []
        <==> FieldChanges(id, rest, settings, baseline) == [] && settings[id].Get(last) == baseline[id].Get(last);
    }
  }

  lemma AgreeOnAll(a: Setting, b: Setting, fields: seq<Field>)
    requires forall field: Field :: field in fields
    ensures Agree(a, b, fields) <==> a == b
  {
    if Agree(a, b, fields) {
      SameSetting(a, b);
    }
  }

  lemma CarryOver(id: Id, fields: seq<Field>, settings: Settings, baseline: Settings, current: Settings)
    requires id in settings && id in baseline && id in current && current[id] == baseline[id]
    requires forall field: Field :: field in fields
    ensures forall i :: 0 <= i < |FieldChanges(id, fields, settings, baseline)| ==>
              FieldChanges(id, fields, settings, baseline)[i].id == id
    ensures Apply(current, FieldChanges(id, fields, settings, baseline)) == current[id := settings[id]]
  {
    hide Apply, FieldChanges;
    ApplyFields(id, fields, settings, baseline, current);
    var r, target := Apply(current, FieldChanges(id, fields, settings, baseline)), current[id := settings[id]];
    forall field: Field ensures r[id].Get(field) == settings[id].Get(field) {
      assert field in fields;
    }
    SameSetting(r[id], settings[id]);
    assert r.Keys == target.Keys;
    assert forall other :: other in r ==> r[other] == target[other];
  }

  /** The changes of one antenna carry its setting over, and record only fields that differ. */
  lemma FieldChangesApply(id: Id, settings: Settings, baseline: Settings, current: Settings)
    requires id in settings && id in baseline && id in current && current[id] == baseline[id]
    ensures forall c :: c in FieldChanges(id, FIELDS, settings, baseline) ==>
              c.id == id && c.from != c.to && c.delta == c.to - c.from
    ensures Apply(current, FieldChanges(id, FIELDS, settings, baseline)) == current[id := settings[id]]
    ensures FieldChanges(id, FIELDS, settings, baseline) == [] <==> settings[id] == baseline[id]
  {
    hide Apply, FieldChanges, Agree;
    AllFields();
    FieldChangesDiffer(id, FIELDS, settings, baseline);
    NoFieldChanges(id, FIELDS, settings, baseline);
    AgreeOnAll(settings[id], baseline[id], FIELDS);
    CarryOver(id, FIELDS, settings, baseline, current);
  }

  /** The recorded changes lose nothing: applied to the starting settings they give the candidate's. */
  lemma {:induction false} ChangesApply(ids: seq<Id>, settings: Settings, baseline: Settings)
    requires StrictlyIncreasing(ids)
    requires forall i :: 0 <= i < |ids| ==> ids[i] in settings && ids[i] in baseline
    ensures forall c :: c in ChangesOf(ids, settings, baseline) ==> c.id in ids && c.from != c.to
    ensures Apply(baseline, ChangesOf(ids, settings, baseline)).Keys == baseline.Keys
    ensures forall id :: id in baseline ==>
              Apply(baseline, ChangesOf(ids, settings, baseline))[id] == if id in ids then settings[id] else baseline[id]
  {
    hide FieldChanges, Apply;
    ApplyNothing(baseline);
    if ids != [] {
      var rest, id := ids[..|ids| - 1], ids[|ids| - 1];
      ChangesApply(rest, settings, baseline);
      assert forall v :: v in ids <==> v in rest || v == id;
      assert id !in rest;
      var current := Apply(baseline, ChangesOf(rest, settings, baseline));
      FieldChangesApply(id, settings, baseline, current);
      ApplyAppend(baseline, ChangesOf(rest, settings, baseline), FieldChanges(id, FIELDS, settings, baseline));
    }
  }

  lemma SortedIdsAreAll(space: SearchSpace)
    requires Valid(space)
    ensures forall id :: id in SortedIds(space) <==> id in Baseline(space)
    ensures forall i :: 0 <= i < |SortedIds(space)| ==> SortedIds(space)[i] in Baseline(space)
  {
    hide SortedIds, BaselineSettings;
    BaselineLookup(space.antennas);
    forall id ensures id in SortedIds(space) <==> id in BaselineSettings(space.antennas) {
      if id in BaselineSettings(space.antennas) {
        var i :| 0 <= i < |space.antennas| && space.antennas[i].id == id;
        assert space.antennas[i] in space.antennas;
      }
    }
    forall i | 0 <= i < |SortedIds(space)| ensures SortedIds(space)[i] in Baseline(space) {
      assert SortedIds(space)[i] in SortedIds(space);
    }
  }

  lemma ChangesLoseNothing(space: SearchSpace, settings: Settings)
    requires Valid(space) && settings.Keys == Baseline(space).Keys
    ensures forall i :: 0 <= i < |SortedIds(space)| ==> SortedIds(space)[i] in settings
    ensures forall c :: c in ChangesOf(SortedIds(space), settings, Baseline(space)) ==> c.id in Baseline(space)
    ensures Apply(Baseline(space), ChangesOf(SortedIds(space), settings, Baseline(space))) == settings
  {
    hide SortedIds, Baseline, ChangesOf, Apply;
    var ids, baseline := SortedIds(space), Baseline(space);
    SortedIdsAreAll(space);
    ChangesApply(ids, settings, baseline);
    assert forall c :: c in ChangesOf(ids, settings, baseline) ==> c.id in baseline;
    var r := Apply(baseline, ChangesOf(ids, settings, baseline));
    assert forall id :: id in r <==> id in settings;
    assert forall id :: id in r ==> r[id] == settings[id];
  }

  // ---------- What the changes cost

  /** Number of antennas touched, and the summed relative size of the changes in millionths. */
  datatype ChangeCost = ChangeCost(changedAntennas: nat, magnitude: int)

  function Magnitude(c: Change): real {
    var delta := Abs(c.delta);
    match c.field
    case Tilt => delta as real / 20_000_000.0
    case TxPower => delta as real / 20_000_000.0
    case Azimuth => (if FULL_TURN - delta < delta then FULL_TURN - delta else delta) as real / 180_000_000.0
  }

  /** A change counts relative to 20 degrees or dBm; an azimuth change takes the shorter way round, relative to half a turn. */
  lemma MagnitudeOfChange(c: Change)
    requires c.delta == c.to - c.from
    ensures c.field != Azimuth ==> Magnitude(c) * 20_000_000.0 == Abs(c.to - c.from) as real
    ensures c.field == Azimuth ==> Magnitude(c) * 180_000_000.0 == TurnDistance(c.from, c.to, true) as real
    ensures c.field == Azimuth && 0 <= c.from <= FULL_TURN && 0 <= c.to <= FULL_TURN ==> 0.0 <= Magnitude(c) <= 1.0
  {
    var delta := Abs(c.delta);
    assert Abs(c.from - c.to) == delta;
  }

  function TotalMagnitude(changes: seq<Change>): real {
    if changes == [] then 0.0
    else TotalMagnitude(changes[..|changes| - 1]) + Magnitude(changes[|changes| - 1])
  }

  /** `round(x, 6)` as a number of millionths; halves go to the even neighbour. */
  function RoundToMillionths(x: real): int {
    var scaled := x * 1_000_000.0;
    var low := scaled.Floor;
    var rest := scaled - low as real;
    if rest < 0.5 || (rest == 0.5 && low % 2 == 0) then low else low + 1
  }

  /** Rounding goes to the nearest millionth, at halves to the even one. */
  lemma RoundingIsNearest(x: real)
    ensures RoundToMillionths(x) as real - 0.5 <= x * 1_000_000.0 <= RoundToMillionths(x) as real + 0.5
    ensures x * 1_000_000.0 in {RoundToMillionths(x) as real - 0.5, RoundToMillionths(x) as real + 0.5} ==> RoundToMillionths(x) % 2 == 0
  {
    var scaled := x * 1_000_000.0;
    var low := scaled.Floor;
    assert low as real <= scaled < low as real + 1.0;
  }

  function AntennasOf(changes: seq<Change>): set<Id> {
    set c | c in changes :: c.id
  }

  function CostOf(changes: seq<Change>): ChangeCost {
    ChangeCost(|AntennasOf(changes)|, RoundToMillionths(TotalMagnitude(changes)))
  }

  method CandidateChangeCost(changes: seq<Change>) returns (cost: ChangeCost)
    ensures cost == CostOf(changes)
  {
    var changedAntennas := set c | c in changes :: c.id;
    var magnitude := 0.0;
    for i := 0 to |changes|
      invariant magnitude == TotalMagnitude(changes[..i])
    {
      assert changes[..i + 1][..i] == changes[..i];
      var delta := Abs(changes[i].delta);
      if changes[i].field == Azimuth {
        delta := if FULL_TURN - delta < delta then FULL_TURN - delta else delta;
      }
      magnitude := magnitude + delta as real / if changes[i].field == Azimuth then 180_000_000.0 else 20_000_000.0;
    }
    assert changes[..|changes|] == changes;
    return ChangeCost(|changedAntennas|, RoundToMillionths(magnitude));
  }

  lemma {:induction false} TouchedAntennas(ids: seq<Id>, settings: Settings, baseline: Settings)
    requires forall i :: 0 <= i < |ids| ==> ids[i] in settings && ids[i] in baseline
    ensures forall id :: id in AntennasOf(ChangesOf(ids, settings, baseline)) <==> id in ids && settings[id] != baseline[id]
  {
    if ids != [] {
      var rest, id := ids[..|ids| - 1], ids[|ids| - 1];
      TouchedAntennas(rest, settings, baseline);
      FieldChangesApply(id, settings, baseline, baseline);
      var early, late := ChangesOf(rest, settings, baseline), FieldChanges(id, FIELDS, settings, baseline);
      assert AntennasOf(early + late) == AntennasOf(early) + AntennasOf(late);
      assert settings[id] != baseline[id] ==> late[0] in late;
      assert forall v :: v in ids <==> v in rest || v == id;
    }
  }

  /**
    The cost counts exactly the antennas that the cap on changed antennas counts; it is zero only for
    the starting setup itself.
  */
  lemma CostCountsChangedAntennas(space: SearchSpace, settings: Settings)
    requires Valid(space) && settings.Keys == Baseline(space).Keys
    ensures forall i :: 0 <= i < |SortedIds(space)| ==> SortedIds(space)[i] in settings
    ensures CostOf(ChangesOf(SortedIds(space), settings, Baseline(space))).changedAntennas
         == |ChangedAntennas(settings, Baseline(space))|
    ensures CostOf(ChangesOf(SortedIds(space), settings, Baseline(space))).changedAntennas == 0 <==> settings == Baseline(space)
  {
    hide SortedIds, Baseline, ChangesOf, AntennasOf;
    var ids, baseline := SortedIds(space), Baseline(space);
    SortedIdsAreAll(space);
    TouchedAntennas(ids, settings, baseline);
    var touched := AntennasOf(ChangesOf(ids, settings, baseline));
    assert forall id :: id in touched <==> id in ChangedAntennas(settings, baseline);
    assert touched == ChangedAntennas(settings, baseline);
    if ChangedAntennas(settings, baseline) == {} {
      forall id | id in settings ensures settings[id] == baseline[id] {
        assert id !in ChangedAntennas(settings, baseline);
      }
    }
  }

  // ---------- Candidates

  /** How the source names candidates: `baseline`, `global_exhaustive_n`, `global_n`, `beam_r{round}_{n}`. */
  datatype CandidateId = BaselineId | GlobalExhaustive(n: nat) | Global(n: nat) | Beam(round: nat, n: nat)

  datatype Candidate = Candidate(id: CandidateId, settings: Settings, changes: seq<Change>, parent: Option<CandidateId>)

  ghost predicate RecordsChanges(c: Candidate, space: SearchSpace) {
    && c.settings.Keys == Baseline(space).Keys
    && (forall i :: 0 <= i < |SortedIds(space)| ==> SortedIds(space)[i] in Baseline(space))
    && c.changes == ChangesOf(SortedIds(space), c.settings, Baseline(space))
  }

  method ParameterCandidate(id: CandidateId, settings: Settings, space: SearchSpace, parent: Option<CandidateId>)
    returns (c: Candidate)
    requires Valid(space) && settings.Keys == Baseline(space).Keys
    ensures c.id == id && c.settings == settings && c.parent == parent && RecordsChanges(c, space)
  {
    ChangesLoseNothing(space, settings);
    var changes := ParameterChanges(SortedIds(space), settings, Baseline(space));
    return Candidate(id, settings, changes, parent);
  }
}
