/**
  The request that is sent to the simulator for a candidate: when the builder accepts settings, and what
  it makes of them.
  Source: backend/services/optimization_service.py
*/
module RequestBuilder {
  import opened Wrappers
  import opened AntennaSettings
  import opened Candidates

  datatype BuildError = UnknownAntenna | TiltOutOfRange | PowerOutOfRange | AzimuthOutOfRange

  function WithSetting(a: Antenna, s: Setting): Antenna {
    a.(tilt := a.tilt.(current := s.tilt), txPower := a.txPower.(current := s.txPower), azimuth := s.azimuth)
  }

  predicate InRange(a: Antenna, s: Setting) {
    && a.tilt.min <= s.tilt <= a.tilt.max
    && a.txPower.min <= s.txPower <= a.txPower.max
    && 0 <= s.azimuth <= FULL_TURN
  }

  /** The antennas of the candidate request: all others unchanged, those with a setting moved to it. */
  function Updated(antennas: seq<Antenna>, settings: Settings): (r: seq<Antenna>)
    ensures |r| == |antennas|
  {
    seq(|antennas|, i requires 0 <= i < |antennas| =>
      if antennas[i].id in settings then WithSetting(antennas[i], settings[antennas[i].id]) else antennas[i])
  }

  ghost predicate Accepts(antennas: seq<Antenna>, settings: Settings) {
    && (forall id :: id in settings ==> exists i :: 0 <= i < |antennas| && antennas[i].id == id)
    && (forall i :: 0 <= i < |antennas| && antennas[i].id in settings ==> InRange(antennas[i], settings[antennas[i].id]))
  }

  /** The first antenna from `i` on whose setting is out of range decides the error, tilt before power before azimuth. */
  function RangeErrorFrom(antennas: seq<Antenna>, settings: Settings, i: nat): Option<BuildError>
    requires i <= |antennas|
    decreases |antennas| - i
  {
    if i == |antennas| then None
    else
      var a := antennas[i];
      if a.id !in settings then RangeErrorFrom(antennas, settings, i + 1)
      else
        var next := settings[a.id];
        if !(a.tilt.min <= next.tilt <= a.tilt.max) then Some(TiltOutOfRange)
        else if !(a.txPower.min <= next.txPower <= a.txPower.max) then Some(PowerOutOfRange)
        else if !(0 <= next.azimuth <= FULL_TURN) then Some(AzimuthOutOfRange)
        else RangeErrorFrom(antennas, settings, i + 1)
  }

  /** An unknown antenna is reported before any range. */
  ghost function BuildErrorOf(antennas: seq<Antenna>, settings: Settings): Option<BuildError> {
    if exists id :: id in settings && !exists a :: a in antennas && a.id == id then Some(UnknownAntenna)
    else RangeErrorFrom(antennas, settings, 0)
  }

  datatype CandidateRequest = CandidateRequest(antennas: seq<Antenna>, changes: seq<Change>)

  function OwnSetting(a: Antenna): Settings {
    map[a.id := SettingOf(a)]
  }

  /** What the builder reports as changed, in the order of the antennas. */
  function BuilderChanges(antennas: seq<Antenna>, settings: Settings): seq<Change> {
    if antennas == [] then []
    else
      var last := antennas[|antennas| - 1];
      BuilderChanges(antennas[..|antennas| - 1], settings)
      + if last.id in settings then FieldChanges(last.id, FIELDS, settings, OwnSetting(last)) else []
  }

  method BuildCandidateRequest(antennas: seq<Antenna>, settings: Settings) returns (r: Result<CandidateRequest, BuildError>)
    ensures r.Ok? <==> Accepts(antennas, settings)
    ensures r.Ok? ==> r.value == CandidateRequest(Updated(antennas, settings), BuilderChanges(antennas, settings))
    ensures r.Err? <==> BuildErrorOf(antennas, settings).Some?
    ensures r.Err? ==> Some(r.error) == BuildErrorOf(antennas, settings)
  {
    if exists id :: id in settings && !exists a :: a in antennas && a.id == id {
      ghost var id :| id in settings && !exists a :: a in antennas && a.id == id;
      return Err(UnknownAntenna);
    }
    forall id | id in settings ensures exists i :: 0 <= i < |antennas| && antennas[i].id == id {
      var a :| a in antennas && a.id == id;
    }
    hide FieldChanges, BuilderChanges, Updated, WithSetting;
    var updated, changes := [], [];
    NothingBuilt(antennas, settings);
    for i := 0 to |antennas|
      invariant updated == Updated(antennas, settings)[..i]
      invariant changes == BuilderChanges(antennas[..i], settings)
      invariant RangeErrorFrom(antennas, settings, 0) == RangeErrorFrom(antennas, settings, i)
      invariant forall k :: 0 <= k < i && antennas[k].id in settings ==> InRange(antennas[k], settings[antennas[k].id])
    {
      var a := antennas[i];
      NextBuilt(antennas, i, settings);
      NextUpdated(antennas, i, settings);
      if a.id !in settings {
        updated := updated + [a];
      } else {
        var next := settings[a.id];
        if next.tilt < a.tilt.min || next.tilt > a.tilt.max {
          return Err(TiltOutOfRange);
        }
        if next.txPower < a.txPower.min || next.txPower > a.txPower.max {
          return Err(PowerOutOfRange);
        }
        if next.azimuth < 0 || next.azimuth > FULL_TURN {
          return Err(AzimuthOutOfRange);
        }
        updated := updated + [WithSetting(a, next)];
        var added := AntennaChanges(a, next);
        changes := changes + added;
      }
    }
    assert antennas[..|antennas|] == antennas;
    assert Updated(antennas, settings)[..|antennas|] == Updated(antennas, settings);
    return Ok(CandidateRequest(updated, changes));
  }

  lemma NothingBuilt(antennas: seq<Antenna>, settings: Settings)
    ensures BuilderChanges(antennas[..0], settings) == []
  {
  }

  lemma NextUpdated(antennas: seq<Antenna>, i: nat, settings: Settings)
    requires i < |antennas|
    ensures var a := antennas[i];
            Updated(antennas, settings)[..i + 1] == Updated(antennas, settings)[..i]
              + [if a.id in settings then WithSetting(a, settings[a.id]) else a]
  {
  }

  lemma NextBuilt(antennas: seq<Antenna>, i: nat, settings: Settings)
    requires i < |antennas|
    ensures var a := antennas[i];
            BuilderChanges(antennas[..i + 1], settings) == BuilderChanges(antennas[..i], settings)
              + if a.id in settings then FieldChanges(a.id, FIELDS, map[a.id := settings[a.id]], OwnSetting(a)) else []
  {
    hide FieldChanges;
    var a := antennas[i];
    assert antennas[..i + 1][..i] == antennas[..i];
    if a.id in settings {
      SameFieldChanges(a.id, FIELDS, map[a.id := settings[a.id]], OwnSetting(a), settings, OwnSetting(a));
    }
  }

  /** The three comparisons at the end of the builder's loop. */
  method AntennaChanges(a: Antenna, next: Setting) returns (changes: seq<Change>)
    ensures changes == FieldChanges(a.id, FIELDS, map[a.id := next], OwnSetting(a))
  {
    changes := [];
    if a.tilt.current != next.tilt {
      changes := changes + [Change(a.id, Tilt, a.tilt.current, next.tilt, next.tilt - a.tilt.current)];
    }
    OneMoreField(a.id, FIELDS, 0, map[a.id := next], OwnSetting(a));
    if a.txPower.current != next.txPower {
      changes := changes + [Change(a.id, TxPower, a.txPower.current, next.txPower, next.txPower - a.txPower.current)];
    }
    OneMoreField(a.id, FIELDS, 1, map[a.id := next], OwnSetting(a));
    if a.azimuth != next.azimuth {
      changes := changes + [Change(a.id, Azimuth, a.azimuth, next.azimuth, next.azimuth - a.azimuth)];
    }
    OneMoreField(a.id, FIELDS, 2, map[a.id := next], OwnSetting(a));
    assert FIELDS[..3] == FIELDS && FIELDS[..0] == [];
  }

  function OneChange(id: Id, field: Field, before: int, after: int): seq<Change> {
    if before == after then [] else [Change(id, field, before, after, after - before)]
  }

  lemma OneMoreField(id: Id, fields: seq<Field>, f: nat, settings: Settings, baseline: Settings)
    requires f < |fields| && id in settings && id in baseline
    ensures FieldChanges(id, fields[..f + 1], settings, baseline)
         == FieldChanges(id, fields[..f], settings, baseline)
            + OneChange(id, fields[f], baseline[id].Get(fields[f]), settings[id].Get(fields[f]))
  {
    assert fields[..f + 1][..f] == fields[..f];
  }

  /** The changes of an antenna depend on its own settings only. */
  lemma {:induction false} SameFieldChanges(id: Id, fields: seq<Field>, s: Settings, b: Settings, settings: Settings, baseline: Settings)
    requires id in s && id in b && id in settings && id in baseline && s[id] == settings[id] && b[id] == baseline[id]
    ensures FieldChanges(id, fields, s, b) == FieldChanges(id, fields, settings, baseline)
  {
    if fields != [] {
      SameFieldChanges(id, fields[..|fields| - 1], s, b, settings, baseline);
    }
  }

  lemma {:induction false} BuilderListsAntennas(antennas: seq<Antenna>, settings: Settings, baseline: Settings)
    requires forall i :: 0 <= i < |antennas| ==>
               antennas[i].id in settings && antennas[i].id in baseline && baseline[antennas[i].id] == SettingOf(antennas[i])
    ensures BuilderChanges(antennas, settings) == ChangesOf(Ids(antennas), settings, baseline)
  {
    hide FieldChanges;
    if antennas != [] {
      var rest, last := antennas[..|antennas| - 1], antennas[|antennas| - 1];
      BuilderListsAntennas(rest, settings, baseline);
      assert Ids(antennas) == Ids(rest) + [last.id];
      assert Ids(antennas)[..|rest|] == Ids(rest);
      SameFieldChanges(last.id, FIELDS, settings, OwnSetting(last), settings, baseline);
    }
  }

  lemma {:induction false} ChangesConcat(first: seq<Id>, second: seq<Id>, settings: Settings, baseline: Settings)
    requires forall i :: 0 <= i < |first| ==> first[i] in settings && first[i] in baseline
    requires forall i :: 0 <= i < |second| ==> second[i] in settings && second[i] in baseline
    ensures ChangesOf(first + second, settings, baseline) == ChangesOf(first, settings, baseline) + ChangesOf(second, settings, baseline)
  {
    hide FieldChanges;
    if second == [] {
      assert first + second == first;
    } else {
      assert (first + second)[..|first + second| - 1] == first + second[..|second| - 1];
      ChangesConcat(first, second[..|second| - 1], settings, baseline);
    }
  }

  predicate NoRepeats(ids: seq<Id>) {
    forall i, j :: 0 <= i < j < |ids| ==> ids[i] != ids[j]
  }

  /** The order of the antennas does not matter for what is reported as changed. */
  lemma {:induction false} OrderDoesNotMatter(ids: seq<Id>, others: seq<Id>, settings: Settings, baseline: Settings)
    requires NoRepeats(ids) && NoRepeats(others) && forall id :: id in ids <==> id in others
    requires forall i :: 0 <= i < |ids| ==> ids[i] in settings && ids[i] in baseline
    requires forall i :: 0 <= i < |others| ==> others[i] in settings && others[i] in baseline
    ensures multiset(ChangesOf(ids, settings, baseline)) == multiset(ChangesOf(others, settings, baseline))
    decreases |ids|
  {
    hide FieldChanges, ChangesOf;
    if ids == [] {
      if others != [] {
        var id := SomeElement(others);
      }
    } else {
      var n := |ids| - 1;
      var id := ids[n];
      assert id in others;
      var k :| 0 <= k < |others| && others[k] == id;
      var front, back := others[..k], others[k + 1..];
      WithoutOne(ids, others, n, k);
      OrderDoesNotMatter(ids[..n], front + back, settings, baseline);
      ChangesConcat(front, back, settings, baseline);
      SplitAt(others, k, settings, baseline);
      SplitAt(ids, n, settings, baseline);
      assert ids[n + 1..] == [];
      NoChanges(settings, baseline);
      MoveToTheEnd(ChangesOf(front, settings, baseline), ChangesOf([id], settings, baseline), ChangesOf(back, settings, baseline),
                   ChangesOf(ids[..n], settings, baseline));
    }
  }

  lemma SomeElement(ids: seq<Id>) returns (id: Id)
    requires ids != []
    ensures id in ids
  {
    id := ids[0];
  }

  lemma NoChanges(settings: Settings, baseline: Settings)
    ensures ChangesOf([], settings, baseline) == []
  {
  }

  lemma SplitAt(ids: seq<Id>, k: nat, settings: Settings, baseline: Settings)
    requires k < |ids| && forall i :: 0 <= i < |ids| ==> ids[i] in settings && ids[i] in baseline
    ensures ChangesOf(ids, settings, baseline)
         == ChangesOf(ids[..k], settings, baseline) + (ChangesOf([ids[k]], settings, baseline) + ChangesOf(ids[k + 1..], settings, baseline))
  {
    hide ChangesOf;
    ChangesConcat([ids[k]], ids[k + 1..], settings, baseline);
    ChangesConcat(ids[..k], [ids[k]] + ids[k + 1..], settings, baseline);
    assert ids == ids[..k] + ([ids[k]] + ids[k + 1..]);
  }

  lemma MoveToTheEnd(front: seq<Change>, one: seq<Change>, back: seq<Change>, rest: seq<Change>)
    requires multiset(rest) == multiset(front + back)
    ensures multiset(rest + (one + [])) == multiset(front + (one + back))
  {
    assert one + [] == one;
  }

  lemma WithoutOne(ids: seq<Id>, others: seq<Id>, n: nat, k: nat)
    requires NoRepeats(ids) && NoRepeats(others) && forall id :: id in ids <==> id in others
    requires n == |ids| - 1 && k < |others| && others[k] == ids[n]
    ensures NoRepeats(others[..k] + others[k + 1..])
    ensures forall id :: id in ids[..n] <==> id in others[..k] + others[k + 1..]
  {
    forall id ensures id in ids[..n] <==> id in ids && id != ids[n] {
    }
    forall id ensures id in others[..k] + others[k + 1..] <==> id in others && id != others[k] {
    }
  }

  /** The builder and the candidate report the same changes, the one in antenna order, the other in sorted order. */
  lemma BuilderReportsTheCandidatesChanges(settings: Settings, space: SearchSpace)
    requires Valid(space) && Legal(settings, space)
    ensures forall i :: 0 <= i < |SortedIds(space)| ==> SortedIds(space)[i] in settings && SortedIds(space)[i] in Baseline(space)
    ensures multiset(BuilderChanges(space.antennas, settings)) == multiset(ChangesOf(SortedIds(space), settings, Baseline(space)))
  {
    hide Legal, SortedIds, ChangesOf, BuilderChanges, BaselineSettings, FieldChanges;
    var ids := Ids(space.antennas);
    LegalKeys(settings, space);
    BaselineLookup(space.antennas);
    SortedIdsAreAll(space);
    IdsOfBaseline(space);
    BuilderListsAntennas(space.antennas, settings, Baseline(space));
    OrderDoesNotMatter(ids, SortedIds(space), settings, Baseline(space));
  }

  lemma IdsOfBaseline(space: SearchSpace)
    requires Valid(space)
    ensures NoRepeats(Ids(space.antennas))
    ensures forall id :: id in Ids(space.antennas) <==> id in Baseline(space)
  {
    hide BaselineSettings;
    var ids := Ids(space.antennas);
    BaselineLookup(space.antennas);
    forall id ensures id in ids <==> id in Baseline(space) {
      if id in ids {
        var i :| 0 <= i < |ids| && ids[i] == id;
        assert space.antennas[i].id == id;
      }
      if id in Baseline(space) {
        var i :| 0 <= i < |space.antennas| && space.antennas[i].id == id;
        assert ids[i] == id;
      }
    }
  }

  lemma LegalKeys(settings: Settings, space: SearchSpace)
    requires Valid(space) && Legal(settings, space)
    ensures settings.Keys == Baseline(space).Keys
  {
  }

  lemma LegalIsInRange(settings: Settings, space: SearchSpace, a: Antenna)
    requires Valid(space) && Legal(settings, space) && a in space.antennas
    ensures InRange(a, settings[a.id])
  {
    forall field: Field
      ensures field == Tilt ==> a.tilt.min <= settings[a.id].Get(field) <= a.tilt.max
      ensures field == TxPower ==> a.txPower.min <= settings[a.id].Get(field) <= a.txPower.max
      ensures field == Azimuth ==> 0 <= settings[a.id].Get(field) <= FULL_TURN
    {
      if Varies(a.id, field, space) {
        assert LegalValue(a, field, settings[a.id].Get(field), space);
      } else {
        assert settings[a.id].Get(field) == SettingOf(a).Get(field);
      }
    }
    assert settings[a.id].tilt == settings[a.id].Get(Tilt);
    assert settings[a.id].txPower == settings[a.id].Get(TxPower);
    assert settings[a.id].azimuth == settings[a.id].Get(Azimuth);
  }

  /**
    The builder never rejects legal settings, and the antennas of the request it builds have exactly
    those settings, with identifiers and ranges as before.
  */
  lemma BuilderRoundTrip(settings: Settings, space: SearchSpace)
    requires Valid(space) && Legal(settings, space)
    ensures Accepts(space.antennas, settings)
    ensures BaselineSettings(Updated(space.antennas, settings)) == settings
    ensures Valid(space.(antennas := Updated(space.antennas, settings)))
  {
    forall a | a in space.antennas ensures InRange(a, settings[a.id]) {
      LegalIsInRange(settings, space, a);
    }
    BaselineLookup(space.antennas);
    UpdatedSettings(space.antennas, settings);
    UpdatedIsValid(space, settings);
  }

  lemma UpdatedSettings(antennas: seq<Antenna>, settings: Settings)
    requires forall i, j :: 0 <= i < j < |antennas| ==> antennas[i].id != antennas[j].id
    requires settings.Keys == BaselineSettings(antennas).Keys
    ensures BaselineSettings(Updated(antennas, settings)) == settings
  {
    hide BaselineSettings;
    var updated := Updated(antennas, settings);
    BaselineLookup(antennas);
    BaselineLookup(updated);
    assert forall i :: 0 <= i < |antennas| ==> updated[i].id == antennas[i].id;
    forall id ensures id in BaselineSettings(updated) <==> id in settings {
      if id in settings {
        var i :| 0 <= i < |antennas| && antennas[i].id == id;
        assert updated[i].id == id;
      }
      if id in BaselineSettings(updated) {
        var i :| 0 <= i < |updated| && updated[i].id == id;
        assert antennas[i].id == id;
      }
    }
    forall id | id in settings ensures BaselineSettings(updated)[id] == settings[id] {
      var i :| 0 <= i < |antennas| && antennas[i].id == id;
      assert SettingOf(updated[i]) == settings[id];
    }
  }

  lemma UpdatedIsValid(space: SearchSpace, settings: Settings)
    requires Valid(space)
    requires forall a :: a in space.antennas && a.id in settings ==> InRange(a, settings[a.id])
    ensures Valid(space.(antennas := Updated(space.antennas, settings)))
  {
    var updated := Updated(space.antennas, settings);
    forall a | a in updated ensures ValidRange(a.tilt) && ValidRange(a.txPower) && 0 <= a.azimuth <= FULL_TURN {
      var i :| 0 <= i < |updated| && updated[i] == a;
      assert space.antennas[i] in space.antennas;
    }
  }
}
