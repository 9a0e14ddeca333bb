/**
  The grid of full configurations: one value of every dimension put onto the starting settings,
  numbered in the order of `itertools.product`.
  Source: backend/services/optimization_service.py
*/
module SearchGrid {
  import opened Arithmetic
  import opened AntennaSettings

  /** `math.prod` over the lengths of the dimensions. */
  function Size(dims: seq<Dimension>): nat {
    if dims == [] then 1 else Size(dims[..|dims| - 1]) * |dims[|dims| - 1].values|
  }

  ghost predicate NonEmpty(dims: seq<Dimension>) {
    forall i :: 0 <= i < |dims| ==> dims[i].values != []
  }

  /** The k-th combination: the last dimension turns fastest. */
  function Combination(dims: seq<Dimension>, k: nat): (values: seq<int>)
    requires NonEmpty(dims)
    ensures |values| == |dims|
  {
    if dims == [] then []
    else
      var last := dims[|dims| - 1].values;
      Combination(dims[..|dims| - 1], k / |last|) + [last[k % |last|]]
  }

  /** One value of each dimension. */
  ghost predicate IsChoice(dims: seq<Dimension>, values: seq<int>) {
    |values| == |dims| && forall i :: 0 <= i < |dims| ==> values[i] in dims[i].values
  }

  lemma {:induction false} CombinationIsChoice(dims: seq<Dimension>, k: nat)
    requires NonEmpty(dims)
    ensures IsChoice(dims, Combination(dims, k))
  {
    if dims != [] {
      var n := |dims| - 1;
      var base := |dims[n].values|;
      var high, digit := k / base, k % base;
      CombinationIsChoice(dims[..n], high);
      assert Combination(dims, k) == Combination(dims[..n], high) + [dims[n].values[digit]];
    }
  }

  ghost function Position(s: seq<int>, v: int): (i: nat)
    requires v in s
    ensures i < |s| && s[i] == v
  {
    var i: nat :| i < |s| && s[i] == v;
    i
  }

  ghost function IndexOf(dims: seq<Dimension>, values: seq<int>): nat
    requires IsChoice(dims, values)
  {
    if dims == [] then 0
    else
      var n := |dims| - 1;
      IndexOf(dims[..n], values[..n]) * |dims[n].values| + Position(dims[n].values, values[n])
  }

  /** Every choice is a combination, within the first `Size` ones. */
  lemma {:induction false} ChoiceIsCombination(dims: seq<Dimension>, values: seq<int>)
    requires IsChoice(dims, values) && NonEmpty(dims)
    ensures IndexOf(dims, values) < Size(dims)
    ensures Combination(dims, IndexOf(dims, values)) == values
  {
    if dims != [] {
      var n := |dims| - 1;
      var high, low, base := IndexOf(dims[..n], values[..n]), Position(dims[n].values, values[n]), |dims[n].values|;
      ChoiceIsCombination(dims[..n], values[..n]);
      DigitBound(high, Size(dims[..n]), low, base);
      DivModUnique(high * base + low, base, high, low);
    }
  }

  lemma SizeStep(dims: seq<Dimension>)
    ensures Size(dims) == if dims == [] then 1 else Size(dims[..|dims| - 1]) * |dims[|dims| - 1].values|
  {
  }

  /** Distinct numbers give distinct combinations. */
  lemma {:induction false} CombinationInjective(dims: seq<Dimension>, j: nat, k: nat)
    requires NonEmpty(dims) && forall i :: 0 <= i < |dims| ==> StrictlyIncreasing(dims[i].values)
    requires j < Size(dims) && k < Size(dims) && Combination(dims, j) == Combination(dims, k)
    ensures j == k
  {
    hide Combination, Size;
    SizeStep(dims);
    if dims != [] {
      var n := |dims| - 1;
      var base := |dims[n].values|;
      LeadingDigit(j, Size(dims[..n]), base);
      LeadingDigit(k, Size(dims[..n]), base);
      SplitCombination(dims, j, k);
      CombinationInjective(dims[..n], j / base, k / base);
    }
  }

  lemma SplitCombination(dims: seq<Dimension>, j: nat, k: nat)
    requires dims != [] && NonEmpty(dims) && StrictlyIncreasing(dims[|dims| - 1].values)
    requires Combination(dims, j) == Combination(dims, k)
    ensures var n := |dims| - 1; var base := |dims[n].values|;
            Combination(dims[..n], j / base) == Combination(dims[..n], k / base) && j % base == k % base
  {
    var n := |dims| - 1;
    var base := |dims[n].values|;
    assert Combination(dims, j)[n] == Combination(dims, k)[n];
    assert Combination(dims, j)[..n] == Combination(dims, k)[..n];
  }

  // ---------- Settings of a choice

  /** `copy_settings` followed by one assignment for each dimension. */
  function Assign(settings: Settings, dims: seq<Dimension>, values: seq<int>): (r: Settings)
    requires |values| == |dims| && forall i :: 0 <= i < |dims| ==> dims[i].id in settings
    ensures r.Keys == settings.Keys
  {
    if dims == [] then settings
    else
      var n := |dims| - 1;
      var before := Assign(settings, dims[..n], values[..n]);
      before[dims[n].id := before[dims[n].id].With(dims[n].field, values[n])]
  }

  lemma {:induction false} AssignElsewhere(settings: Settings, dims: seq<Dimension>, values: seq<int>, id: Id, field: Field)
    requires |values| == |dims| && id in settings && forall i :: 0 <= i < |dims| ==> dims[i].id in settings
    requires (id, field) !in Keys(dims)
    ensures Assign(settings, dims, values)[id].Get(field) == settings[id].Get(field)
  {
    if dims != [] {
      var n := |dims| - 1;
      assert Keys(dims)[n] == (dims[n].id, dims[n].field);
      assert Keys(dims[..n]) == Keys(dims)[..n];
      AssignElsewhere(settings, dims[..n], values[..n], id, field);
    }
  }

  ghost predicate DistinctKeys(keys: seq<(Id, Field)>) {
    forall i, j :: 0 <= i < j < |keys| ==> keys[i] != keys[j]
  }

  lemma {:induction false} AssignAt(settings: Settings, dims: seq<Dimension>, values: seq<int>, i: nat)
    requires |values| == |dims| && forall k :: 0 <= k < |dims| ==> dims[k].id in settings
    requires DistinctKeys(Keys(dims)) && i < |dims|
    ensures Assign(settings, dims, values)[dims[i].id].Get(dims[i].field) == values[i]
  {
    var n := |dims| - 1;
    if i < n {
      assert Keys(dims[..n]) == Keys(dims)[..n];
      assert Keys(dims)[i] != Keys(dims)[n];
      AssignAt(settings, dims[..n], values[..n], i);
    }
  }

  lemma {:induction false} KeysAreDistinct(antennas: seq<Antenna>, space: SearchSpace)
    requires forall i, j :: 0 <= i < j < |antennas| ==> antennas[i].id != antennas[j].id
    ensures DistinctKeys(DimensionKeys(antennas, space))
  {
    if antennas != [] {
      var rest, last := antennas[..|antennas| - 1], antennas[|antennas| - 1];
      KeysAreDistinct(rest, space);
      var early, late := DimensionKeys(rest, space), FieldKeys(last.id, FIELDS, space);
      LateKeys(last.id, space);
      forall i, j | 0 <= i < |early| && 0 <= j < |late| ensures early[i] != late[j] {
        KeysVary(rest, space, early[i].0, early[i].1);
        assert early[i] in early;
      }
    }
  }

  lemma LateKeys(id: Id, space: SearchSpace)
    ensures DistinctKeys(FieldKeys(id, FIELDS, space))
    ensures forall key :: key in FieldKeys(id, FIELDS, space) ==> key.0 == id
  {
    assert FIELDS[..2] == [Tilt, TxPower] && FIELDS[..2][..1] == [Tilt] && FIELDS[..2][..1][..0] == [];
    assert FieldKeys(id, [Tilt], space) == if Varies(id, Tilt, space) then [(id, Tilt)] else [];
    assert FieldKeys(id, [Tilt, TxPower], space)
        == FieldKeys(id, [Tilt], space) + if Varies(id, TxPower, space) then [(id, TxPower)] else [];
  }

  // ---------- Grid points

  /** What the rest of this module needs of the dimensions of a request. */
  lemma DimensionFacts(space: SearchSpace, dims: seq<Dimension>)
    requires Valid(space) && AreDimensions(dims, space)
    ensures NonEmpty(dims) && DistinctKeys(Keys(dims))
    ensures forall i :: 0 <= i < |dims| ==> dims[i].id in Baseline(space) && StrictlyIncreasing(dims[i].values)
    ensures forall i :: 0 <= i < |dims| ==> Varies(dims[i].id, dims[i].field, space)
  {
    KeysAreDistinct(space.antennas, space);
    BaselineLookup(space.antennas);
    forall i | 0 <= i < |dims|
      ensures dims[i].values != [] && dims[i].id in Baseline(space) && Varies(dims[i].id, dims[i].field, space)
    {
      DimensionHasCurrent(space, dims, i);
    }
  }

  lemma DimensionHasCurrent(space: SearchSpace, dims: seq<Dimension>, i: nat)
    requires Valid(space) && AreDimensions(dims, space) && i < |dims|
    ensures dims[i].values != [] && dims[i].id in Baseline(space) && Varies(dims[i].id, dims[i].field, space)
  {
    var d := dims[i];
    assert IsDimension(d, space);
    var a :| a in space.antennas && a.id == d.id && forall v :: v in d.values <==> LegalValue(a, d.field, v, space);
    CurrentIsLegal(a, d.field, space);
    BaselineLookup(space.antennas);
    assert Keys(dims)[i] == (d.id, d.field);
    KeysVary(space.antennas, space, d.id, d.field);
  }

  lemma CurrentIsLegal(a: Antenna, field: Field, space: SearchSpace)
    requires Valid(space) && a in space.antennas
    ensures LegalValue(a, field, SettingOf(a).Get(field), space)
  {
  }

  function GridPoint(space: SearchSpace, dims: seq<Dimension>, values: seq<int>): Settings
    requires |values| == |dims| && forall i :: 0 <= i < |dims| ==> dims[i].id in Baseline(space)
  {
    Assign(Baseline(space), dims, values)
  }

  lemma {:induction false} PrefixIsLegal(space: SearchSpace, dims: seq<Dimension>, values: seq<int>, n: nat)
    requires Valid(space) && AreDimensions(dims, space) && IsChoice(dims, values) && n <= |dims|
    requires forall i :: 0 <= i < |dims| ==> dims[i].id in Baseline(space)
    ensures Legal(Assign(Baseline(space), dims[..n], values[..n]), space)
    decreases n
  {
    hide Legal, Baseline, AreDimensions;
    if n == 0 {
      BaselineIsLegal(space);
    } else {
      PrefixIsLegal(space, dims, values, n - 1);
      assert dims[..n][..n - 1] == dims[..n - 1] && values[..n][..n - 1] == values[..n - 1];
      MutationIsLegal(Assign(Baseline(space), dims[..n - 1], values[..n - 1]), space, dims, n - 1, values[n - 1]);
    }
  }

  /** Every choice gives legal settings. */
  lemma GridPointIsLegal(space: SearchSpace, dims: seq<Dimension>, values: seq<int>)
    requires Valid(space) && AreDimensions(dims, space) && IsChoice(dims, values)
    ensures forall i :: 0 <= i < |dims| ==> dims[i].id in Baseline(space)
    ensures Legal(GridPoint(space, dims, values), space)
  {
    DimensionFacts(space, dims);
    PrefixIsLegal(space, dims, values, |dims|);
    assert dims[..|dims|] == dims && values[..|values|] == values;
  }

  function ValuesAt(settings: Settings, dims: seq<Dimension>): (values: seq<int>)
    requires forall i :: 0 <= i < |dims| ==> dims[i].id in settings
    ensures |values| == |dims|
  {
    seq(|dims|, i requires 0 <= i < |dims| => settings[dims[i].id].Get(dims[i].field))
  }

  lemma LegalIsChoice(space: SearchSpace, dims: seq<Dimension>, settings: Settings)
    requires Valid(space) && AreDimensions(dims, space) && Legal(settings, space)
    ensures forall i :: 0 <= i < |dims| ==> dims[i].id in settings && dims[i].id in Baseline(space)
    ensures IsChoice(dims, ValuesAt(settings, dims))
  {
    DimensionFacts(space, dims);
    forall i | 0 <= i < |dims| ensures settings[dims[i].id].Get(dims[i].field) in dims[i].values {
      assert IsDimension(dims[i], space);
    }
  }

  /** All legal settings are grid points: the grid is exactly what the request allows. */
  lemma LegalIsGridPoint(space: SearchSpace, dims: seq<Dimension>, settings: Settings)
    requires Valid(space) && AreDimensions(dims, space) && Legal(settings, space)
    ensures forall i :: 0 <= i < |dims| ==> dims[i].id in settings && dims[i].id in Baseline(space)
    ensures IsChoice(dims, ValuesAt(settings, dims))
    ensures GridPoint(space, dims, ValuesAt(settings, dims)) == settings
  {
    LegalIsChoice(space, dims, settings);
    DimensionFacts(space, dims);
    var values := ValuesAt(settings, dims);
    var point := GridPoint(space, dims, values);
    forall id | id in settings ensures point[id] == settings[id] {
      forall field: Field ensures point[id].Get(field) == settings[id].Get(field) {
        GridPointField(space, dims, settings, id, field);
      }
      SameSetting(point[id], settings[id]);
    }
  }

  lemma GridPointField(space: SearchSpace, dims: seq<Dimension>, settings: Settings, id: Id, field: Field)
    requires Valid(space) && AreDimensions(dims, space) && Legal(settings, space) && id in settings
    requires forall i :: 0 <= i < |dims| ==> dims[i].id in settings && dims[i].id in Baseline(space)
    requires DistinctKeys(Keys(dims))
    ensures GridPoint(space, dims, ValuesAt(settings, dims))[id].Get(field) == settings[id].Get(field)
  {
    var values := ValuesAt(settings, dims);
    if (id, field) in Keys(dims) {
      var i :| 0 <= i < |dims| && Keys(dims)[i] == (id, field);
      AssignAt(Baseline(space), dims, values, i);
    } else {
      AssignElsewhere(Baseline(space), dims, values, id, field);
      FixedField(space, settings, id, field);
    }
  }

  lemma FixedField(space: SearchSpace, settings: Settings, id: Id, field: Field)
    requires Valid(space) && Legal(settings, space) && id in settings
    requires (id, field) !in DimensionKeys(space.antennas, space)
    ensures id in Baseline(space) && settings[id].Get(field) == Baseline(space)[id].Get(field)
  {
    BaselineLookup(space.antennas);
    KeysVary(space.antennas, space, id, field);
    var i :| 0 <= i < |space.antennas| && space.antennas[i].id == id;
    assert space.antennas[i] in space.antennas;
  }

  /** Different choices give different settings. */
  lemma GridPointInjective(space: SearchSpace, dims: seq<Dimension>, v: seq<int>, w: seq<int>)
    requires Valid(space) && AreDimensions(dims, space)
    requires |v| == |dims| == |w| && forall i :: 0 <= i < |dims| ==> dims[i].id in Baseline(space)
    requires GridPoint(space, dims, v) == GridPoint(space, dims, w)
    ensures v == w
  {
    DimensionFacts(space, dims);
    forall i | 0 <= i < |dims| ensures v[i] == w[i] {
      AssignAt(Baseline(space), dims, v, i);
      AssignAt(Baseline(space), dims, w, i);
    }
  }

  /** The starting settings have exactly one number in the product order. */
  lemma NumberOf(space: SearchSpace, dims: seq<Dimension>, settings: Settings) returns (k: nat)
    requires Valid(space) && AreDimensions(dims, space) && Legal(settings, space)
    ensures NonEmpty(dims) && forall i :: 0 <= i < |dims| ==> dims[i].id in Baseline(space)
    ensures k < Size(dims) && GridPoint(space, dims, Combination(dims, k)) == settings
    ensures forall j :: 0 <= j < Size(dims) && GridPoint(space, dims, Combination(dims, j)) == settings ==> j == k
  {
    DimensionFacts(space, dims);
    LegalIsGridPoint(space, dims, settings);
    var values := ValuesAt(settings, dims);
    k := IndexOf(dims, values);
    ChoiceIsCombination(dims, values);
    forall j: nat | j < Size(dims) && GridPoint(space, dims, Combination(dims, j)) == settings ensures j == k {
      GridPointInjective(space, dims, Combination(dims, j), values);
      CombinationInjective(dims, j, k);
    }
  }

  lemma {:induction false} SizePositive(dims: seq<Dimension>)
    requires NonEmpty(dims)
    ensures Size(dims) > 0
  {
    if dims != [] {
      SizePositive(dims[..|dims| - 1]);
      MulMonotone(1, Size(dims[..|dims| - 1]), |dims[|dims| - 1].values|);
    }
  }
}
