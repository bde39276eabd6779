/** The list of regions the manager offers: read from the `regions`
    environment entry at start-up, replaced by `configureRegions`, shrunk
    when a region turns out to be empty, and saved as `regions=a,b,c`. */
module RegionList {
  import opened Wrappers
  import opened Text

  /** The four regions offered when no list is saved. */
  const DefaultRegions: seq<string> := ["us-east-1", "us-east-2", "us-west-1", "us-west-2"]

  /** The regions read at start-up from the saved value `env` ("" when the
      entry is absent or empty). */
  function Load(env: string): (regions: seq<string>)
    ensures env == "" ==> regions == DefaultRegions
    ensures env != "" ==> Join(regions, ',') == env
    ensures |regions| >= 1 && forall i :: 0 <= i < |regions| ==> ',' !in regions[i]
  {
    if env == "" then
      DefaultsRoundTrip(DefaultRegions);
      DefaultRegions
    else
      JoinSplit(env, ',');
      Split(env, ',')
  }

  /** The default regions, comma-separated, split back into themselves. */
  lemma DefaultsRoundTrip(regions: seq<string>)
    requires regions == DefaultRegions
    ensures Split(Join(regions, ','), ',') == regions
  {
    forall i | 0 <= i < |regions| ensures ',' !in regions[i] {
      assert regions[i] in DefaultRegions;
    }
    SplitJoin(regions, ',');
  }

  const Key := "regions="

  /** The text `saveRegions` writes. */
  function SaveText(regions: seq<string>): (text: string)
    ensures |Key| <= |text| && text[..|Key|] == Key
  {
    Key + Join(regions, ',')
  }

  /** The value of a `regions=` line, if it is one. */
  function SavedValue(line: string): (value: Option<string>)
    ensures value.Some? <==> |Key| <= |line| && line[..|Key|] == Key
    ensures value.Some? ==> Key + value.value == line
  {
    if |Key| <= |line| && line[..|Key|] == Key then
      assert line == line[..|Key|] + line[|Key|..];
      Some(line[|Key|..])
    else None
  }

  /** Saving and loading again gives the same list, except that a list
      whose text is empty (no regions, or one empty name) comes back as
      the default. */
  lemma {:induction false} SaveLoad(regions: seq<string>)
    requires forall i :: 0 <= i < |regions| ==> ',' !in regions[i]
    ensures SavedValue(SaveText(regions)).Some?
    ensures Load(SavedValue(SaveText(regions)).value) ==
      if regions == [] || regions == [""] then DefaultRegions else regions
  {
    var text := SaveText(regions);
    assert text[|Key|..] == Join(regions, ',');
    if regions != [] {
      if Join(regions, ',') != "" {
        SplitJoin(regions, ',');
      }
    }
  }

  /** A region offered by `configureRegions`, ticked when already chosen. */
  datatype Choice = Choice(title: string, value: string, selected: bool)

  function RegionChoices(allRegions: seq<string>, regions: seq<string>): (choices: seq<Choice>)
    ensures |choices| == |allRegions|
    ensures forall i :: 0 <= i < |choices| ==>
      && choices[i].title == allRegions[i] && choices[i].value == allRegions[i]
      && (choices[i].selected <==> allRegions[i] in regions)
  {
    seq(|allRegions|, i requires 0 <= i < |allRegions| =>
      Choice(allRegions[i], allRegions[i], IndexOf(regions, allRegions[i]) >= 0))
  }

  /** The module-level `regions` array. */
  class RegionStore {
    var regions: seq<string>

    constructor (env: string)
      ensures regions == Load(env)
    {
      regions := Load(env);
    }

    /** `configureRegions` after the prompt: a non-empty selection replaces
        the list (emptied with `pop`, refilled with `push`), anything else
        leaves it; the list is saved in both cases. */
    method Configure(selection: Option<seq<string>>) returns (saved: string)
      modifies this
      ensures selection.Some? && selection.value != [] ==> regions == selection.value
      ensures selection.None? || selection.value == [] ==> regions == old(regions)
      ensures saved == SaveText(regions)
    {
      if selection.Some? && |selection.value| > 0 {
        var choices := selection.value;
        while |regions| > 0
          invariant regions == old(regions)[..|regions|]
          decreases |regions|
        {
          regions := regions[..|regions| - 1];
        }
        var k := 0;
        while k < |choices|
          invariant 0 <= k <= |choices|
          invariant regions == choices[..k]
        {
          regions := regions + [choices[k]];
          k := k + 1;
        }
      }
      saved := SaveText(regions);
    }

    /** `regions.splice(regions.indexOf(region), 1)` and the save after it.
        A region that is not listed gives index -1, and `splice(-1, 1)`
        removes the last element. */
    method RemoveEmptyRegion(region: string) returns (saved: string)
      modifies this
      ensures region in old(regions) ==>
        var i := IndexOf(old(regions), region);
        regions == old(regions)[..i] + old(regions)[i + 1..]
      ensures region in old(regions) ==>
        multiset(regions) == multiset(old(regions)) - multiset{region}
      ensures region !in old(regions) && old(regions) != [] ==>
        regions == old(regions)[..|old(regions)| - 1]
      ensures old(regions) == [] ==> regions == []
      ensures old(regions) != [] ==> |regions| == |old(regions)| - 1
      ensures saved == SaveText(regions)
    {
      var index := IndexOf(regions, region);
      if index < 0 && |regions| > 0 {
        index := |regions| - 1;
      }
      if 0 <= index {
        assert regions == regions[..index] + [regions[index]] + regions[index + 1..];
        regions := regions[..index] + regions[index + 1..];
      }
      saved := SaveText(regions);
    }
  }
}
