/** `RegionSelector` (js/mobile-components.js:576-690): a grid of round
    region buttons (`CircularCategoryButton`, lines 497-571) of which at
    most one is selected, and a "next" button that reports the selected
    region. */
module Regions {
  import opened Wrappers

  /** An entry of `options.regions`. */
  datatype Region = Region(id: string, name: string, icon: string)

  /** The nine default regions, in grid order. */
  const DefaultRegions: seq<Region> := [
    Region("kyungsung", "경성", "🏛️"), Region("gwangan", "광안", "🏖️"),
    Region("nampo", "남포", "🛍️"), Region("dukcheon", "덕천", "🚇"),
    Region("dongnae", "동래", "🏯"), Region("seomyeon", "서면", "🎯"),
    Region("yeonsan", "연산", "🌸"), Region("jeonpo", "전포", "🎨"),
    Region("haeun", "해운", "🌊")
  ]

  function Ids(regions: seq<Region>): (ids: seq<string>)
    ensures |ids| == |regions|
    ensures forall i :: 0 <= i < |regions| ==> ids[i] == regions[i].id
  {
    seq(|regions|, i requires 0 <= i < |regions| => regions[i].id)
  }

  /** `Array.prototype.find` by key: the first position holding `x`. */
  function FirstIndex(xs: seq<string>, x: string): (r: Option<nat>)
    ensures r.None? <==> x !in xs
    ensures r.Some? ==> (r.value < |xs| && xs[r.value] == x &&
      forall j :: 0 <= j < r.value ==> xs[j] != x)
  {
    if |xs| == 0 then None
    else if xs[0] == x then Some(0)
    else match FirstIndex(xs[1..], x)
      case None => None
      case Some(k) => Some(k + 1)
  }

  /** A `CircularCategoryButton` of the grid: its region and whether it is
      drawn as selected. */
  class CategoryButton {
    const region: string
    var selected: bool

    constructor(region: string, selected: bool)
      ensures this.region == region && this.selected == selected
    {
      this.region := region;
      this.selected := selected;
    }

    /** `setSelected(selected)`. */
    method SetSelected(selected: bool)
      modifies this
      ensures this.selected == selected
    {
      this.selected := selected;
    }
  }

  function RegionsOf(buttons: seq<CategoryButton>): (ids: seq<string>)
    ensures |ids| == |buttons|
    ensures forall i :: 0 <= i < |buttons| ==> ids[i] == buttons[i].region
  {
    seq(|buttons|, i requires 0 <= i < |buttons| => buttons[i].region)
  }

  predicate DistinctButtons(buttons: seq<CategoryButton>)
  {
    forall i, j :: 0 <= i < j < |buttons| ==> buttons[i] != buttons[j]
  }

  /** The selection the grid should show for `selected`: only the first
      button of that region. */
  predicate SelectsFirst(buttons: seq<CategoryButton>, id: string)
    reads set b | b in buttons
  {
    forall i :: 0 <= i < |buttons| ==> buttons[i].selected == (FirstIndex(RegionsOf(buttons), id) == Some(i))
  }

  /** Fresh buttons for `regions`, each selected when its region is the
      selected one. */
  method MakeButtons(regions: seq<Region>, selectedRegion: Option<string>) returns (made: seq<CategoryButton>)
    ensures RegionsOf(made) == Ids(regions) && DistinctButtons(made)
    ensures forall i :: 0 <= i < |made| ==> fresh(made[i]) && made[i].selected == (selectedRegion == Some(regions[i].id))
  {
    made := [];
    for i := 0 to |regions|
      invariant |made| == i
      invariant forall k :: 0 <= k < i ==> (fresh(made[k]) && made[k].region == regions[k].id &&
        made[k].selected == (selectedRegion == Some(regions[k].id)))
      invariant DistinctButtons(made)
    {
      var b := new CategoryButton(regions[i].id, selectedRegion == Some(regions[i].id));
      made := made + [b];
    }
  }

  /** `categoryButtons.forEach(btn => btn.setSelected(false))`. */
  method DeselectAll(buttons: seq<CategoryButton>)
    requires DistinctButtons(buttons)
    modifies set b | b in buttons
    ensures forall k :: 0 <= k < |buttons| ==> !buttons[k].selected
  {
    for i := 0 to |buttons|
      invariant forall k :: 0 <= k < i ==> !buttons[k].selected
    {
      buttons[i].SetSelected(false);
    }
  }

  /** `categoryButtons.find(btn => btn.options.region === id)`, then
      `setSelected(true)` on the button found, starting from a grid with
      nothing selected. */
  method SelectFirst(buttons: seq<CategoryButton>, id: string)
    requires DistinctButtons(buttons)
    requires forall k :: 0 <= k < |buttons| ==> !buttons[k].selected
    modifies set b | b in buttons
    ensures SelectsFirst(buttons, id)
  {
    var j := 0;
    while j < |buttons| && buttons[j].region != id
      invariant 0 <= j <= |buttons|
      invariant forall k :: 0 <= k < j ==> buttons[k].region != id
    {
      j := j + 1;
    }
    if j < |buttons| {
      buttons[j].SetSelected(true);
    }
    assert forall k :: 0 <= k < |buttons| ==> buttons[k].selected == (k == j);
    FirstIndexAt(RegionsOf(buttons), id, j);
  }

  class RegionSelector {
    const regions: seq<Region>
    /** Whether an `onRegionSelect` callback was given. */
    const notifies: bool
    /** `options.selectedRegion`. */
    var selectedRegion: Option<string>
    /** `this.categoryButtons`: every button `render` has made. */
    var buttons: seq<CategoryButton>
    /** The buttons of the element last rendered. */
    var shown: seq<CategoryButton>
    /** Whether `render` has run, so that the next button exists. */
    var rendered: bool
    /** `nextBtn.disabled`. */
    var nextDisabled: bool

    predicate Valid()
      reads this
    {
      DistinctButtons(buttons) && |shown| <= |buttons| && shown == buttons[|buttons| - |shown|..]
    }

    constructor(regions: seq<Region>, selectedRegion: Option<string>, notifies: bool)
      ensures this.regions == regions && this.selectedRegion == selectedRegion && this.notifies == notifies
      ensures buttons == [] && shown == [] && !rendered && Valid()
    {
      this.regions := regions;
      this.selectedRegion := selectedRegion;
      this.notifies := notifies;
      buttons := [];
      shown := [];
      rendered := false;
      nextDisabled := true;
    }

    /** `render()` as written: the new buttons are appended to those of
        any earlier render. */
    method RenderAsWritten()
      requires Valid()
      modifies this
      ensures Valid() && rendered && nextDisabled == !Truthy(selectedRegion)
      ensures selectedRegion == old(selectedRegion)
      ensures buttons == old(buttons) + shown
      ensures RegionsOf(shown) == Ids(regions)
      ensures forall i :: 0 <= i < |shown| ==> fresh(shown[i]) && shown[i].selected == (selectedRegion == Some(regions[i].id))
      ensures forall b :: b in old(buttons) ==> b.selected == old(b.selected)
    {
      var made := MakeButtons(regions, selectedRegion);
      buttons := buttons + made;
      shown := made;
      assert shown == buttons[|buttons| - |shown|..];
      rendered := true;
      nextDisabled := !Truthy(selectedRegion);
    }

    /** `render()` with `categoryButtons` emptied first, so that the
        buttons kept are those on screen. */
    method Render()
      requires Valid()
      modifies this
      ensures Valid() && rendered && nextDisabled == !Truthy(selectedRegion)
      ensures selectedRegion == old(selectedRegion)
      ensures buttons == shown && RegionsOf(shown) == Ids(regions)
      ensures forall i :: 0 <= i < |shown| ==> fresh(shown[i]) && shown[i].selected == (selectedRegion == Some(regions[i].id))
    {
      var made := MakeButtons(regions, selectedRegion);
      buttons := made;
      shown := made;
      rendered := true;
      nextDisabled := !Truthy(selectedRegion);
    }

    /** `handleRegionSelect(regionId)`: every button is deselected, then
        the first button of that region (if any) is selected; the region
        becomes the selection and the next button is enabled. */
    method HandleRegionSelect(regionId: string)
      requires Valid()
      modifies this, set b | b in buttons
      ensures Valid() && buttons == old(buttons) && shown == old(shown) && rendered == old(rendered)
      ensures selectedRegion == Some(regionId)
      ensures rendered ==> !nextDisabled
      ensures !rendered ==> nextDisabled == old(nextDisabled)
      ensures SelectsFirst(buttons, regionId)
    {
      DeselectAll(buttons);
      SelectFirst(buttons, regionId);
      selectedRegion := Some(regionId);
      if rendered {
        nextDisabled := false;
      }
    }

    /** `handleNext()`: the selected region is reported when there is one
        and a callback was given. */
    method HandleNext() returns (reported: Option<string>)
      ensures reported.Some? <==> Truthy(selectedRegion) && notifies
      ensures reported.Some? ==> reported == selectedRegion
    {
      reported := if Truthy(selectedRegion) && notifies then selectedRegion else None;
    }
  }

  /** The index a linear search stops at is `FirstIndex`'s answer. */
  lemma FirstIndexAt(xs: seq<string>, x: string, j: nat)
    requires j <= |xs| && (forall k :: 0 <= k < j ==> xs[k] != x) && (j < |xs| ==> xs[j] == x)
    ensures FirstIndex(xs, x) == if j < |xs| then Some(j) else None
  {
    var r := FirstIndex(xs, x);
    if j == |xs| {
      assert x !in xs;
    } else {
      assert r.Some? && r.value == j;
    }
  }

  /** Selecting a region shows it on at most one button, and on exactly
      one when the grid has a button for it. */
  lemma SelectionUnique(buttons: seq<CategoryButton>, id: string, i: int, j: int)
    requires SelectsFirst(buttons, id)
    requires 0 <= i < |buttons| && 0 <= j < |buttons| && buttons[i].selected && buttons[j].selected
    ensures i == j && buttons[i].region == id
  {
  }

  lemma SelectionPresent(buttons: seq<CategoryButton>, id: string) returns (k: nat)
    requires SelectsFirst(buttons, id) && id in RegionsOf(buttons)
    ensures k < |buttons| && buttons[k].selected && buttons[k].region == id
  {
    k := FirstIndex(RegionsOf(buttons), id).value;
  }

  lemma DefaultIdsDistinct()
    ensures forall i, j :: 0 <= i < j < |DefaultRegions| ==> DefaultRegions[i].id != DefaultRegions[j].id
  {
  }

  lemma {:induction false} FirstIndexAppend(a: seq<string>, b: seq<string>, x: string)
    requires x in a
    ensures FirstIndex(a + b, x) == FirstIndex(a, x)
  {
    var k := FirstIndex(a, x).value;
    assert (a + b)[k] == x;
    FirstIndexAt(a + b, x, k);
  }

  /** When the buttons of an earlier grid come before those on screen
      and carry the same regions, the selection lands on the earlier grid. */
  lemma StaleButtonSelected(stale: seq<CategoryButton>, shown: seq<CategoryButton>, id: string)
    requires RegionsOf(stale) == RegionsOf(shown) && id in RegionsOf(stale)
    requires SelectsFirst(stale + shown, id)
    ensures forall i :: 0 <= i < |shown| ==> !shown[i].selected
  {
    var all := stale + shown;
    assert RegionsOf(all) == RegionsOf(stale) + RegionsOf(shown);
    FirstIndexAppend(RegionsOf(stale), RegionsOf(shown), id);
    forall i | 0 <= i < |shown|
      ensures !shown[i].selected
    {
      assert shown[i] == all[|stale| + i];
    }
  }

  /** A selector over `regions`, rendered twice as written: the grid on
      screen follows the buttons of the first render in `categoryButtons`. */
  method RenderTwiceAsWritten(regions: seq<Region>) returns (s: RegionSelector, first: seq<CategoryButton>)
    ensures fresh(s) && s.Valid() && s.rendered && s.selectedRegion == None
    ensures s.buttons == first + s.shown && |s.shown| == |regions|
    ensures RegionsOf(first) == Ids(regions) && RegionsOf(s.shown) == Ids(regions)
    ensures forall b :: b in s.buttons ==> fresh(b)
  {
    s := new RegionSelector(regions, None, false);
    s.RenderAsWritten();
    first := s.shown;
    s.RenderAsWritten();
  }

  /** A selector over `regions`, rendered twice with `categoryButtons`
      reset each time. */
  method RenderTwice(regions: seq<Region>) returns (s: RegionSelector)
    ensures fresh(s) && s.Valid() && s.rendered && s.selectedRegion == None
    ensures s.buttons == s.shown && |s.shown| == |regions| && RegionsOf(s.shown) == Ids(regions)
    ensures forall b :: b in s.buttons ==> fresh(b)
  {
    s := new RegionSelector(regions, None, false);
    s.Render();
    s.Render();
  }

  /** Rendering a grid twice as written and then choosing one of its
      regions selects a button of the first, discarded grid: no button on
      screen is selected. */
  method RerenderLosesSelection(regions: seq<Region>, id: string) returns (s: RegionSelector)
    requires id in Ids(regions)
    ensures |s.shown| == |regions| && s.selectedRegion == Some(id)
    ensures forall i :: 0 <= i < |s.shown| ==> !s.shown[i].selected
  {
    var first;
    s, first := RenderTwiceAsWritten(regions);
    s.HandleRegionSelect(id);
    StaleButtonSelected(first, s.shown, id);
  }

  /** With `categoryButtons` reset on each render, choosing a region
      after two renders selects exactly the first of its buttons on
      screen. */
  method RerenderKeepsSelection(regions: seq<Region>, id: string) returns (s: RegionSelector)
    requires id in Ids(regions)
    ensures |s.shown| == |regions| && s.selectedRegion == Some(id)
    ensures forall i :: 0 <= i < |s.shown| ==> s.shown[i].selected == (Some(i) == FirstIndex(Ids(regions), id))
    ensures var k := FirstIndex(Ids(regions), id).value;
      k < |s.shown| && s.shown[k].selected && s.shown[k].region == id
  {
    s := RenderTwice(regions);
    s.HandleRegionSelect(id);
    SelectedButtonOnScreen(s.shown, id);
  }

  /** The grid selects the first button of the region, which exists when
      some button carries it. */
  lemma SelectedButtonOnScreen(buttons: seq<CategoryButton>, id: string)
    requires SelectsFirst(buttons, id) && id in RegionsOf(buttons)
    ensures var k := FirstIndex(RegionsOf(buttons), id).value;
      k < |buttons| && buttons[k].selected && buttons[k].region == id
  {
  }
}
