/** The filter menu: the category and region choices and the menu's state changes. */
module FilterMenu {
  import opened Seqs
  import opened SpeciesData
  import LocationUtils

  datatype CategoryOption = CategoryOption(id: string, caption: string)

  const Categories: seq<CategoryOption> := [
    CategoryOption("bird", "Birds"),
    CategoryOption("mammal", "Mammals"),
    CategoryOption("reptile", "Reptiles"),
    CategoryOption("amphibian", "Amphibians"),
    CategoryOption("insect", "Insects"),
    CategoryOption("fish", "Fish"),
    CategoryOption("arachnid", "Arachnids"),
    CategoryOption("plant", "Plants"),
    CategoryOption("fungus", "Fungi")
  ]

  const AllRegions := "All Regions"

  const Regions: seq<string> := [
    AllRegions, "North America", "Europe", "Asia", "Africa", "South America", "Australia", "Antarctica"
  ]

  const ResetDistance: real := 5.0

  /** The three values the menu edits through its callbacks. */
  datatype FilterSelection = FilterSelection(categories: seq<string>, region: string, maxDistance: real)

  ghost predicate NoDup(s: seq<string>) {
    forall i, j :: 0 <= i < j < |s| ==> s[i] != s[j]
  }

  /** The selection with every occurrence of one id removed; all other ids keep their places and counts. */
  function Without(selected: seq<string>, categoryId: string): (r: seq<string>)
    ensures forall c :: c in r <==> c in selected && c != categoryId
    ensures forall c :: multiset(r)[c] == if c == categoryId then 0 else multiset(selected)[c]
    ensures IsSubseq(r, selected)
  {
    Filter(selected, (c: string) => c != categoryId)
  }

  /** `toggleCategory`: remove every occurrence of a selected id, or append an unselected one. */
  function ToggleCategory(selected: seq<string>, categoryId: string): (r: seq<string>)
    ensures categoryId in r <==> categoryId !in selected
    ensures forall c :: c != categoryId ==> (c in r <==> c in selected)
    ensures categoryId !in selected ==> r == selected + [categoryId]
    ensures categoryId in selected ==> IsSubseq(r, selected) && |r| < |selected|
    ensures categoryId in selected ==> forall c :: multiset(r)[c] == if c == categoryId then 0 else multiset(selected)[c]
  {
    if categoryId in selected then
      var r := Without(selected, categoryId);
      SubseqMembers(r, selected);
      assert |r| != |selected| by {
        if |r| == |selected| {
          FilterGone(selected, categoryId);
        }
      }
      r
    else selected + [categoryId]
  }

  /** Filtering out an id that occurs shortens the list. */
  lemma {:induction false} FilterGone(selected: seq<string>, categoryId: string)
    requires categoryId in selected
    ensures |Without(selected, categoryId)| < |selected|
  {
    if selected[0] != categoryId {
      FilterGone(selected[1..], categoryId);
    }
  }

  /** Removing an id that was just appended to a list not holding it restores that list. */
  lemma {:induction false} WithoutAppended(selected: seq<string>, categoryId: string)
    requires categoryId !in selected
    ensures Without(selected + [categoryId], categoryId) == selected
  {
    if selected == [] {
      assert [] + [categoryId] == [categoryId];
    } else {
      assert (selected + [categoryId])[1..] == selected[1..] + [categoryId];
      WithoutAppended(selected[1..], categoryId);
    }
  }

  /** Toggling an unselected id twice gives back exactly the original list. */
  lemma ToggleTwiceRestores(selected: seq<string>, categoryId: string)
    requires categoryId !in selected
    ensures ToggleCategory(ToggleCategory(selected, categoryId), categoryId) == selected
  {
    WithoutAppended(selected, categoryId);
  }

  lemma NoDupTail(s: seq<string>)
    requires s != [] && NoDup(s)
    ensures NoDup(s[1..]) && s[0] !in s[1..]
  {
    forall i, j | 0 <= i < j < |s[1..]| ensures s[1..][i] != s[1..][j] {
      assert s[1..][i] == s[i + 1];
    }
  }

  lemma NoDupCons(x: string, s: seq<string>)
    requires NoDup(s) && x !in s
    ensures NoDup([x] + s)
  {
    forall i, j | 0 <= i < j < |[x] + s| ensures ([x] + s)[i] != ([x] + s)[j] {
      assert ([x] + s)[j] == s[j - 1] && s[j - 1] in s;
      if i > 0 {
        assert ([x] + s)[i] == s[i - 1];
      }
    }
  }

  /** Removing an id keeps a duplicate-free list duplicate-free. */
  lemma {:induction false} WithoutNoDup(selected: seq<string>, categoryId: string)
    requires NoDup(selected)
    ensures NoDup(Without(selected, categoryId))
  {
    if selected != [] {
      NoDupTail(selected);
      WithoutNoDup(selected[1..], categoryId);
      if selected[0] != categoryId {
        NoDupCons(selected[0], Without(selected[1..], categoryId));
      }
    }
  }

  /** Toggling keeps a duplicate-free list duplicate-free. */
  lemma ToggleKeepsNoDup(selected: seq<string>, categoryId: string)
    requires NoDup(selected)
    ensures NoDup(ToggleCategory(selected, categoryId))
  {
    if categoryId in selected {
      WithoutNoDup(selected, categoryId);
    } else {
      var r := selected + [categoryId];
      forall i, j | 0 <= i < j < |r| ensures r[i] != r[j] {
        assert r[i] == selected[i];
        if j == |selected| {
          assert selected[i] in selected;
        }
      }
    }
  }

  /** `resetFilters`: no categories, all regions, 5 km; nothing is left counted as active. */
  function ResetFilters(): (sel: FilterSelection)
    ensures ActiveFilterCount(sel) == 0 && sel.maxDistance == ResetDistance
  {
    FilterSelection([], AllRegions, ResetDistance)
  }

  /**
   * `activeFilterCount`: selected categories plus one for a chosen region.
   * It is zero exactly for an unfiltered selection.
   */
  function ActiveFilterCount(sel: FilterSelection): (n: nat)
    ensures n == 0 <==> sel.categories == [] && sel.region == AllRegions
    ensures |sel.categories| <= n <= |sel.categories| + 1
    ensures sel.region == AllRegions ==> n == |sel.categories|
    ensures sel.region != AllRegions ==> n == |sel.categories| + 1
  {
    |sel.categories| + (if sel.region != AllRegions then 1 else 0)
  }

  /** Distance never counts; toggling an unselected category adds one, toggling a selected one lowers the count. */
  lemma ActiveFilterCountMeaning(sel: FilterSelection, d: real, categoryId: string)
    ensures ActiveFilterCount(sel.(maxDistance := d)) == ActiveFilterCount(sel)
    ensures categoryId !in sel.categories ==>
              ActiveFilterCount(sel.(categories := ToggleCategory(sel.categories, categoryId))) == ActiveFilterCount(sel) + 1
    ensures categoryId in sel.categories ==>
              ActiveFilterCount(sel.(categories := ToggleCategory(sel.categories, categoryId))) < ActiveFilterCount(sel)
  {
  }

  /** Which control the menu shows: the region selector without location mode, the distance slider with it. */
  datatype Controls = Controls(regionSelector: bool, distanceSlider: bool)

  function VisibleControls(useLocation: bool): (c: Controls)
    ensures c.regionSelector != c.distanceSlider
    ensures c.distanceSlider == useLocation
  {
    Controls(!useLocation, useLocation)
  }

  /** The species categories behind the menu's entries, in menu order. */
  const OfferedCategories: seq<Category> := [Bird, Mammal, Reptile, Amphibian, Insect, Fish, Arachnid, Plant, Fungus]

  /**
   * Every offered category id names a species category, crustacean and
   * other are not offered, and every other category is offered exactly once.
   */
  lemma CategoriesAreSpeciesCategories()
    ensures |Categories| == |OfferedCategories|
    ensures forall k :: 0 <= k < |Categories| ==> Categories[k].id == CategoryName(OfferedCategories[k])
    ensures Crustacean !in OfferedCategories && Other !in OfferedCategories
    ensures forall c :: c != Crustacean && c != Other ==> c in OfferedCategories
    ensures forall i, j :: 0 <= i < j < |Categories| ==> Categories[i].id != Categories[j].id
  {
  }

  /**
   * Every continent the classifier can name is a selectable region;
   * "Unknown" is not selectable, and "Antarctica" is selectable but never
   * detected.
   */
  lemma RegionsCoverClassifier(p: SpeciesData.Point)
    ensures LocationUtils.GetRegionFromCoordinates(p) != LocationUtils.Unknown ==>
              LocationUtils.GetRegionFromCoordinates(p) in Regions
    ensures LocationUtils.Unknown !in Regions
    ensures "Antarctica" in Regions && LocationUtils.GetRegionFromCoordinates(p) != "Antarctica"
  {
  }
}
