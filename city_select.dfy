/**
 * The city picker of the publics filter form: it lists the cities of the
 * selected regions (all cities when no region is selected), kept in the
 * `filteredCities` state that an effect rewrites whenever the selected
 * regions change.  The selected cities belong to the form and reach the
 * picker through its props; they are a field here that the handlers
 * rewrite, standing for the form's state after the callback.
 */
module CitySelect {
  import Seqs
  import Selection
  import Text
  import RegionSelect
  import opened Wrappers

  datatype City = City(id: string, name: string, regionId: string)

  function CityId(c: City): string
  {
    c.id
  }

  /** The cities the picker knows, each with its region. */
  const Cities: seq<City> := [
    City("1", "Астана", "15"),
    City("2", "Алматы", "14"),
    City("3", "Шымкент", "16"),
    City("4", "Караганда", "7"),
    City("5", "Актобе", "2"),
    City("6", "Тараз", "5"),
    City("7", "Павлодар", "11"),
    City("8", "Усть-Каменогорск", "4"),
    City("9", "Семей", "4"),
    City("10", "Атырау", "6"),
    City("11", "Костанай", "8"),
    City("12", "Кызылорда", "9"),
    City("13", "Уральск", "6"),
    City("14", "Петропавловск", "12"),
    City("15", "Актау", "10"),
    City("16", "Темиртау", "7"),
    City("17", "Кокшетау", "1"),
    City("18", "Туркестан", "13"),
    City("19", "Экибастуз", "11"),
    City("20", "Талдыкорган", "3")]

  const NoRegionMessage := "Выберите область для отображения городов"
  const EmptyRegionMessage := "В выбранной области нет городов"

  /** The list the effect computes: every city without a region choice, else those in a chosen region, in order. */
  function CitiesFor(regions: seq<RegionSelect.Region>): (r: seq<City>)
    ensures regions == [] ==> r == Cities
    ensures regions != [] ==>
      forall c :: c in r <==> c in Cities && Selection.Has(regions, c.regionId, RegionSelect.RegionId)
  {
    if regions == [] then Cities
    else Seqs.Filter(Cities, (c: City) => Selection.Has(regions, c.regionId, RegionSelect.RegionId))
  }

  /** The message shown in place of an empty list. */
  function EmptyMessage(regions: seq<RegionSelect.Region>): string
  {
    if regions == [] then NoRegionMessage else EmptyRegionMessage
  }

  /** For each listed region, a city in it: `Cities[RegionCity[i]]` lies in `Regions[i]`. */
  const RegionCity: seq<nat> := [16, 4, 19, 7, 5, 9, 3, 10, 11, 14, 6, 13, 17, 1, 0, 2]

  /**
   * Every listed region has a city, so once the effect has run on a choice
   * of listed regions the list is never empty and the empty-region
   * message does not appear.
   */
  lemma ListedRegionsHaveCities(regions: seq<RegionSelect.Region>)
    requires Selection.Ids(regions, RegionSelect.RegionId) <= Selection.Ids(RegionSelect.Regions, RegionSelect.RegionId)
    ensures CitiesFor(regions) != []
  {
    if regions != [] {
      var key := RegionSelect.RegionId(regions[0]);
      assert key in Selection.Ids(regions, RegionSelect.RegionId);
      var i :| 0 <= i < |RegionSelect.Regions| && RegionSelect.RegionId(RegionSelect.Regions[i]) == key;
      RegionCityInRegion(i);
      var c := Cities[RegionCity[i]];
      assert c in Cities;
      assert Selection.Has(regions, c.regionId, RegionSelect.RegionId);
      assert c in CitiesFor(regions);
    }
  }

  lemma RegionCityInRegion(i: nat)
    requires i < 16
    ensures RegionCity[i] < |Cities| && Cities[RegionCity[i]].regionId == RegionSelect.Regions[i].id
  {
    if i == 0 {} else if i == 1 {} else if i == 2 {} else if i == 3 {}
    else if i == 4 {} else if i == 5 {} else if i == 6 {} else if i == 7 {}
    else if i == 8 {} else if i == 9 {} else if i == 10 {} else if i == 11 {}
    else if i == 12 {} else if i == 13 {} else if i == 14 {} else {}
  }


  class CityPicker {
    /** The `filteredCities` state. */
    var filteredCities: seq<City>
    /** The form's selected cities. */
    var selectedCities: seq<City>

    /** The selected cities have distinct ids, as toggling keeps them. */
    predicate Valid()
      reads this
    {
      Seqs.KeysDistinct(selectedCities, CityId)
    }

    /** The list starts empty: until the effect runs, the picker shows its empty-list message. */
    constructor(selected: seq<City>)
      requires Seqs.KeysDistinct(selected, CityId)
      ensures Valid()
      ensures filteredCities == [] && selectedCities == selected
    {
      filteredCities := [];
      selectedCities := selected;
    }

    /**
     * The effect on the selected regions: it recomputes the list and leaves
     * the selected cities alone, even those outside the new regions.
     */
    method SyncWithRegions(regions: seq<RegionSelect.Region>)
      modifies this
      ensures filteredCities == CitiesFor(regions)
      ensures selectedCities == old(selectedCities)
    {
      filteredCities := CitiesFor(regions);
    }

    /** `handleToggleCity`. */
    method HandleToggleCity(city: City)
      requires Valid()
      modifies this
      ensures Valid()
      ensures selectedCities == Selection.Toggle(old(selectedCities), city, CityId)
      ensures filteredCities == old(filteredCities)
    {
      Selection.ToggleKeepsDistinct(selectedCities, city, CityId);
      if Selection.Has(selectedCities, city.id, CityId) {
        selectedCities := Selection.Without(selectedCities, city.id, CityId);
      } else {
        selectedCities := selectedCities + [city];
      }
    }

    /** `removeCity`: the badge's cross. */
    method RemoveCity(city: City)
      requires Valid()
      modifies this
      ensures Valid()
      ensures selectedCities == Selection.Without(old(selectedCities), city.id, CityId)
      ensures !Selection.Has(selectedCities, city.id, CityId)
      ensures filteredCities == old(filteredCities)
    {
      Selection.WithoutKeepsDistinct(selectedCities, city.id, CityId);
      selectedCities := Selection.Without(selectedCities, city.id, CityId);
    }

    /** The text in place of the list, shown only when the list is empty. */
    function ListMessage(regions: seq<RegionSelect.Region>): (r: Option<string>)
      reads this
      ensures r.Some? <==> filteredCities == []
      ensures r.Some? ==> r.value == (if regions == [] then NoRegionMessage else EmptyRegionMessage)
    {
      if filteredCities == [] then Some(EmptyMessage(regions)) else None
    }
  }
}
