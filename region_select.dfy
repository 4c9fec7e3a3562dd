/**
 * The region picker of the publics filter form.  Its handlers are the
 * shared selection operations (module Selection) over regions keyed by id;
 * its only own state, whether the list is open, is not modelled.
 */
module RegionSelect {
  import Seqs

  datatype Region = Region(id: string, name: string)

  function RegionId(r: Region): string
  {
    r.id
  }

  /** The regions the picker lists. */
  const Regions: seq<Region> := [
    Region("1", "Акмолинская область"),
    Region("2", "Актюбинская область"),
    Region("3", "Алматинская область"),
    Region("4", "Восточно-Казахстанская область"),
    Region("5", "Жамбылская область"),
    Region("6", "Западно-Казахстанская область"),
    Region("7", "Карагандинская область"),
    Region("8", "Костанайская область"),
    Region("9", "Кызылординская область"),
    Region("10", "Мангистауская область"),
    Region("11", "Павлодарская область"),
    Region("12", "Северо-Казахстанская область"),
    Region("13", "Туркестанская область"),
    Region("14", "г. Алматы"),
    Region("15", "г. Астана"),
    Region("16", "г. Шымкент")]


  /** No two listed regions share an id, so a checkbox stands for exactly one region. */
  lemma RegionIdsDistinct()
    ensures Seqs.KeysDistinct(Regions, RegionId)
  {
  }
}
