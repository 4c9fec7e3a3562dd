/**
 * The business-activity picker of the publics filter form.  Its handlers
 * are the shared selection operations (module Selection) over activities
 * keyed by id; whether the list is open is not modelled.
 */
module ActivitySelect {
  import Seqs

  datatype Activity = Activity(id: string, name: string)

  function ActivityId(a: Activity): string
  {
    a.id
  }

  /** The activities the picker lists. */
  const Activities: seq<Activity> := [
    Activity("1", "Розничная торговля"),
    Activity("2", "Оптовая торговля"),
    Activity("3", "Рестораны и кафе"),
    Activity("4", "Гостиничный бизнес"),
    Activity("5", "Образование"),
    Activity("6", "Красота и здоровье"),
    Activity("7", "Строительство"),
    Activity("8", "Недвижимость"),
    Activity("9", "Производство"),
    Activity("10", "IT и технологии"),
    Activity("11", "Финансы и страхование"),
    Activity("12", "Транспорт и логистика"),
    Activity("13", "Развлечения и досуг"),
    Activity("14", "Спорт и фитнес"),
    Activity("15", "Маркетинг и реклама")]


  /** No two listed activities share an id. */
  lemma ActivityIdsDistinct()
    ensures Seqs.KeysDistinct(Activities, ActivityId)
  {
  }
}
