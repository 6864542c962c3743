/** The `dewey_categories` table (models/DeweyCategory.js): one row per main
    class, identified by its unique, non-null `number` (the bucket label),
    with a required `name` and a cached `bookCount` defaulting to 0. */
module Categories {
  import opened Wrappers

  datatype DeweyCategory = DeweyCategory(
    id: nat,
    number: string,
    name: string,
    description: Option<string>,
    icon: Option<string>,
    bookCount: int)

  /** The values given to `DeweyCategory.create`. */
  datatype CategoryData = CategoryData(
    number: Option<string>,
    name: Option<string>,
    description: Option<string>,
    icon: Option<string>,
    bookCount: Option<int>)

  const DefaultBookCount: int := 0
  const NumberWidth: nat := 10
  const NameWidth: nat := 100
  const IconWidth: nat := 20

  predicate FitsColumns(c: DeweyCategory) {
    |c.number| <= NumberWidth && |c.name| <= NameWidth && (c.icon.None? || |c.icon.value| <= IconWidth)
  }

  /** The row built for an insert, or `None` when `number` or `name` is missing. */
  function NewCategory(id: nat, data: CategoryData): (r: Option<DeweyCategory>)
    ensures r.Some? <==> data.number.Some? && data.name.Some?
    ensures r.Some? ==> r.value.id == id && r.value.number == data.number.value && r.value.name == data.name.value
    ensures r.Some? ==> r.value.bookCount == (if data.bookCount.Some? then data.bookCount.value else DefaultBookCount)
    ensures r.Some? ==> r.value.description == data.description && r.value.icon == data.icon
  {
    if data.number.None? || data.name.None? then None
    else Some(DeweyCategory(id, data.number.value, data.name.value, data.description, data.icon,
                            data.bookCount.GetOr(DefaultBookCount)))
  }

  /** The unique index on `number`. */
  ghost predicate UniqueNumbers(cats: map<nat, DeweyCategory>) {
    forall i, j :: i in cats && j in cats && i != j ==> cats[i].number != cats[j].number
  }

  predicate NumberTaken(cats: map<nat, DeweyCategory>, number: string) {
    exists i :: i in cats && cats[i].number == number
  }
}
