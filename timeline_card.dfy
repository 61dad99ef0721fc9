/** One timeline card (src/components/TimelineCard.jsx): a stateless view of
    an item at a global index, whose parity mirrors the row and picks the side
    the card slides in from. */
module TimelineCard {
  import opened Common
  import opened I18n

  /** A content-table entry: its translation key, its image and its year. */
  datatype Item = Item(key: string, image: string, year: int)

  datatype CardView = CardView(mirrored: bool, slideX: int,
                               title: string, description: string, items: seq<string>,
                               imageSrc: string, imageAlt: string,
                               buttonLabel: string, onViewDetails: Item)

  /** `index % 2 === 0`. */
  predicate IsEven(index: int) {
    index % 2 == 0
  }

  /** The initial horizontal offset of the content card. */
  function SlideOffset(index: int): (x: int)
    ensures x == 50 || x == -50
    ensures x > 0 <==> IsEven(index)
  {
    if IsEven(index) then 50 else -50
  }

  /** The card, or the TypeError thrown when the items lookup is not a list. */
  function Card(item: Item, index: int, catalog: Catalog): (r: Outcome<CardView>)
    ensures r.Ok? <==> TList(catalog, Key(item.key, "items")).Ok?
    ensures r.Ok? ==>
      && r.value.mirrored == IsEven(index)
      && r.value.slideX == SlideOffset(index)
      && r.value.title == T(catalog, Key(item.key, "title"))
      && r.value.description == T(catalog, Key(item.key, "description"))
      && r.value.items == TList(catalog, Key(item.key, "items")).value
      && r.value.imageSrc == item.image && r.value.imageAlt == item.key
      && r.value.buttonLabel == T(catalog, "timeline.viewDetails")
      && r.value.onViewDetails == item
  {
    match TList(catalog, Key(item.key, "items"))
    case TypeError => TypeError
    case Ok(items) =>
      Ok(CardView(IsEven(index), SlideOffset(index),
                  T(catalog, Key(item.key, "title")), T(catalog, Key(item.key, "description")), items,
                  item.image, item.key, T(catalog, "timeline.viewDetails"), item))
  }

  /** Cards at consecutive indices use opposite rows and slide in from
      opposite sides. */
  lemma NeighbouringCardsAlternate(a: Item, b: Item, index: int, catalog: Catalog)
    requires Card(a, index, catalog).Ok? && Card(b, index + 1, catalog).Ok?
    ensures Card(a, index, catalog).value.mirrored != Card(b, index + 1, catalog).value.mirrored
    ensures Card(a, index, catalog).value.slideX == -Card(b, index + 1, catalog).value.slideX
  {
    ParityAlternates(index);
  }

  /** Cards two indices apart use the same row and slide in from the same side. */
  lemma CardsTwoApartAlike(a: Item, c: Item, index: int, catalog: Catalog)
    requires Card(a, index, catalog).Ok? && Card(c, index + 2, catalog).Ok?
    ensures Card(a, index, catalog).value.mirrored == Card(c, index + 2, catalog).value.mirrored
    ensures Card(a, index, catalog).value.slideX == Card(c, index + 2, catalog).value.slideX
  {
    ParityAlternates(index);
    ParityAlternates(index + 1);
  }

  /** Cards of different items never read the same translation keys. */
  lemma DistinctItemsDistinctKeys(a: Item, b: Item, field: string)
    requires a.key != b.key
    ensures Key(a.key, field) != Key(b.key, field)
  {
    if Key(a.key, field) == Key(b.key, field) {
      KeyInjective(a.key, b.key, field);
    }
  }
}
