/** The translation lookup `t` used by the React components, over a catalog
    of resources. A missing key resolves to the key itself, as i18next does;
    a lookup with `returnObjects: true` whose result is then `.map`-ped throws
    when the resource is not an array, or is a non-empty array of the other kind. */
module I18n {

  datatype Link = Link(labelText: string, url: string)  // `label` is a Dafny keyword

  datatype Resource = Text(text: string) | List(items: seq<string>) | Links(links: seq<Link>)

  type Catalog = map<string, Resource>

  /** The outcome of rendering: a value, or the TypeError that `.map` on a
      non-array throws. */
  datatype Outcome<T> = Ok(value: T) | TypeError

  const Prefix := "timeline."

  /** `timeline.<entryKey>.<field>`. */
  function Key(entryKey: string, field: string): string {
    Prefix + entryKey + "." + field
  }

  /** Entries with different keys never share a translation key for the same field. */
  lemma KeyInjective(a: string, b: string, field: string)
    requires Key(a, field) == Key(b, field)
    ensures a == b
  {
    var n := |Prefix|;
    assert |a| == |b|;
    assert a == Key(a, field)[n..n + |a|];
    assert b == Key(b, field)[n..n + |b|];
  }

  /** `t(key)`: the text stored under `key`, or the key itself when nothing is. */
  function T(catalog: Catalog, key: string): (text: string)
    ensures key !in catalog ==> text == key
    ensures key in catalog && catalog[key].Text? ==> text == catalog[key].text
  {
    if key in catalog && catalog[key].Text? then catalog[key].text else key
  }

  /** The JavaScript value `[]`, which either array variant may encode. */
  predicate EmptyArray(res: Resource) {
    res == List([]) || res == Links([])
  }

  /** `t(key, { returnObjects: true }).map(...)` over a list of strings. Any
      non-array throws, and so does a non-empty array of links: React refuses
      an object as a child. An empty array maps to nothing, whatever its variant. */
  function TList(catalog: Catalog, key: string): (r: Outcome<seq<string>>)
    ensures r.Ok? <==> key in catalog && (catalog[key].List? || EmptyArray(catalog[key]))
    ensures r.Ok? && catalog[key].List? ==> r.value == catalog[key].items
    ensures r.Ok? && !catalog[key].List? ==> r.value == []
  {
    if key !in catalog then TypeError
    else match catalog[key]
      case List(items) => Ok(items)
      case Links(links) => if links == [] then Ok([]) else TypeError
      case Text(_) => TypeError
  }

  /** `[]` maps to nothing under either lookup, whichever variant encodes it. */
  lemma EmptyArrayEitherVariant(catalog: Catalog, key: string)
    requires key in catalog && EmptyArray(catalog[key])
    ensures TList(catalog, key) == Ok([]) && TLinks(catalog, key) == Ok([])
  {
  }

  /** `t(key, { returnObjects: true }).map(...)` over a list of links. Any
      non-array throws, and so does a non-empty array of strings: `link.label`
      is undefined there, and `.includes` on it throws. An empty array maps to
      nothing, whatever its variant. */
  function TLinks(catalog: Catalog, key: string): (r: Outcome<seq<Link>>)
    ensures r.Ok? <==> key in catalog && (catalog[key].Links? || EmptyArray(catalog[key]))
    ensures r.Ok? && catalog[key].Links? ==> r.value == catalog[key].links
    ensures r.Ok? && !catalog[key].Links? ==> r.value == []
  {
    if key !in catalog then TypeError
    else match catalog[key]
      case Links(links) => Ok(links)
      case List(items) => if items == [] then Ok([]) else TypeError
      case Text(_) => TypeError
  }
}
