/** The first, framework-free version of the page (script.js): it writes the
    timeline and the navigation links into the document once, reveals
    sections as they scroll into view, and keeps a dark-mode toggle and a
    back-to-top button. The document, local storage, the media query and the
    scroll position are inputs and fields here. */
module VanillaScript {
  import opened Common
  import opened YearRange
  import opened TimelineData
  import opened Theme
  import opened Scroll

  const StartYear := 2013
  const PlaceholderDescription := "Working on various exciting projects and improving skills."
  const PlaceholderAchievements := ["Continuous learning", "Developing software solutions"]

  /** The entry synthesised for a year the table does not list. */
  function Placeholder(year: int): Entry {
    Entry("Year " + IntToDecimal(year), PlaceholderDescription, PlaceholderAchievements)
  }

  /** `timelineData[year] || placeholder`: an entry object is always truthy,
      so only a missing year falls back. */
  function EntryFor(data: map<int, Entry>, year: int): Entry {
    if year in data then data[year] else Placeholder(year)
  }

  /** One list item of a section, `<li>task</li>`. */
  function ListItem(task: string): string {
    "<li>" + task + "</li>"
  }

  /** The markup of one year: its id, the year marker and heading, and the
      title, description and list items of its entry. */
  datatype Section = Section(id: string, marker: int, heading: int,
                             title: string, description: string, items: seq<string>)

  /** Section `s` shows entry `e` for `year`, one list item per achievement, in order. */
  predicate Shows(s: Section, year: int, e: Entry) {
    && s.id == SectionId(year) && s.marker == year && s.heading == year
    && s.title == e.title && s.description == e.description
    && |s.items| == |e.achievements|
    && forall k :: 0 <= k < |s.items| ==> s.items[k] == ListItem(e.achievements[k])
  }

  function RenderSection(year: int, e: Entry): (s: Section)
    ensures Shows(s, year, e)
  {
    Section(SectionId(year), year, year, e.title, e.description,
            seq(|e.achievements|, k requires 0 <= k < |e.achievements| => ListItem(e.achievements[k])))
  }

  /** `initTimeline`: one section per year from the start year to the current
      year, ascending, each showing the year's entry or the placeholder. */
  method InitTimeline(currentYear: int, data: map<int, Entry>) returns (html: seq<Section>)
    ensures |html| == |Years(StartYear, currentYear)|
    ensures forall i :: 0 <= i < |html| ==>
      Shows(html[i], Years(StartYear, currentYear)[i], EntryFor(data, Years(StartYear, currentYear)[i]))
  {
    html := [];
    var year := StartYear;
    while year <= currentYear
      invariant StartYear <= year
      invariant currentYear >= StartYear ==> year <= currentYear + 1
      invariant currentYear < StartYear ==> year == StartYear
      invariant |html| == year - StartYear
      invariant forall i :: 0 <= i < |html| ==> Shows(html[i], StartYear + i, EntryFor(data, StartYear + i))
    {
      var entry := EntryFor(data, year);
      html := html + [RenderSection(year, entry)];
      year := year + 1;
    }
  }

  /** A year missing from the table shows `Year N`, the fixed description and
      the two fixed achievements; a listed year shows its own entry unchanged. */
  lemma FallbackEntry(data: map<int, Entry>, year: int)
    ensures year !in data ==>
      && EntryFor(data, year).title == "Year " + IntToDecimal(year)
      && EntryFor(data, year).description == PlaceholderDescription
      && EntryFor(data, year).achievements == ["Continuous learning", "Developing software solutions"]
    ensures year in data ==> EntryFor(data, year) == data[year]
  {
  }

  /** No two generated sections share an id. */
  lemma SectionIdsDistinct(html: seq<Section>, currentYear: int, data: map<int, Entry>, i: nat, j: nat)
    requires |html| == |Years(StartYear, currentYear)|
    requires forall k :: 0 <= k < |html| ==>
      Shows(html[k], Years(StartYear, currentYear)[k], EntryFor(data, Years(StartYear, currentYear)[k]))
    requires i < j < |html|
    ensures html[i].id != html[j].id
  {
    var ys := Years(StartYear, currentYear);
    assert Shows(html[i], ys[i], EntryFor(data, ys[i]));
    assert Shows(html[j], ys[j], EntryFor(data, ys[j]));
    if html[i].id == html[j].id {
      SectionIdInjective(ys[i], ys[j]);
    }
  }

  /** `initNavbarLinks`: the years pushed onto `yearsToShow` are exactly the
      filtered years the React version shows. */
  method InitNavbarLinks(currentYear: int) returns (yearsToShow: seq<int>)
    ensures yearsToShow == NavYears(StartYear, currentYear)
  {
    yearsToShow := [];
    var y := StartYear;
    while y <= currentYear
      invariant StartYear <= y
      invariant currentYear >= StartYear ==> y <= currentYear + 1
      invariant currentYear < StartYear ==> y == StartYear
      invariant yearsToShow == FilterNav(Years(StartYear, y - 1), StartYear, currentYear)
    {
      assert Years(StartYear, y) == Years(StartYear, y - 1) + [y];
      FilterNavSnoc(Years(StartYear, y - 1), y, StartYear, currentYear);
      if y == StartYear || y == currentYear || (y - StartYear) % 3 == 0 {
        yearsToShow := yearsToShow + [y];
      }
      y := y + 1;
    }
    assert currentYear >= StartYear ==> y - 1 == currentYear;
    assert currentYear < StartYear ==> Years(StartYear, y - 1) == [] == Years(StartYear, currentYear);
  }

  /** The `data-theme` attribute after one click of the toggle: removed when it
      was "dark", otherwise set to "dark". */
  function ClickedAttribute(attr: Option<string>): (r: Option<string>)
    ensures r == Some(Dark) <==> attr != Some(Dark)
    ensures r == None || r == Some(Dark)
  {
    if attr == Some(Dark) then None else Some(Dark)
  }

  /** The attribute after `n` clicks. */
  function ClickedTimes(attr: Option<string>, n: nat): Option<string> {
    if n == 0 then attr else ClickedAttribute(ClickedTimes(attr, n - 1))
  }

  /** Once the attribute is absent or "dark" (as the start-up code and every
      click leave it), an even number of clicks restores it and an odd number
      flips it; in particular two clicks restore the original state. */
  lemma {:induction false} ClicksParity(attr: Option<string>, n: nat)
    requires attr == None || attr == Some(Dark)
    ensures ClickedTimes(attr, n) == if n % 2 == 0 then attr else ClickedAttribute(attr)
  {
    if n > 0 {
      ClicksParity(attr, n - 1);
    }
  }

  /** The dark-mode toggle of `initDarkMode`. */
  class DarkModeToggle {
    var dataTheme: Option<string>   // the body's `data-theme` attribute
    var stored: Option<string>      // local storage under "theme"

    /** Start-up: the body turns dark only when the resolved theme is exactly
        "dark"; otherwise the attribute stays as the markup had it. Nothing is
        written to storage. */
    constructor (attr0: Option<string>, stored0: Option<string>, prefersDark: bool)
      ensures stored == stored0
      ensures dataTheme == if ResolveTheme(stored0, prefersDark) == Dark then Some(Dark) else attr0
    {
      stored := stored0;
      dataTheme := if ResolveTheme(stored0, prefersDark) == Dark then Some(Dark) else attr0;
    }

    /** A click flips the attribute and stores the name of the new state. */
    method Click()
      modifies this
      ensures dataTheme == ClickedAttribute(old(dataTheme))
      ensures stored == Some(ThemeName(dataTheme == Some(Dark)))
    {
      var isDark := dataTheme == Some(Dark);
      if isDark {
        dataTheme := None;
        stored := Some(Light);
      } else {
        dataTheme := Some(Dark);
        stored := Some(Dark);
      }
    }
  }

  /** One observed element entering or leaving the viewport. */
  datatype Intersection = Intersection(target: nat, isIntersecting: bool)

  /** The elements marked 'active' after a batch of observer entries. */
  function Revealed(active: set<nat>, entries: seq<Intersection>): (r: set<nat>)
    ensures active <= r
  {
    active + set i | 0 <= i < |entries| && entries[i].isIntersecting :: entries[i].target
  }

  /** The marks after several batches, one per observer callback. */
  function RevealedAcross(active: set<nat>, batches: seq<seq<Intersection>>): set<nat>
    decreases |batches|
  {
    if batches == [] then active else RevealedAcross(Revealed(active, batches[0]), batches[1..])
  }

  /** Once marked, an element stays marked through every later callback,
      whether it leaves the viewport or not. */
  lemma {:induction false} RevealIsPermanent(active: set<nat>, batches: seq<seq<Intersection>>, t: nat)
    requires t in active
    ensures t in RevealedAcross(active, batches)
    decreases |batches|
  {
    if batches != [] {
      RevealIsPermanent(Revealed(active, batches[0]), batches[1..], t);
    }
  }

  /** The observer of `initScrollAnimations`. */
  class RevealObserver {
    var active: set<nat>   // the observed elements whose class list holds 'active'

    constructor ()
      ensures active == {}
    {
      active := {};
    }

    /** The observer callback: every intersecting target gains the mark; no
        mark is ever removed. */
    method OnIntersect(entries: seq<Intersection>)
      modifies this
      ensures active == Revealed(old(active), entries)
    {
      var i := 0;
      while i < |entries|
        invariant 0 <= i <= |entries|
        invariant active == Revealed(old(active), entries[..i])
      {
        ghost var before := active;
        if entries[i].isIntersecting {
          active := active + {entries[i].target};
        }
        assert Revealed(old(active), entries[..i + 1]) == active by {
          assert forall k :: 0 <= k < i ==> entries[..i + 1][k] == entries[..i][k];
        }
        i := i + 1;
      }
      assert entries[..i] == entries;
    }
  }

  /** The back-to-top button of `initBackToTop`. */
  class BackToTopButton {
    var visible: bool   // whether the class list holds 'visible'

    constructor ()
      ensures !visible
    {
      visible := false;
    }

    /** The scroll listener: visible exactly past the threshold. */
    method OnScroll(scrollY: real)
      modifies this
      ensures visible == PastThreshold(scrollY)
    {
      if scrollY > 500.0 {
        visible := true;
      } else {
        visible := false;
      }
    }
  }
}
