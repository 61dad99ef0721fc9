/** The React version of the page (src/App.jsx): the year sections with their
    alternating layout, the sampled navigation links, and the component state
    for the theme and the back-to-top button. */
module ReactApp {
  import opened Common
  import opened YearRange
  import opened TimelineData
  import opened Theme
  import opened Scroll

  const StartYear := 2013

  /** What one year's section renders. A missing description renders as
      nothing, written "" here; missing achievements render no list items. */
  datatype SectionView = SectionView(year: int, id: string, mirrored: bool,
                                     title: string, description: string, achievements: seq<string>)

  /** The section at position `idx` for `year`: `timelineData[year]?.title ||
      "Year N"`, the optional description and achievements, and the mirrored
      row (`md:flex-row-reverse`) when `idx % 2 === 0`. */
  function SectionFor(data: map<int, Entry>, year: int, idx: nat): SectionView {
    var title := if year in data && data[year].title != "" then data[year].title else "Year " + IntToDecimal(year);
    var description := if year in data then data[year].description else "";
    var achievements := if year in data then data[year].achievements else [];
    SectionView(year, SectionId(year), idx % 2 == 0, title, description, achievements)
  }

  /** `years.map((year, idx) => ...)`. */
  function Sections(currentYear: int, data: map<int, Entry>): seq<SectionView> {
    var ys := Years(StartYear, currentYear);
    seq(|ys|, idx requires 0 <= idx < |ys| => SectionFor(data, ys[idx], idx))
  }

  /** One section per year of the range, ascending, with the mirrored layout
      exactly at even positions. */
  lemma SectionsLayout(currentYear: int, data: map<int, Entry>, i: nat)
    requires i < |Sections(currentYear, data)|
    ensures |Sections(currentYear, data)| == |Years(StartYear, currentYear)|
    ensures Sections(currentYear, data)[i].year == StartYear + i
    ensures Sections(currentYear, data)[i].mirrored <==> i % 2 == 0
  {
  }

  /** Neighbouring sections always use opposite layouts. */
  lemma NeighboursAlternate(currentYear: int, data: map<int, Entry>, i: nat)
    requires i + 1 < |Sections(currentYear, data)|
    ensures Sections(currentYear, data)[i].mirrored != Sections(currentYear, data)[i + 1].mirrored
  {
    var s := Sections(currentYear, data);
    assert s[i].mirrored == (i % 2 == 0) by { SectionsLayout(currentYear, data, i); }
    assert s[i + 1].mirrored == ((i + 1) % 2 == 0) by { SectionsLayout(currentYear, data, i + 1); }
    ParityAlternates(i);
  }

  /** A year with no data renders `Year N`, no description and no list, and
      does not fail; a year with data and a non-empty title renders its own. */
  lemma MissingYearFallback(data: map<int, Entry>, year: int, idx: nat)
    ensures year !in data ==>
      && SectionFor(data, year, idx).title == "Year " + IntToDecimal(year)
      && SectionFor(data, year, idx).description == ""
      && SectionFor(data, year, idx).achievements == []
    ensures year in data && data[year].title != "" ==>
      && SectionFor(data, year, idx).title == data[year].title
      && SectionFor(data, year, idx).achievements == data[year].achievements
  {
  }

  /** Over the page's own table the last section is the current year, and it
      shows the "present day" entry even when the current year is also an
      authored year. */
  lemma LastSectionIsPresentDay(authored: seq<(int, Entry)>, currentYear: int, presentDay: Entry)
    requires StartYear <= currentYear
    requires presentDay.title != ""
    ensures var s := Sections(currentYear, Table(authored, currentYear, presentDay));
      && |s| >= 1
      && s[|s| - 1].year == currentYear
      && s[|s| - 1].title == presentDay.title
      && s[|s| - 1].description == presentDay.description
      && s[|s| - 1].achievements == presentDay.achievements
  {
    PresentDayWins(authored, currentYear, presentDay);
  }

  /** The nav links are exactly the years passing the start / current /
      every-third rule, ascending; the vanilla version computes the same list. */
  function NavLinks(currentYear: int): (links: seq<int>)
    ensures forall y :: y in links <==> StartYear <= y <= currentYear && IsNavYear(y, StartYear, currentYear)
    ensures Ascending(links)
  {
    NavYearsSpec(StartYear, currentYear);
    NavYears(StartYear, currentYear)
  }

  /** The theme part of the component state and the document it writes. */
  datatype ThemeState = ThemeState(isDark: bool, stored: Option<string>, bodyTheme: Option<string>, rootDark: bool)

  /** `toggleTheme`: negate, store and apply the new theme. */
  function Toggled(s: ThemeState): (r: ThemeState)
    ensures r.isDark == !s.isDark
  {
    var next := !s.isDark;
    ThemeState(next, Some(ThemeName(next)), Some(ThemeName(next)), next)
  }

  /** Storage, the body attribute and the root class all agree with `isDark`. */
  predicate Synced(s: ThemeState) {
    && s.stored == Some(ThemeName(s.isDark))
    && s.bodyTheme == Some(ThemeName(s.isDark))
    && s.rootDark == s.isDark
  }

  function ToggledTimes(s: ThemeState, n: nat): ThemeState {
    if n == 0 then s else Toggled(ToggledTimes(s, n - 1))
  }

  /** After `n` toggles `isDark` has flipped `n` times (so two toggles restore
      it), and after at least one toggle storage, the body attribute and the
      root class all match it. */
  lemma {:induction false} ToggleParity(s: ThemeState, n: nat)
    ensures ToggledTimes(s, n).isDark == (s.isDark != (n % 2 == 1))
    ensures n >= 1 ==> Synced(ToggledTimes(s, n))
  {
    if n > 0 {
      ToggleParity(s, n - 1);
    }
  }

  /** The component's state and the parts of the document it writes. */
  class App {
    var isDark: bool
    var showBackToTop: bool
    var stored: Option<string>      // local storage under "theme"
    var bodyTheme: Option<string>   // the body's `data-theme` attribute
    var rootDark: bool              // the root element's class list holds 'dark'

    function State(): ThemeState
      reads this
    {
      ThemeState(isDark, stored, bodyTheme, rootDark)
    }

    /** The first render: both state flags start false. */
    constructor (stored0: Option<string>, bodyTheme0: Option<string>, rootDark0: bool)
      ensures !isDark && !showBackToTop
      ensures stored == stored0 && bodyTheme == bodyTheme0 && rootDark == rootDark0
    {
      isDark, showBackToTop := false, false;
      stored, bodyTheme, rootDark := stored0, bodyTheme0, rootDark0;
    }

    /** The mount effect: `isDark` is true exactly when the resolved theme is
        "dark", the body attribute is set to the resolved theme whatever it is,
        and neither storage nor the root class is touched. */
    method ThemeEffect(prefersDark: bool)
      modifies this
      ensures isDark <==> ResolveTheme(old(stored), prefersDark) == Dark
      ensures bodyTheme == Some(ResolveTheme(old(stored), prefersDark))
      ensures stored == old(stored) && rootDark == old(rootDark) && showBackToTop == old(showBackToTop)
    {
      var theme := ResolveTheme(stored, prefersDark);
      isDark := theme == Dark;
      bodyTheme := Some(theme);
    }

    /** `toggleTheme`. */
    method ToggleTheme()
      modifies this
      ensures State() == Toggled(old(State()))
      ensures Synced(State())
      ensures showBackToTop == old(showBackToTop)
    {
      var next := !isDark;
      isDark := next;
      var theme := if next then Dark else Light;
      stored := Some(theme);
      bodyTheme := Some(theme);
      if next {
        rootDark := true;
      } else {
        rootDark := false;
      }
    }

    /** The scroll listener: `showBackToTop` follows the strict threshold. */
    method OnScroll(scrollY: real)
      modifies this
      ensures showBackToTop == PastThreshold(scrollY)
      ensures State() == old(State())
    {
      showBackToTop := scrollY > 500.0;
    }
  }
}
