/** The range of timeline years and the rule that samples some of them as
    navigation links. Both versions of the page compute these the same way. */
module YearRange {
  import opened Common

  /** Strictly ascending, hence free of duplicates. */
  predicate Ascending(s: seq<int>) {
    forall i, j :: 0 <= i < j < |s| ==> s[i] < s[j]
  }

  /** The years `start, start + 1, ..., current`; empty when `current < start`
      (a negative array length is clamped to zero). */
  function Years(start: int, current: int): (r: seq<int>)
    ensures |r| == if current < start then 0 else current - start + 1
    ensures forall i :: 0 <= i < |r| ==> r[i] == start + i
    decreases current - start
  {
    if current < start then [] else [start] + Years(start + 1, current)
  }

  /** A year appears in `Years(start, current)` exactly when it lies between
      the two bounds, and the list is ascending. */
  lemma YearsMembership(start: int, current: int, y: int)
    ensures y in Years(start, current) <==> start <= y <= current
    ensures Ascending(Years(start, current))
  {
    if start <= y <= current {
      assert Years(start, current)[y - start] == y;
    }
  }

  /** The sampling rule: the first year, the current year, and every third
      year counted from the first. JavaScript's `%` truncates while Dafny's is
      Euclidean, but a remainder is zero under one exactly when it is zero
      under the other, so the test is the same for every year. */
  predicate IsNavYear(y: int, start: int, current: int) {
    y == start || y == current || (y - start) % 3 == 0
  }

  /** `ys.filter(y => IsNavYear(y, start, current))`. */
  function FilterNav(ys: seq<int>, start: int, current: int): (r: seq<int>)
    ensures forall y :: y in r <==> y in ys && IsNavYear(y, start, current)
    ensures Ascending(ys) ==> Ascending(r)
  {
    if ys == [] then []
    else
      var rest := FilterNav(ys[1..], start, current);
      assert Ascending(ys) ==> forall k :: 0 <= k < |rest| ==> ys[0] < rest[k] by {
        if Ascending(ys) {
          forall k | 0 <= k < |rest| ensures ys[0] < rest[k] {
            assert rest[k] in rest;
            var m :| 0 <= m < |ys[1..]| && ys[1..][m] == rest[k];
            assert ys[m + 1] == rest[k];
          }
        }
      }
      if IsNavYear(ys[0], start, current) then [ys[0]] + rest else rest
  }

  /** Filtering a list extended by one year extends the filtered list by
      that year exactly when the year passes the rule. */
  lemma {:induction false} FilterNavSnoc(ys: seq<int>, y: int, start: int, current: int)
    ensures FilterNav(ys + [y], start, current)
      == FilterNav(ys, start, current) + (if IsNavYear(y, start, current) then [y] else [])
  {
    if ys != [] {
      assert (ys + [y])[1..] == ys[1..] + [y];
      FilterNavSnoc(ys[1..], y, start, current);
    }
  }

  /** The years shown as navigation links. */
  function NavYears(start: int, current: int): seq<int> {
    FilterNav(Years(start, current), start, current)
  }

  /** A year is a navigation link exactly when it is in range and passes the
      sampling rule; the links are ascending, with no duplicates; and when the
      range is not empty the first link is `start` and the last is `current`. */
  lemma {:induction false} NavYearsSpec(start: int, current: int)
    ensures forall y :: y in NavYears(start, current) <==> start <= y <= current && IsNavYear(y, start, current)
    ensures Ascending(NavYears(start, current))
    ensures start <= current ==>
      var nav := NavYears(start, current);
      |nav| >= 1 && nav[0] == start && nav[|nav| - 1] == current
  {
    var nav := NavYears(start, current);
    forall y ensures y in Years(start, current) <==> start <= y <= current {
      YearsMembership(start, current, y);
    }
    YearsMembership(start, current, start);
    if start <= current {
      assert start in nav && current in nav;
      var i :| 0 <= i < |nav| && nav[i] == start;
      var j :| 0 <= j < |nav| && nav[j] == current;
      assert nav[0] in nav;
      assert nav[|nav| - 1] in nav;
    }
  }

  /** The id of a year's section, `year-<n>`. */
  function SectionId(year: int): string {
    "year-" + IntToDecimal(year)
  }

  /** The href of a year's navigation link, `#year-<n>`. */
  function NavHref(year: int): string {
    "#year-" + IntToDecimal(year)
  }

  /** Distinct years get distinct section ids. */
  lemma SectionIdInjective(a: int, b: int)
    requires SectionId(a) == SectionId(b)
    ensures a == b
  {
    assert IntToDecimal(a) == SectionId(a)[5..] == SectionId(b)[5..] == IntToDecimal(b);
    IntToDecimalInjective(a, b);
  }

  /** Every navigation link points at the one section rendered for its year. */
  lemma NavLinksTargetSections(start: int, current: int, k: nat)
    requires k < |NavYears(start, current)|
    ensures exists j :: (0 <= j < |Years(start, current)|
      && NavHref(NavYears(start, current)[k]) == "#" + SectionId(Years(start, current)[j]))
  {
    var y := NavYears(start, current)[k];
    NavYearsSpec(start, current);
    assert y in NavYears(start, current);
    var j := y - start;
    assert Years(start, current)[j] == y;
    assert NavHref(y) == "#" + SectionId(y);
  }
}
