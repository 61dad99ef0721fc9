/** The per-year content table, written in both versions as an object literal
    whose last property is keyed by the current year. */
module TimelineData {

  /** One year's authored content. */
  datatype Entry = Entry(title: string, description: string, achievements: seq<string>)

  /** An object literal `{ k1: v1, ..., kn: vn }` with integer keys, evaluated
      left to right: a later property overwrites an earlier one with the same key. */
  function ObjectLiteral(props: seq<(int, Entry)>): (m: map<int, Entry>)
    ensures forall k :: k in m <==> exists i :: 0 <= i < |props| && props[i].0 == k
  {
    if props == [] then map[]
    else
      var last := props[|props| - 1];
      var m0 := ObjectLiteral(props[..|props| - 1]);
      assert forall i :: 0 <= i < |props| - 1 ==> props[..|props| - 1][i] == props[i];
      m0[last.0 := last.1]
  }

  /** A property that no later property overrides keeps its value. */
  lemma {:induction false} LastWriteWins(props: seq<(int, Entry)>, i: nat)
    requires i < |props|
    requires forall j :: i < j < |props| ==> props[j].0 != props[i].0
    ensures props[i].0 in ObjectLiteral(props)
    ensures ObjectLiteral(props)[props[i].0] == props[i].1
  {
    if i < |props| - 1 {
      var init := props[..|props| - 1];
      assert init[i] == props[i];
      LastWriteWins(init, i);
    }
  }

  /** The table `{ ...authored, [currentYear]: presentDay }`. */
  function Table(authored: seq<(int, Entry)>, currentYear: int, presentDay: Entry): map<int, Entry> {
    ObjectLiteral(authored + [(currentYear, presentDay)])
  }

  /** Because `[currentYear]` is written last, the current year always shows
      the "present day" entry, even when it is also an authored year. */
  lemma PresentDayWins(authored: seq<(int, Entry)>, currentYear: int, presentDay: Entry)
    ensures currentYear in Table(authored, currentYear, presentDay)
    ensures Table(authored, currentYear, presentDay)[currentYear] == presentDay
  {
    LastWriteWins(authored + [(currentYear, presentDay)], |authored|);
  }

  /** Any other authored year, written once, keeps its authored entry. */
  lemma AuthoredYearKept(authored: seq<(int, Entry)>, currentYear: int, presentDay: Entry, i: nat)
    requires i < |authored|
    requires authored[i].0 != currentYear
    requires forall j :: i < j < |authored| ==> authored[j].0 != authored[i].0
    ensures authored[i].0 in Table(authored, currentYear, presentDay)
    ensures Table(authored, currentYear, presentDay)[authored[i].0] == authored[i].1
  {
    var props := authored + [(currentYear, presentDay)];
    assert props[i] == authored[i];
    LastWriteWins(props, i);
  }

  /** A year no property names is missing from the table. */
  lemma UnlistedYearMissing(authored: seq<(int, Entry)>, currentYear: int, presentDay: Entry, y: int)
    requires y != currentYear
    requires forall j :: 0 <= j < |authored| ==> authored[j].0 != y
    ensures y !in Table(authored, currentYear, presentDay)
  {
    var props := authored + [(currentYear, presentDay)];
    forall i | 0 <= i < |props| ensures props[i].0 != y {
      if i < |authored| { assert props[i] == authored[i]; }
    }
  }
}
