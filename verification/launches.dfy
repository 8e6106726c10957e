/**
 * The launch list of the LaunchPad page (src/pages/LaunchPad.jsx): reading a
 * launch's fields, the search and agency filters with the three sort orders
 * (filteredLaunches), the sorted list of agencies, and the T-minus countdown.
 */
module Launches {
  import opened Js
  import opened ArraySort

  // ---------------------------------------------------------------------------
  // Reading a launch

  /** `v.name` for any value, with None standing for undefined; null and undefined read as undefined (`?.`). */
  function FieldOf(v: Option<Json>, name: string): Option<Json> {
    match v
    case Some(JObj(fs)) => FindProp(fs, name)
    case _ => None
  }

  /** `(x || '')` for a text field: the string when it is one, otherwise the empty string. */
  function TextOf(v: Option<Json>): string {
    match v
    case Some(JStr(s)) => s
    case _ => ""
  }

  function NameText(l: Json): string {
    TextOf(FieldOf(Some(l), "name"))
  }

  /** `l.launch_service_provider?.name`, as text. */
  function ProviderText(l: Json): string {
    TextOf(FieldOf(FieldOf(Some(l), "launch_service_provider"), "name"))
  }

  /** `l.mission?.name`, as text. */
  function MissionText(l: Json): string {
    TextOf(FieldOf(FieldOf(Some(l), "mission"), "name"))
  }

  /**
   * `new Date(v)` in epoch milliseconds, None for an invalid date. `parse`
   * stands for the engine's date-string parser; undefined is invalid, null
   * is the epoch and a boolean is 0 or 1 ms.
   */
  function DateOf(v: Option<Json>, parse: string -> Option<int>): Option<int> {
    match v
    case None => None
    case Some(JNull) => Some(0)
    case Some(JBool(b)) => Some(if b then 1 else 0)
    case Some(JNum(n)) => Some(n)
    case Some(JStr(s)) => parse(s)
    case Some(_) => None
  }

  /** `new Date(l.net)`. */
  function NetOf(l: Json, parse: string -> Option<int>): Option<int> {
    DateOf(FieldOf(Some(l), "net"), parse)
  }

  // ---------------------------------------------------------------------------
  // filteredLaunches

  /** The search filter, for a search term already lower-cased: name, provider or mission contains it. */
  predicate MatchesSearch(l: Json, lowerTerm: string) {
    || Includes(LowerAscii(NameText(l)), lowerTerm)
    || Includes(LowerAscii(ProviderText(l)), lowerTerm)
    || Includes(LowerAscii(MissionText(l)), lowerTerm)
  }

  /** The agency filter: the provider contains the chosen agency, ignoring case. */
  predicate MatchesAgency(l: Json, filterAgency: string) {
    Includes(LowerAscii(ProviderText(l)), LowerAscii(filterAgency))
  }

  /** Whether a launch survives both filters; an empty search term and the agency "all" let everything through. */
  predicate Selected(l: Json, searchTerm: string, filterAgency: string) {
    && (searchTerm != "" ==> MatchesSearch(l, LowerAscii(searchTerm)))
    && (filterAgency != "all" ==> MatchesAgency(l, filterAgency))
  }

  /** The two filters, applied one after the other as the page does. */
  function Select(launches: seq<Json>, searchTerm: string, filterAgency: string): (r: seq<Json>)
    ensures forall l :: multiset(r)[l] == if Selected(l, searchTerm, filterAgency) then multiset(launches)[l] else 0
  {
    var lowerTerm := LowerAscii(searchTerm);
    var searched := if searchTerm != "" then Filter(launches, l => MatchesSearch(l, lowerTerm)) else launches;
    if filterAgency != "all" then Filter(searched, l => MatchesAgency(l, filterAgency)) else searched
  }

  /**
   * The sort comparator as "puts `a` after `b`". `after(x, y)` is
   * `x.localeCompare(y) > 0`. By time, two launches whose dates are not both
   * valid compare as NaN, which the sort treats as equal.
   */
  function Comparator(sortBy: string, after: (string, string) -> bool, parse: string -> Option<int>): (Json, Json) -> bool {
    if sortBy == "name" then
      (a: Json, b: Json) => after(NameText(a), NameText(b))
    else if sortBy == "agency" then
      (a: Json, b: Json) => after(ProviderText(a), ProviderText(b))
    else
      (a: Json, b: Json) => NetOf(a, parse).Some? && NetOf(b, parse).Some? && NetOf(a, parse).value > NetOf(b, parse).value
  }

  lemma ComparatorAsymmetric(sortBy: string, after: (string, string) -> bool, parse: string -> Option<int>)
    requires Asymmetric(after)
    ensures Asymmetric(Comparator(sortBy, after, parse))
  {
    var gt := Comparator(sortBy, after, parse);
    forall a: Json, b: Json | gt(a, b)
      ensures !gt(b, a)
    {
      if sortBy == "name" {
        assert after(NameText(a), NameText(b));
      } else if sortBy == "agency" {
        assert after(ProviderText(a), ProviderText(b));
      }
    }
  }

  /**
   * filteredLaunches: a copy of the launches, filtered, then sorted in place.
   * Every launch that matches is kept as often as it occurs, no other is,
   * and no two neighbours are out of order for the chosen sort. The order
   * is the stable insertion sort of the selected launches, so launches that
   * compare equal stay in list order.
   */
  method FilteredLaunches(launches: seq<Json>, searchTerm: string, filterAgency: string, sortBy: string,
                          after: (string, string) -> bool, parse: string -> Option<int>)
    returns (r: seq<Json>)
    requires Asymmetric(after)
    ensures forall l :: multiset(r)[l] == if Selected(l, searchTerm, filterAgency) then multiset(launches)[l] else 0
    ensures forall l :: l in r <==> l in launches && Selected(l, searchTerm, filterAgency)
    ensures InOrder(r, Comparator(sortBy, after, parse))
    ensures r == SortSeq(Select(launches, searchTerm, filterAgency), Comparator(sortBy, after, parse))
  {
    var selected := Select(launches, searchTerm, filterAgency);
    var a := new Json[|selected|](i requires 0 <= i < |selected| => selected[i]);
    assert a[..] == selected;
    ComparatorAsymmetric(sortBy, after, parse);
    InsertionSort(a, Comparator(sortBy, after, parse));
    r := a[..];
    forall l
      ensures l in r <==> l in launches && Selected(l, searchTerm, filterAgency)
    {
      assert l in r <==> multiset(r)[l] > 0;
      assert l in launches <==> multiset(launches)[l] > 0;
    }
  }

  /**
   * Sorted by time, a list whose launches all have valid dates runs from the
   * earliest launch to the latest.
   */
  lemma ByTimeIsChronological(r: seq<Json>, sortBy: string, after: (string, string) -> bool, parse: string -> Option<int>)
    requires sortBy != "name" && sortBy != "agency"
    requires InOrder(r, Comparator(sortBy, after, parse))
    requires forall i :: 0 <= i < |r| ==> NetOf(r[i], parse).Some?
    ensures forall i, j :: 0 <= i < j < |r| ==> NetOf(r[i], parse).value <= NetOf(r[j], parse).value
  {
    var before := (a: Json, b: Json) => NetOf(a, parse).Some? && NetOf(b, parse).Some? && NetOf(a, parse).value <= NetOf(b, parse).value;
    forall k | 0 < k < |r|
      ensures before(r[k - 1], r[k])
    {
      assert !Comparator(sortBy, after, parse)(r[k - 1], r[k]);
    }
    Chain(r, before);
    forall i, j | 0 <= i < j < |r|
      ensures NetOf(r[i], parse).value <= NetOf(r[j], parse).value
    {
      assert before(r[i], r[j]);
    }
  }

  // ---------------------------------------------------------------------------
  // agencies

  /** The provider names the agency menu offers: every non-empty one among the launches. */
  ghost function ProviderNames(launches: seq<Json>): set<string> {
    set l | l in launches && ProviderText(l) != "" :: ProviderText(l)
  }

  /**
   * agencies: the distinct non-empty provider names, in the order of their
   * first appearance (a Set), then sorted by the default string order.
   */
  method Agencies(launches: seq<Json>) returns (r: seq<string>)
    ensures forall x :: x in r <==> x in ProviderNames(launches)
    ensures Distinct(r)
    ensures forall i, j :: 0 <= i < j < |r| ==> StrLess(r[i], r[j])
  {
    var names: seq<string> := [];
    for n := 0 to |launches|
      invariant Distinct(names)
      invariant forall x :: x in names <==> x in ProviderNames(launches[..n])
    {
      var name := ProviderText(launches[n]);
      assert launches[..n + 1] == launches[..n] + [launches[n]];
      if name != "" && name !in names {
        names := names + [name];
      }
    }
    assert launches[..|launches|] == launches;
    var a := new string[|names|](i requires 0 <= i < |names| => names[i]);
    assert a[..] == names;
    var gt := (x: string, y: string) => StrLess(y, x);
    forall x: string, y: string | gt(x, y)
      ensures !gt(y, x)
    {
      StrLessAsymmetric(y, x);
    }
    InsertionSort(a, gt);
    r := a[..];
    DistinctPermutation(names, r);
    forall x
      ensures x in r <==> x in ProviderNames(launches)
    {
      assert x in r <==> multiset(r)[x] > 0;
      assert x in names <==> multiset(names)[x] > 0;
    }
    forall k | 0 < k < |r|
      ensures StrLess(r[k - 1], r[k])
    {
      assert !gt(r[k - 1], r[k]);
      StrLessTotal(r[k - 1], r[k]);
    }
    forall x, y, z | StrLess(x, y) && StrLess(y, z)
      ensures StrLess(x, z)
    {
      StrLessTransitive(x, y, z);
    }
    Chain(r, StrLess);
  }

  // ---------------------------------------------------------------------------
  // getTMinus

  datatype Countdown = Countdown(days: nat, hours: nat, mins: nat, secs: nat)

  /** The countdown for `diff` milliseconds to go: whole days, then the hours, minutes and seconds left over. */
  function Decompose(diff: nat): (c: Countdown)
    ensures c.hours < 24 && c.mins < 60 && c.secs < 60
  {
    Countdown(diff / 86400000, diff / 3600000 % 24, diff / 60000 % 60, diff / 1000 % 60)
  }

  /** Days, hours, minutes and seconds together give the time left, to the second. */
  lemma DecomposeAddsUp(diff: nat)
    ensures var c := Decompose(diff);
      c.days * 86400000 + c.hours * 3600000 + c.mins * 60000 + c.secs * 1000 + diff % 1000 == diff
  {
    var seconds, minutes, hours := diff / 1000, diff / 60000, diff / 3600000;
    assert minutes == seconds / 60 && hours == minutes / 60 && diff / 86400000 == hours / 24;
  }

  /**
   * getTMinus: "TBD" without a date, "LAUNCHED" once the date has passed,
   * "Dd Hh Mm" with a day or more to go and "Hh Mm Ss" under a day.
   */
  function GetTMinus(date: Option<int>, now: int): (r: string)
    ensures date.None? ==> r == "TBD"
    ensures date.Some? && date.value < now ==> r == "LAUNCHED"
  {
    if date.None? then "TBD"
    else if date.value - now < 0 then "LAUNCHED"
    else Render(Decompose(date.value - now))
  }

  /** The countdown text: days, hours and minutes with a day or more to go, else hours, minutes and seconds. */
  function Render(c: Countdown): string {
    if c.days > 0 then Decimal(c.days) + "d " + Decimal(c.hours) + "h " + Decimal(c.mins) + "m"
    else Decimal(c.hours) + "h " + Decimal(c.mins) + "m " + Decimal(c.secs) + "s"
  }

  /** Render under a day. */
  lemma RenderClock(h: nat, m: nat, s: nat)
    ensures Render(Countdown(0, h, m, s)) == Decimal(h) + "h " + Decimal(m) + "m " + Decimal(s) + "s"
  {
  }

  /** Render from a day on. */
  lemma RenderDays(d: nat, h: nat, m: nat, s: nat)
    requires d > 0
    ensures Render(Countdown(d, h, m, s)) == Decimal(d) + "d " + Decimal(h) + "h " + Decimal(m) + "m"
  {
  }

  /** From the launch time on, getTMinus renders the decomposed time left. */
  lemma CountingDown(date: int, now: int, c: Countdown)
    requires date >= now && Decompose(date - now) == c
    ensures GetTMinus(Some(date), now) == Render(c)
  {
  }

  /** Under a day to go, the countdown shows the time left truncated to the second. */
  lemma ClockUnderADay(date: int, now: int, h: nat, m: nat, s: nat)
    requires h < 24 && m < 60 && s < 60
    requires h * 3600000 + m * 60000 + s * 1000 <= date - now < h * 3600000 + m * 60000 + s * 1000 + 1000
    ensures GetTMinus(Some(date), now) == Decimal(h) + "h " + Decimal(m) + "m " + Decimal(s) + "s"
  {
    DecomposeUnderADay(date - now, h, m, s);
    CountingDown(date, now, Countdown(0, h, m, s));
    RenderClock(h, m, s);
  }

  /** The decomposition under a day is exactly the hours, minutes and seconds the time left spans. */
  lemma DecomposeUnderADay(diff: nat, h: nat, m: nat, s: nat)
    requires h < 24 && m < 60 && s < 60
    requires h * 3600000 + m * 60000 + s * 1000 <= diff < h * 3600000 + m * 60000 + s * 1000 + 1000
    ensures Decompose(diff) == Countdown(0, h, m, s)
  {
    assert diff / 1000 == h * 3600 + m * 60 + s;
    assert diff / 60000 == h * 60 + m;
    assert diff / 3600000 == h;
  }

  /** With a day or more to go, the countdown shows the time left truncated to the minute. */
  lemma DaysFromADay(date: int, now: int, d: nat, h: nat, m: nat)
    requires d > 0 && h < 24 && m < 60
    requires d * 86400000 + h * 3600000 + m * 60000 <= date - now < d * 86400000 + h * 3600000 + m * 60000 + 60000
    ensures GetTMinus(Some(date), now) == Decimal(d) + "d " + Decimal(h) + "h " + Decimal(m) + "m"
  {
    var s := SecondsInto(date - now, d * 86400000 + h * 3600000 + m * 60000);
    DecomposeFromADay(date - now, d, h, m, s);
    CountingDown(date, now, Countdown(d, h, m, s));
    RenderDays(d, h, m, s);
  }

  /** The whole seconds past `base` within a minute of it. */
  lemma SecondsInto(diff: int, base: int) returns (s: nat)
    requires base <= diff < base + 60000
    ensures s < 60 && base + s * 1000 <= diff < base + s * 1000 + 1000
  {
    s := (diff - base) / 1000;
  }

  /** The decomposition from a day on is exactly the days, hours, minutes and seconds the time left spans. */
  lemma DecomposeFromADay(diff: nat, d: nat, h: nat, m: nat, s: nat)
    requires d > 0 && h < 24 && m < 60 && s < 60
    requires d * 86400000 + h * 3600000 + m * 60000 + s * 1000 <= diff < d * 86400000 + h * 3600000 + m * 60000 + s * 1000 + 1000
    ensures Decompose(diff) == Countdown(d, h, m, s)
  {
    assert diff / 1000 == d * 86400 + h * 3600 + m * 60 + s;
    assert diff / 60000 == d * 1440 + h * 60 + m;
    assert diff / 3600000 == d * 24 + h;
    assert diff / 86400000 == d;
  }
}
