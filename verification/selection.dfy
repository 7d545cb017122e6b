/** The selection vocabulary: which city, month and day answers the prompts
    accept, the month-name-to-number mapping of the filter stage, and the
    re-prompt loop itself run over a given sequence of typed answers. */
module Selection {
  import opened Wrappers
  import opened Text

  /** The three cities and their data files; a city answer is accepted when
      it is a key of this table. */
  const CityData: map<string, string> :=
    map["chicago" := "chicago.csv",
        "new york city" := "new_york_city.csv",
        "washington" := "washington.csv"]

  /** The same three keys, in the order the city prompt lists them. */
  const Cities: seq<string> := ["chicago", "new york city", "washington"]

  const MonthChoices: seq<string> :=
    ["all", "january", "february", "march", "april", "may", "june"]

  const DayChoices: seq<string> :=
    ["all", "monday", "tuesday", "wednesday", "thursday", "friday", "saturday", "sunday"]

  /** The month list the filter stage looks month answers up in. */
  const MonthNames: seq<string> :=
    ["january", "february", "march", "april", "may", "june"]

  /** The weekday names the calendar derivation writes into `day_of_week`. */
  const WeekdayNames: seq<string> :=
    ["Monday", "Tuesday", "Wednesday", "Thursday", "Friday", "Saturday", "Sunday"]

  predicate IsCity(answer: string) { answer in CityData }

  predicate IsMonth(answer: string) { answer in MonthChoices }

  predicate IsDay(answer: string) { answer in DayChoices }

  /** The city prompt accepts exactly the keys of the data-file table. */
  lemma CitiesAreTheDataKeys()
    ensures CityData.Keys == set c | c in Cities
    ensures forall c :: IsCity(c) <==> c in Cities
  {
  }

  /** Python's `list.index`: the first position holding `x`, or None where
      Python raises ValueError. */
  function IndexOf(xs: seq<string>, x: string): (r: Option<nat>)
    ensures r.None? <==> x !in xs
    ensures r.Some? ==> r.value < |xs| && xs[r.value] == x && x !in xs[..r.value]
  {
    if xs == [] then None
    else if xs[0] == x then Some(0)
    else
      var rest := IndexOf(xs[1..], x);
      if rest.None? then None
      else
        assert xs[..rest.value + 1] == [xs[0]] + xs[1..][..rest.value];
        Some(rest.value + 1)
  }

  /** `months.index(month) + 1`: the calendar number of a month name. */
  function MonthNumber(month: string): (n: int)
    requires month in MonthNames
    ensures 1 <= n <= 6 && MonthNames[n - 1] == month
  {
    IndexOf(MonthNames, month).value + 1
  }

  /** Every month the prompt accepts, other than "all", has a number, and
      different months get different numbers. */
  lemma AcceptedMonthsHaveNumbers(a: string, b: string)
    requires IsMonth(a) && a != "all" && IsMonth(b) && b != "all"
    ensures a in MonthNames && b in MonthNames
    ensures 1 <= MonthNumber(a) <= 6
    ensures MonthNumber(a) == MonthNumber(b) <==> a == b
  {
  }

  /** Every day the prompt accepts, other than "all", title-cases to the
      weekday name the calendar writes into `day_of_week`, in calendar order;
      so the day filter can match rows for each accepted day. */
  lemma AcceptedDaysMatchWeekdays()
    ensures |DayChoices| == |WeekdayNames| + 1
    ensures forall i :: 0 <= i < |WeekdayNames| ==> Title(DayChoices[i + 1]) == WeekdayNames[i]
  {
    forall i | 0 <= i < |WeekdayNames|
      ensures Title(DayChoices[i + 1]) == WeekdayNames[i]
    {
      DayTitleAt(i);
    }
  }

  lemma DayTitleAt(i: nat)
    requires i < 7
    ensures Title(DayChoices[i + 1]) == WeekdayNames[i]
  {
    var day, name := DayChoices[i + 1], WeekdayNames[i];
    if i == 0 { assert day == "monday" && name == "Monday"; }
    else if i == 1 { assert day == "tuesday" && name == "Tuesday"; }
    else if i == 2 { assert day == "wednesday" && name == "Wednesday"; }
    else if i == 3 { assert day == "thursday" && name == "Thursday"; }
    else if i == 4 { assert day == "friday" && name == "Friday"; }
    else if i == 5 { assert day == "saturday" && name == "Saturday"; }
    else { assert day == "sunday" && name == "Sunday"; }
    DayTitle(day, name);
  }

  lemma DayTitle(day: string, name: string)
    requires |day| == |name| > 0
    requires forall j :: 0 <= j < |day| ==> IsLower(day[j])
    requires name[0] == ToUpperChar(day[0]) && name[1..] == day[1..]
    ensures Title(day) == name
  {
    TitleOfLowerWord(day);
  }

  /** An answer is judged on its lower-case form, so the case the user types
      in does not matter: two answers that differ only in letter case are
      accepted alike. */
  lemma AcceptanceIgnoresCase(a: string, b: string, choices: seq<string>)
    requires SameUpToCase(a, b)
    ensures Lower(a) in choices <==> Lower(b) in choices
  {
    LowerIgnoresCase(a, b);
  }

  /** The position of the first answer whose lower-cased form is one of
      `choices`, or None when there is none. */
  function FirstAccepted(answers: seq<string>, choices: seq<string>): (r: Option<nat>)
    ensures r.Some? ==> r.value < |answers| && Lower(answers[r.value]) in choices
    ensures r.Some? ==> forall k :: 0 <= k < r.value ==> Lower(answers[k]) !in choices
    ensures r.None? ==> forall k :: 0 <= k < |answers| ==> Lower(answers[k]) !in choices
    decreases |answers|
  {
    if answers == [] then None
    else if Lower(answers[0]) in choices then Some(0)
    else
      match FirstAccepted(answers[1..], choices)
      case None => None
      case Some(k) => Some(k + 1)
  }

  /** The re-prompt loop of `get_city`, `get_month` and `get_day`: ask until
      the lower-cased answer is one of `choices`. The answers the user types
      are given in order; `asked` is how many were read. When they run out
      before one is accepted the result is None (the program itself would
      keep prompting). */
  method Prompt(answers: seq<string>, choices: seq<string>) returns (choice: Option<string>, asked: nat)
    ensures asked <= |answers|
    ensures choice.None? ==> asked == |answers|
    ensures choice.Some? ==> 1 <= asked && choice.value == Lower(answers[asked - 1]) && choice.value in choices
    ensures forall k :: 0 <= k < asked && (choice.None? || k < asked - 1) ==> Lower(answers[k]) !in choices
    ensures match FirstAccepted(answers, choices)
            case None => choice.None?
            case Some(k) => choice == Some(Lower(answers[k])) && asked == k + 1
  {
    choice, asked := None, 0;
    while asked < |answers|
      invariant asked <= |answers|
      invariant forall k :: 0 <= k < asked ==> Lower(answers[k]) !in choices
    {
      var typed := Lower(answers[asked]);
      asked := asked + 1;
      if typed in choices {
        return Some(typed), asked;
      }
    }
  }

  datatype Filters = Filters(city: string, month: string, day: string)

  /** The selection the three prompts make from one stream of answers: the
      city prompt takes the first accepted city, the month prompt reads on
      from the answer after it, and the day prompt from the answer after the
      accepted month. None when the answers run out first. */
  function Selected(answers: seq<string>): (r: Option<Filters>)
    ensures r.Some? ==> IsCity(r.value.city) && IsMonth(r.value.month) && IsDay(r.value.day)
  {
    match FirstAccepted(answers, Cities)
    case None => None
    case Some(c) =>
      CitiesAreTheDataKeys();
      SelectedAfterCity(Lower(answers[c]), answers[c + 1..])
  }

  /** The month and day prompts, reading `rest` once `city` is chosen. */
  function SelectedAfterCity(city: string, rest: seq<string>): (r: Option<Filters>)
    ensures r.Some? ==> r.value.city == city && IsMonth(r.value.month) && IsDay(r.value.day)
  {
    match FirstAccepted(rest, MonthChoices)
    case None => None
    case Some(m) => SelectedAfterMonth(city, Lower(rest[m]), rest[m + 1..])
  }

  /** The day prompt, reading `rest` once `city` and `month` are chosen. */
  function SelectedAfterMonth(city: string, month: string, rest: seq<string>): (r: Option<Filters>)
    ensures r.Some? ==> r.value.city == city && r.value.month == month && IsDay(r.value.day)
  {
    match FirstAccepted(rest, DayChoices)
    case None => None
    case Some(d) => Some(Filters(city, month, Lower(rest[d])))
  }

  /** `get_filters`: the city, month and day prompts in turn, each reading
      on from where the previous one stopped. */
  method GetFilters(answers: seq<string>) returns (filters: Option<Filters>)
    ensures filters == Selected(answers)
    ensures filters.Some? ==> IsCity(filters.value.city) && IsMonth(filters.value.month) && IsDay(filters.value.day)
  {
    var city, used := Prompt(answers, Cities);
    if city.None? {
      assert FirstAccepted(answers, Cities).None?;
      return None;
    }
    assert FirstAccepted(answers, Cities) == Some(used - 1);
    filters := GetMonthAndDay(city.value, answers[used..]);
  }

  /** The month and day prompts of `get_filters`, once the city is chosen. */
  method GetMonthAndDay(city: string, rest: seq<string>) returns (filters: Option<Filters>)
    ensures filters == SelectedAfterCity(city, rest)
  {
    var month, used := Prompt(rest, MonthChoices);
    if month.None? {
      assert FirstAccepted(rest, MonthChoices).None?;
      return None;
    }
    assert FirstAccepted(rest, MonthChoices) == Some(used - 1);
    filters := GetDay(city, month.value, rest[used..]);
  }

  /** The day prompt of `get_filters`, once the city and month are chosen. */
  method GetDay(city: string, month: string, rest: seq<string>) returns (filters: Option<Filters>)
    ensures filters == SelectedAfterMonth(city, month, rest)
  {
    var day, used := Prompt(rest, DayChoices);
    if day.None? {
      assert FirstAccepted(rest, DayChoices).None?;
      return None;
    }
    assert FirstAccepted(rest, DayChoices) == Some(used - 1);
    filters := Some(Filters(city, month, day.value));
  }
}
