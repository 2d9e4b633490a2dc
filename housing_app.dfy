/**
 * The non-GUI logic of Main.py: the house/applicant tables, the two
 * dropdown menus as plain state, the slider label, the split of the numbers
 * read from the model's reply into three series, and the per-submission
 * colour and history.
 */
module HousingApp {
  import opened Wrappers
  import opened Sequences
  import opened Strings
  import opened Dict
  import RagHelper

  const CLEAR := "-- Clear Selection --"
  const SELECT_APPLICANT := "-- Select Applicant --"
  const SELECT_HOUSE := "-- Select House Type --"

  /** The entries of `HOUSE_TO_APPLICANT`, one constant each, numbered in the literal's order. */
  const H0: (string, seq<string>) := ("Subsidized apartments / social housing", ["Family applicant"])
  const H1: (string, seq<string>) := ("Studio apartment / shared rental", ["Individual"])
  const H2: (string, seq<string>) := ("Senior housing / assisted living", ["Individual", "Family applicant"])
  const H3: (string, seq<string>) := ("Dormitory / shared student housing", ["Individual", "Group"])
  const H4: (string, seq<string>) := ("Shelter / transitional housing", ["Individual"])
  const H5: (string, seq<string>) := ("Accessible housing / supported living", ["Individual", "Caregiver"])
  const H6: (string, seq<string>) := ("Community housing / reserve housing", ["Group", "Band council"])
  const H7: (string, seq<string>) := ("Temporary housing / rental unit", ["Family applicant", "Individual"])
  const H8: (string, seq<string>) := ("Workforce housing / cooperative housing", ["Individual", "Group"])
  const H9: (string, seq<string>) := ("Condominium / townhouse", ["Family applicant"])
  const H10: (string, seq<string>) := ("Veteran housing / support program units", ["Individual", "Program"])
  const H11: (string, seq<string>) := ("Crisis shelter / transitional housing", ["Individual", "Family applicant"])
  const H12: (string, seq<string>) := ("Co-living or live–work unit", ["Individual"])
  const H13: (string, seq<string>) := ("Farmworker housing / modular units", ["Group", "Employer"])
  const H14: (string, seq<string>) := ("Condo / apartment rental", ["Individual", "Couple"])
  const H15: (string, seq<string>) := ("Correctional facility / institutional unit", ["Government", "Justice system"])
  const H16: (string, seq<string>) := ("Halfway house / supervised transitional unit", ["Individual", "Parole program"])

  /** `HOUSE_TO_APPLICANT`, in its literal order. */
  const HOUSE_TO_APPLICANT: Dict := [
    H0, H1, H2, H3, H4, H5, H6, H7, H8, H9, H10, H11, H12, H13, H14, H15, H16
  ]

  /** `HousePredictionApp.COLORS`. */
  const COLORS := ["red", "blue", "green", "orange", "purple", "brown", "cyan", "magenta", "olive", "pink"]

  /** The ten slider labels, from the lowest slider values to the highest. */
  const TIME_LABELS := ["Hour 1", "Hour 2", "Day 1", "Day 2", "Week 1", "Week 2", "Month 1", "Month 2", "Year 1", "Year 5"]

  /** The literal table has one entry per house and no house lists an applicant twice. */
  lemma HouseTableWellFormed()
    ensures DistinctKeys(HOUSE_TO_APPLICANT) && NoRepeatedApplicants(HOUSE_TO_APPLICANT)
  {
    HouseKeysDistinct();
    HouseListsDistinct();
  }

  /**
   * No two houses share a name. The list of name lengths and the test of
   * the fourth character from the end have no meaning of their own: they
   * only give the verifier a quick way to tell the seventeen literals apart.
   */
  lemma HouseKeysDistinct()
    ensures DistinctKeys(HOUSE_TO_APPLICANT)
  {
    var ks := Keys(HOUSE_TO_APPLICANT);
    var lens := [38, 32, 32, 34, 30, 37, 35, 31, 39, 23, 39, 37, 27, 34, 24, 42, 44];
    assert forall i :: 0 <= i < |ks| ==> |ks[i]| == lens[i];
    forall i, j | 0 <= i < j < |ks| ensures ks[i] != ks[j] {
      if lens[i] == lens[j] {
        var n := |ks[i]|;
        assert ks[i][n - 4] != ks[j][n - 4];
      }
    }
  }

  /** No house lists an applicant twice. */
  lemma HouseListsDistinct()
    ensures NoRepeatedApplicants(HOUSE_TO_APPLICANT)
  {
  }

  /**
   * For the literal table: a house is listed for an applicant exactly when
   * that house lists the applicant, in the table's order, each house once.
   */
  lemma HouseTableInverse(a: string, h: string)
    ensures h in Get(Invert(HOUSE_TO_APPLICANT), a) <==> a in Get(HOUSE_TO_APPLICANT, h)
    ensures Get(Invert(HOUSE_TO_APPLICANT), a) == HousesListing(HOUSE_TO_APPLICANT, a)
    ensures Distinct(Get(Invert(HOUSE_TO_APPLICANT), a))
  {
    HouseTableWellFormed();
    InvertMembership(HOUSE_TO_APPLICANT, a, h);
    InvertFollowsHouseOrder(HOUSE_TO_APPLICANT, a);
    InvertNoDuplicates(HOUSE_TO_APPLICANT, a);
  }

  /**
   * The name ends with `-`, as the menus' own entries (clear and the two
   * placeholders) do. Only telling table names from those entries matters;
   * the last character is tested rather than the first, which the handlers'
   * `startswith("--")` looks at, because it is cheaper for the verifier to
   * read from a long string literal.
   */
  predicate DashLast(name: string) {
    name != [] && name[|name| - 1] == '-'
  }

  /** Neither the house nor any applicant of one table entry is named like one of the menus' own entries. */
  predicate PlainNames(entry: (string, seq<string>)) {
    !DashLast(entry.0) && forall j :: 0 <= j < |entry.1| ==> !DashLast(entry.1[j])
  }

  /** No house and no applicant of the table is named like one of the menus' own entries. */
  predicate NoPlaceholderNames(e: Dict) {
    forall i :: 0 <= i < |e| ==> PlainNames(e[i])
  }

  /** No name in the literal table ends with `-`. */
  lemma HouseTableNoPlaceholderNames()
    ensures NoPlaceholderNames(HOUSE_TO_APPLICANT)
  {
  }

  /**
   * A full menu list (clear, a placeholder, then the sorted names) holds every
   * entry once when the names are distinct and none ends with `-`.
   */
  lemma MenuValuesDistinct(placeholder: string, names: seq<string>)
    requires Distinct(names) && placeholder != CLEAR && DashLast(placeholder)
    requires forall k :: k in names ==> !DashLast(k)
    ensures Distinct([CLEAR, placeholder] + Sort(names))
  {
    SortDistinct(names);
    var sorted := Sort(names);
    var own := [CLEAR, placeholder];
    assert DashLast(CLEAR);
    forall x | x in own ensures x !in sorted {
      assert DashLast(x);
    }
    DistinctConcat(own, sorted);
  }

  // ---------------------------------------------------------------- slider

  /** The label `update_time_label` shows for slider value `v`. */
  function TimeLabel(v: real): string {
    if v < 10.0 then "Hour 1"
    else if v < 20.0 then "Hour 2"
    else if v < 30.0 then "Day 1"
    else if v < 40.0 then "Day 2"
    else if v < 50.0 then "Week 1"
    else if v < 60.0 then "Week 2"
    else if v < 70.0 then "Month 1"
    else if v < 80.0 then "Month 2"
    else if v < 90.0 then "Year 1"
    else "Year 5"
  }

  /** The bucket of `v`: its tens digit, everything below 10 in bucket 0 and everything from 90 up in bucket 9. */
  function TimeBucket(v: real): (k: int)
    ensures 0 <= k < 10
    ensures k == 0 || 10.0 * (k as real) <= v
    ensures k == 9 || v < 10.0 * ((k + 1) as real)
  {
    if v < 10.0 then 0 else if v >= 90.0 then 9 else (v / 10.0).Floor
  }

  /** `update_time_label` picks the label of the bucket the value falls in. */
  lemma TimeLabelIsBucket(v: real)
    ensures TimeLabel(v) == TIME_LABELS[TimeBucket(v)]
  {
  }

  /** A larger slider value never gets an earlier label. */
  lemma TimeBucketMonotone(v: real, w: real)
    requires v <= w
    ensures TimeBucket(v) <= TimeBucket(w)
  {
  }

  /** Every value gets exactly one of the ten labels: the one of its bucket. */
  lemma TimeLabelExactlyOne(v: real, k: int)
    requires 0 <= k < 10
    ensures TimeLabel(v) == TIME_LABELS[k] <==> TimeBucket(v) == k
  {
  }

  // ---------------------------------------------------------------- number split

  /** `len(numbers) // 3 or 1`. */
  function Chunk(n: nat): nat {
    if n / 3 == 0 then 1 else n / 3
  }

  /** Python's `xs[lo:hi]` for non-negative bounds: both bounds are clamped to the length. */
  function Slice(xs: seq<real>, lo: nat, hi: nat): seq<real> {
    var l := Min(lo, |xs|);
    var h := Min(hi, |xs|);
    if h <= l then [] else xs[l..h]
  }

  /** `[p - n for p, n in zip(placed, need)]`. */
  function PairwiseDifference(placed: seq<real>, need: seq<real>): seq<real> {
    seq(Min(|placed|, |need|), i requires 0 <= i < Min(|placed|, |need|) => placed[i] - need[i])
  }

  /** The three series `[placed, need, diff]` of `submit_action`. */
  function SplitNumbers(numbers: seq<real>): (sets: seq<seq<real>>)
    ensures |sets| == 3
    ensures var c, n := Chunk(|numbers|), |numbers|;
      && sets[0] == numbers[..Min(c, n)]
      && sets[1] == numbers[Min(c, n)..Min(2 * c, n)]
    ensures var tail := Slice(numbers, 2 * Chunk(|numbers|), |numbers|);
      && (tail != [] ==> sets[2] == tail && sets[0] + sets[1] + sets[2] == numbers)
      && (tail == [] ==> |sets[2]| == Min(|sets[0]|, |sets[1]|)
                         && forall i :: 0 <= i < |sets[2]| ==> sets[2][i] == sets[0][i] - sets[1][i])
  {
    var chunk := Chunk(|numbers|);
    var placed := Slice(numbers, 0, chunk);
    var need := Slice(numbers, chunk, 2 * chunk);
    var tail := Slice(numbers, 2 * chunk, |numbers|);
    var diff := if tail != [] then tail else PairwiseDifference(placed, need);
    assert tail != [] ==> placed + need + tail == numbers;
    [placed, need, diff]
  }

  /**
   * The split case by case: three or more numbers are cut into `n // 3`
   * placed, `n // 3` needed and the rest as differences; one number is
   * placed alone; two give one placed, one needed and their difference.
   */
  lemma SplitCases(numbers: seq<real>)
    ensures var n, sets := |numbers|, SplitNumbers(numbers);
      && (n >= 3 ==> |sets[0]| == n / 3 && |sets[1]| == n / 3 && |sets[2]| >= n / 3
                     && sets[0] + sets[1] + sets[2] == numbers)
      && (n == 2 ==> sets == [[numbers[0]], [numbers[1]], [numbers[0] - numbers[1]]])
      && (n == 1 ==> sets == [[numbers[0]], [], []])
      && (n == 0 ==> sets == [[], [], []])
  {
    var n, sets := |numbers|, SplitNumbers(numbers);
    if n == 2 {
      assert sets[0] == [numbers[0]] && sets[1] == [numbers[1]];
      assert sets[2] == [numbers[0] - numbers[1]];
    } else if n == 1 {
      assert Slice(numbers, 1, 2) == [] && Slice(numbers, 2, 1) == [];
      assert sets[0] == [numbers[0]] && sets[1] == [] && sets[2] == [];
    }
  }

  // ---------------------------------------------------------------- history

  /** One stored submission of one graph: its series and its colour. */
  datatype Plot = Plot(data: seq<real>, color: string)

  /** The colour of submission number `k` (counted from 0). */
  function ColorOf(k: nat): string {
    COLORS[k % |COLORS|]
  }

  /** No stored series of this graph holds a value, so `max(all_values)` raises `ValueError`. */
  predicate NoValues(series: seq<Plot>) {
    forall p :: p in series ==> p.data == []
  }

  /** Every graph's history gains one entry, `(data, color)`, after all earlier ones. */
  function Appended(history: seq<seq<Plot>>, sets: seq<seq<real>>, color: string): (r: seq<seq<Plot>>)
    requires |history| == 3 && |sets| == 3
    ensures |r| == 3
    ensures forall i :: 0 <= i < 3 ==>
      && |r[i]| == |history[i]| + 1
      && r[i][..|history[i]|] == history[i]
      && r[i][|history[i]|] == Plot(sets[i], color)
  {
    seq(3, i requires 0 <= i < 3 => history[i] + [Plot(sets[i], color)])
  }

  /**
   * The history loop of `submit_action` as written, from graph `i` on: a
   * graph's entry is appended, then its axis limits are computed, and when
   * none of its stored series holds a value `max`/`min` raise and the
   * remaining graphs are skipped.
   */
  function HistoryStepsAsWritten(history: seq<seq<Plot>>, sets: seq<seq<real>>, color: string, i: int): seq<seq<Plot>>
    requires |history| == 3 && |sets| == 3 && 0 <= i <= 3
    decreases 3 - i
  {
    if i == 3 then history
    else
      var h := history[i := history[i] + [Plot(sets[i], color)]];
      if NoValues(h[i]) then h else HistoryStepsAsWritten(h, sets, color, i + 1)
  }

  function HistoryAsWritten(history: seq<seq<Plot>>, sets: seq<seq<real>>, color: string): seq<seq<Plot>>
    requires |history| == 3 && |sets| == 3
  {
    HistoryStepsAsWritten(history, sets, color, 0)
  }

  /**
   * A first submission whose reply holds a single number stores the placed
   * and the (empty) need series, then stops: the difference graph gets no entry.
   */
  lemma SingleNumberLosesDifference()
    ensures var sets := SplitNumbers([5.0]);
      HistoryAsWritten([[], [], []], sets, ColorOf(0)) == [[Plot([5.0], "red")], [Plot([], "red")], []]
  {
    var sets := SplitNumbers([5.0]);
    SplitCases([5.0]);
    assert sets == [[5.0], [], []];
    assert ColorOf(0) == "red";
    var h0: seq<seq<Plot>> := [[], [], []];
    var h1 := h0[0 := h0[0] + [Plot(sets[0], "red")]];
    assert h1[0] == [Plot([5.0], "red")] && h1[1] == [] && h1[2] == [];
    assert !NoValues(h1[0]) by { assert Plot([5.0], "red") in h1[0]; }
    assert HistoryStepsAsWritten(h0, sets, "red", 0) == HistoryStepsAsWritten(h1, sets, "red", 1);
    var h2 := h1[1 := h1[1] + [Plot(sets[1], "red")]];
    assert h2[0] == [Plot([5.0], "red")] && h2[1] == [Plot([], "red")] && h2[2] == [];
    assert NoValues(h2[1]);
    assert HistoryStepsAsWritten(h1, sets, "red", 1) == h2;
  }

  /**
   * The history as written agrees with every graph gaining one entry
   * exactly when the reply held two or more numbers, or some earlier need
   * series held a value.
   */
  lemma HistoryAsWrittenAgrees(history: seq<seq<Plot>>, numbers: seq<real>, color: string)
    requires |history| == 3 && numbers != []
    ensures var sets := SplitNumbers(numbers);
      HistoryAsWritten(history, sets, color) == Appended(history, sets, color)
      <==> |numbers| >= 2 || !NoValues(history[1])
  {
    var sets := SplitNumbers(numbers);
    SplitCases(numbers);
    assert sets[0] != [] by {
      if |numbers| >= 3 { assert |sets[0]| == |numbers| / 3; }
    }
    var h1 := history[0 := history[0] + [Plot(sets[0], color)]];
    assert !NoValues(h1[0]) by { assert Plot(sets[0], color) in h1[0]; }
    var h2 := h1[1 := h1[1] + [Plot(sets[1], color)]];
    var h3 := h2[2 := h2[2] + [Plot(sets[2], color)]];
    assert h3 == Appended(history, sets, color);
    assert HistoryStepsAsWritten(h3, sets, color, 3) == h3;
    if |numbers| >= 2 {
      assert sets[1] != [] by {
        if |numbers| >= 3 { assert |sets[1]| == |numbers| / 3; }
      }
      assert !NoValues(h2[1]) by { assert Plot(sets[1], color) in h2[1]; }
    } else if !NoValues(history[1]) {
      var p :| p in history[1] && p.data != [];
      assert p in h2[1];
    } else {
      assert NoValues(h2[1]);
      assert |h2[2]| != |Appended(history, sets, color)[2]|;
    }
  }

  /** The text passed to `build_context` for the current selections. */
  function Query(applicant: string, house: string, timeLabel: string): string {
    "Applicant: " + applicant + ", House: " + house + ", Time: " + timeLabel
  }

  // ---------------------------------------------------------------- the application

  /** An option menu's list of values and its current selection. */
  datatype Menu = Menu(values: seq<string>, selected: string)

  class HousePredictionApp {
    const houseToApplicant: Dict
    const applicantToHouse: Dict
    var applicantMenu: Menu
    var houseMenu: Menu
    /** The text of the slider label. */
    var timeLabel: string
    var submissionCount: nat
    /** The stored submissions of the three graphs: placed, need, difference. */
    var historyData: seq<seq<Plot>>

    ghost predicate Valid()
      reads this
    {
      && DistinctKeys(houseToApplicant)
      && applicantToHouse == Invert(houseToApplicant)
      && |historyData| == 3
    }

    /** The applicant menu with every applicant, sorted, and the placeholder selected. */
    function FullApplicantMenu(): Menu {
      Menu([CLEAR, SELECT_APPLICANT] + Sort(Keys(applicantToHouse)), SELECT_APPLICANT)
    }

    /** The house menu with every house type, sorted, and the placeholder selected. */
    function FullHouseMenu(): Menu {
      Menu([CLEAR, SELECT_HOUSE] + Sort(Keys(houseToApplicant)), SELECT_HOUSE)
    }

    /**
     * `__init__` with the house table as a parameter (the application passes
     * `HOUSE_TO_APPLICANT`, which `HouseTableWellFormed` shows meets the requirement).
     */
    constructor (table: Dict)
      requires DistinctKeys(table)
      ensures Valid()
      ensures houseToApplicant == table
      ensures applicantMenu == FullApplicantMenu() && houseMenu == FullHouseMenu()
      ensures timeLabel == "Day 1" && submissionCount == 0 && historyData == [[], [], []]
    {
      houseToApplicant := table;
      var inverse := BuildApplicantToHouse(table);
      applicantToHouse := inverse;
      submissionCount := 0;
      applicantMenu := Menu([CLEAR, SELECT_APPLICANT] + Sort(Keys(inverse)), SELECT_APPLICANT);
      houseMenu := Menu([CLEAR, SELECT_HOUSE] + Sort(Keys(table)), SELECT_HOUSE);
      historyData := [[], [], []];
      timeLabel := "Day 1";
    }

    /**
     * When no house or applicant is named like a menu entry, as in
     * `HOUSE_TO_APPLICANT` (`HouseTableNoPlaceholderNames`), each full menu
     * lists every one of its entries once.
     */
    lemma FullMenusDistinct()
      requires Valid() && NoPlaceholderNames(houseToApplicant)
      ensures Distinct(FullHouseMenu().values) && Distinct(FullApplicantMenu().values)
    {
      var e := houseToApplicant;
      forall k | k in Keys(e) ensures !DashLast(k) {
        var i :| 0 <= i < |Keys(e)| && Keys(e)[i] == k;
        assert PlainNames(e[i]);
      }
      MenuValuesDistinct(SELECT_HOUSE, Keys(e));
      InvertKeys(e, CLEAR);
      forall k | k in Keys(Invert(e)) ensures !DashLast(k) {
        InvertKeys(e, k);
        var i :| 0 <= i < |e| && k in e[i].1;
        var j :| 0 <= j < |e[i].1| && e[i].1[j] == k;
        assert PlainNames(e[i]);
      }
      MenuValuesDistinct(SELECT_APPLICANT, Keys(Invert(e)));
    }

    /** `reset_dropdowns`: both menus back to their full sorted lists and placeholders. */
    method ResetDropdowns()
      requires Valid()
      modifies this
      ensures Valid()
      ensures applicantMenu == FullApplicantMenu() && houseMenu == FullHouseMenu()
      ensures timeLabel == old(timeLabel) && submissionCount == old(submissionCount) && historyData == old(historyData)
    {
      applicantMenu := applicantMenu.(values := [CLEAR, SELECT_APPLICANT] + Sort(Keys(applicantToHouse)));
      applicantMenu := applicantMenu.(selected := SELECT_APPLICANT);
      houseMenu := houseMenu.(values := [CLEAR, SELECT_HOUSE] + Sort(Keys(houseToApplicant)));
      houseMenu := houseMenu.(selected := SELECT_HOUSE);
    }

    /**
     * `on_house_selected`: "-- Clear Selection --" resets both menus; any
     * other "--" entry does nothing; a house with applicants restricts the
     * applicant menu to them and selects the first, which that house lists.
     */
    method OnHouseSelected(selected: string)
      requires Valid()
      modifies this
      ensures Valid()
      ensures timeLabel == old(timeLabel) && submissionCount == old(submissionCount) && historyData == old(historyData)
      ensures selected == CLEAR ==> applicantMenu == FullApplicantMenu() && houseMenu == FullHouseMenu()
      ensures selected != CLEAR && "--" <= selected ==>
        applicantMenu == old(applicantMenu) && houseMenu == old(houseMenu)
      ensures selected != CLEAR && !("--" <= selected) ==>
        var applicants := Get(houseToApplicant, selected);
        && houseMenu == old(houseMenu)
        && applicantMenu == if applicants == [] then old(applicantMenu) else Menu([CLEAR] + applicants, applicants[0])
      ensures !("--" <= selected) && Get(houseToApplicant, selected) != [] ==>
        selected in Get(applicantToHouse, applicantMenu.selected)
    {
      if selected == CLEAR {
        ResetDropdowns();
        return;
      }
      if "--" <= selected {
        return;
      }
      var applicants := Get(houseToApplicant, selected);
      if applicants != [] {
        applicantMenu := applicantMenu.(values := [CLEAR] + applicants);
        applicantMenu := applicantMenu.(selected := applicants[0]);
        InvertMembership(houseToApplicant, applicants[0], selected);
      }
    }

    /**
     * `on_applicant_selected`: the mirror image of `OnHouseSelected`; the
     * house selected for an applicant lists that applicant.
     */
    method OnApplicantSelected(selected: string)
      requires Valid()
      modifies this
      ensures Valid()
      ensures timeLabel == old(timeLabel) && submissionCount == old(submissionCount) && historyData == old(historyData)
      ensures selected == CLEAR ==> applicantMenu == FullApplicantMenu() && houseMenu == FullHouseMenu()
      ensures selected != CLEAR && "--" <= selected ==>
        applicantMenu == old(applicantMenu) && houseMenu == old(houseMenu)
      ensures selected != CLEAR && !("--" <= selected) ==>
        var houses := Get(applicantToHouse, selected);
        && applicantMenu == old(applicantMenu)
        && houseMenu == if houses == [] then old(houseMenu) else Menu([CLEAR] + houses, houses[0])
      ensures !("--" <= selected) && Get(applicantToHouse, selected) != [] ==>
        selected in Get(houseToApplicant, houseMenu.selected)
    {
      if selected == CLEAR {
        ResetDropdowns();
        return;
      }
      if "--" <= selected {
        return;
      }
      var houses := Get(applicantToHouse, selected);
      if houses != [] {
        houseMenu := houseMenu.(values := [CLEAR] + houses);
        houseMenu := houseMenu.(selected := houses[0]);
        InvertMembership(houseToApplicant, selected, houses[0]);
      }
    }

    /**
     * The user picks `selected` from the house menu: the option menu shows
     * the entry it offered, then calls `on_house_selected`. Except after
     * clear, the house menu keeps showing the pick, so `submit_action`
     * reads it back; a house with applicants shows its first applicant
     * beside it, and that pair is listed in the inverse table.
     */
    method ChooseHouse(selected: string)
      requires Valid() && selected in houseMenu.values
      modifies this
      ensures Valid()
      ensures timeLabel == old(timeLabel) && submissionCount == old(submissionCount) && historyData == old(historyData)
      ensures selected == CLEAR ==> applicantMenu == FullApplicantMenu() && houseMenu == FullHouseMenu()
      ensures selected != CLEAR ==> houseMenu == old(houseMenu).(selected := selected)
      ensures selected != CLEAR && "--" <= selected ==> applicantMenu == old(applicantMenu)
      ensures !("--" <= selected) ==>
        var applicants := Get(houseToApplicant, selected);
        applicantMenu == if applicants == [] then old(applicantMenu) else Menu([CLEAR] + applicants, applicants[0])
      ensures !("--" <= selected) && Get(houseToApplicant, selected) != [] ==>
        houseMenu.selected in Get(applicantToHouse, applicantMenu.selected)
    {
      houseMenu := houseMenu.(selected := selected);
      OnHouseSelected(selected);
    }

    /** The user picks `selected` from the applicant menu: the mirror image of `ChooseHouse`. */
    method ChooseApplicant(selected: string)
      requires Valid() && selected in applicantMenu.values
      modifies this
      ensures Valid()
      ensures timeLabel == old(timeLabel) && submissionCount == old(submissionCount) && historyData == old(historyData)
      ensures selected == CLEAR ==> applicantMenu == FullApplicantMenu() && houseMenu == FullHouseMenu()
      ensures selected != CLEAR ==> applicantMenu == old(applicantMenu).(selected := selected)
      ensures selected != CLEAR && "--" <= selected ==> houseMenu == old(houseMenu)
      ensures !("--" <= selected) ==>
        var houses := Get(applicantToHouse, selected);
        houseMenu == if houses == [] then old(houseMenu) else Menu([CLEAR] + houses, houses[0])
      ensures !("--" <= selected) && Get(applicantToHouse, selected) != [] ==>
        applicantMenu.selected in Get(houseToApplicant, houseMenu.selected)
    {
      applicantMenu := applicantMenu.(selected := selected);
      OnApplicantSelected(selected);
    }

    /** `update_time_label`: the label becomes the one of the value's bucket. */
    method UpdateTimeLabel(value: real)
      requires Valid()
      modifies this
      ensures Valid()
      ensures timeLabel == TimeLabel(value) && timeLabel == TIME_LABELS[TimeBucket(value)]
      ensures applicantMenu == old(applicantMenu) && houseMenu == old(houseMenu)
      ensures submissionCount == old(submissionCount) && historyData == old(historyData)
    {
      TimeLabelIsBucket(value);
      timeLabel := TimeLabel(value);
    }

    /**
     * `submit_action`, with the axis limits computed so that a graph with no
     * values does not raise: the context for the current selections goes to
     * the model; `reply` is what came back (`None` when the call raised), as
     * the numbers read from it. When it holds numbers, the submission takes
     * the next colour and every graph gains one entry.
     */
    method SubmitAction(rag: RagHelper.SimpleRag, score: RagHelper.Scorer, reply: Option<seq<real>>)
      returns (context: string)
      requires Valid()
      modifies this
      ensures Valid()
      ensures context == rag.BuildContext(Query(applicantMenu.selected, houseMenu.selected, timeLabel), 3, score)
      ensures applicantMenu == old(applicantMenu) && houseMenu == old(houseMenu) && timeLabel == old(timeLabel)
      ensures reply.Some? && reply.value != [] ==>
        && submissionCount == old(submissionCount) + 1
        && historyData == Appended(old(historyData), SplitNumbers(reply.value), ColorOf(old(submissionCount)))
      ensures reply.None? || reply.value == [] ==>
        submissionCount == old(submissionCount) && historyData == old(historyData)
    {
      var query := Query(applicantMenu.selected, houseMenu.selected, timeLabel);
      context := rag.BuildContext(query, 3, score);
      if reply.None? {
        return;
      }
      var numbers := reply.value;
      if numbers == [] {
        return;
      }
      var dataSets := SplitNumbers(numbers);
      var color := COLORS[submissionCount % |COLORS|];
      submissionCount := submissionCount + 1;
      ghost var target := Appended(historyData, dataSets, color);
      for i := 0 to 3
        invariant applicantMenu == old(applicantMenu) && houseMenu == old(houseMenu) && timeLabel == old(timeLabel)
        invariant submissionCount == old(submissionCount) + 1
        invariant |historyData| == 3
        invariant forall j :: 0 <= j < 3 ==> historyData[j] == if j < i then target[j] else old(historyData)[j]
      {
        historyData := historyData[i := historyData[i] + [Plot(dataSets[i], color)]];
      }
      assert |target| == 3;
      assert historyData == target;
    }

    /**
     * `submit_action` as written: the graph loop stops at the first graph
     * none of whose stored series holds a value, because `max(all_values)`
     * raises there and the `except` at the end swallows it.
     */
    method SubmitActionAsWritten(rag: RagHelper.SimpleRag, score: RagHelper.Scorer, reply: Option<seq<real>>)
      returns (context: string)
      requires Valid()
      modifies this
      ensures Valid()
      ensures context == rag.BuildContext(Query(applicantMenu.selected, houseMenu.selected, timeLabel), 3, score)
      ensures applicantMenu == old(applicantMenu) && houseMenu == old(houseMenu) && timeLabel == old(timeLabel)
      ensures reply.Some? && reply.value != [] ==>
        && submissionCount == old(submissionCount) + 1
        && historyData == HistoryAsWritten(old(historyData), SplitNumbers(reply.value), ColorOf(old(submissionCount)))
      ensures reply.None? || reply.value == [] ==>
        submissionCount == old(submissionCount) && historyData == old(historyData)
    {
      var query := Query(applicantMenu.selected, houseMenu.selected, timeLabel);
      context := rag.BuildContext(query, 3, score);
      if reply.None? {
        return;
      }
      var numbers := reply.value;
      if numbers == [] {
        return;
      }
      var dataSets := SplitNumbers(numbers);
      var color := COLORS[submissionCount % |COLORS|];
      submissionCount := submissionCount + 1;
      ghost var target := HistoryAsWritten(old(historyData), dataSets, color);
      var i := 0;
      while i < 3
        invariant 0 <= i <= 3 && |historyData| == 3
        invariant applicantMenu == old(applicantMenu) && houseMenu == old(houseMenu) && timeLabel == old(timeLabel)
        invariant submissionCount == old(submissionCount) + 1
        invariant HistoryStepsAsWritten(historyData, dataSets, color, i) == target
      {
        ghost var before := historyData;
        historyData := historyData[i := historyData[i] + [Plot(dataSets[i], color)]];
        if NoValues(historyData[i]) {
          assert historyData == target;
          break;
        }
        assert HistoryStepsAsWritten(before, dataSets, color, i) == HistoryStepsAsWritten(historyData, dataSets, color, i + 1);
        i := i + 1;
      }
      assert historyData == target;
    }
  }

  /**
   * A pick reaches the query `submit_action` builds: on a one-house table,
   * picking the house and then submitting queries that house together with
   * the applicant its handler selected.
   */
  method PickHouseThenSubmit(rag: RagHelper.SimpleRag, score: RagHelper.Scorer, reply: Option<seq<real>>)
    returns (context: string)
    ensures context == rag.BuildContext(Query("A", "H", "Day 1"), 3, score)
  {
    var table: Dict := [("H", ["A"])];
    assert Keys(table) == ["H"];
    var app := new HousePredictionApp(table);
    assert Sort(["H"]) == ["H"];
    assert "H" in app.houseMenu.values;
    app.ChooseHouse("H");
    assert Get(table, "H") == ["A"];
    context := app.SubmitAction(rag, score, reply);
  }
}
