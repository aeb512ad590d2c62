/** The overview page: a search box with its own example list and submit
    rule, a pie of the first languages and a bar chart of the first weeks of
    commit activity. */
module Overview {
  import opened Wrappers
  import Text
  import Identifier
  import SearchBox
  import CommitActivity
  import Languages
  import Seqs
  import AnalysisPages

  /** The page's `SUGGESTIONS`. */
  const Examples: seq<string> := [
    "abuzar-ali1/dummy-shop", "facebook/react", "vercel/next.js", "tailwindlabs/tailwindcss",
    "shadcn-ui/ui", "microsoft/TypeScript"]

  /** `repoInput`, `repoPath`, `showSuggestions`. */
  datatype OverviewState = OverviewState(repoInput: string, repoPath: string, showSuggestions: bool)

  const Initial: OverviewState := OverviewState("facebook/react", "facebook/react", false)

  /** `handleSearch`: the typed text becomes the repository when it has a
      slash; the input itself is never touched. */
  function HandleSearch(st: OverviewState): (next: OverviewState)
    ensures next.repoInput == st.repoInput
    ensures Identifier.HasSlash(st.repoInput) ==> next.repoPath == st.repoInput && !next.showSuggestions
    ensures !Identifier.HasSlash(st.repoInput) ==> next == st
  {
    if Identifier.HasSlash(st.repoInput) then st.(repoPath := st.repoInput, showSuggestions := false) else st
  }

  /** `handleSuggestionClick(repo)`: no slash test at all. */
  function HandleSuggestionClick(st: OverviewState, repo: string): (next: OverviewState)
    ensures next.repoInput == next.repoPath == repo && !next.showSuggestions
  {
    OverviewState(repo, repo, false)
  }

  /** A click and a search agree on a repository with a slash: searching right
      after the click changes nothing. Without a slash the click still sets
      the path, which a search would refuse. */
  lemma {:induction false} ClickThenSearch(st: OverviewState, repo: string)
    ensures Identifier.HasSlash(repo) ==> HandleSearch(HandleSuggestionClick(st, repo)) == HandleSuggestionClick(st, repo)
    ensures !Identifier.HasSlash(repo) ==>
      HandleSuggestionClick(st, repo).repoPath == repo && HandleSearch(st.(repoInput := repo)).repoPath == st.repoPath
  {
  }

  /** Every example the page offers is accepted by the hooks' guard, so the
      missing slash test in the click handler never lets a bad path through. */
  lemma {:induction false} ExamplesAccepted(st: OverviewState, i: int)
    requires 0 <= i < |Examples|
    ensures Identifier.Parse(HandleSuggestionClick(st, Examples[i]).repoPath).Some?
  {
    var j := [2, 0, 3, 4, 1, 5][i];
    assert Examples[i] == AnalysisPages.FrequencyExamples[j];
    AnalysisPages.KnownRepoAccepted(j);
  }

  /** `filteredSuggestions`. */
  function Filtered(st: OverviewState): seq<string> {
    SearchBox.FilterSuggestions(Examples, st.repoInput)
  }

  /** The dropdown opens on `showSuggestions` alone; inside it "Press Enter
      to search..." is shown when no example matches. */
  predicate PressEnterShown(st: OverviewState) {
    st.showSuggestions && Filtered(st) == []
  }

  /** The hint shows exactly when the dropdown is open and no example
      contains the typed text; in particular never for an empty input. */
  lemma {:induction false} PressEnterIff(st: OverviewState)
    ensures PressEnterShown(st) <==>
      st.showSuggestions && forall i :: 0 <= i < |Examples| ==> !SearchBox.Matches(Examples[i], st.repoInput)
    ensures st.repoInput == "" ==> !PressEnterShown(st)
  {
    SearchBox.EmptyIffNoMatch(Examples, st.repoInput);
    if st.repoInput == "" {
      SearchBox.EmptyInputKeepsAll(Examples);
    }
  }

  /** One slice of the language pie: `{ name, value: Number(value) }`. */
  datatype PieSlice = PieSlice(name: string, value: nat)

  /** `pieData`: the first five entries of the language map in its own order,
      with their raw byte counts; nothing while the map is missing. */
  function PieData(languages: Option<seq<Languages.RawEntry>>): (r: seq<PieSlice>)
    ensures languages.None? ==> r == []
    ensures languages.Some? ==> |r| == Seqs.Min(5, |languages.value|)
    ensures languages.Some? ==>
      forall i :: 0 <= i < |r| ==> r[i] == PieSlice(languages.value[i].name, languages.value[i].bytes)
  {
    match languages
    case None => []
    case Some(entries) =>
      seq(Seqs.Min(5, |entries|), i requires 0 <= i < Seqs.Min(5, |entries|) => PieSlice(entries[i].name, entries[i].bytes))
  }

  /** The pie is not sorted: a sixth language larger than all the others is
      left out of it. */
  lemma {:induction false} PieNotLargest()
    ensures var entries := [Languages.RawEntry("A", 1), Languages.RawEntry("B", 1), Languages.RawEntry("C", 1),
                            Languages.RawEntry("D", 1), Languages.RawEntry("E", 1), Languages.RawEntry("F", 100)];
      forall k :: 0 <= k < |PieData(Some(entries))| ==> PieData(Some(entries))[k].name != "F"
  {
  }

  /** One bar of the commit chart. */
  datatype DayBar = DayBar(name: string, commits: nat)

  /** `` `Day ${i + 1}` ``. */
  function DayLabel(i: nat): string {
    "Day " + Text.NatToString(i + 1)
  }

  /** One `Math.floor(Math.random() * 50)`: a whole number from 0 to 49. */
  type Draw = x: nat | x < 50

  /** `chartData`: one bar per week for the first seven weeks, labelled
      "Day 1" onwards. A week whose total is 0 shows a random count instead,
      given here by `noise` (the draw for bar `i`); nothing while the data is
      missing. */
  function ChartData(weeks: Option<seq<CommitActivity.ActivityWeek>>, noise: nat -> Draw): (r: seq<DayBar>)
    ensures weeks.None? ==> r == []
    ensures weeks.Some? ==> |r| == Seqs.Min(7, |weeks.value|)
    ensures weeks.Some? ==> forall i :: 0 <= i < |r| ==> r[i].name == DayLabel(i)
    ensures weeks.Some? ==> forall i :: 0 <= i < |r| && weeks.value[i].total != 0 ==> r[i].commits == weeks.value[i].total
    ensures weeks.Some? ==> forall i :: 0 <= i < |r| && weeks.value[i].total == 0 ==> r[i].commits < 50
  {
    match weeks
    case None => []
    case Some(ws) =>
      seq(Seqs.Min(7, |ws|), i requires 0 <= i < Seqs.Min(7, |ws|) =>
        DayBar(DayLabel(i), if ws[i].total != 0 then ws[i].total else noise(i)))
  }

  /** Each bar's label reads back as its position counted from one. */
  lemma {:induction false} DayLabelRoundTrip(i: nat)
    ensures DayLabel(i)[..4] == "Day "
    ensures Text.IsDigits(DayLabel(i)[4..]) && Text.ParseNat(DayLabel(i)[4..]) == i + 1
  {
    assert DayLabel(i)[4..] == Text.NatToString(i + 1);
    Text.ParsePrinted(i + 1);
  }

  /** Only zero weeks depend on the random draw: two draws give charts that
      differ only at weeks with a zero total. */
  lemma {:induction false} NoiseOnlyOnZeroWeeks(ws: seq<CommitActivity.ActivityWeek>, n1: nat -> Draw, n2: nat -> Draw, i: int)
    requires 0 <= i < |ChartData(Some(ws), n1)|
    requires ChartData(Some(ws), n1)[i] != ChartData(Some(ws), n2)[i]
    ensures ws[i].total == 0
  {
  }
}
