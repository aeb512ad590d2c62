# Git-Insights in Dafny

Git-Insights is a Next.js dashboard over the GitHub REST API. Every page has
a search box for an `owner/repo` identifier, and each page has a data hook.
The hook fetches one endpoint and reshapes the decoded JSON into what the
page draws:

- a 7×24 punch card of commit times;
- the open / merged / closed split of pull requests;
- a language breakdown;
- a contributor star graph;
- weekly code frequency;
- weekly commit activity.

This project models those reshaping steps, together with the rules the pages
use to accept input and offer suggestions:

- the identifier guard the hooks share;
- the repository-list filter and sort;
- the default-repository preference kept in browser storage;
- the suggestion filter and submit handlers of the pages.

Each hook is a pure function, or a method where a loop is the natural
reading. It takes the hook's previous state, the identifier, and the settled
request, and returns the hook's final `{data, error, isLoading}` record.

The settled request is an `Http.Outcome`, which is one of:

- a rejected `fetch`;
- a response with a status and a body.

The body either decoded to a value, or made `response.json()` throw.
`Http.Shape` adds the "is it an array" distinction where the hook checks
for one. Each page handler is a state transition whose contract states
which parts of the state change and which do not.

Modules follow the source files:

| module | source |
|---|---|
| `Identifier` | the `repoPath.split('/')` guard |
| `Commits` | `hooks/useCommits.ts` |
| `PunchCardView` | `app/Components/CommitPunchCard.tsx` |
| `PullRequests` | `hooks/usePullRequests.ts` |
| `Languages` | `hooks/useLanguages.ts` |
| `Network` | `hooks/useNetwork.ts` |
| `CodeFrequency` | `hooks/useCodeFrequency.ts` |
| `CommitActivity` | `hooks/useGitHubCommits.ts` |
| `Repositories` | `hooks/useRepositories.ts` |
| `Settings` | `Context/SettingsContext.tsx` |
| `SearchBox` | the search box shared by the five analysis pages |
| `AnalysisPages` | the frequency, commits, languages, pull-request and network pages |
| `Overview` | `app/overview/page.tsx` |
| `Dashboard` | `app/dashboard/page.tsx` |

`Wrappers`, `Seqs` and `Text` hold the JavaScript built-ins the code leans on:

- `Array.prototype.filter`, `reverse` and `sort` with a descending comparator;
- `reduce` sums;
- `toLowerCase`, `includes` and `split('/')`;
- decimal printing.

Two statuses get special treatment:

- 202 Accepted, from section 15.3.3 of RFC 9110, is the "statistics still
  being computed" reply;
- 422 Unprocessable Content, from section 15.5.21 of RFC 9110, is GitHub's
  "too large to compute" reply.

## Model

| member | source | states |
|---|---|---|
| Text.Lower | hooks/useRepositories.ts:41 | `toLowerCase` keeps the length and maps each character on its own |
| Text.LowerIdempotent | hooks/useRepositories.ts:41 | lower-casing twice is lower-casing once, so a lowered search matches like the original |
| Text.IncludesIffOccurs | hooks/useRepositories.ts:41 | `includes` is true exactly when the needle occurs at some position of the haystack |
| Text.IncludesEmpty | app/frequency/page.tsx:55-57 | every string includes the empty string, which is why an empty input lists every example |
| Text.IncludesChar | app/frequency/page.tsx:46 | `includes('/')` holds exactly when the string contains a slash |
| Text.IndexOf | hooks/useCommits.ts:23 | the position of the first separator: it holds the separator and nothing before it does |
| Text.Split | hooks/useCommits.ts:23 | `split('/')` returns at least one piece and no piece contains the separator |
| Text.JoinSplit | hooks/useCommits.ts:23 | joining the pieces of `split` with the separator gives back the string |
| Text.SplitAfterFreePrefix | hooks/useCommits.ts:23 | a separator-free prefix followed by the separator is split off as the first piece |
| Text.SplitJoin | hooks/useCommits.ts:23 | splitting the join of separator-free pieces gives back the pieces |
| Text.NatToString | app/Components/CommitPunchCard.tsx:28 | a number prints as decimal digits, one digit exactly when it is below ten |
| Text.ParsePrinted | app/Components/CommitPunchCard.tsx:28 | the printed decimal reads back as the number |
| Text.PrintParsed | app/Components/CommitPunchCard.tsx:28 | a digit string without a leading zero is how its number prints |
| Seqs.Filter | hooks/useRepositories.ts:40-49 | `filter` keeps exactly the elements that pass, from the input, and no more copies than the input holds |
| Seqs.FilterSubsequence | app/frequency/page.tsx:55-57 | a filter keeps the input order of what it keeps |
| Seqs.FilterAppend | hooks/usePullRequests.ts:40-60 | filtering one more element appends it exactly when it passes |
| Seqs.FilterFilter | hooks/useRepositories.ts:39-50 | two filters in a row are one filter by the conjunction of the tests |
| Seqs.FilterKeepsAll | hooks/useRepositories.ts:39 | a filter every element passes returns the input unchanged |
| Seqs.FilterCongruent | hooks/useRepositories.ts:40-42 | tests that agree on every element filter alike |
| Seqs.FilterSplit | hooks/useRepositories.ts:47-48 | a test and its negation split a sequence: the two lengths add up to the whole |
| Seqs.Reverse | hooks/usePullRequests.ts:71 | `reverse` keeps the length and puts element `i` at position `n-1-i` |
| Seqs.InsertDesc | hooks/useLanguages.ts:76 | inserting into a non-increasing sequence keeps it non-increasing and adds exactly the new element |
| Seqs.SortDesc | hooks/useLanguages.ts:76 | the descending `sort` returns a permutation of its input in non-increasing key order |
| Seqs.SortDescKeeps | hooks/useRepositories.ts:53-56 | sorting loses no element |
| Seqs.SortDescFrom | hooks/useRepositories.ts:53-56 | sorting adds no element |
| Seqs.SumIncrement | hooks/useCommits.ts:46 | adding one to one counter adds one to the total |
| Seqs.SumOfSort | hooks/useLanguages.ts:76 | sorting does not change a sum over the elements |
| Identifier.Parse | hooks/useCommits.ts:23-24 | an accepted identifier has a non-empty, slash-free owner and name |
| Identifier.SplitPieces | hooks/useCommits.ts:23 | with a slash, the first piece is the text before the first slash and there is a second piece |
| Identifier.ParseIffWellFormed | hooks/useCommits.ts:23-24 | the guard accepts exactly the paths with a non-empty run before the first slash and a non-slash character right after it |
| Identifier.ParseSound | hooks/useCommits.ts:23-24 | an accepted path reads `owner/name`, then nothing or further `/`-pieces that are ignored |
| Identifier.ParseFormatted | hooks/useCommits.ts:23-24 | `owner/name` followed by anything that starts with a slash parses back to exactly that owner and name |
| Identifier.GuardStrongerThanSlashCheck | app/frequency/page.tsx:46 | whatever the guard accepts has a slash, but `"a/"` passes the pages' slash test and fails the guard |
| Identifier.ExtraPiecesIgnored | hooks/useCommits.ts:23 | `"a/b/c"` is read as owner `a`, repository `b` |
| Commits.Tally | hooks/useCommits.ts:39-47 | the `counts` record holds the number of samples at each slot that has any, and no other slot |
| Commits.BuildGrid | hooks/useCommits.ts:50-60 | the grid has 168 cells, cell `i` is day `i/24`, hour `i%24`, and holds the samples at that slot, zero when none |
| Commits.EachSlotOnce | hooks/useCommits.ts:51-58 | each (day, hour) of the week appears in exactly one cell, at index `24·day + hour` |
| Commits.TalliesStep | hooks/useCommits.ts:41-46 | one more sample adds one to its own slot only, or nothing when it is off the grid |
| Commits.TalliesSum | hooks/useCommits.ts:41-57 | the grid's counts add up to the number of samples that fall on the grid |
| Commits.GridSum | hooks/useCommits.ts:41-57 | the punch card's counts add up to the samples on the grid, so to all of them when every date is valid |
| Commits.AllInGridCount | hooks/useCommits.ts:43-44 | when every sample's day and hour are in range, every sample is counted |
| Commits.SingleSlot | hooks/useCommits.ts:41-46 | samples all at one slot put their whole number there and nothing at any other slot |
| Commits.FetchCommits | hooks/useCommits.ts:17-68 | a refused identifier, rejected request, failed status or undecodable body ends not loading with an empty grid and the matching message; a delivered list gives no error, `totalCommits` equal to its length and its punch card |
| PunchCardView.FormatHour | app/Components/CommitPunchCard.tsx:25-29 | 0 is `12am`, 12 is `12pm`, 1..11 print with `am` and 13 on print less twelve with `pm` |
| PunchCardView.FormatHourRoundTrip | app/Components/CommitPunchCard.tsx:25-29 | every hour 0..23 reads back from its 12-hour label, so no two hours share a label |
| PunchCardView.ParseHourFormats | app/Components/CommitPunchCard.tsx:25-29 | every label the reader accepts is the label of the hour it reads, so `0am` and `13pm` are not labels |
| PunchCardView.TooltipTitle | app/Components/CommitPunchCard.tsx:40 | the tooltip heading starts with the day's name and " at " and ends in `am` before noon and `pm` from noon on |
| PunchCardView.TooltipReadsBack | app/Components/CommitPunchCard.tsx:40 | the hour after " at " in the tooltip heading reads back as the cell's hour |
| PunchCardView.CountWord | app/Components/CommitPunchCard.tsx:43 | the tooltip says `commit` exactly when the count is one, and `commits` otherwise |
| PunchCardView.Plotted | app/Components/CommitPunchCard.tsx:122 | the dots drawn are exactly the cells with a positive count, in grid order |
| PunchCardView.PlottedKeepsSum | app/Components/CommitPunchCard.tsx:122 | hiding the empty cells loses no commit: the drawn counts add up to the grid's total |
| PunchCardView.DayLabels | app/Components/CommitPunchCard.tsx:24 | the day index of every grid cell names a day in `DAYS`, Sunday for the first 24 cells |
| PullRequests.BucketOf | hooks/usePullRequests.ts:41-59 | a pull request is open iff its state is `open`, merged iff closed with a merge time, and closed otherwise |
| PullRequests.Members | hooks/usePullRequests.ts:40-60 | each pull request counted in a bucket belongs to it |
| PullRequests.BucketsPartition | hooks/usePullRequests.ts:33-60 | the three buckets together hold every pull request once |
| PullRequests.CountIsMembers | hooks/usePullRequests.ts:42-58 | a bucket's counter equals the number of pull requests in it |
| PullRequests.CountsAddUp | hooks/usePullRequests.ts:33-60 | open + merged + closed is the number fetched |
| PullRequests.MembersStep | hooks/usePullRequests.ts:40-60 | the next pull request joins exactly its own bucket |
| PullRequests.PointsOfMerged | hooks/usePullRequests.ts:43-55 | there is one scatter point per merged pull request, in input order, and none for the others |
| PullRequests.Summarize | hooks/usePullRequests.ts:33-72 | the pie carries Merged, Open, Closed with their counts; the scatter is the merged points reversed; the average is 0 without merges and the mean duration otherwise |
| PullRequests.FetchPRs | hooks/usePullRequests.ts:16-80 | every failure ends not loading with no data and a message; a delivered list gives the pie, the reversed scatter and the mean merge time of that list, 0 when nothing was merged |
| Languages.Lookup | hooks/useLanguages.ts:6-25 | a name has a colour exactly when the table lists it, and the colour is the listed one |
| Languages.ColorOf | hooks/useLanguages.ts:71 | the table's colour when there is one, the grey fallback otherwise |
| Languages.OtherIsFallback | hooks/useLanguages.ts:6-25 | an unlisted name gets `#6e7681` while a listed one keeps its own colour |
| Languages.QuotientBounds | hooks/useLanguages.ts:70 | the integer quotient used for rounding lies within one of the exact quotient |
| Languages.TenthsRounds | hooks/useLanguages.ts:70 | a language's share in tenths of a percent is the exact share rounded half up |
| Languages.TenthsMonotone | hooks/useLanguages.ts:70 | more bytes never give a smaller rounded share |
| Languages.Stats | hooks/useLanguages.ts:66-73 | one stat per raw language, in order, keeping its name and byte count |
| Languages.Breakdown | hooks/useLanguages.ts:58-76 | empty when the total is zero; otherwise a permutation of the per-language stats in non-increasing share order |
| Languages.StatsSum | hooks/useLanguages.ts:66-73 | the rounded shares in tenths add up to a thousand times the exact sum, give or take half a tenth per language |
| Languages.BreakdownSum | hooks/useLanguages.ts:58-76 | the sorted percentages add up to 100 within 0.05 per language: twice their sum in tenths lies between 2000 - n and 2000 + n for n languages |
| Languages.BreakdownEntry | hooks/useLanguages.ts:66-76 | every entry of the breakdown comes from one raw language |
| Languages.BreakdownHas | hooks/useLanguages.ts:66-76 | every raw language has its entry in the breakdown |
| Languages.FetchLanguages | hooks/useLanguages.ts:40-86 | every failure and the zero total leave the data empty and keep the previous top language; success gives the sorted breakdown, whose first and largest entry is the top language |
| Network.NodeOf | hooks/useNetwork.ts:35-40 | a contributor's node is named by its login and is not the centre |
| Network.SpokeTo | hooks/useNetwork.ts:42-45 | a contributor's link runs from `Repository` to its login |
| Network.BuildGraph | hooks/useNetwork.ts:28-46 | the graph is the centre then one node per contributor in order, with one link per contributor from the centre |
| Network.OneCenter | hooks/useNetwork.ts:28-40 | node 0 is the only centre node |
| Network.SpokesOnly | hooks/useNetwork.ts:42-45 | every link starts at the centre and ends at a contributor node |
| Network.EveryContributorLinked | hooks/useNetwork.ts:42-45 | every contributor is linked to the centre |
| Network.SizeMonotone | hooks/useNetwork.ts:37 | the node weight `2·sqrt(contributions)` never shrinks as contributions grow |
| Network.FetchNetwork | hooks/useNetwork.ts:10-55 | the graph is cleared first and stays empty on every failure, each with its message; a delivered list gives its star graph |
| CodeFrequency.Abs | hooks/useCodeFrequency.ts:41 | `Math.abs` returns the value or its negation, never negative |
| CodeFrequency.PointOf | hooks/useCodeFrequency.ts:34-42 | a week's point carries the locale date of its timestamp and its additions, and drops the sign of its deletions |
| CodeFrequency.PointRoundTrip | hooks/useCodeFrequency.ts:34-42 | for a week with non-positive deletions, as GitHub sends them, the point's additions and deletions give back the week's |
| CodeFrequency.SignDropped | hooks/useCodeFrequency.ts:41 | the sign of the deletions is not recoverable from the point |
| CodeFrequency.Points | hooks/useCodeFrequency.ts:33-42 | one point per week, in order |
| CodeFrequency.PointsRoundTrip | hooks/useCodeFrequency.ts:33-42 | each point of well-signed weeks gives back its week's additions and deletions |
| CodeFrequency.FetchFrequency | hooks/useCodeFrequency.ts:10-51 | 422 gives the "too large" message and other failed statuses the "not found" one; an ok body that is not an array gives no data and no error; an array gives its points |
| CodeFrequency.TooLargeWins | hooks/useCodeFrequency.ts:23-29 | 422 is a failed status, yet its own message wins over the generic one |
| CommitActivity.Target | hooks/useGitHubCommits.ts:6-8 | a request is made exactly for a non-empty path with a slash, for its first two pieces, either of which may be empty |
| CommitActivity.FetchActivity | hooks/useGitHubCommits.ts:4-43 | no request without a slash; anything other than a 2xx, non-202, array reply yields `[]`; an array reply is returned as is |
| CommitActivity.EmptyIff | hooks/useGitHubCommits.ts:6-37 | the result is empty exactly when no request is made, the reply serves no array, or the array is empty |
| CommitActivity.FailuresLookAlike | hooks/useGitHubCommits.ts:21-35 | a failed status and an ok non-array body give the same `[]` |
| CommitActivity.RangeIgnored | hooks/useGitHubCommits.ts:4-48 | the `range` in the query key does not change the result |
| CommitActivity.WeakerThanGuard | hooks/useGitHubCommits.ts:6-8 | `"a/"` is requested with an empty repository name although the hooks' guard refuses it |
| Repositories.FilteredRepos | hooks/useRepositories.ts:37-59 | the list holds exactly the repositories that pass the search and type filters, no more copies than the data, in non-increasing order of the sort key |
| Repositories.SelectionIsFilter | hooks/useRepositories.ts:39-51 | the search filter then the type filter is one filter by their conjunction |
| Repositories.SelectedPermutation | hooks/useRepositories.ts:37-59 | the result is a permutation of the selected repositories |
| Repositories.NothingFilteredByDefault | hooks/useRepositories.ts:33-35 | with the initial empty search and type `all`, the result is a permutation of all the data |
| Repositories.PublicPrivateSplit | hooks/useRepositories.ts:47-48 | the public and the private lists together hold every repository the search keeps |
| Repositories.KeepsFilteredCount | hooks/useRepositories.ts:53-56 | sorting keeps the length of the filtered list |
| Repositories.SearchIgnoresCase | hooks/useRepositories.ts:41 | the search's case does not matter |
| Settings.Initial | Context/SettingsContext.tsx:22-25 | the provider starts on `facebook/react` with no rate reading and the environment's token, or none |
| Settings.CheckLimits | Context/SettingsContext.tsx:37-53 | a decoded `rate` object becomes the reading whatever the status; a network error, a malformed body or a body without `rate` leaves the reading as it was, and no other field changes |
| Settings.Saved | Context/SettingsContext.tsx:29-30 | a stored preference is used exactly when it is present and non-empty |
| Settings.Load | Context/SettingsContext.tsx:28-34 | loading takes the stored preference over the current one and reads limits only with a token |
| Settings.SaveDefaultRepo | Context/SettingsContext.tsx:56-61 | a repository with a slash becomes the preference and is stored under `gh_default_repo`, other keys untouched; without a slash nothing changes |
| Settings.SaveThenLoad | Context/SettingsContext.tsx:28-61 | a saved repository is the one loaded on the next start |
| Settings.SaveTwice | Context/SettingsContext.tsx:56-61 | saving the same repository twice is saving it once |
| Settings.LoadSkipsSlashCheck | Context/SettingsContext.tsx:29-30 | a stored value without a slash is still loaded |
| Settings.StatusIgnored | Context/SettingsContext.tsx:42-49 | a 403 reply carrying a `rate` object still sets the reading |
| Settings.NoTokenNoReading | Context/SettingsContext.tsx:33 | without a token no reading is ever taken |
| SearchBox.FilterSuggestions | app/frequency/page.tsx:55-57 | the suggestions shown are exactly the examples containing the input, ignoring case, in list order |
| SearchBox.EmptyInputKeepsAll | app/commits/page.tsx:49-51 | an empty input lists every example |
| SearchBox.FilterIgnoresCase | app/prs/page.tsx:52-54 | the input's case does not matter |
| SearchBox.EmptyIffNoMatch | app/network/page.tsx:49-51 | the list is empty exactly when no example matches |
| SearchBox.VisibleIffMatches | app/frequency/page.tsx:97 | with examples to offer, the dropdown shows exactly when it is open and something matches |
| SearchBox.Start | app/frequency/page.tsx:20-22 | a page starts with the same repository in the input and as the active one, dropdown closed |
| SearchBox.HandleSubmit | app/frequency/page.tsx:40-52 | a target is the clicked example or the input; with a slash it becomes input and active repository, the list closes and it is fetched; without one nothing changes or is fetched |
| SearchBox.ResubmitStable | app/commits/page.tsx:37-47 | submitting the form again after an accepted submit changes nothing and fetches the same repository |
| SearchBox.Step | app/frequency/page.tsx:31-35 | only a submit fetches, always a repository with a slash, and only a submit changes the active repository |
| SearchBox.RunKeepsSlash | app/languages/page.tsx:37-47 | across any session the active repository and every fetched repository keep a slash |
| SearchBox.RefusedSubmitsInert | app/network/page.tsx:37-47 | a session of slash-free submits fetches nothing and changes nothing |
| AnalysisPages.Accepts | hooks/useCommits.ts:23-24 | `owner/name` with non-empty, slash-free parts passes both the slash test and the guard |
| AnalysisPages.KnownRepoAccepted | app/frequency/page.tsx:10-17 | each of the frequency page's examples passes both checks |
| AnalysisPages.ExamplesAccepted | app/commits/page.tsx:9-20 | every page's examples and start repository pass both checks |
| AnalysisPages.CommonExampleAccepted | app/prs/page.tsx:9-15 | each example of the other pages passes both checks |
| AnalysisPages.PickedExampleFetches | app/network/page.tsx:37-47 | clicking an example always selects and fetches it |
| AnalysisPages.NoMatchesNeverShown | app/frequency/page.tsx:97-120 | the dropdown only opens with matches to list, so "No matches found" is never shown |
| AnalysisPages.SubmitFrequency | app/frequency/page.tsx:40-52 | a slash-free submit changes nothing; one with a slash puts the target in the input and the active repository, closes the dropdown, and leaves the hook in the state its fetch of that target settles to |
| AnalysisPages.SlashTestTooWeak | app/frequency/page.tsx:46 | `"a/"` is selected by the page and answered by the hook with "Invalid format. Use 'owner/repo'" |
| AnalysisPages.SubmitCommits | app/commits/page.tsx:37-47 | a slash-free submit changes nothing; one with a slash puts the target in the input and the active repository and closes the dropdown; a refused identifier hides the total; a delivered list shows its length as the total and its punch-card grid |
| AnalysisPages.SubmitLanguages | app/languages/page.tsx:37-47 | a slash-free submit changes nothing; one with a slash puts the target in the input and the active repository, closes the dropdown, and leaves the hook in the state its fetch of that target settles to |
| AnalysisPages.PrimaryAfterSuccess | app/languages/page.tsx:66 | after a successful fetch with a non-zero total the primary line shows the largest language |
| AnalysisPages.PrimaryOutlivesError | app/languages/page.tsx:66 | after a failed fetch the previous primary language is still shown under the new repository's name |
| AnalysisPages.SubmitPulls | app/prs/page.tsx:40-50 | a slash-free submit changes nothing; a refused identifier gives "Invalid format"; a delivered list gives one scatter point per merged pull request |
| AnalysisPages.SubmitNetwork | app/network/page.tsx:37-47 | a slash-free submit changes nothing; a refused identifier gives the empty graph with "Invalid format"; a delivered list gives its star graph |
| Overview.HandleSearch | app/overview/page.tsx:47-53 | with a slash the input becomes the path and the list closes; without one nothing changes |
| Overview.HandleSuggestionClick | app/overview/page.tsx:56-60 | a click sets input and path to the example and closes the list, with no slash test |
| Overview.ClickThenSearch | app/overview/page.tsx:47-60 | click and search agree on a repository with a slash; without one only the click sets the path |
| Overview.ExamplesAccepted | app/overview/page.tsx:15-22 | every example passes the guard, so the click's missing slash test lets nothing bad through |
| Overview.PressEnterIff | app/overview/page.tsx:83-146 | "Press Enter to search..." shows exactly when the list is open and no example matches, never for an empty input |
| Overview.PieData | app/overview/page.tsx:67-70 | the first five languages in map order with their raw byte counts, none without data |
| Overview.PieNotLargest | app/overview/page.tsx:67-70 | the pie is not sorted: a sixth language larger than the rest is left out |
| Overview.ChartData | app/overview/page.tsx:62-65 | at most seven bars labelled by position from one, each week's own total where it is non-zero and a draw below 50 where it is zero |
| Overview.DayLabelRoundTrip | app/overview/page.tsx:63 | each bar's label reads back as its position counted from one |
| Overview.NoiseOnlyOnZeroWeeks | app/overview/page.tsx:64 | two random draws give charts that differ only at weeks with a zero total |
| Dashboard.HandleRepoSubmit | app/dashboard/page.tsx:113-118 | with a slash the input becomes the path; without one nothing changes |
| Dashboard.SubmitIdempotent | app/dashboard/page.tsx:113-118 | submitting twice is submitting once, and a path with a slash keeps one |
| Dashboard.FormatSize | app/dashboard/page.tsx:48-54 | kilobytes as given below 1024, megabytes below 1024², gigabytes from there on |
| Dashboard.FormatSizeRounds | app/dashboard/page.tsx:50-53 | the megabytes or gigabytes shown are the exact size rounded to the nearest tenth |
| Dashboard.MegabyteTop | app/dashboard/page.tsx:51 | one kilobyte short of a gigabyte is labelled "1024.0 MB" |
| Dashboard.TransformLanguages | app/dashboard/page.tsx:57-68 | the first five languages in map order with name and bytes, `NaN` for all of them exactly when the total is zero |
| Dashboard.PercentRounds | app/dashboard/page.tsx:65 | a percentage is the exact share rounded to the nearest whole number, at most 100 for a part of the total |
| Dashboard.SlicesAtMost100 | app/dashboard/page.tsx:58-65 | with a non-zero total every slice is a number from 0 to 100: its language's share of the total over all languages, rounded to the nearest whole percent |
| Dashboard.SharesOfAll | app/dashboard/page.tsx:61-65 | the denominator is the total over all languages: six equal languages show five slices of 17% |
| Dashboard.ZeroTotalGivesNaN | app/dashboard/page.tsx:58-65 | a map whose counts are all zero gives `NaN` slices, not an empty pie |

## Left out

- Network I/O and JSON decoding: `fetch`, headers, tokens in URLs and `response.json()` are replaced by the abstract `Http.Outcome` a request settles with.
- react-query caching, retries, `staleTime` and key de-duplication are library behaviour, not modelled.
- `localStorage` is a map from key to string; `process.env` is an optional string.
- Timers, animation, charts and the canvas graph are presentation only.
- Dates and timezones: a commit's day and hour, the timestamps of a pull request and `Repository.updatedAt` (for `new Date(updated_at).getTime()`) are integer inputs instead of `new Date(...)` in the local timezone.
- CodeFrequency.PointOf: the locale's `toLocaleDateString` label is the `dateOf` parameter; the point keeps only that label, so the round trips take the timestamp from the week and recover the additions and deletions.
- The pages' mount-time `useEffect` that fetches the start repository (for example `facebook/react` on the commits page) is not modelled; it is the hook's fetch with a fixed identifier. The submit button's `disabled={isLoading}` is presentation and is not modelled.
- Commits.FetchCommits: a sample with an invalid date gives a `NaN` key in the source; it is modelled as a slot off the grid, counted in `totalCommits` and in no cell.
- Languages.Breakdown: `parseFloat(x.toFixed(1))` is modelled as exact rounding half up to tenths; binary floating-point ties that `toFixed` rounds down are not modelled. The percentages add up to 100 only within 0.05 per language, which is all rounding promises.
- Dashboard.FormatSize: megabytes and gigabytes are held as whole tenths rather than the `toFixed(1)` text; the `" KB"`/`" MB"`/`" GB"` suffixes are the datatype's constructors.
- Dashboard.PercentRounds: `Math.round` on a float share is modelled as exact rounding half up; float error near a tie is not modelled.
- Network.SizeMonotone: `Math.sqrt` is kept symbolic, as any non-negative value whose square is four times the contributions; the value itself is not computed.
- PullRequests.Summarize: the average is the exact real mean rather than its `toFixed(1)` text, and a scatter point's `toLocaleDateString` label is left out, and a scatter point's duration is the exact hours, not rounded to one decimal.
- Seqs.SortDesc: the sort is a stable insertion sort, but stability is not stated as a separate property.
- Text.Lower: lower-casing covers ASCII letters only.
- Overview.ChartData: `Math.random` is the `noise` parameter; each draw is a whole number from 0 to 49, as `Math.floor(Math.random() * 50)` gives, but which one is not modelled.
- The dashboard's `transformCommitsForChart`, with its mock data, and `calculateChange` produce random or fixed mock numbers and float text.
- Hooks without an array check (commits, pull requests, languages, network) take a decoded ok body to have the shape they read; a body of another shape is not modelled.
- Console logging and the `useComingSoon` toasts are left out.
