/** The five analysis pages (code frequency, commits, languages, pull
    requests, network). Each keeps a `SearchBox` state, starts on a fixed
    repository, lists its own examples and hands an accepted submit to its
    hook's fetch. */
module AnalysisPages {
  import opened Wrappers
  import Http
  import Identifier
  import SearchBox
  import CodeFrequency
  import Commits
  import Languages
  import PullRequests
  import Network

  datatype Page = FrequencyPage | CommitsPage | LanguagesPage | PullsPage | NetworkPage

  /** The frequency page's `SUGGESTIONS`. */
  const FrequencyExamples: seq<string> := [
    "facebook/react", "shadcn-ui/ui", "abuzar-ali1/dummy-shop", "vercel/next.js",
    "tailwindlabs/tailwindcss", "microsoft/TypeScript"]

  /** The `SUGGESTIONS` list the other four pages each declare. */
  const CommonExamples: seq<string> := [
    "facebook/react", "vercel/next.js", "tailwindlabs/tailwindcss", "shadcn-ui/ui", "microsoft/TypeScript"]

  function ExamplesOf(p: Page): seq<string> {
    if p == FrequencyPage then FrequencyExamples else CommonExamples
  }

  /** The repository in the input and in `activeRepo` at first render, which
      the mount effect also fetches. */
  function StartRepoOf(p: Page): string {
    if p == FrequencyPage then "shadcn-ui/ui" else "facebook/react"
  }

  function StartOf(p: Page): SearchBox.SearchState {
    SearchBox.Start(StartRepoOf(p))
  }

  /** `s`, spelled `owner/name`, is accepted by the hooks' guard. */
  lemma {:induction false} Accepts(owner: string, name: string, s: string)
    requires owner != "" && name != "" && '/' !in owner && '/' !in name
    requires owner + "/" + name == s
    ensures Identifier.HasSlash(s) && Identifier.Parse(s) == Some(Identifier.RepoId(owner, name))
  {
    Identifier.ParseFormatted(owner, name, "");
    assert owner + "/" + name + "" == s;
    assert s[|owner|] == '/';
  }

  /** Passes both the pages' slash test and the hooks' guard. */
  predicate Accepted(s: string) {
    Identifier.HasSlash(s) && Identifier.Parse(s).Some?
  }

  /** The guard accepts each repository named by the pages. */
  lemma {:induction false} KnownRepoAccepted(i: int)
    requires 0 <= i < |FrequencyExamples|
    ensures Accepted(FrequencyExamples[i])
  {
    if i == 0 {
      ReactAccepted();
    } else if i == 1 {
      ShadcnAccepted();
    } else if i == 2 {
      DummyShopAccepted();
    } else if i == 3 {
      NextAccepted();
    } else if i == 4 {
      TailwindAccepted();
    } else {
      TypeScriptAccepted();
    }
  }

  lemma {:induction false} ReactAccepted()
    ensures Accepted(FrequencyExamples[0])
  {
    Accepts("facebook", "react", FrequencyExamples[0]);
  }

  lemma {:induction false} ShadcnAccepted()
    ensures Accepted(FrequencyExamples[1])
  {
    Accepts("shadcn-ui", "ui", FrequencyExamples[1]);
  }

  lemma {:induction false} DummyShopAccepted()
    ensures Accepted(FrequencyExamples[2])
  {
    Accepts("abuzar-ali1", "dummy-shop", FrequencyExamples[2]);
  }

  lemma {:induction false} NextAccepted()
    ensures Accepted(FrequencyExamples[3])
  {
    Accepts("vercel", "next.js", FrequencyExamples[3]);
  }

  lemma {:induction false} TailwindAccepted()
    ensures Accepted(FrequencyExamples[4])
  {
    Accepts("tailwindlabs", "tailwindcss", FrequencyExamples[4]);
  }

  lemma {:induction false} TypeScriptAccepted()
    ensures Accepted(FrequencyExamples[5])
  {
    Accepts("microsoft", "TypeScript", FrequencyExamples[5]);
  }

  /** Every example and every start repository passes both the pages' slash
      test and the hooks' guard, so clicking an example always fetches it and
      never shows "Invalid format". */
  lemma {:induction false} ExamplesAccepted(p: Page, i: int)
    requires 0 <= i < |ExamplesOf(p)|
    ensures Accepted(ExamplesOf(p)[i]) && Accepted(StartRepoOf(p))
  {
    if p == FrequencyPage {
      KnownRepoAccepted(i);
      ShadcnAccepted();
      assert StartRepoOf(p) == FrequencyExamples[1];
    } else {
      CommonExampleAccepted(i);
      ReactAccepted();
      assert StartRepoOf(p) == FrequencyExamples[0];
    }
  }

  /** The shorter list holds five of the frequency page's examples. */
  lemma {:induction false} CommonExampleAccepted(i: int)
    requires 0 <= i < |CommonExamples|
    ensures Accepted(CommonExamples[i])
  {
    var f := FrequencyExamples;
    assert CommonExamples == [f[0], f[3], f[4], f[1], f[5]];
    KnownRepoAccepted([0, 3, 4, 1, 5][i]);
  }

  /** Clicking an example sets the input and the active repository to it,
      closes the list and fetches it, whatever the state was. */
  lemma {:induction false} PickedExampleFetches(p: Page, st: SearchBox.SearchState, i: int)
    requires 0 <= i < |ExamplesOf(p)|
    ensures SearchBox.HandleSubmit(st, SearchBox.Picked(ExamplesOf(p)[i])) ==
      (SearchBox.Start(ExamplesOf(p)[i]), Some(ExamplesOf(p)[i]))
  {
    ExamplesAccepted(p, i);
  }

  /** The frequency page's "No matches found" line: inside the dropdown,
      when the filtered list is empty. */
  predicate NoMatchesShown(st: SearchBox.SearchState) {
    SearchBox.DropdownVisible(st.showSuggestions, FrequencyExamples, st.input) &&
    SearchBox.FilterSuggestions(FrequencyExamples, st.input) == []
  }

  /** The dropdown only opens when it has examples to list, so the
      frequency page's "No matches found" line is never shown. */
  lemma {:induction false} NoMatchesNeverShown(st: SearchBox.SearchState)
    ensures !NoMatchesShown(st)
    ensures SearchBox.DropdownVisible(st.showSuggestions, FrequencyExamples, st.input) ==>
      SearchBox.FilterSuggestions(FrequencyExamples, st.input) != []
  {
    SearchBox.VisibleIffMatches(st.showSuggestions, FrequencyExamples, st.input);
  }

  /** The frequency page's `handleSubmit` together with the fetch it starts:
      `reply` is how that request settles and `dateOf` is the locale's date
      format. */
  function SubmitFrequency(dateOf: CodeFrequency.DateLabel, st: SearchBox.SearchState, view: CodeFrequency.FrequencyView, e: SearchBox.Submission,
                           reply: Http.Outcome<Http.Shape<CodeFrequency.Week>>)
    : (r: (SearchBox.SearchState, CodeFrequency.FrequencyView))
    ensures !Identifier.HasSlash(SearchBox.TargetOf(st, e)) ==> r == (st, view)
    ensures Identifier.HasSlash(SearchBox.TargetOf(st, e)) ==>
      r == (SearchBox.Start(SearchBox.TargetOf(st, e)),
            CodeFrequency.FetchFrequency(dateOf, view, SearchBox.TargetOf(st, e), reply))
    ensures Identifier.HasSlash(SearchBox.TargetOf(st, e)) ==>
      r.0.activeRepo == SearchBox.TargetOf(st, e) && !r.1.isLoading
  {
    var (next, fetch) := SearchBox.HandleSubmit(st, e);
    match fetch
    case None => (next, view)
    case Some(target) => (next, CodeFrequency.FetchFrequency(dateOf, view, target, reply))
  }

  /** The slash test is weaker than the hook's guard: submitting `"a/"` is
      accepted by the page, becomes the active repository, and the hook
      answers "Invalid format. Use 'owner/repo'". */
  lemma {:induction false} SlashTestTooWeak(dateOf: CodeFrequency.DateLabel, st: SearchBox.SearchState, view: CodeFrequency.FrequencyView,
                         reply: Http.Outcome<Http.Shape<CodeFrequency.Week>>)
    ensures var r := SubmitFrequency(dateOf, st, view, SearchBox.Picked("a/"), reply);
      r.0.activeRepo == "a/" && r.1.error == CodeFrequency.InvalidFormat && r.1.data == []
  {
    Identifier.GuardStrongerThanSlashCheck("a/");
  }

  /** The commits page's "Based on the last N commits" line shows when the
      hook is neither loading nor in error. */
  predicate ShowsTotal(view: Commits.CommitsView) {
    !view.isLoading && view.error == ""
  }

  /** The commits page's `handleSubmit` together with the fetch it starts. */
  method SubmitCommits(st: SearchBox.SearchState, view: Commits.CommitsView, e: SearchBox.Submission,
                       reply: Http.Outcome<seq<Commits.Slot>>)
    returns (st': SearchBox.SearchState, view': Commits.CommitsView)
    ensures !Identifier.HasSlash(SearchBox.TargetOf(st, e)) ==> st' == st && view' == view
    ensures Identifier.HasSlash(SearchBox.TargetOf(st, e)) ==> st' == SearchBox.Start(SearchBox.TargetOf(st, e))
    ensures Identifier.HasSlash(SearchBox.TargetOf(st, e)) && Identifier.Parse(SearchBox.TargetOf(st, e)).None? ==>
      !ShowsTotal(view') && view'.data == []
    ensures Identifier.Parse(SearchBox.TargetOf(st, e)).Some? && Http.Delivered(reply) ==>
      ShowsTotal(view') && view'.totalCommits == |reply.body.value| && Commits.IsGridFor(view'.data, reply.body.value)
  {
    Identifier.GuardStrongerThanSlashCheck(SearchBox.TargetOf(st, e));
    var r := SearchBox.HandleSubmit(st, e);
    st' := r.0;
    view' := view;
    if r.1.Some? {
      view' := Commits.FetchCommits(view, r.1.value, reply);
    }
  }

  /** The languages page's "Primary Language" line shows when the hook is not
      loading and has a top language; the error is not consulted. */
  predicate ShowsPrimary(view: Languages.LanguagesView) {
    !view.isLoading && view.topLanguage != ""
  }

  /** The languages page's `handleSubmit` together with the fetch it starts. */
  function SubmitLanguages(st: SearchBox.SearchState, view: Languages.LanguagesView, e: SearchBox.Submission,
                           reply: Http.Outcome<seq<Languages.RawEntry>>)
    : (r: (SearchBox.SearchState, Languages.LanguagesView))
    ensures !Identifier.HasSlash(SearchBox.TargetOf(st, e)) ==> r == (st, view)
    ensures Identifier.HasSlash(SearchBox.TargetOf(st, e)) ==>
      r == (SearchBox.Start(SearchBox.TargetOf(st, e)),
            Languages.FetchLanguages(view, SearchBox.TargetOf(st, e), reply))
    ensures Identifier.HasSlash(SearchBox.TargetOf(st, e)) ==>
      r.0.activeRepo == SearchBox.TargetOf(st, e) && !r.1.isLoading
  {
    var (next, fetch) := SearchBox.HandleSubmit(st, e);
    match fetch
    case None => (next, view)
    case Some(target) => (next, Languages.FetchLanguages(view, target, reply))
  }

  /** A successful fetch with a non-zero total shows the largest language as
      the primary one (its name non-empty in the decoded map). */
  lemma {:induction false} PrimaryAfterSuccess(st: SearchBox.SearchState, view: Languages.LanguagesView, e: SearchBox.Submission,
                            reply: Http.Outcome<seq<Languages.RawEntry>>)
    requires Identifier.Parse(SearchBox.TargetOf(st, e)).Some?
    requires Http.Delivered(reply) && Languages.TotalBytes(reply.body.value) > 0
    requires forall i :: 0 <= i < |reply.body.value| ==> reply.body.value[i].name != ""
    ensures var r := SubmitLanguages(st, view, e, reply);
      ShowsPrimary(r.1) && r.1.topLanguage == r.1.data[0].name
  {
    Identifier.GuardStrongerThanSlashCheck(SearchBox.TargetOf(st, e));
    var r := SubmitLanguages(st, view, e, reply);
    Languages.BreakdownEntry(reply.body.value, r.1.data[0]);
  }

  /** The primary language outlives failures: after a fetch that ends in an
      error, the previous repository's top language is still shown, next to
      the error and under the new repository's name. */
  lemma {:induction false} PrimaryOutlivesError(st: SearchBox.SearchState, view: Languages.LanguagesView, e: SearchBox.Submission,
                             reply: Http.Outcome<seq<Languages.RawEntry>>)
    requires Identifier.HasSlash(SearchBox.TargetOf(st, e)) && view.topLanguage != ""
    requires Identifier.Parse(SearchBox.TargetOf(st, e)).None? || !Http.Delivered(reply)
    ensures var r := SubmitLanguages(st, view, e, reply);
      ShowsPrimary(r.1) && r.1.topLanguage == view.topLanguage && r.1.data == [] &&
      r.0.activeRepo == SearchBox.TargetOf(st, e)
  {
  }

  /** The pull-request page's `handleSubmit` together with the fetch it starts. */
  method SubmitPulls(st: SearchBox.SearchState, view: PullRequests.PRView, e: SearchBox.Submission,
                     reply: Http.Outcome<seq<PullRequests.PullRequest>>)
    returns (st': SearchBox.SearchState, view': PullRequests.PRView)
    ensures !Identifier.HasSlash(SearchBox.TargetOf(st, e)) ==> st' == st && view' == view
    ensures Identifier.HasSlash(SearchBox.TargetOf(st, e)) ==>
      st' == SearchBox.Start(SearchBox.TargetOf(st, e)) && !view'.isLoading
    ensures Identifier.HasSlash(SearchBox.TargetOf(st, e)) && Identifier.Parse(SearchBox.TargetOf(st, e)).None? ==>
      view' == PullRequests.PRView(None, false, PullRequests.InvalidFormat)
    ensures Identifier.Parse(SearchBox.TargetOf(st, e)).Some? && Http.Delivered(reply) ==>
      view'.error == "" && view'.data.Some? &&
      |view'.data.value.scatterData| == PullRequests.Count(reply.body.value, PullRequests.Merged)
  {
    Identifier.GuardStrongerThanSlashCheck(SearchBox.TargetOf(st, e));
    var r := SearchBox.HandleSubmit(st, e);
    st' := r.0;
    view' := view;
    if r.1.Some? {
      view' := PullRequests.FetchPRs(view, r.1.value, reply);
      if Http.Delivered(reply) && Identifier.Parse(r.1.value).Some? {
        PullRequests.PointsOfMerged(reply.body.value);
        PullRequests.CountIsMembers(reply.body.value, PullRequests.Merged);
      }
    }
  }

  /** The network page's `handleSubmit` together with the fetch it starts. */
  method SubmitNetwork(st: SearchBox.SearchState, view: Network.NetworkView, e: SearchBox.Submission,
                       reply: Http.Outcome<seq<Network.Contributor>>)
    returns (st': SearchBox.SearchState, view': Network.NetworkView)
    ensures !Identifier.HasSlash(SearchBox.TargetOf(st, e)) ==> st' == st && view' == view
    ensures Identifier.HasSlash(SearchBox.TargetOf(st, e)) ==>
      st' == SearchBox.Start(SearchBox.TargetOf(st, e)) && !view'.isLoading
    ensures Identifier.HasSlash(SearchBox.TargetOf(st, e)) && Identifier.Parse(SearchBox.TargetOf(st, e)).None? ==>
      view' == Network.NetworkView(Network.Empty, false, Network.InvalidFormat)
    ensures Identifier.Parse(SearchBox.TargetOf(st, e)).Some? && Http.Delivered(reply) ==>
      view'.error == "" && Network.IsStarOf(view'.data, reply.body.value)
  {
    Identifier.GuardStrongerThanSlashCheck(SearchBox.TargetOf(st, e));
    var r := SearchBox.HandleSubmit(st, e);
    st' := r.0;
    view' := view;
    if r.1.Some? {
      view' := Network.FetchNetwork(view, r.1.value, reply);
    }
  }
}
