/** The search box the analysis pages share (frequency, commits, languages,
    pull requests, network): a text input, a list of example repositories
    filtered by what is typed, and a submit handler that accepts either the
    form or a clicked example. */
module SearchBox {
  import opened Wrappers
  import Text
  import Seqs
  import Identifier

  /** `repo.toLowerCase().includes(input.toLowerCase())`. */
  predicate Matches(repo: string, input: string) {
    Text.Includes(Text.Lower(repo), Text.Lower(input))
  }

  function MatchTest(input: string): string -> bool {
    repo => Matches(repo, input)
  }

  /** `filteredSuggestions`: the examples matching the input, in list order. */
  function FilterSuggestions(suggestions: seq<string>, input: string): (r: seq<string>)
    ensures Seqs.SubsequenceOf(r, suggestions)
    ensures forall s :: s in r ==> s in suggestions && Matches(s, input)
    ensures forall s :: s in suggestions && Matches(s, input) ==> s in r
  {
    Seqs.FilterSubsequence(suggestions, MatchTest(input));
    Seqs.Filter(suggestions, MatchTest(input))
  }

  /** Nothing typed lists every example. */
  lemma {:induction false} EmptyInputKeepsAll(suggestions: seq<string>)
    ensures FilterSuggestions(suggestions, "") == suggestions
  {
    forall i | 0 <= i < |suggestions|
      ensures MatchTest("")(suggestions[i])
    {
      Text.IncludesEmpty(Text.Lower(suggestions[i]));
    }
    Seqs.FilterKeepsAll(suggestions, MatchTest(""));
  }

  /** The filter ignores case in the input. */
  lemma {:induction false} FilterIgnoresCase(suggestions: seq<string>, input: string)
    ensures FilterSuggestions(suggestions, input) == FilterSuggestions(suggestions, Text.Lower(input))
  {
    Text.LowerIdempotent(input);
    Seqs.FilterCongruent(suggestions, MatchTest(input), MatchTest(Text.Lower(input)));
  }

  /** The filtered list is empty exactly when no example matches. */
  lemma {:induction false} EmptyIffNoMatch(suggestions: seq<string>, input: string)
    ensures FilterSuggestions(suggestions, input) == [] <==>
      forall i :: 0 <= i < |suggestions| ==> !Matches(suggestions[i], input)
  {
    var r := FilterSuggestions(suggestions, input);
    if r != [] {
      assert r[0] in r;
    }
  }

  /** `showSuggestions && (filteredSuggestions.length > 0 || inputValue === '')`. */
  predicate DropdownVisible(show: bool, suggestions: seq<string>, input: string) {
    show && (|FilterSuggestions(suggestions, input)| > 0 || input == "")
  }

  /** With a non-empty example list the open dropdown always lists something:
      it shows exactly when it is open and some example matches. */
  lemma {:induction false} VisibleIffMatches(show: bool, suggestions: seq<string>, input: string)
    requires suggestions != []
    ensures DropdownVisible(show, suggestions, input) <==> show && FilterSuggestions(suggestions, input) != []
  {
    if input == "" {
      EmptyInputKeepsAll(suggestions);
    }
  }

  /** The page's own state: `inputValue`, `activeRepo`, `showSuggestions`. */
  datatype SearchState = SearchState(input: string, activeRepo: string, showSuggestions: bool)

  /** Both pages start with the same text in the input and as the active
      repository, with the dropdown closed. */
  function Start(repo: string): (st: SearchState)
    ensures st.input == st.activeRepo == repo && !st.showSuggestions
  {
    SearchState(repo, repo, false)
  }

  /** `handleSubmit`'s argument: the form's submit event or a clicked example. */
  datatype Submission = FormSubmit | Picked(repo: string)

  /** `typeof e === 'string' ? e : inputValue`. */
  function TargetOf(st: SearchState, e: Submission): string {
    match e
    case FormSubmit => st.input
    case Picked(repo) => repo
  }

  /** `handleSubmit(e)`: the new page state and the repository handed to the
      hook's fetch, if any. A target without a slash changes nothing and
      fetches nothing. */
  function HandleSubmit(st: SearchState, e: Submission): (r: (SearchState, Option<string>))
    ensures r.1.Some? <==> Identifier.HasSlash(TargetOf(st, e))
    ensures r.1.None? ==> r.0 == st
    ensures r.1.Some? ==> r.1.value == TargetOf(st, e) && r.0 == SearchState(r.1.value, r.1.value, false)
  {
    var target := TargetOf(st, e);
    if Identifier.HasSlash(target) then (SearchState(target, target, false), Some(target))
    else (st, None)
  }

  /** Submitting the form again after an accepted submit fetches the same
      repository and leaves the state as it is. */
  lemma {:induction false} ResubmitStable(st: SearchState, e: Submission)
    requires HandleSubmit(st, e).1.Some?
    ensures var after := HandleSubmit(st, e);
      HandleSubmit(after.0, FormSubmit) == after
  {
  }

  /** Everything the user can do to the search box. */
  datatype Event = Typed(text: string) | Focused | ClickedOutside | Submitted(e: Submission)

  /** One event: typing edits the input only, focus opens the dropdown, a
      click outside closes it, and a submit is `HandleSubmit`. */
  function Step(st: SearchState, ev: Event): (r: (SearchState, Option<string>))
    ensures r.1.Some? ==> ev.Submitted? && Identifier.HasSlash(r.1.value)
    ensures !ev.Submitted? ==> r.0.activeRepo == st.activeRepo
  {
    match ev
    case Typed(text) => (st.(input := text), None)
    case Focused => (st.(showSuggestions := true), None)
    case ClickedOutside => (st.(showSuggestions := false), None)
    case Submitted(e) => HandleSubmit(st, e)
  }

  /** A session: the events in order, giving the final state and every
      repository fetched, in order. */
  function Run(st: SearchState, events: seq<Event>): (SearchState, seq<string>)
    decreases |events|
  {
    if events == [] then (st, [])
    else
      var first := Step(st, events[0]);
      var rest := Run(first.0, events[1..]);
      (rest.0, AsList(first.1) + rest.1)
  }

  function AsList(o: Option<string>): seq<string> {
    match o
    case Some(t) => [t]
    case None => []
  }

  /** Invariant of a session: the active repository keeps a slash, and every
      repository handed to a fetch has one. */
  lemma {:induction false} RunKeepsSlash(st: SearchState, events: seq<Event>)
    requires Identifier.HasSlash(st.activeRepo)
    ensures Identifier.HasSlash(Run(st, events).0.activeRepo)
    ensures forall i :: 0 <= i < |Run(st, events).1| ==> Identifier.HasSlash(Run(st, events).1[i])
    decreases |events|
  {
    if events != [] {
      RunKeepsSlash(Step(st, events[0]).0, events[1..]);
    }
  }

  /** The fetches of a session are its accepted submits: a session of
      submits only, each with a slash-free target, fetches nothing and
      leaves the state alone. */
  lemma {:induction false} RefusedSubmitsInert(st: SearchState, events: seq<Event>)
    requires forall i :: 0 <= i < |events| ==> events[i].Submitted? && !Identifier.HasSlash(TargetOf(st, events[i].e))
    ensures Run(st, events) == (st, [])
    decreases |events|
  {
    if events != [] {
      assert Step(st, events[0]) == (st, None);
      RefusedSubmitsInert(st, events[1..]);
      assert Run(st, events) == (st, AsList(None) + []);
      assert AsList(None) + [] == [];
    }
  }
}
