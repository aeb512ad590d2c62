/** The weekly commit-activity query (`useGitHubCommits`): every failure is
    swallowed and shows up as an empty list. */
module CommitActivity {
  import opened Wrappers
  import Http
  import Identifier
  import Text

  /** One week of `stats/commit_activity`: the week's total, its start
      timestamp and the per-day counts. */
  datatype ActivityWeek = ActivityWeek(total: nat, week: int, days: seq<nat>)

  /** The pre-check `!repoPath || !repoPath.includes('/')`, inverted: true
      when a request is made. */
  predicate Requests(repoPath: string) {
    repoPath != "" && Identifier.HasSlash(repoPath)
  }

  /** The owner and repository the request is sent for: the first two pieces
      of the split, which may be empty (`"a/"` asks for owner `a` and an empty
      repository name). `None` when no request is made. */
  function Target(repoPath: string): (t: Option<(string, string)>)
    ensures t.Some? <==> Requests(repoPath)
    ensures t.Some? ==> t.value.0 == Identifier.FirstTwo(repoPath).0
    ensures t.Some? ==> Identifier.FirstTwo(repoPath).1 == Some(t.value.1)
  {
    if !Requests(repoPath) then None
    else
      Identifier.SplitPieces(repoPath);
      var (owner, repo) := Identifier.FirstTwo(repoPath);
      Some((owner, repo.value))
  }

  /** The checks after the request: a failed status, then 202 Accepted, then
      the array test; anything else, including a rejected request or an
      undecodable body, is caught and gives `[]`. */
  function Classify(reply: Http.Outcome<Http.Shape<ActivityWeek>>): seq<ActivityWeek> {
    match reply
    case NetworkError(_) => []
    case Response(status, body) =>
      if !Http.IsOk(status) then []
      else if status == Http.Accepted then []
      else match body
        case Malformed(_) => []
        case Parsed(NotArray) => []
        case Parsed(ArrayOf(weeks)) => weeks
  }

  /** `reply` carries data the query hands on: an ok status other than 202
      and a body that decoded to an array. */
  predicate Serves(reply: Http.Outcome<Http.Shape<ActivityWeek>>) {
    Http.Delivered(reply) && reply.status != Http.Accepted && reply.body.value.ArrayOf?
  }

  /** `fetchCommits(repoPath, range)`. `reply` is the settled request, looked
      at only when one is made; `range` takes no part in the result. */
  function FetchActivity(repoPath: string, range: string, reply: Http.Outcome<Http.Shape<ActivityWeek>>)
    : (r: seq<ActivityWeek>)
    ensures !Requests(repoPath) ==> r == []
    ensures r != [] ==> Requests(repoPath) && Serves(reply) && r == reply.body.value.items
    ensures Requests(repoPath) && Serves(reply) ==> r == reply.body.value.items
  {
    if Target(repoPath).None? then [] else Classify(reply)
  }

  /** The list is empty exactly when no request is made, the reply carries no
      data, or the data is an empty array. */
  lemma {:induction false} EmptyIff(repoPath: string, range: string, reply: Http.Outcome<Http.Shape<ActivityWeek>>)
    ensures FetchActivity(repoPath, range, reply) == [] <==>
      !Requests(repoPath) || !Serves(reply) || reply.body.value.items == []
  {
  }

  /** A 202 reply, a failed status and a body that is not an array all look
      the same to the caller as an invalid identifier. */
  lemma {:induction false} FailuresLookAlike(repoPath: string, range: string, body: Http.Body<Http.Shape<ActivityWeek>>, status: int)
    requires !Http.IsOk(status) || status == Http.Accepted
    ensures FetchActivity(repoPath, range, Http.Response(status, body)) == []
    ensures FetchActivity(repoPath, range, Http.Response(200, Http.Parsed(Http.NotArray))) == []
  {
  }

  /** `range` is part of the cache key only: two ranges give the same list. */
  lemma {:induction false} RangeIgnored(repoPath: string, r1: string, r2: string, reply: Http.Outcome<Http.Shape<ActivityWeek>>)
    ensures FetchActivity(repoPath, r1, reply) == FetchActivity(repoPath, r2, reply)
  {
  }

  /** The pre-check is weaker than the hooks' identifier guard: `"a/"` is
      requested although the guard would refuse it. */
  lemma {:induction false} WeakerThanGuard()
    ensures Requests("a/") && Identifier.Parse("a/").None?
    ensures Target("a/") == Some(("a", ""))
  {
    Identifier.GuardStrongerThanSlashCheck("a/");
    Identifier.SplitPieces("a/");
    assert Text.IndexOf("a/", '/') == 1;
    assert "a/"[..1] == "a";
  }
}
