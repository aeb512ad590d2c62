/** The pull-request hook (`usePullRequests`): every pull request goes into one
    of three buckets, merged ones also give a merge duration and a scatter
    point, and the durations give a mean. */
module PullRequests {
  import opened Wrappers
  import Http
  import Identifier
  import Seqs

  /** A pull request as the list endpoint returns it. Times are milliseconds
      since the epoch; `mergedAt` is `None` for `merged_at: null`. */
  datatype PullRequest = PullRequest(state: string, createdAt: int, mergedAt: Option<int>, title: string)

  datatype Bucket = Open | Merged | Closed

  /** The `if / else if / else` chain of the `forEach` callback. */
  function BucketOf(pr: PullRequest): (b: Bucket)
    ensures b == Open <==> pr.state == "open"
    ensures b == Merged <==> pr.state == "closed" && pr.mergedAt.Some?
    ensures b == Closed <==> pr.state != "open" && !(pr.state == "closed" && pr.mergedAt.Some?)
  {
    if pr.state == "open" then Open
    else if pr.state == "closed" && pr.mergedAt.Some? then Merged
    else Closed
  }

  function InBucket(b: Bucket): PullRequest -> bool {
    pr => BucketOf(pr) == b
  }

  /** The pull requests of one bucket, in input order. */
  function Members(prs: seq<PullRequest>, b: Bucket): (r: seq<PullRequest>)
    ensures forall i :: 0 <= i < |r| ==> BucketOf(r[i]) == b
  {
    var r := Seqs.Filter(prs, InBucket(b));
    forall i | 0 <= i < |r|
      ensures BucketOf(r[i]) == b
    {
      assert r[i] in r;
    }
    r
  }

  /** Every pull request is counted in exactly one bucket. */
  lemma {:induction false} BucketsPartition(prs: seq<PullRequest>)
    ensures |Members(prs, Open)| + |Members(prs, Merged)| + |Members(prs, Closed)| == |prs|
  {
    if prs != [] {
      BucketsPartition(prs[1..]);
      Seqs.FilterHead(prs, InBucket(Open));
      Seqs.FilterHead(prs, InBucket(Merged));
      Seqs.FilterHead(prs, InBucket(Closed));
    }
  }

  /** Merge time in hours: `(end - start) / (1000 * 60 * 60)`. */
  function HoursToMerge(pr: PullRequest): real
    requires pr.mergedAt.Some?
  {
    (pr.mergedAt.value - pr.createdAt) as real / 3600000.0
  }

  /** One point of the merge-time scatter chart. The display date and the
      one-decimal rounding of the duration are not modelled. */
  datatype ScatterPoint = ScatterPoint(mergedAt: int, duration: real, title: string)

  function PointOf(pr: PullRequest): ScatterPoint
    requires pr.mergedAt.Some?
  {
    ScatterPoint(pr.mergedAt.value, HoursToMerge(pr), pr.title)
  }

  /** The number of pull requests in bucket `b` (the `open++`, `merged++`
      and `closed++` counters). */
  function Count(prs: seq<PullRequest>, b: Bucket): nat {
    if prs == [] then 0
    else Count(prs[..|prs| - 1], b) + (if BucketOf(prs[|prs| - 1]) == b then 1 else 0)
  }

  /** The counters count the bucket's members. */
  lemma {:induction false} CountIsMembers(prs: seq<PullRequest>, b: Bucket)
    ensures Count(prs, b) == |Members(prs, b)|
  {
    if prs != [] {
      var init := prs[..|prs| - 1];
      assert prs == init + [prs[|prs| - 1]];
      CountIsMembers(init, b);
      MembersStep(init, prs[|prs| - 1], b);
    }
  }

  /** The three counters add up to the number of pull requests. */
  lemma {:induction false} CountsAddUp(prs: seq<PullRequest>)
    ensures Count(prs, Open) + Count(prs, Merged) + Count(prs, Closed) == |prs|
  {
    CountIsMembers(prs, Open);
    CountIsMembers(prs, Merged);
    CountIsMembers(prs, Closed);
    BucketsPartition(prs);
  }

  /** Scatter points of the merged pull requests, in input order (the
      `scatterPoints.push` calls of the `forEach`). */
  function MergedPoints(prs: seq<PullRequest>): seq<ScatterPoint> {
    if prs == [] then []
    else
      var pr := prs[|prs| - 1];
      MergedPoints(prs[..|prs| - 1]) + (if BucketOf(pr) == Merged then [PointOf(pr)] else [])
  }

  /** Sum of the merge times of the merged pull requests (`totalHours`). */
  function TotalHours(prs: seq<PullRequest>): real {
    if prs == [] then 0.0
    else
      var pr := prs[|prs| - 1];
      TotalHours(prs[..|prs| - 1]) + (if BucketOf(pr) == Merged then HoursToMerge(pr) else 0.0)
  }

  /** One more pull request extends its own bucket and no other. */
  lemma {:induction false} MembersStep(s: seq<PullRequest>, pr: PullRequest, b: Bucket)
    ensures Members(s + [pr], b) == Members(s, b) + (if BucketOf(pr) == b then [pr] else [])
  {
    Seqs.FilterAppend(s, pr, InBucket(b));
  }

  /** `MembersStep` read from the end of a non-empty list. */
  lemma {:induction false} MembersLast(prs: seq<PullRequest>, b: Bucket)
    requires prs != []
    ensures var pr := prs[|prs| - 1];
      Members(prs, b) == Members(prs[..|prs| - 1], b) + (if BucketOf(pr) == b then [pr] else [])
  {
    assert prs == prs[..|prs| - 1] + [prs[|prs| - 1]];
    MembersStep(prs[..|prs| - 1], prs[|prs| - 1], b);
  }

  /** Exactly the merged pull requests give scatter points, one each, in order. */
  lemma {:induction false} PointsOfMerged(prs: seq<PullRequest>)
    ensures |MergedPoints(prs)| == |Members(prs, Merged)|
    ensures forall i :: 0 <= i < |MergedPoints(prs)| ==>
      MergedPoints(prs)[i] == PointOf(Members(prs, Merged)[i])
  {
    if prs != [] {
      var init := prs[..|prs| - 1];
      var pr := prs[|prs| - 1];
      var points, merged := MergedPoints(init), Members(init, Merged);
      PointsOfMerged(init);
      assert MergedPoints(prs) == points + (if BucketOf(pr) == Merged then [PointOf(pr)] else []);
      MembersLast(prs, Merged);
      if BucketOf(pr) == Merged {
        PointsAppend(points, merged, pr);
      }
    }
  }

  /** Appending a merged pull request and its point keeps the two lists in step. */
  lemma {:induction false} PointsAppend(points: seq<ScatterPoint>, merged: seq<PullRequest>, pr: PullRequest)
    requires pr.mergedAt.Some?
    requires forall k :: 0 <= k < |merged| ==> merged[k].mergedAt.Some?
    requires |points| == |merged| && forall k :: 0 <= k < |points| ==> points[k] == PointOf(merged[k])
    ensures forall k :: 0 <= k < |points| + 1 ==> (points + [PointOf(pr)])[k] == PointOf((merged + [pr])[k])
  {
  }

  datatype Slice = Slice(name: string, value: nat, color: string)

  /** `PRStats`, with the mean kept as a number rather than `toFixed(1)` text. */
  datatype PRStats = PRStats(pieData: seq<Slice>, scatterData: seq<ScatterPoint>, averageHours: real)

  /** The pie chart: always three slices, in the order Merged, Open, Closed. */
  function Pie(merged: nat, open: nat, closed: nat): seq<Slice> {
    [Slice("Merged", merged, "#8b5cf6"), Slice("Open", open, "#10b981"), Slice("Closed", closed, "#ef4444")]
  }

  /** The body of the hook after the response is decoded: one pass over the
      pull requests, then the mean and the reversed scatter list. */
  method Summarize(prs: seq<PullRequest>) returns (stats: PRStats)
    ensures stats.pieData == Pie(Count(prs, Merged), Count(prs, Open), Count(prs, Closed))
    ensures stats.scatterData == Seqs.Reverse(MergedPoints(prs))
    ensures Count(prs, Merged) == 0 ==> stats.averageHours == 0.0
    ensures Count(prs, Merged) != 0 ==> stats.averageHours == TotalHours(prs) / (Count(prs, Merged) as real)
  {
    var open, merged, closed := 0, 0, 0;
    var durations: seq<real> := [];
    var points: seq<ScatterPoint> := [];
    var total := 0.0;
    for i := 0 to |prs|
      invariant open == Count(prs[..i], Open)
      invariant merged == Count(prs[..i], Merged)
      invariant closed == Count(prs[..i], Closed)
      invariant |durations| == merged
      invariant total == TotalHours(prs[..i])
      invariant points == MergedPoints(prs[..i])
    {
      var pr := prs[i];
      assert prs[..i + 1] == prs[..i] + [pr];
      assert prs[..i + 1][..i] == prs[..i];
      var bucket := BucketOf(pr);
      if bucket == Open {
        open := open + 1;
      } else if bucket == Merged {
        merged := merged + 1;
        var hours := HoursToMerge(pr);
        durations := durations + [hours];
        total := total + hours;
        points := points + [PointOf(pr)];
      } else {
        closed := closed + 1;
      }
    }
    assert prs[..|prs|] == prs;
    var avg := if |durations| > 0 then total / (|durations| as real) else 0.0;
    stats := PRStats(Pie(merged, open, closed), Seqs.Reverse(points), avg);
  }

  /** The hook's state: `data` (null until a summary exists), `isLoading`, `error`. */
  datatype PRView = PRView(data: Option<PRStats>, isLoading: bool, error: string)

  const Initial: PRView := PRView(None, false, "")
  const InvalidFormat: string := "Invalid format"
  const NotFound: string := "Repository not found or API rate limit exceeded."

  /** The state after `fetchPRs(repoPath)` settles with `reply`. */
  method FetchPRs(prev: PRView, repoPath: string, reply: Http.Outcome<seq<PullRequest>>)
    returns (next: PRView)
    ensures !next.isLoading
    ensures Identifier.Parse(repoPath).None? ==> next == PRView(None, false, InvalidFormat)
    ensures Identifier.Parse(repoPath).Some? && reply.NetworkError? ==> next == PRView(None, false, reply.message)
    ensures Identifier.Parse(repoPath).Some? && reply.Response? && !Http.IsOk(reply.status) ==>
      next == PRView(None, false, NotFound)
    ensures Identifier.Parse(repoPath).Some? && Http.OkButMalformed(reply) ==>
      next == PRView(None, false, reply.body.message)
    ensures Identifier.Parse(repoPath).Some? && Http.Delivered(reply) ==>
      next.error == "" && next.data.Some? &&
      next.data.value.pieData == Pie(Count(reply.body.value, Merged),
        Count(reply.body.value, Open), Count(reply.body.value, Closed)) &&
      next.data.value.scatterData == Seqs.Reverse(MergedPoints(reply.body.value))
    ensures Identifier.Parse(repoPath).Some? && Http.Delivered(reply) && Count(reply.body.value, Merged) == 0 ==>
      next.data.Some? && next.data.value.averageHours == 0.0
    ensures Identifier.Parse(repoPath).Some? && Http.Delivered(reply) && Count(reply.body.value, Merged) != 0 ==>
      next.data.Some? &&
      next.data.value.averageHours == TotalHours(reply.body.value) / (Count(reply.body.value, Merged) as real)
  {
    next := PRView(None, true, "");
    if Identifier.Parse(repoPath).None? {
      next := next.(error := InvalidFormat);
    } else {
      match reply
      case NetworkError(msg) =>
        next := next.(error := msg);
      case Response(status, body) =>
        if !Http.IsOk(status) {
          next := next.(error := NotFound);
        } else if body.Malformed? {
          next := next.(error := body.message);
        } else {
          var stats := Summarize(body.value);
          next := next.(data := Some(stats));
        }
    }
    next := next.(isLoading := false);
  }
}
