/** The code-frequency hook (`useCodeFrequency`): weekly
    `[timestamp, additions, deletions]` triples become chart points with both
    line counts non-negative, and the response status picks the error text. */
module CodeFrequency {
  import Http
  import Identifier

  /** One `[timestamp, additions, deletions]` triple; GitHub reports
      deletions as a negative number. The timestamp is in seconds. */
  datatype Week = Week(timestamp: int, additions: int, deletions: int)

  /** One chart point: the week's date label, additions and deletions. */
  datatype FreqPoint = FreqPoint(date: string, added: int, deleted: nat)

  /** The locale's short date of a timestamp in seconds
      (`new Date(t * 1000).toLocaleDateString(...)`); it depends on the
      runtime's locale and timezone, so the model takes it as a parameter. */
  type DateLabel = int -> string

  /** `Math.abs`. */
  function Abs(x: int): (r: nat)
    ensures r == x || r == -x
  {
    if x < 0 then -x else x
  }

  /** The `rawData.map` callback. */
  function PointOf(dateOf: DateLabel, w: Week): (p: FreqPoint)
    ensures p.date == dateOf(w.timestamp) && p.added == w.additions
    ensures p.deleted == w.deletions || p.deleted == -w.deletions
  {
    FreqPoint(dateOf(w.timestamp), w.additions, Abs(w.deletions))
  }

  /** Reads a chart point back as a triple with negative deletions, the way
      GitHub reports them. The point keeps only a date label, so the
      timestamp is supplied by the caller. */
  function WeekOf(timestamp: int, p: FreqPoint): Week {
    Week(timestamp, p.added, -(p.deleted as int))
  }

  /** Round trip: for a week in GitHub's own form (deletions not positive)
      the point's additions and deletions give back the week's. */
  lemma {:induction false} PointRoundTrip(dateOf: DateLabel, w: Week)
    requires w.deletions <= 0
    ensures WeekOf(w.timestamp, PointOf(dateOf, w)) == w
  {
  }

  /** Weeks reported with positive deletions map to the same point as their
      negated form: the sign is dropped. */
  lemma {:induction false} SignDropped(dateOf: DateLabel, w: Week)
    ensures PointOf(dateOf, w) == PointOf(dateOf, w.(deletions := -w.deletions))
  {
  }

  /** `rawData.map(...)`: one point per week, in order. */
  function Points(dateOf: DateLabel, weeks: seq<Week>): (r: seq<FreqPoint>)
    ensures |r| == |weeks|
    ensures forall i :: 0 <= i < |weeks| ==> r[i] == PointOf(dateOf, weeks[i])
  {
    if weeks == [] then [] else [PointOf(dateOf, weeks[0])] + Points(dateOf, weeks[1..])
  }

  /** `Points` keeps the counts of GitHub-form weeks: each point, read back
      with its week's timestamp, gives the week. */
  lemma {:induction false} PointsRoundTrip(dateOf: DateLabel, weeks: seq<Week>)
    requires forall i :: 0 <= i < |weeks| ==> weeks[i].deletions <= 0
    ensures forall i :: 0 <= i < |weeks| ==> WeekOf(weeks[i].timestamp, Points(dateOf, weeks)[i]) == weeks[i]
  {
    forall i | 0 <= i < |weeks|
      ensures WeekOf(weeks[i].timestamp, Points(dateOf, weeks)[i]) == weeks[i]
    {
      PointRoundTrip(dateOf, weeks[i]);
    }
  }

  /** The hook's state: `data`, `isLoading`, `error`. */
  datatype FrequencyView = FrequencyView(data: seq<FreqPoint>, isLoading: bool, error: string)

  const Initial: FrequencyView := FrequencyView([], false, "")
  const InvalidFormat: string := "Invalid format. Use 'owner/repo'"
  const TooLarge: string := "Repository is too large for GitHub to calculate stats."
  const NotFound: string := "Repository not found or API rate limit exceeded."

  /** The state after `fetchFrequency(repoPath)` settles with `reply`. The
      422 test comes before the `ok` test, and a decoded body that is not an
      array leaves the data empty without an error. */
  function FetchFrequency(dateOf: DateLabel, prev: FrequencyView, repoPath: string, reply: Http.Outcome<Http.Shape<Week>>)
    : (next: FrequencyView)
    ensures !next.isLoading
    ensures next.error != "" ==> next.data == []
    ensures Identifier.Parse(repoPath).None? ==> next == FrequencyView([], false, InvalidFormat)
    ensures Identifier.Parse(repoPath).Some? && reply.NetworkError? ==> next == FrequencyView([], false, reply.message)
    ensures Identifier.Parse(repoPath).Some? && reply.Response? && !Http.IsOk(reply.status) ==>
      next == FrequencyView([], false, if reply.status == Http.UnprocessableContent then TooLarge else NotFound)
    ensures Identifier.Parse(repoPath).Some? && Http.OkButMalformed(reply) ==>
      next == FrequencyView([], false, reply.body.message)
    ensures Identifier.Parse(repoPath).Some? && Http.Delivered(reply) && reply.body.value.NotArray? ==>
      next == FrequencyView([], false, "")
    ensures Identifier.Parse(repoPath).Some? && Http.Delivered(reply) && reply.body.value.ArrayOf? ==>
      next == FrequencyView(Points(dateOf, reply.body.value.items), false, "")
  {
    var settled :=
      if Identifier.Parse(repoPath).None? then FrequencyView([], true, InvalidFormat)
      else match reply
        case NetworkError(msg) => FrequencyView([], true, msg)
        case Response(status, body) =>
          if status == Http.UnprocessableContent then FrequencyView([], true, TooLarge)
          else if !Http.IsOk(status) then FrequencyView([], true, NotFound)
          else match body
            case Malformed(msg) => FrequencyView([], true, msg)
            case Parsed(NotArray) => FrequencyView([], true, "")
            case Parsed(ArrayOf(weeks)) => FrequencyView(Points(dateOf, weeks), true, "");
    settled.(isLoading := false)
  }

  /** A 422 is reported as "too large" even though it is also a failed status. */
  lemma {:induction false} TooLargeWins(dateOf: DateLabel, prev: FrequencyView, repoPath: string, body: Http.Body<Http.Shape<Week>>)
    requires Identifier.Parse(repoPath).Some?
    ensures !Http.IsOk(Http.UnprocessableContent)
    ensures FetchFrequency(dateOf, prev, repoPath, Http.Response(Http.UnprocessableContent, body)).error == TooLarge != NotFound
  {
  }
}
