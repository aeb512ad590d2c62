/** The punch-card hook (`useCommits`): the last commits' author times are
    bucketed by (day of week, hour of day) into a complete 7 x 24 grid. */
module Commits {
  import Http
  import Identifier
  import Seqs

  const Days: nat := 7
  const Hours: nat := 24
  /** Number of cells in the grid: one per (day, hour). */
  const GridSize: nat := 168

  /** A (day, hour) pair: `getDay()` (0 = Sunday .. 6 = Saturday) and
      `getHours()` (0 .. 23) of a commit's author date. */
  datatype Slot = Slot(day: int, hour: int)

  /** One grid cell, the source's `PunchCardData`. */
  datatype Cell = Cell(day: int, hour: int, count: nat)

  predicate InGrid(k: Slot) {
    0 <= k.day < Days && 0 <= k.hour < Hours
  }

  /** Number of samples at slot `k`, counted in `forEach` order. */
  function Occurrences(samples: seq<Slot>, k: Slot): nat {
    if samples == [] then 0
    else
      Occurrences(samples[..|samples| - 1], k) + (if samples[|samples| - 1] == k then 1 else 0)
  }

  /** Number of samples that fall inside the grid. */
  function InGridCount(samples: seq<Slot>): nat {
    if samples == [] then 0
    else InGridCount(samples[..|samples| - 1]) + (if InGrid(samples[|samples| - 1]) then 1 else 0)
  }

  /** `counts[key] || 0`: the tally, or zero for a slot never seen. */
  function CountOr0(counts: map<Slot, nat>, k: Slot): nat {
    if k in counts then counts[k] else 0
  }

  /** Step 1 of the hook: count the commits in every slot. Only slots that
      were seen get a key. */
  method Tally(samples: seq<Slot>) returns (counts: map<Slot, nat>)
    ensures forall k :: k in counts ==> counts[k] == Occurrences(samples, k) && counts[k] > 0
    ensures forall k :: k !in counts ==> Occurrences(samples, k) == 0
  {
    counts := map[];
    for i := 0 to |samples|
      invariant forall k :: k in counts ==> counts[k] == Occurrences(samples[..i], k) && counts[k] > 0
      invariant forall k :: k !in counts ==> Occurrences(samples[..i], k) == 0
    {
      assert samples[..i + 1][..i] == samples[..i];
      var key := samples[i];
      counts := counts[key := CountOr0(counts, key) + 1];
    }
    assert samples[..|samples|] == samples;
  }

  /** `grid` is the punch card of `samples`: 168 cells, day-major then
      hour-minor, each holding the number of samples at its slot. */
  ghost predicate IsGridFor(grid: seq<Cell>, samples: seq<Slot>) {
    |grid| == GridSize &&
    forall i :: 0 <= i < |grid| ==>
      grid[i] == Cell(i / Hours, i % Hours, Occurrences(samples, Slot(i / Hours, i % Hours)))
  }

  /** Step 2 of the hook: walk every day and hour and emit a cell, with zero
      for the slots no commit fell in. */
  method BuildGrid(samples: seq<Slot>) returns (grid: seq<Cell>)
    ensures IsGridFor(grid, samples)
  {
    var counts := Tally(samples);
    grid := [];
    for d := 0 to Days
      invariant |grid| == d * Hours
      invariant forall i :: 0 <= i < |grid| ==>
        grid[i] == Cell(i / Hours, i % Hours, Occurrences(samples, Slot(i / Hours, i % Hours)))
    {
      for h := 0 to Hours
        invariant |grid| == d * Hours + h
        invariant forall i :: 0 <= i < |grid| ==>
          grid[i] == Cell(i / Hours, i % Hours, Occurrences(samples, Slot(i / Hours, i % Hours)))
      {
        assert (d * Hours + h) / Hours == d && (d * Hours + h) % Hours == h;
        grid := grid + [Cell(d, h, CountOr0(counts, Slot(d, h)))];
      }
    }
  }

  /** Every (day, hour) of the grid has exactly one cell, at index `day * 24 + hour`. */
  lemma {:induction false} EachSlotOnce(grid: seq<Cell>, samples: seq<Slot>, d: int, h: int)
    requires IsGridFor(grid, samples)
    requires InGrid(Slot(d, h))
    ensures grid[d * Hours + h].day == d && grid[d * Hours + h].hour == h
    ensures forall i :: 0 <= i < |grid| && grid[i].day == d && grid[i].hour == h ==> i == d * Hours + h
  {
    assert (d * Hours + h) / Hours == d && (d * Hours + h) % Hours == h;
    forall i | 0 <= i < |grid| && grid[i].day == d && grid[i].hour == h
      ensures i == d * Hours + h
    {
      assert i == (i / Hours) * Hours + i % Hours;
    }
  }

  /** The counts of a grid, in order. */
  function Counts(grid: seq<Cell>): (r: seq<nat>)
    ensures |r| == |grid|
    ensures forall i :: 0 <= i < |grid| ==> r[i] == grid[i].count
  {
    seq(|grid|, i requires 0 <= i < |grid| => grid[i].count)
  }

  /** The per-slot tallies of `samples`, in grid order. */
  ghost function Tallies(samples: seq<Slot>): (r: seq<nat>)
    ensures |r| == GridSize
  {
    seq(GridSize, i requires 0 <= i < GridSize => Occurrences(samples, Slot(i / Hours, i % Hours)))
  }

  /** One more sample adds one to its own cell, when it has one, and nothing elsewhere. */
  lemma {:induction false} TalliesStep(samples: seq<Slot>, x: Slot)
    ensures InGrid(x) ==>
      Tallies(samples + [x]) == Tallies(samples)[x.day * Hours + x.hour := Tallies(samples)[x.day * Hours + x.hour] + 1]
    ensures !InGrid(x) ==> Tallies(samples + [x]) == Tallies(samples)
  {
    var s' := samples + [x];
    assert s'[..|s'| - 1] == samples;
    forall i | 0 <= i < GridSize
      ensures Occurrences(s', Slot(i / Hours, i % Hours)) ==
        Occurrences(samples, Slot(i / Hours, i % Hours)) + (if x == Slot(i / Hours, i % Hours) then 1 else 0)
    {
    }
    if InGrid(x) {
      var j := x.day * Hours + x.hour;
      assert j / Hours == x.day && j % Hours == x.hour;
      forall i | 0 <= i < GridSize
        ensures x == Slot(i / Hours, i % Hours) <==> i == j
      {
        assert i == (i / Hours) * Hours + i % Hours;
      }
    }
  }

  /** The tallies add up to the number of samples that fall inside the grid. */
  lemma {:induction false} TalliesSum(samples: seq<Slot>)
    ensures Seqs.Sum(Tallies(samples)) == InGridCount(samples)
    decreases |samples|
  {
    if samples == [] {
      assert Tallies(samples) == seq(GridSize, i => 0);
      ZeroSum(GridSize);
    } else {
      var init := samples[..|samples| - 1];
      var x := samples[|samples| - 1];
      assert samples == init + [x];
      TalliesSum(init);
      TalliesStep(init, x);
      if InGrid(x) {
        Seqs.SumIncrement(Tallies(init), x.day * Hours + x.hour);
      }
    }
  }

  lemma {:induction false} ZeroSum(n: nat)
    ensures Seqs.Sum(seq(n, i => 0)) == 0
  {
    if n > 0 {
      assert seq(n, i => 0)[1..] == seq(n - 1, i => 0);
      ZeroSum(n - 1);
    }
  }

  /** Sum preservation: the cells of a punch card add up to the number of
      sampled commits that fall inside the grid, which is all of them for
      commits with a valid date. */
  lemma {:induction false} GridSum(grid: seq<Cell>, samples: seq<Slot>)
    requires IsGridFor(grid, samples)
    ensures Seqs.Sum(Counts(grid)) == InGridCount(samples)
    ensures (forall i :: 0 <= i < |samples| ==> InGrid(samples[i])) ==> Seqs.Sum(Counts(grid)) == |samples|
  {
    assert Counts(grid) == Tallies(samples);
    TalliesSum(samples);
    AllInGridCount(samples);
  }

  lemma {:induction false} AllInGridCount(samples: seq<Slot>)
    ensures (forall i :: 0 <= i < |samples| ==> InGrid(samples[i])) ==> InGridCount(samples) == |samples|
  {
    if samples != [] {
      AllInGridCount(samples[..|samples| - 1]);
    }
  }

  /** Samples that all share one slot: that cell holds all of them, every other cell zero. */
  lemma {:induction false} SingleSlot(samples: seq<Slot>, k: Slot, other: Slot)
    requires forall i :: 0 <= i < |samples| ==> samples[i] == k
    requires other != k
    ensures Occurrences(samples, k) == |samples|
    ensures Occurrences(samples, other) == 0
  {
    if samples != [] {
      SingleSlot(samples[..|samples| - 1], k, other);
    }
  }

  /** The hook's state: `data`, `totalCommits`, `isLoading`, `error`. */
  datatype CommitsView = CommitsView(data: seq<Cell>, totalCommits: int, isLoading: bool, error: string)

  const Initial: CommitsView := CommitsView([], 0, false, "")
  const InvalidFormat: string := "Invalid format"
  const NotFound: string := "Repository not found or private."

  /** The state after `fetchCommits(repoPath)` settles with `reply` (which is
      never looked at when the identifier is refused, since no request is made). */
  method FetchCommits(prev: CommitsView, repoPath: string, reply: Http.Outcome<seq<Slot>>)
    returns (next: CommitsView)
    ensures !next.isLoading
    ensures Identifier.Parse(repoPath).None? ==>
      next == CommitsView([], prev.totalCommits, false, InvalidFormat)
    ensures Identifier.Parse(repoPath).Some? && reply.NetworkError? ==>
      next == CommitsView([], prev.totalCommits, false, reply.message)
    ensures Identifier.Parse(repoPath).Some? && reply.Response? && !Http.IsOk(reply.status) ==>
      next == CommitsView([], prev.totalCommits, false, NotFound)
    ensures Identifier.Parse(repoPath).Some? && Http.OkButMalformed(reply) ==>
      next == CommitsView([], prev.totalCommits, false, reply.body.message)
    ensures Identifier.Parse(repoPath).Some? && Http.Delivered(reply) ==>
      next.error == "" && next.totalCommits == |reply.body.value| && IsGridFor(next.data, reply.body.value)
  {
    // setIsLoading(true); setError(''); setData([])
    next := prev.(data := [], isLoading := true, error := "");
    var id := Identifier.Parse(repoPath);
    if id.None? {
      next := next.(error := InvalidFormat);
    } else {
      match reply
      case NetworkError(msg) =>
        next := next.(error := msg);
      case Response(status, body) =>
        if !Http.IsOk(status) {
          next := next.(error := NotFound);
        } else if body.Malformed? {
          next := next.(error := body.message);
        } else {
          var samples := body.value;
          next := next.(totalCommits := |samples|);
          var grid := BuildGrid(samples);
          next := next.(data := grid);
        }
    }
    // finally: setIsLoading(false)
    next := next.(isLoading := false);
  }
}
