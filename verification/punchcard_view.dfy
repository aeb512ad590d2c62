/** The labelling and plotting rules of the punch-card chart (`CommitPunchCard`). */
module PunchCardView {
  import opened Wrappers
  import Text
  import Seqs
  import Commits

  /** `DAYS`, indexed like `getDay()`: 0 is Sunday. */
  const DayNames: seq<string> := ["Sun", "Mon", "Tue", "Wed", "Thu", "Fri", "Sat"]

  /** `formatHour`: 0 is "12am", 12 is "12pm", later hours count from noon. */
  function FormatHour(tick: nat): (r: string)
    ensures |r| >= 3
    ensures r[|r| - 2..] == (if tick < 12 then "am" else "pm")
    ensures tick == 0 ==> r == "12am"
    ensures tick == 12 ==> r == "12pm"
    ensures 0 < tick < 12 ==> r == Text.NatToString(tick) + "am"
    ensures 12 < tick ==> r == Text.NatToString(tick - 12) + "pm"
  {
    var digits := if tick == 0 || tick == 12 then "12" else Text.NatToString(if tick > 12 then tick - 12 else tick);
    var suffix := if tick < 12 then "am" else "pm";
    EndsWith(digits, suffix);
    digits + suffix
  }

  lemma {:induction false} EndsWith(s: string, suffix: string)
    requires |s| >= 1 && |suffix| == 2
    ensures |s + suffix| >= 3 && (s + suffix)[|s + suffix| - 2..] == suffix
  {
  }

  /** Reads a 12-hour clock label back to an hour of the day: a number
      from 1 to 12 written without a leading zero, then "am" or "pm";
      "12am" is midnight and "12pm" is noon. */
  function ParseHour(clock: string): (r: Option<nat>)
    ensures r.Some? ==> r.value < 24
  {
    if |clock| < 3 || |clock| > 4 then None
    else
      var digits := clock[..|clock| - 2];
      var suffix := clock[|clock| - 2..];
      if !Text.IsDigits(digits) || digits[0] == '0' then None
      else
        var n := Text.ParseNat(digits);
        if n < 1 || 12 < n then None
        else if suffix == "am" then Some(n % 12)
        else if suffix == "pm" then Some(n % 12 + 12)
        else None
  }

  /** Every hour of the day gets a label that reads back to it, so no two
      hours share a label. */
  lemma {:induction false} FormatHourRoundTrip(h: nat)
    requires h < 24
    ensures ParseHour(FormatHour(h)) == Some(h)
  {
    var clock := FormatHour(h);
    if h == 0 || h == 12 {
      assert clock[..|clock| - 2] == "12";
      assert Text.ParseNat("12") == 12 by {
        assert "12"[..1] == "1";
      }
    } else {
      var n := if h > 12 then h - 12 else h;
      var digits := Text.NatToString(n);
      assert clock == digits + (if h > 12 then "pm" else "am");
      assert clock[..|clock| - 2] == digits;
      Text.ParsePrinted(n);
    }
  }

  /** The other direction: every label `ParseHour` reads is the label of
      the hour it reads, so the labels are exactly the clock readings. */
  lemma {:induction false} ParseHourFormats(clock: string)
    requires ParseHour(clock).Some?
    ensures FormatHour(ParseHour(clock).value) == clock
  {
    var digits := clock[..|clock| - 2];
    var suffix := clock[|clock| - 2..];
    assert clock == digits + suffix;
    Text.PrintParsed(digits);
    var n := Text.ParseNat(digits);
    if n == 12 {
      assert Text.NatToString(12) == "12" by {
        assert Text.NatToString(1) == "1";
      }
    }
  }

  /** The day and hour headline of the tooltip: `${DAYS[day]} at ${formatHour(hour)}`. */
  function TooltipTitle(c: Commits.Cell): (r: string)
    requires 0 <= c.day < 7 && 0 <= c.hour
    ensures |r| >= |DayNames[c.day]| + 7
    ensures r[..|DayNames[c.day]| + 4] == DayNames[c.day] + " at "
    ensures r[|r| - 2..] == (if c.hour < 12 then "am" else "pm")
  {
    var r := DayNames[c.day] + " at " + FormatHour(c.hour);
    assert r[..|DayNames[c.day]| + 4] == DayNames[c.day] + " at ";
    assert r[|r| - 2..] == FormatHour(c.hour)[|FormatHour(c.hour)| - 2..];
    r
  }

  /** The headline names the cell's weekday, and the clock label after
      " at " reads back as the cell's hour. */
  lemma {:induction false} TooltipReadsBack(c: Commits.Cell)
    requires 0 <= c.day < 7 && 0 <= c.hour < 24
    ensures var r := TooltipTitle(c);
      ParseHour(r[|DayNames[c.day]| + 4..]) == Some(c.hour)
  {
    var r := TooltipTitle(c);
    assert r[|DayNames[c.day]| + 4..] == FormatHour(c.hour);
    FormatHourRoundTrip(c.hour);
  }

  /** `count === 1 ? 'commit' : 'commits'`. */
  function CountWord(count: nat): (r: string)
    ensures r == "commit" <==> count == 1
    ensures r == "commits" <==> count != 1
  {
    if count == 1 then "commit" else "commits"
  }

  /** A cell is drawn when it holds at least one commit. */
  predicate Drawn(c: Commits.Cell) {
    c.count > 0
  }

  /** The cells that are drawn: `data.filter(d => d.count > 0)`. */
  function Plotted(grid: seq<Commits.Cell>): (r: seq<Commits.Cell>)
    ensures Seqs.SubsequenceOf(r, grid)
    ensures forall c :: c in r ==> c in grid && c.count > 0
    ensures forall c :: c in grid && c.count > 0 ==> c in r
  {
    Seqs.FilterSubsequence(grid, Drawn);
    Seqs.Filter(grid, Drawn)
  }

  /** The first cell is drawn exactly when it holds commits. */
  lemma {:induction false} PlottedHead(grid: seq<Commits.Cell>)
    requires grid != []
    ensures Plotted(grid) == (if grid[0].count > 0 then [grid[0]] else []) + Plotted(grid[1..])
  {
    Seqs.FilterHead(grid, Drawn);
  }

  /** The sum of a grid's counts is its first count plus the rest. */
  lemma {:induction false} SumCountsHead(grid: seq<Commits.Cell>)
    requires grid != []
    ensures Seqs.Sum(Commits.Counts(grid)) == grid[0].count + Seqs.Sum(Commits.Counts(grid[1..]))
  {
    assert Commits.Counts(grid)[1..] == Commits.Counts(grid[1..]);
  }

  /** Dropping the empty cells loses no commits. */
  lemma {:induction false} PlottedKeepsSum(grid: seq<Commits.Cell>)
    ensures Seqs.Sum(Commits.Counts(Plotted(grid))) == Seqs.Sum(Commits.Counts(grid))
  {
    if grid != [] {
      PlottedKeepsSum(grid[1..]);
      PlottedHead(grid);
      SumCountsHead(grid);
      if grid[0].count > 0 {
        var kept := Plotted(grid);
        assert kept[0] == grid[0] && kept[1..] == Plotted(grid[1..]);
        SumCountsHead(kept);
      }
    }
  }

  /** For a punch card, the day axis label of every cell is its weekday name
      and Sunday is the first day. */
  lemma {:induction false} DayLabels(grid: seq<Commits.Cell>, samples: seq<Commits.Slot>, i: int)
    requires Commits.IsGridFor(grid, samples)
    requires 0 <= i < |grid|
    ensures 0 <= grid[i].day < 7 && DayNames[grid[i].day] == DayNames[i / 24]
    ensures grid[i].day == 0 <==> i < 24
    ensures i < 24 ==> DayNames[grid[i].day] == "Sun"
  {
  }
}
