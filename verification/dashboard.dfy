/** The dashboard page: its submit rule, the size label of the repository
    card and the language pie. */
module Dashboard {
  import opened Wrappers
  import Identifier
  import Languages
  import Seqs

  /** `repoInput`, `repoPath`, `dateRange`. */
  datatype DashboardState = DashboardState(repoInput: string, repoPath: string, dateRange: string)

  const Initial: DashboardState := DashboardState("facebook/react", "facebook/react", "7d")

  /** `handleRepoSubmit`: the typed text becomes the repository when it has a slash. */
  function HandleRepoSubmit(st: DashboardState): (next: DashboardState)
    ensures next.repoInput == st.repoInput && next.dateRange == st.dateRange
    ensures Identifier.HasSlash(st.repoInput) ==> next.repoPath == st.repoInput
    ensures !Identifier.HasSlash(st.repoInput) ==> next == st
  {
    if Identifier.HasSlash(st.repoInput) then st.(repoPath := st.repoInput) else st
  }

  /** Submitting twice is submitting once, and the path only ever takes a
      value with a slash or keeps its old one. */
  lemma {:induction false} SubmitIdempotent(st: DashboardState)
    ensures HandleRepoSubmit(HandleRepoSubmit(st)) == HandleRepoSubmit(st)
    ensures Identifier.HasSlash(st.repoPath) ==> Identifier.HasSlash(HandleRepoSubmit(st).repoPath)
  {
  }

  /** The label `formatSize` builds: kilobytes as given, or megabytes or
      gigabytes to one decimal, held as a whole number of tenths. */
  datatype SizeLabel = Kilobytes(kb: nat) | Megabytes(tenths: nat) | Gigabytes(tenths: nat)

  const KilobytesPerMegabyte: nat := 1024
  const KilobytesPerGigabyte: nat := 1048576

  /** `(kb / unit).toFixed(1)` in tenths. Dividing a whole number by a power
      of two is exact in binary floating point, so the rounding is the one of
      the exact quotient, and `toFixed` rounds a tie up. */
  function RoundTenths(kb: nat, unit: nat): nat
    requires unit > 0
  {
    Languages.Quotient(20 * kb + unit, 2 * unit)
  }

  /** `formatSize(kb)`. `mb < 1024` holds exactly when `kb` is below 1024
      squared, since `mb` is `kb / 1024` without error. */
  function FormatSize(kb: nat): (r: SizeLabel)
    ensures r.Kilobytes? <==> kb < KilobytesPerMegabyte
    ensures r.Megabytes? <==> KilobytesPerMegabyte <= kb < KilobytesPerGigabyte
    ensures r.Gigabytes? <==> KilobytesPerGigabyte <= kb
    ensures r.Kilobytes? ==> r.kb == kb
  {
    if kb < KilobytesPerMegabyte then Kilobytes(kb)
    else if kb < KilobytesPerGigabyte then Megabytes(RoundTenths(kb, KilobytesPerMegabyte))
    else Gigabytes(RoundTenths(kb, KilobytesPerGigabyte))
  }

  /** The tenths shown are the nearest to the exact size in the chosen unit. */
  lemma {:induction false} FormatSizeRounds(kb: nat)
    ensures FormatSize(kb).Megabytes? ==>
      var t := FormatSize(kb).tenths; 2048 * t <= 20 * kb + 1024 < 2048 * t + 2048
    ensures FormatSize(kb).Gigabytes? ==>
      var t := FormatSize(kb).tenths; 2097152 * t <= 20 * kb + 1048576 < 2097152 * t + 2097152
  {
    if kb >= KilobytesPerGigabyte {
      Languages.QuotientBounds(20 * kb + 1048576, 2097152);
    } else if kb >= KilobytesPerMegabyte {
      Languages.QuotientBounds(20 * kb + 1024, 2048);
    }
  }

  /** The `mb < 1024` choice of unit and the rounding do not agree at the top of the megabyte
      range: one kilobyte short of a gigabyte is labelled "1024.0 MB". */
  lemma {:induction false} MegabyteTop()
    ensures FormatSize(1048575) == Megabytes(10240)
  {
    Languages.QuotientBounds(20 * 1048575 + 1024, 2048);
  }

  /** One slice of the language pie; `value` is `None` where the source
      computes `NaN`. */
  datatype ChartSlice = ChartSlice(name: string, value: Option<nat>, bytes: nat)

  /** `Math.round((value / total) * 100)`: the percentage rounded half up,
      `NaN` when the total is zero. */
  function Percent(bytes: nat, total: nat): Option<nat> {
    if total == 0 then None else Some(Languages.Quotient(200 * bytes + total, 2 * total))
  }

  /** `transformLanguagesForChart()`: the first five entries in map order,
      each with its name, its byte count and its share of the total over ALL
      entries. */
  function TransformLanguages(languages: Option<seq<Languages.RawEntry>>): (r: seq<ChartSlice>)
    ensures languages.None? ==> r == []
    ensures languages.Some? ==> |r| == Seqs.Min(5, |languages.value|)
    ensures languages.Some? ==> forall i :: 0 <= i < |r| ==>
      r[i].name == languages.value[i].name && r[i].bytes == languages.value[i].bytes &&
      (r[i].value.None? <==> Languages.TotalBytes(languages.value) == 0)
  {
    match languages
    case None => []
    case Some(entries) =>
      var total := Languages.TotalBytes(entries);
      seq(Seqs.Min(5, |entries|), i requires 0 <= i < Seqs.Min(5, |entries|) =>
        ChartSlice(entries[i].name, Percent(entries[i].bytes, total), entries[i].bytes))
  }

  lemma {:induction false} MulMonotone(a: nat, b: nat, c: nat)
    requires b <= c
    ensures a * b <= a * c
  {
    assert a * c - a * b == a * (c - b);
  }

  /** A shown percentage is the nearest whole percent to the exact share,
      and never above 100 for a language within the total. */
  lemma {:induction false} PercentRounds(bytes: nat, total: nat)
    requires total > 0
    ensures var v := Percent(bytes, total).value;
      2 * total * v <= 200 * bytes + total < 2 * total * v + 2 * total
    ensures bytes <= total ==> Percent(bytes, total).value <= 100
  {
    var v := Percent(bytes, total).value;
    Languages.QuotientBounds(200 * bytes + total, 2 * total);
    if bytes <= total && v > 100 {
      MulMonotone(2 * total, 101, v);
      assert false;
    }
  }

  /** A language's bytes never exceed the total they are part of. */
  lemma {:induction false} EntryWithinTotal(entries: seq<Languages.RawEntry>, i: int)
    requires 0 <= i < |entries|
    ensures entries[i].bytes <= Languages.TotalBytes(entries)
  {
    if i > 0 {
      EntryWithinTotal(entries[1..], i - 1);
    }
  }

  /** Every shown percentage is the language's share of the total over ALL
      languages, rounded to the nearest whole percent, and so a number from
      0 to 100, unless the total is zero. */
  lemma {:induction false} SlicesAtMost100(entries: seq<Languages.RawEntry>, i: int)
    requires Languages.TotalBytes(entries) > 0
    requires 0 <= i < |TransformLanguages(Some(entries))|
    ensures TransformLanguages(Some(entries))[i].value.Some?
    ensures TransformLanguages(Some(entries))[i].value.value <= 100
    ensures var t := Languages.TotalBytes(entries); var v := TransformLanguages(Some(entries))[i].value.value;
      2 * t * v <= 200 * entries[i].bytes + t < 2 * t * v + 2 * t
  {
    EntryWithinTotal(entries, i);
    PercentRounds(entries[i].bytes, Languages.TotalBytes(entries));
  }

  /** The denominator is the total over every language: with six languages
      of equal size the five shown slices read 17% each, not 20%. */
  lemma {:induction false} SharesOfAll(entries: seq<Languages.RawEntry>)
    requires |entries| == 6 && forall i :: 0 <= i < |entries| ==> entries[i].bytes == 1
    ensures |TransformLanguages(Some(entries))| == 5
    ensures forall k :: 0 <= k < 5 ==> TransformLanguages(Some(entries))[k].value == Some(17)
  {
    UnitTotal(entries);
    OneSixth();
  }

  /** Languages of one byte each total their number. */
  lemma {:induction false} UnitTotal(entries: seq<Languages.RawEntry>)
    requires forall i :: 0 <= i < |entries| ==> entries[i].bytes == 1
    ensures Languages.TotalBytes(entries) == |entries|
  {
    if entries != [] {
      UnitTotal(entries[1..]);
    }
  }

  /** One byte in six rounds to 17%. */
  lemma {:induction false} OneSixth()
    ensures Percent(1, 6) == Some(17)
  {
    Languages.QuotientBounds(206, 12);
  }

  /** A map whose byte counts are all zero gives `NaN` slices rather than an
      empty pie. */
  lemma {:induction false} ZeroTotalGivesNaN()
    ensures TransformLanguages(Some([Languages.RawEntry("Go", 0)])) == [ChartSlice("Go", None, 0)]
  {
  }
}
