/** The language hook (`useLanguages`): a map from language name to byte
    count becomes a list of percentages with display colours, largest first. */
module Languages {
  import Http
  import Identifier
  import Seqs
  import opened Wrappers

  /** One entry of the decoded `{ name: bytes }` object, in `Object.entries` order. */
  datatype RawEntry = RawEntry(name: string, bytes: nat)

  /** `LANGUAGE_COLORS`, as (language, colour) pairs in declaration order. */
  const LanguageColors: seq<(string, string)> := [
    ("TypeScript", "#3178c6"), ("JavaScript", "#f1e05a"), ("Python", "#3572A5"),
    ("HTML", "#e34c26"), ("CSS", "#563d7c"), ("Vue", "#41b883"), ("Shell", "#89e051"),
    ("Go", "#00ADD8"), ("Java", "#b07219"), ("PHP", "#4F5D95"), ("Rust", "#dea584"),
    ("Swift", "#F05138"), ("Ruby", "#701516"), ("C", "#555555"), ("C++", "#f34b7d"),
    ("C#", "#178600"), ("SCSS", "#c6538c"), ("Other", "#6e7681")]

  const FallbackColor: string := "#6e7681"

  /** The colour of `name` in `table`, if it has one. */
  function Lookup(table: seq<(string, string)>, name: string): (r: Option<string>)
    ensures r.None? <==> forall i :: 0 <= i < |table| ==> table[i].0 != name
    ensures r.Some? ==> exists i :: 0 <= i < |table| && table[i] == (name, r.value)
  {
    if table == [] then None
    else if table[0].0 == name then Some(table[0].1)
    else Lookup(table[1..], name)
  }

  /** `LANGUAGE_COLORS[name] || '#6e7681'`. */
  function ColorOf(name: string): (c: string)
    ensures Lookup(LanguageColors, name).Some? ==> c == Lookup(LanguageColors, name).value
    ensures Lookup(LanguageColors, name).None? ==> c == FallbackColor
  {
    match Lookup(LanguageColors, name)
    case Some(c) => c
    case None => FallbackColor
  }

  /** Lookup skips every entry before the first one with the name. */
  lemma {:induction false} LookupSkip(table: seq<(string, string)>, name: string, k: nat)
    requires k <= |table|
    requires forall i :: 0 <= i < k ==> table[i].0 != name
    ensures Lookup(table, name) == Lookup(table[k..], name)
    decreases k
  {
    if k > 0 {
      assert table[1..][k - 1..] == table[k..];
      LookupSkip(table[1..], name, k - 1);
    }
  }

  /** The language called "Other" gets the fallback colour, so it looks like
      any language missing from the table; a listed language does not. */
  lemma {:induction false} OtherIsFallback()
    ensures ColorOf("Other") == FallbackColor
    ensures ColorOf("TypeScript") == "#3178c6" != FallbackColor
  {
    LookupSkip(LanguageColors, "Other", 17);
  }

  /** `LanguageStat`. `value` is the percentage as `toFixed(1)` leaves it,
      held as a whole number of tenths of a percent (452 for 45.2%). */
  datatype LanguageStat = LanguageStat(name: string, bytes: nat, value: nat, color: string)

  /** `Object.values(rawData).reduce((a, b) => a + b, 0)`. */
  function TotalBytes(raw: seq<RawEntry>): nat {
    if raw == [] then 0 else raw[0].bytes + TotalBytes(raw[1..])
  }

  /** Whole-number division by repeated subtraction. */
  function Quotient(n: nat, d: nat): nat
    requires d > 0
    decreases n
  {
    if n < d then 0 else 1 + Quotient(n - d, d)
  }

  /** `Quotient` is floor division: `d * q <= n < d * q + d`. */
  lemma {:induction false} QuotientBounds(n: nat, d: nat)
    requires d > 0
    ensures d * Quotient(n, d) <= n < d * Quotient(n, d) + d
    decreases n
  {
    if n >= d {
      QuotientBounds(n - d, d);
      assert d * Quotient(n, d) == d + d * Quotient(n - d, d);
    }
  }

  /** `parseFloat(((bytes / totalBytes) * 100).toFixed(1))` in tenths: the
      share `1000 * bytes / total` rounded to a whole number, halves up. */
  function Tenths(bytes: nat, total: nat): nat
    requires total > 0
  {
    Quotient(2000 * bytes + total, 2 * total)
  }

  /** `Tenths` rounds to the nearest tenth: it is off from the exact share
      by at most half a tenth. */
  lemma {:induction false} TenthsRounds(bytes: nat, total: nat)
    requires total > 0
    ensures 2 * total * Tenths(bytes, total) <= 2000 * bytes + total < 2 * total * Tenths(bytes, total) + 2 * total
  {
    QuotientBounds(2000 * bytes + total, 2 * total);
  }

  /** More dividend never gives a smaller quotient. */
  lemma {:induction false} QuotientMonotone(m: nat, n: nat, d: nat)
    requires d > 0 && m <= n
    ensures Quotient(m, d) <= Quotient(n, d)
    decreases n
  {
    if m >= d {
      QuotientMonotone(m - d, n - d, d);
    }
  }

  /** A language with more bytes never shows a smaller percentage, so the
      sort by percentage never puts a larger language after a smaller one
      unless both round to the same tenth. */
  lemma {:induction false} TenthsMonotone(b1: nat, b2: nat, total: nat)
    requires total > 0 && b1 <= b2
    ensures Tenths(b1, total) <= Tenths(b2, total)
  {
    QuotientMonotone(2000 * b1 + total, 2000 * b2 + total, 2 * total);
  }

  function StatOf(e: RawEntry, total: nat): LanguageStat
    requires total > 0
  {
    LanguageStat(e.name, e.bytes, Tenths(e.bytes, total), ColorOf(e.name))
  }

  /** Step 2 of the hook: one stat per entry, in entry order. */
  function Stats(raw: seq<RawEntry>, total: nat): (r: seq<LanguageStat>)
    requires total > 0
    ensures |r| == |raw|
    ensures forall i :: 0 <= i < |raw| ==> r[i] == StatOf(raw[i], total)
  {
    if raw == [] then [] else [StatOf(raw[0], total)] + Stats(raw[1..], total)
  }

  function ValueOf(s: LanguageStat): int {
    s.value
  }

  /** The hook's result for a decoded map: nothing when the total is zero
      (no division happens), otherwise the stats sorted by rounded percentage,
      largest first, ties kept in entry order. */
  function Breakdown(raw: seq<RawEntry>): (r: seq<LanguageStat>)
    ensures TotalBytes(raw) == 0 ==> r == []
    ensures TotalBytes(raw) > 0 ==> multiset(r) == multiset(Stats(raw, TotalBytes(raw)))
    ensures TotalBytes(raw) > 0 ==> |r| == |raw|
    ensures Seqs.SortedDesc(r, ValueOf)
  {
    var total := TotalBytes(raw);
    if total == 0 then [] else Seqs.SortDesc(Stats(raw, total), ValueOf)
  }

  /** Every output entry is the stat of some raw entry: its name, byte
      count, rounded percentage and colour. */
  lemma {:induction false} BreakdownEntry(raw: seq<RawEntry>, s: LanguageStat)
    requires s in Breakdown(raw)
    ensures TotalBytes(raw) > 0
    ensures exists i :: 0 <= i < |raw| && s == StatOf(raw[i], TotalBytes(raw))
  {
    Seqs.SortDescFrom(Stats(raw, TotalBytes(raw)), ValueOf, s);
  }

  /** Every raw entry shows up in the output. */
  lemma {:induction false} BreakdownHas(raw: seq<RawEntry>, i: int)
    requires TotalBytes(raw) > 0
    requires 0 <= i < |raw|
    ensures StatOf(raw[i], TotalBytes(raw)) in Breakdown(raw)
  {
    Seqs.SortDescKeeps(Stats(raw, TotalBytes(raw)), ValueOf, i);
  }

  /** Summing the per-language rounding bound of `TenthsRounds`: each share
      is within half a tenth of its exact value, so n shares are within n
      halves of the exact total. */
  lemma {:induction false} StatsSum(raw: seq<RawEntry>, total: nat)
    requires total > 0
    ensures var s := Seqs.SumOf(Stats(raw, total), ValueOf);
      (2 * total) * s <= 2000 * TotalBytes(raw) + total * |raw| &&
      2000 * TotalBytes(raw) + total * |raw| + |raw| <= (2 * total) * s + (2 * total) * |raw|
    decreases |raw|
  {
    if raw != [] {
      var rest := raw[1..];
      StatsSum(rest, total);
      TenthsRounds(raw[0].bytes, total);
      var t := Tenths(raw[0].bytes, total);
      var s' := Seqs.SumOf(Stats(rest, total), ValueOf);
      assert Stats(raw, total)[1..] == Stats(rest, total);
      var whole := Seqs.SumOf(Stats(raw, total), ValueOf);
      assert whole == t + s';
      Distribute(2 * total, t, s', whole);
      Distribute(total, 1, |rest|, |raw|);
      Distribute(2 * total, 1, |rest|, |raw|);
    } else {
      assert Stats(raw, total) == [];
    }
  }

  /** Multiplication distributes over addition. */
  lemma {:induction false} Distribute(a: int, b: int, c: int, sum: int)
    requires sum == b + c
    ensures a * sum == a * b + a * c
  {
  }

  /** A positive factor can be cancelled from both sides of a comparison. */
  lemma {:induction false} Cancel(t: nat, a: int, b: int)
    requires t > 0
    ensures t * a <= t * b ==> a <= b
    ensures t * a < t * b ==> a < b
  {
    if a >= b {
      Distribute(t, b, a - b, a);
      assert t * (a - b) >= a - b;
    }
  }

  /** Doubling either factor doubles the product. */
  lemma {:induction false} Double(t: int, x: int)
    ensures (2 * t) * x == t * (2 * x)
  {
  }

  /** The shown percentages add up to 100% up to rounding: the n shares, in
      tenths, sum to 1000 give or take n halves, whatever the sort did to
      their order. */
  lemma {:induction false} BreakdownSum(raw: seq<RawEntry>)
    requires TotalBytes(raw) > 0
    ensures var s := Seqs.SumOf(Breakdown(raw), ValueOf);
      2 * s <= 2000 + |raw| && 2000 + |raw| < 2 * s + 2 * |raw|
  {
    var total := TotalBytes(raw);
    var n := |raw|;
    assert n > 0;
    assert Breakdown(raw) == Seqs.SortDesc(Stats(raw, total), ValueOf);
    Seqs.SumOfSort(Stats(raw, total), ValueOf, ValueOf);
    StatsSum(raw, total);
    var s := Seqs.SumOf(Breakdown(raw), ValueOf);
    Double(total, s);
    Double(total, n);
    Distribute(total, 2000, n, 2000 + n);
    Distribute(total, 2 * s, 2 * n, 2 * s + 2 * n);
    Cancel(total, 2 * s, 2000 + n);
    ScaledUpper(total, s, n);
  }

  /** Dividing the upper half of `StatsSum` by the total: the strict bound
      survives because at least one share was rounded. */
  lemma {:induction false} ScaledUpper(t: int, s: int, n: int)
    requires t > 0 && n > 0
    requires 2000 * t + t * n + n <= (2 * t) * s + (2 * t) * n
    ensures 2000 + n < 2 * s + 2 * n
  {
    if 2 * s + 2 * n <= 2000 + n {
      var x := 2000 + n;
      var y := 2 * s + 2 * n;
      var d := x - y;
      Distribute(t, y, d, x);
      assert t * d >= 0;
      Distribute(t, 2000, n, x);
      Distribute(t, 2 * s, 2 * n, y);
      Double(t, s);
      Double(t, n);
      assert false;
    }
  }

  /** The hook's state: `data`, `topLanguage`, `isLoading`, `error`. */
  datatype LanguagesView = LanguagesView(data: seq<LanguageStat>, topLanguage: string, isLoading: bool, error: string)

  const Initial: LanguagesView := LanguagesView([], "", false, "")
  const InvalidFormat: string := "Invalid format"
  const NotFound: string := "Repo not found."

  /** The state after `fetchLanguages(repoPath)` settles with `reply`. The
      zero-total path returns before `setTopLanguage`, so the previous top
      language survives it, as it survives every error. */
  function FetchLanguages(prev: LanguagesView, repoPath: string, reply: Http.Outcome<seq<RawEntry>>)
    : (next: LanguagesView)
    ensures !next.isLoading
    ensures Identifier.Parse(repoPath).None? ==> next == LanguagesView([], prev.topLanguage, false, InvalidFormat)
    ensures Identifier.Parse(repoPath).Some? && reply.NetworkError? ==>
      next == LanguagesView([], prev.topLanguage, false, reply.message)
    ensures Identifier.Parse(repoPath).Some? && reply.Response? && !Http.IsOk(reply.status) ==>
      next == LanguagesView([], prev.topLanguage, false, NotFound)
    ensures Identifier.Parse(repoPath).Some? && Http.OkButMalformed(reply) ==>
      next == LanguagesView([], prev.topLanguage, false, reply.body.message)
    ensures Identifier.Parse(repoPath).Some? && Http.Delivered(reply) && TotalBytes(reply.body.value) == 0 ==>
      next == LanguagesView([], prev.topLanguage, false, "")
    ensures Identifier.Parse(repoPath).Some? && Http.Delivered(reply) && TotalBytes(reply.body.value) > 0 ==>
      next.error == "" && next.data == Breakdown(reply.body.value) && |next.data| > 0 &&
      next.topLanguage == next.data[0].name &&
      forall i :: 0 <= i < |next.data| ==> next.data[0].value >= next.data[i].value
  {
    var loading := prev.(data := [], isLoading := true, error := "");
    var settled :=
      if Identifier.Parse(repoPath).None? then loading.(error := InvalidFormat)
      else match reply
        case NetworkError(msg) => loading.(error := msg)
        case Response(status, body) =>
          if !Http.IsOk(status) then loading.(error := NotFound)
          else if body.Malformed? then loading.(error := body.message)
          else
            var raw := body.value;
            if TotalBytes(raw) == 0 then loading.(data := [])
            else
              var stats := Breakdown(raw);
              assert |stats| == |raw| > 0;
              assert forall i :: 0 <= i < |stats| ==> ValueOf(stats[0]) >= ValueOf(stats[i]);
              loading.(data := stats, topLanguage := stats[0].name);
    settled.(isLoading := false)
  }
}
