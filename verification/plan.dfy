/** The automation plan's arithmetic: week totals over the phases, the
    progress bar's percentage, and the phase cards' title prefix. */
module Plan {
  import opened Wrappers
  import opened Strings
  import opened Numbers

  /** A phase of the plan with its estimated window in weeks, `weeks: [lo, hi]`. */
  datatype Phase = Phase(key: string, title: string, lo: int, hi: int)

  /** A card title: "Phase", the phase number, a spaced en dash (U+2013),
      then the phase's name, as in "Phase 0 – Baseline & guardrails". */
  function Title(number: char, name: string): string {
    PhaseWord + [number, ' ', '–', ' '] + name
  }

  /** `PHASES`, with each title spelled through `Title`. */
  const Phases: seq<Phase> := [
    Phase("p0", Title('0', "Baseline & guardrails"), 1, 1),
    Phase("p1", Title('1', "Automated data ingestion (keep the sheet)"), 3, 5),
    Phase("p2", Title('2', "Alerts & daily summary"), 3, 4),
    Phase("p3", Title('3', "Month rollover & mid-month changes"), 4, 6),
    Phase("p4", Title('4', "Unified dashboard & role views"), 5, 7)
  ]

  /** The sum of the phases' best-case weeks, `weeks[0]`, as the header's
      `reduce` computes it. */
  function SumLo(ps: seq<Phase>): int
    decreases |ps|
  {
    if ps == [] then 0 else SumLo(ps[..|ps| - 1]) + ps[|ps| - 1].lo
  }

  /** The sum of the phases' worst-case weeks, `weeks[1]`, as the header's
      `reduce` computes it. */
  function SumHi(ps: seq<Phase>): int
    decreases |ps|
  {
    if ps == [] then 0 else SumHi(ps[..|ps| - 1]) + ps[|ps| - 1].hi
  }

  datatype PlanTotals = PlanTotals(min: int, max: int, mvpMin: int, mvpMax: int)

  /** The plan's totals: full rollout as the sums of the phase windows, and a
      fixed MVP window of 1 + 3 to 1 + 4 weeks. */
  function TotalsOf(ps: seq<Phase>): (t: PlanTotals)
    ensures t.mvpMin == 4 && t.mvpMax == 5
    ensures (forall i :: 0 <= i < |ps| ==> Ordered(ps[i])) ==> t.min <= t.max
  {
    var t := PlanTotals(SumLo(ps), SumHi(ps), 1 + 3, 1 + 4);
    if forall i :: 0 <= i < |ps| ==> Ordered(ps[i]) then SumsOrdered(ps); t else t
  }

  /** A phase estimates no fewer weeks at best than at worst. */
  predicate Ordered(p: Phase) {
    p.lo <= p.hi
  }

  /** When every phase's window is ordered, the full rollout's window is too. */
  lemma {:induction false} SumsOrdered(ps: seq<Phase>)
    requires forall i :: 0 <= i < |ps| ==> Ordered(ps[i])
    ensures SumLo(ps) <= SumHi(ps)
    decreases |ps|
  {
    if ps != [] {
      SumsOrdered(ps[..|ps| - 1]);
    }
  }

  /** The sums over phases placed end to end add up. */
  lemma {:induction false} SumsAppend(a: seq<Phase>, b: seq<Phase>)
    ensures SumLo(a + b) == SumLo(a) + SumLo(b)
    ensures SumHi(a + b) == SumHi(a) + SumHi(b)
    decreases |b|
  {
    if b == [] {
      assert a + b == a;
    } else {
      var n := |b| - 1;
      assert (a + b)[..|a + b| - 1] == a + b[..n];
      SumsAppend(a, b[..n]);
    }
  }

  /** Adding one phase at the end adds its window to the sums. */
  lemma SumsSnoc(ps: seq<Phase>, p: Phase)
    ensures SumLo(ps + [p]) == SumLo(ps) + p.lo
    ensures SumHi(ps + [p]) == SumHi(ps) + p.hi
  {
    assert (ps + [p])[..|ps|] == ps;
  }

  /** The declared phases total 16 to 23 weeks, matching the "~16–23 weeks"
      pill; the MVP window of 4 to 5 weeks matches the "~4–5 weeks" pill. */
  lemma DeclaredTotals()
    ensures TotalsOf(Phases) == PlanTotals(16, 23, 4, 5)
    ensures forall i :: 0 <= i < |Phases| ==> Ordered(Phases[i])
  {
    var ps := Phases;
    var p1 := [ps[0]];
    var p2 := p1 + [ps[1]];
    var p3 := p2 + [ps[2]];
    var p4 := p3 + [ps[3]];
    assert p4 + [ps[4]] == ps;
    SumsSnoc([], ps[0]);
    assert [] + [ps[0]] == p1;
    SumsSnoc(p1, ps[1]);
    SumsSnoc(p2, ps[2]);
    SumsSnoc(p3, ps[3]);
    SumsSnoc(p4, ps[4]);
  }

  /** A percentage, or JavaScript's NaN or Infinity. */
  datatype Percent = Finite(value: real) | NonFinite

  /** `Progress`: the share of `max` that `min` is, as a percentage; dividing
      by a zero maximum is not finite. */
  function ProgressPct(min: int, max: int): (r: Percent)
    ensures r.NonFinite? <==> max == 0
    ensures r.Finite? ==> r.value * (max as real) == (min as real) * 100.0
  {
    if max == 0 then NonFinite
    else
      var q := min as real / max as real;
      assert q * (max as real) == min as real;
      Finite(q * 100.0)
  }

  /** With a positive minimum no larger than the maximum, the bar is filled
      to more than 0% and at most 100%. */
  lemma ProgressBound(min: int, max: int)
    requires 0 < min <= max
    ensures ProgressPct(min, max).Finite?
    ensures 0.0 < ProgressPct(min, max).value <= 100.0
  {
    var q := min as real / max as real;
    assert q * (max as real) == min as real;
    assert 0.0 < q <= 1.0;
  }

  /** The overall-window bar for the declared plan is filled to 16/23, just
      under 70%. */
  lemma DeclaredProgress()
    ensures var t := TotalsOf(Phases);
            ProgressPct(t.min, t.max) == Finite(1600.0 / 23.0)
    ensures 69.0 < 1600.0 / 23.0 < 70.0
  {
    DeclaredTotals();
  }

  /** Length of the run of digits at the front of `s`. */
  function LeadingDigits(s: string): (n: nat)
    ensures n <= |s|
    ensures forall i :: 0 <= i < n ==> IsDigit(s[i])
    ensures n < |s| ==> !IsDigit(s[n])
  {
    if s == [] || !IsDigit(s[0]) then 0 else 1 + LeadingDigits(s[1..])
  }

  /** The literal before the phase number. */
  const PhaseWord: string := "Phase "

  /** The length of the prefix `/^Phase \d+\s–\s/` matches, if it matches:
      the word, one or more digits, then whitespace, an en dash and
      whitespace, one character each. */
  function PrefixLength(title: string): (r: Option<nat>)
    ensures r.Some? ==> r.value <= |title|
  {
    if !StartsWith(title, PhaseWord) then None
    else
      var d := LeadingDigits(title[6..]);
      var n := 6 + d;
      if d >= 1 && n + 3 <= |title| && IsWs(title[n]) && title[n + 1] == '–' && IsWs(title[n + 2])
      then Some(n + 3)
      else None
  }

  /** The title a phase card shows: the declared title without its leading
      "Phase N – " prefix when that prefix matches, and unchanged otherwise
      (`title.replace(/^Phase \d+\s–\s/, "")`). */
  function StripPhasePrefix(title: string): (r: string)
    ensures exists n :: 0 <= n <= |title| && r == title[n..]
    ensures PrefixLength(title).None? ==> r == title
  {
    var p := PrefixLength(title);
    // Each branch names its suffix, the witness of the first ensures.
    if p.Some? then
      assert title[p.value..] == title[p.value..];
      title[p.value..]
    else
      assert title[0..] == title;
      title
  }

  /** Conversely, a title that changes had exactly such a prefix: the word,
      one or more digits, whitespace, an en dash and whitespace, and the
      shown title after it. */
  lemma StripChanged(title: string)
    requires StripPhasePrefix(title) != title
    ensures exists digits, before, after :: |digits| >= 1 && AllDigits(digits) && IsWs(before) && IsWs(after) &&
              title == PhaseWord + digits + [before, '–', after] + StripPhasePrefix(title)
  {
    var d := LeadingDigits(title[6..]);
    var n := 6 + d;
    LeadingDigitsAll(title[6..]);
    assert title[6..][..d] == title[6..n];
    PrefixParts(title, n);
  }

  /** The digits a run counts are all digits. */
  lemma LeadingDigitsAll(s: string)
    ensures AllDigits(s[..LeadingDigits(s)])
  {
    var d := LeadingDigits(s);
    assert forall i :: 0 <= i < d ==> s[..d][i] == s[i];
  }

  /** A title cut around the word, the digits and the three characters of
      the spaced dash. */
  lemma PrefixParts(title: string, n: nat)
    requires 6 <= n && n + 3 <= |title| && StartsWith(title, PhaseWord)
    ensures title == PhaseWord + title[6..n] + [title[n], title[n + 1], title[n + 2]] + title[n + 3..]
  {
  }

  /** A hyphen where the en dash belongs leaves the title as it is. */
  lemma StripNeedsEnDash(digits: string, before: char, dash: char, after: char, rest: string)
    requires |digits| >= 1 && AllDigits(digits) && IsWs(before) && IsWs(after) && dash != '–'
    ensures StripPhasePrefix(PhaseWord + digits + [before, dash, after] + rest) == PhaseWord + digits + [before, dash, after] + rest
  {
    var t := PhaseWord + digits + [before, dash, after] + rest;
    assert t[..6] == PhaseWord;
    assert t[6..] == digits + ([before, dash, after] + rest);
    DigitsRun(digits, [before, dash, after] + rest);
    assert t[6 + |digits| + 1] == dash;
  }

  /** A title built from the word, a number, and the spaced dash loses
      exactly that prefix. */
  lemma StripBuilt(digits: string, before: char, after: char, rest: string)
    requires |digits| >= 1 && AllDigits(digits) && IsWs(before) && IsWs(after)
    ensures StripPhasePrefix(PhaseWord + digits + [before, '–', after] + rest) == rest
  {
    var t := PhaseWord + digits + [before, '–', after] + rest;
    assert t[..6] == PhaseWord;
    var tail := t[6..];
    assert tail == digits + ([before, '–', after] + rest);
    DigitsRun(digits, [before, '–', after] + rest);
    assert t[6 + |digits|] == before;
    assert t[6 + |digits| + 1] == '–';
    assert t[6 + |digits| + 2] == after;
    assert t[6 + |digits| + 3..] == rest;
  }

  lemma {:induction false} DigitsRun(digits: string, rest: string)
    requires AllDigits(digits)
    requires rest == [] || !IsDigit(rest[0])
    ensures LeadingDigits(digits + rest) == |digits|
    decreases |digits|
  {
    if digits != [] {
      assert (digits + rest)[1..] == digits[1..] + rest;
      DigitsRun(digits[1..], rest);
    } else {
      assert digits + rest == rest;
    }
  }

  /** A title that does not start with the word "Phase " is shown as it is. */
  lemma StripWithoutWord(title: string)
    requires !StartsWith(title, PhaseWord)
    ensures StripPhasePrefix(title) == title
  {
  }

  /** Every card title drops back to the phase's name. */
  lemma StripTitle(number: char, name: string)
    requires IsDigit(number)
    ensures StripPhasePrefix(Title(number, name)) == name
  {
    StripBuilt([number], ' ', ' ', name);
    assert PhaseWord + [number] + [' ', '–', ' '] + name == Title(number, name);
  }

  /** The first and last declared cards show their phases' names. */
  lemma DeclaredCardTitles()
    ensures StripPhasePrefix(Phases[0].title) == "Baseline & guardrails"
    ensures StripPhasePrefix(Phases[4].title) == "Unified dashboard & role views"
  {
    StripTitle('0', "Baseline & guardrails");
    StripTitle('4', "Unified dashboard & role views");
  }
}
