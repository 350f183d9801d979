/** `actionables`: four threshold rules per metric, de-duplication on the
    severity name glued to the text, and recovery of the severity from that
    glued string. */
module Insights {
  import opened Wrappers
  import opened Seqs
  import opened Strings
  import opened Metrics

  datatype Severity = Warn | Stop | Go {
    function Name(): string {
      match this
      case Warn => "warn"
      case Stop => "stop"
      case Go => "go"
    }
  }

  datatype Insight = Insight(severity: Severity, text: string)

  /** A template slot: an absent cell prints as "undefined". */
  function Shown(v: Option<string>): string {
    if v.Some? then v.value else "undefined"
  }


  /** The four rules of `actionables`, in the order they are checked. */
  datatype Rule = LowCtr | LowRoas | HighCpa | Scale {
    function Severity(): Severity {
      match this
      case LowCtr => Warn
      case LowRoas => Stop
      case HighCpa => Warn
      case Scale => Go
    }

    /** The rule's threshold test. */
    predicate Fires(m: Metric) {
      match this
      case LowCtr => m.ctr < 0.7
      case LowRoas => m.roas < 1.0
      case HighCpa => m.cpa > 80.0
      case Scale => m.roas > 3.0 && m.ctr > 1.0
    }

    /** The rule's message about the metric's ad and campaign. */
    function Text(m: Metric): string {
      match this
      case LowCtr => "Low CTR for " + Shown(m.Ad()) + " in " + Shown(m.Campaign()) + ". Test first-frame hook and thumb-stop."
      case LowRoas => "ROAS < 1 on " + Shown(m.Ad()) + ". Tighten audience, creative hook, or pause."
      case HighCpa => "High CPA on " + Shown(m.Campaign()) + "/" + Shown(m.Ad()) + ". Trial geo-dayparting or intent signals."
      case Scale => "Scale winner: " + Shown(m.Ad()) + " in " + Shown(m.Campaign()) + ". +20% budget with guardrails."
    }

    function InsightFor(m: Metric): Insight {
      Insight(Severity(), Text(m))
    }
  }

  const Rules: seq<Rule> := [LowCtr, LowRoas, HighCpa, Scale]

  /** Different rules never produce the same message: the four texts start
      with different letters. */
  lemma TextsDiffer(a: Rule, b: Rule, m: Metric)
    requires a != b
    ensures a.Text(m) != b.Text(m)
  {
    assert LowCtr.Text(m)[0] == 'L';
    assert LowRoas.Text(m)[0] == 'R';
    assert HighCpa.Text(m)[0] == 'H';
    assert Scale.Text(m)[0] == 'S';
  }

  /** The insights of all four rules for one metric, in rule order. */
  function AllInsights(m: Metric): seq<Insight> {
    [LowCtr.InsightFor(m), LowRoas.InsightFor(m), HighCpa.InsightFor(m), Scale.InsightFor(m)]
  }

  /** The rule tests on one metric, as a selector. */
  function FiresOn(m: Metric): Rule -> bool {
    (k: Rule) => k.Fires(m)
  }

  /** The rule messages about one metric, as a mapping. */
  function InsightOn(m: Metric): Rule -> Insight {
    (k: Rule) => k.InsightFor(m)
  }

  /** The insights one metric raises: those of the rules that fire, in rule order. */
  function RuleInsights(m: Metric): (r: seq<Insight>)
    ensures |r| <= 4
    ensures forall x :: x in r <==> exists k :: k in Rules && k.Fires(m) && x == k.InsightFor(m)
    ensures IsSubsequence(r, AllInsights(m))
  {
    RaisedMembers(m);
    RaisedInRuleOrder(m);
    Map(InsightOn(m), Filter(FiresOn(m), Rules))
  }

  lemma RaisedMembers(m: Metric)
    ensures var r := Map(InsightOn(m), Filter(FiresOn(m), Rules));
            |r| <= 4 && forall x :: x in r <==> exists k :: k in Rules && k.Fires(m) && x == k.InsightFor(m)
  {
    var fired := Filter(FiresOn(m), Rules);
    var r := Map(InsightOn(m), fired);
    assert forall x :: x in r ==> exists k :: k in fired && x == k.InsightFor(m);
    assert forall k :: k in fired ==> k.InsightFor(m) in r;
  }

  lemma RaisedInRuleOrder(m: Metric)
    ensures IsSubsequence(Map(InsightOn(m), Filter(FiresOn(m), Rules)), AllInsights(m))
  {
    var fired := Filter(FiresOn(m), Rules);
    FilterIsSubsequence(FiresOn(m), Rules);
    InRuleOrder(m, fired, Map(InsightOn(m), fired));
  }

  /** Mapping an ordered selection of the rules to their insights gives an
      ordered selection of all insights. */
  lemma InRuleOrder(m: Metric, fired: seq<Rule>, r: seq<Insight>)
    requires IsSubsequence(fired, Rules)
    requires |r| == |fired| && forall i :: 0 <= i < |r| ==> r[i] == fired[i].InsightFor(m)
    ensures IsSubsequence(r, AllInsights(m))
  {
    var idx :| Embedding(idx, fired, Rules);
    var all := AllInsights(m);
    forall j | 0 <= j < 4
      ensures all[j] == Rules[j].InsightFor(m)
    {
    }
    assert Embedding(idx, r, all);
  }

  /** Each rule's insight is raised exactly when its threshold is crossed. */
  lemma RulesFire(k: Rule, m: Metric)
    ensures k.InsightFor(m) in RuleInsights(m) <==> k.Fires(m)
  {
    if k.InsightFor(m) in RuleInsights(m) {
      var j :| j in Rules && j.Fires(m) && k.InsightFor(m) == j.InsightFor(m);
      if j != k {
        TextsDiffer(j, k, m);
      }
    }
  }

  /** No metric is told both to stop and to scale. */
  lemma NeverStopAndGo(m: Metric)
    ensures forall a, b :: a in RuleInsights(m) && b in RuleInsights(m) ==> !(a.severity == Stop && b.severity == Go)
  {
    var r := RuleInsights(m);
    forall a, b | a in r && b in r
      ensures !(a.severity == Stop && b.severity == Go)
    {
      SeverityMeans(m, a);
      SeverityMeans(m, b);
    }
  }

  /** A raised stop means ROAS below 1, and a raised go means ROAS above 3. */
  lemma SeverityMeans(m: Metric, x: Insight)
    requires x in RuleInsights(m)
    ensures x.severity == Stop ==> m.roas < 1.0
    ensures x.severity == Go ==> m.roas > 3.0
  {
    var k :| k in Rules && k.Fires(m) && x == k.InsightFor(m);
    assert x.severity == k.Severity();
  }

  /** `out`: every metric's insights, metric by metric. */
  function Raw(ms: seq<Metric>): seq<Insight> {
    FlatMap(RuleInsights, ms)
  }

  /** An insight is in the raw list exactly when some metric's rule raises it. */
  lemma RawMembers(ms: seq<Metric>, x: Insight)
    ensures x in Raw(ms) <==> exists i :: 0 <= i < |ms| && x in RuleInsights(ms[i])
  {
    FlatMapMembers(RuleInsights, ms, x);
  }

  /** `o.severity + o.text`. */
  function Key(i: Insight): string {
    i.severity.Name() + i.text
  }

  /** Different insights never share a key: the severity names differ in
      their first letter. */
  lemma KeyInjective(a: Insight, b: Insight)
    ensures Key(a) == Key(b) ==> a == b
  {
    if Key(a) == Key(b) {
      assert Key(a)[0] == Key(b)[0];
      var n := |a.severity.Name()|;
      assert a.text == Key(a)[n..];
    }
  }

  /** The code's recovery of an insight from its key: the severity is "stop"
      or "go" by prefix and "warn" otherwise, and only a "stop" or "go"
      prefix is removed from the text. */
  function Recover(s: string): (r: Insight)
    ensures StartsWith(s, "stop") ==> r == Insight(Stop, s[4..])
    ensures !StartsWith(s, "stop") && StartsWith(s, "go") ==> r == Insight(Go, s[2..])
    ensures !StartsWith(s, "stop") && !StartsWith(s, "go") ==> r == Insight(Warn, s)
  {
    if StartsWith(s, "stop") then Insight(Stop, s[4..])
    else if StartsWith(s, "go") then Insight(Go, s[2..])
    else Insight(Warn, s)
  }

  /** Stop and go insights survive the round trip through their key, but a
      warn insight comes back with "warn" glued to the front of its text. */
  lemma RecoverKey(t: string)
    ensures Recover(Key(Insight(Stop, t))) == Insight(Stop, t)
    ensures Recover(Key(Insight(Go, t))) == Insight(Go, t)
    ensures Recover(Key(Insight(Warn, t))) == Insight(Warn, "warn" + t)
  {
    var stop, go, warn := Key(Insight(Stop, t)), Key(Insight(Go, t)), Key(Insight(Warn, t));
    assert stop[..4] == "stop" && stop[4..] == t;
    assert go[1] == 'o' && go[..2] == "go" && go[2..] == t;
    assert warn[0] == 'w' && warn == "warn" + t;
  }

  /** Distinct strings recover to distinct insights. */
  lemma RecoverInjective(s: string, u: string)
    ensures Recover(s) == Recover(u) ==> s == u
  {
    if Recover(s) == Recover(u) {
      if StartsWith(s, "stop") {
        assert s == s[..4] + s[4..];
        assert u == u[..4] + u[4..];
      } else if StartsWith(s, "go") {
        assert s == s[..2] + s[2..];
        assert u == u[..2] + u[2..];
      }
    }
  }

  /** `actionables` as written: the raised insights, each passed through its
      text key and back, with repeated keys removed. The output holds no
      repeats, and an item is in it exactly when it is the recovered key of
      some raised insight. */
  function Actionables(ms: seq<Metric>): (r: seq<Insight>)
    ensures Distinct(r)
    ensures forall x :: x in r <==> exists y :: y in Raw(ms) && x == Recover(Key(y))
  {
    RecoveredKeys(Raw(ms));
    Map(Recover, Dedupe(Map(Key, Raw(ms))))
  }

  /** Recovering the distinct keys of some insights gives distinct items, one
      for each recovered key. */
  lemma RecoveredKeys(raw: seq<Insight>)
    ensures Distinct(Map(Recover, Dedupe(Map(Key, raw))))
    ensures forall x :: x in Map(Recover, Dedupe(Map(Key, raw))) <==> exists y :: y in raw && x == Recover(Key(y))
  {
    var keys := Dedupe(Map(Key, raw));
    var out := Map(Recover, keys);
    forall i, j | 0 <= i < j < |out| ensures out[i] != out[j] {
      RecoverInjective(keys[i], keys[j]);
    }
    forall x | x in out ensures exists y :: y in raw && x == Recover(Key(y)) {
      var i :| 0 <= i < |out| && out[i] == x;
      assert keys[i] in Map(Key, raw);
      var j :| 0 <= j < |raw| && Map(Key, raw)[j] == keys[i];
      assert raw[j] in raw;
    }
    forall y | y in raw ensures Recover(Key(y)) in out {
      var j :| 0 <= j < |raw| && raw[j] == y;
      assert Key(y) == Map(Key, raw)[j];
      assert Key(y) in keys;
      var i :| 0 <= i < |keys| && keys[i] == Key(y);
      assert out[i] == Recover(Key(y));
    }
  }

  /** The output follows the raised insights with repeats removed, each
      kept at its first occurrence, passed through the key and back. */
  lemma ActionablesOrder(ms: seq<Metric>)
    ensures Actionables(ms) == Map((x: Insight) => Recover(Key(x)), Dedupe(Raw(ms)))
  {
    forall a, b ensures Key(a) == Key(b) ==> a == b {
      KeyInjective(a, b);
    }
    DedupeMapInjective(Key, Raw(ms));
  }

  /** A metric with a low click-through rate is shown as a warning whose text
      starts with the letters "warn", and never with the rule's own message. */
  lemma WarnKeepsPrefix(ms: seq<Metric>, i: int)
    requires 0 <= i < |ms| && ms[i].ctr < 0.7
    ensures Insight(Warn, "warn" + LowCtr.Text(ms[i])) in Actionables(ms)
    ensures Insight(Warn, LowCtr.Text(ms[i])) !in Actionables(ms)
  {
    var y := LowCtr.InsightFor(ms[i]);
    RulesFire(LowCtr, ms[i]);
    RawMembers(ms, y);
    RecoverKey(y.text);
    NoBareWarning(ms, LowCtr.Text(ms[i]));
  }

  /** No shown warning carries a text that does not start with "warn". */
  lemma NoBareWarning(ms: seq<Metric>, t: string)
    requires |t| > 0 && t[0] != 'w'
    ensures Insight(Warn, t) !in Actionables(ms)
  {
    forall z | z in Raw(ms) ensures Recover(Key(z)) != Insight(Warn, t) {
      RecoverKey(z.text);
      if z.severity == Warn {
        assert Recover(Key(z)).text[0] == 'w';
      }
    }
  }

  /** The evidently intended recovery: every severity's prefix is removed. */
  function RecoverFixed(s: string): Insight {
    if StartsWith(s, "stop") then Insight(Stop, s[4..])
    else if StartsWith(s, "go") then Insight(Go, s[2..])
    else if StartsWith(s, "warn") then Insight(Warn, s[4..])
    else Insight(Warn, s)
  }

  /** Every insight survives the round trip through its key. */
  lemma RecoverFixedKey(i: Insight)
    ensures RecoverFixed(Key(i)) == i
  {
    var k := Key(i);
    var n := |i.severity.Name()|;
    assert k[..n] == i.severity.Name() && k[n..] == i.text;
    assert k[0] == i.severity.Name()[0];
  }

  /** `actionables` with the intended recovery. */
  function ActionablesFixed(ms: seq<Metric>): seq<Insight> {
    Map(RecoverFixed, Dedupe(Map(Key, Raw(ms))))
  }

  /** With the intended recovery the output is exactly the raised insights
      with repeats removed: no repeats, nothing lost or invented, and first
      occurrences in their original order. */
  lemma ActionablesFixedIsDedupe(ms: seq<Metric>)
    ensures ActionablesFixed(ms) == Dedupe(Raw(ms))
    ensures Distinct(ActionablesFixed(ms))
    ensures forall x :: x in ActionablesFixed(ms) <==> x in Raw(ms)
  {
    forall a, b ensures Key(a) == Key(b) ==> a == b {
      KeyInjective(a, b);
    }
    DedupeMapInjective(Key, Raw(ms));
    var d := Dedupe(Raw(ms));
    var out := ActionablesFixed(ms);
    forall i | 0 <= i < |d| ensures out[i] == d[i] {
      RecoverFixedKey(d[i]);
    }
  }
}
