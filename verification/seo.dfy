/** The URL slug in the local-SEO planner's JSON-LD: lower-cased text with
    every run of whitespace replaced by one hyphen. */
module Seo {
  import opened Seqs
  import opened Strings

  /** Lower-casing of the ASCII capitals. */
  function LowerChar(c: char): (r: char)
    ensures 'A' <= c <= 'Z' ==> r as int == c as int + 32
    ensures !('A' <= c <= 'Z') ==> r == c
  {
    if 'A' <= c <= 'Z' then (c as int + 32) as char else c
  }

  /** `toLowerCase`, restricted to ASCII capitals. */
  function Lower(s: string): (r: string)
    ensures |r| == |s|
    ensures forall i :: 0 <= i < |s| ==> r[i] == LowerChar(s[i])
    ensures forall i :: 0 <= i < |s| ==> IsWs(r[i]) == IsWs(s[i])
  {
    Map(LowerChar, s)
  }

  /** `replace(/\s+/g, '-')`: each maximal run of whitespace becomes one hyphen. */
  function CollapseWs(s: string): (r: string)
    ensures NoWs(r)
    ensures |r| <= |s|
    ensures |r| == 0 <==> |s| == 0
    decreases |s|
  {
    if s == [] then []
    else if IsWs(s[0]) then
      var rest := CollapseWs(s[LeadingWs(s)..]);
      assert NoWs("-" + rest) by {
        assert forall i :: 1 <= i < |rest| + 1 ==> ("-" + rest)[i] == rest[i - 1];
      }
      "-" + rest
    else
      var rest := CollapseWs(s[1..]);
      assert forall i :: 1 <= i < |rest| + 1 ==> ([s[0]] + rest)[i] == rest[i - 1];
      [s[0]] + rest
  }

  /** Text without whitespace is left alone. */
  lemma {:induction false} CollapseNoWs(s: string)
    requires NoWs(s)
    ensures CollapseWs(s) == s
    decreases |s|
  {
    if s != [] {
      CollapseNoWs(s[1..]);
    }
  }

  /** Collapsing twice is collapsing once. */
  lemma CollapseIdempotent(s: string)
    ensures CollapseWs(CollapseWs(s)) == CollapseWs(s)
  {
    CollapseNoWs(CollapseWs(s));
  }

  /** A whitespace-free front passes through unchanged. */
  lemma {:induction false} CollapseFront(w: string, s: string)
    requires NoWs(w)
    ensures CollapseWs(w + s) == w + CollapseWs(s)
    decreases |w|
  {
    if w != [] {
      assert (w + s)[0] == w[0] && !IsWs(w[0]);
      assert (w + s)[1..] == w[1..] + s;
      assert NoWs(w[1..]) by {
        assert forall i :: 0 <= i < |w| - 1 ==> w[1..][i] == w[i + 1];
      }
      CollapseFront(w[1..], s);
      assert [w[0]] + (w[1..] + CollapseWs(s)) == w + CollapseWs(s);
    } else {
      assert w + s == s;
    }
  }

  predicate AllWs(s: string) {
    forall i :: 0 <= i < |s| ==> IsWs(s[i])
  }

  /** A whole run of whitespace, however long, becomes a single hyphen. */
  lemma CollapseRun(ws: string, s: string)
    requires |ws| > 0 && AllWs(ws)
    requires s == [] || !IsWs(s[0])
    ensures CollapseWs(ws + s) == "-" + CollapseWs(s)
  {
    var t := ws + s;
    assert forall i :: 0 <= i < |ws| ==> IsWs(t[i]);
    assert |s| > 0 ==> t[|ws|] == s[0];
    assert LeadingWs(t) == |ws|;
    assert t[|ws|..] == s;
  }

  /** A word, a run of whitespace, and text starting with a non-space: the
      run becomes one hyphen after the word. */
  lemma CollapseGap(w: string, gap: string, rest: string)
    requires NoWs(w) && |gap| > 0 && AllWs(gap)
    requires rest == [] || !IsWs(rest[0])
    ensures CollapseWs(w + gap + rest) == w + "-" + CollapseWs(rest)
  {
    CollapseFront(w, gap + rest);
    CollapseRun(gap, rest);
    assert w + gap + rest == w + (gap + rest);
    assert w + ("-" + CollapseWs(rest)) == w + "-" + CollapseWs(rest);
  }

  /** Words with a run of whitespace between each pair. */
  function Spaced(words: seq<string>, gaps: seq<string>): string
    requires |gaps| + 1 == |words|
    decreases |words|
  {
    if |words| == 1 then words[0] else words[0] + gaps[0] + Spaced(words[1..], gaps[1..])
  }

  /** Words separated by runs of whitespace of any kind and length come out
      separated by single hyphens. */
  lemma {:induction false} CollapseSpaced(words: seq<string>, gaps: seq<string>)
    requires |gaps| + 1 == |words|
    requires forall k :: 0 <= k < |words| ==> |words[k]| > 0 && NoWs(words[k])
    requires forall k :: 0 <= k < |gaps| ==> |gaps[k]| > 0 && AllWs(gaps[k])
    ensures CollapseWs(Spaced(words, gaps)) == Join(words, '-')
    decreases |words|
  {
    if |words| == 1 {
      CollapseNoWs(words[0]);
    } else {
      var rest := Spaced(words[1..], gaps[1..]);
      CollapseSpaced(words[1..], gaps[1..]);
      assert rest[0] == words[1][0];
      CollapseGap(words[0], gaps[0], rest);
    }
  }

  /** Words separated by single spaces come out separated by single hyphens. */
  lemma {:induction false} CollapseJoin(words: seq<string>)
    requires forall k :: 0 <= k < |words| ==> |words[k]| > 0 && NoWs(words[k])
    ensures CollapseWs(Join(words, ' ')) == Join(words, '-')
    decreases |words|
  {
    if |words| == 1 {
      CollapseNoWs(words[0]);
    } else if |words| > 1 {
      var rest := Join(words[1..], ' ');
      CollapseJoin(words[1..]);
      JoinFirst(words[1..], ' ');
      CollapseGap(words[0], " ", rest);
    }
  }

  /** The slug of a service or location name. */
  function Slug(s: string): (r: string)
    ensures NoWs(r)
  {
    CollapseWs(Lower(s))
  }

  /** The business URL in the JSON-LD: the site's address followed by the
      two slugs joined by a hyphen. It holds no whitespace, whatever the
      inputs. */
  function Url(service: string, location: string): (r: string)
    ensures StartsWith(r, "https://example.com/")
    ensures NoWs(r)
  {
    var a, b := Slug(service), Slug(location);
    var u := "https://example.com/" + a + "-" + b;
    assert u[..20] == "https://example.com/";
    assert NoWs(u) by {
      forall i | 0 <= i < |u| ensures !IsWs(u[i]) {
        if i < 20 {
          assert u[i] == "https://example.com/"[i];
        } else if i < 20 + |a| {
          assert u[i] == a[i - 20];
        } else if i > 20 + |a| {
          assert u[i] == b[i - 21 - |a|];
        }
      }
    }
    u
  }

  /** Lower-cased words separated by single spaces slug to those words
      joined by hyphens. */
  lemma SlugOfWords(words: seq<string>)
    requires forall k :: 0 <= k < |words| ==> |words[k]| > 0 && NoWs(words[k])
    requires forall k :: 0 <= k < |words| ==> Lower(words[k]) == words[k]
    ensures Slug(Join(words, ' ')) == Join(words, '-')
  {
    LowerJoin(words);
    CollapseJoin(words);
  }

  lemma {:induction false} LowerJoin(words: seq<string>)
    requires forall k :: 0 <= k < |words| ==> Lower(words[k]) == words[k]
    ensures Lower(Join(words, ' ')) == Join(words, ' ')
    decreases |words|
  {
    if |words| > 1 {
      LowerJoin(words[1..]);
      var j := Join(words, ' ');
      var rest := Join(words[1..], ' ');
      assert j == words[0] + [' '] + rest;
      forall i | 0 <= i < |j| ensures LowerChar(j[i]) == j[i] {
        if i < |words[0]| {
          assert j[i] == words[0][i] == Lower(words[0])[i];
        } else if i > |words[0]| {
          assert j[i] == rest[i - |words[0]| - 1] == Lower(rest)[i - |words[0]| - 1];
        }
      }
    }
  }

  /** "Electrical services" slugs to "electrical-services". */
  lemma SlugExample()
    ensures Slug("Electrical services") == "electrical-services"
  {
    LowerExample();
    assert Join(["electrical", "services"], ' ') == "electrical services";
    assert Join(["electrical", "services"], '-') == "electrical-services";
    CollapseJoin(["electrical", "services"]);
  }

  lemma LowerExample()
    ensures Lower("Electrical services") == "electrical services"
  {
  }
}
