/** The few JavaScript string primitives the toolkit relies on: the ECMAScript
    whitespace class (what `trim` removes and `\s` matches), `trim`,
    `startsWith`, and `split`/`join` on a single separator character. */
module Strings {

  /** ECMAScript WhiteSpace and LineTerminator code points. */
  predicate IsWs(c: char) {
    || c == '\t' || c == '\n' || c == '\U{B}' || c == '\U{C}' || c == '\r' || c == ' '
    || c == '\U{A0}' || c == '\U{1680}' || ('\U{2000}' <= c <= '\U{200A}')
    || c == '\U{2028}' || c == '\U{2029}' || c == '\U{202F}' || c == '\U{205F}'
    || c == '\U{3000}' || c == '\U{FEFF}'
  }

  predicate NoWs(s: string) {
    forall i :: 0 <= i < |s| ==> !IsWs(s[i])
  }

  predicate StartsWith(s: string, prefix: string) {
    |prefix| <= |s| && s[..|prefix|] == prefix
  }

  /** Length of the run of whitespace at the front of `s`. */
  function LeadingWs(s: string): (n: nat)
    ensures n <= |s|
    ensures forall i :: 0 <= i < n ==> IsWs(s[i])
    ensures n < |s| ==> !IsWs(s[n])
  {
    if s == [] || !IsWs(s[0]) then 0 else 1 + LeadingWs(s[1..])
  }

  /** Length of the run of whitespace at the back of `s`. */
  function TrailingWs(s: string): (n: nat)
    ensures n <= |s|
    ensures forall i :: |s| - n <= i < |s| ==> IsWs(s[i])
    ensures n < |s| ==> !IsWs(s[|s| - n - 1])
  {
    if s == [] || !IsWs(s[|s| - 1]) then 0 else 1 + TrailingWs(s[..|s| - 1])
  }

  /** `s[i..i + n]` is an infix of `s` with only whitespace before and after it. */
  predicate WsPadded(s: string, i: int, n: int) {
    && 0 <= i && 0 <= n && i + n <= |s|
    && (forall k :: 0 <= k < i ==> IsWs(s[k]))
    && (forall k :: i + n <= k < |s| ==> IsWs(s[k]))
  }

  /** `String.prototype.trim`: the infix of `s` left after removing whitespace
      at both ends. */
  function Trim(s: string): (r: string)
    ensures r == [] || (!IsWs(r[0]) && !IsWs(r[|r| - 1]))
    ensures exists i :: WsPadded(s, i, |r|) && r == s[i..i + |r|]
  {
    var a := LeadingWs(s);
    var rest := s[a..];
    var r := rest[..|rest| - TrailingWs(rest)];
    assert r == s[a..a + |r|];
    assert forall k :: a + |r| <= k < |s| ==> s[k] == rest[k - a];
    assert WsPadded(s, a, |r|);
    r
  }

  /** Trimming a string with no whitespace at its ends changes nothing. */
  lemma TrimNoEdgeWs(s: string)
    requires s == [] || (!IsWs(s[0]) && !IsWs(s[|s| - 1]))
    ensures Trim(s) == s
  {
    var a := LeadingWs(s);
    assert a == 0;
    assert s[a..] == s;
  }

  /** Trimming is idempotent. */
  lemma TrimIdempotent(s: string)
    ensures Trim(Trim(s)) == Trim(s)
  {
    TrimNoEdgeWs(Trim(s));
  }

  /** `s.split(sep)`: the pieces between occurrences of `sep`; there is always
      at least one piece, and the empty string splits to `[""]`. */
  function Split(s: string, sep: char): (r: seq<string>)
    ensures |r| >= 1
    ensures forall k :: 0 <= k < |r| ==> sep !in r[k]
  {
    if s == [] then [""]
    else
      var rest := Split(s[1..], sep);
      if s[0] == sep then [""] + rest else [[s[0]] + rest[0]] + rest[1..]
  }

  /** `xs.join(sep)`. */
  function Join(xs: seq<string>, sep: char): string {
    if |xs| == 0 then ""
    else if |xs| == 1 then xs[0]
    else xs[0] + [sep] + Join(xs[1..], sep)
  }

  /** Joining the pieces of a split gives back the original string. */
  lemma {:induction false} JoinSplit(s: string, sep: char)
    ensures Join(Split(s, sep), sep) == s
  {
    if s != [] {
      var rest := Split(s[1..], sep);
      JoinSplit(s[1..], sep);
      if s[0] == sep {
        assert Join([""] + rest, sep) == "" + [sep] + Join(rest, sep);
      } else if |rest| == 1 {
        assert Join([[s[0]] + rest[0]], sep) == [s[0]] + rest[0];
      } else {
        var xs := [[s[0]] + rest[0]] + rest[1..];
        assert xs[1..] == rest[1..];
        assert Join(rest, sep) == rest[0] + [sep] + Join(rest[1..], sep);
      }
    }
  }

  /** A piece free of the separator, followed by the separator, splits off as one piece. */
  lemma {:induction false} SplitPiece(a: string, sep: char, rest: string)
    requires sep !in a
    ensures Split(a + [sep] + rest, sep) == [a] + Split(rest, sep)
    ensures Split(a, sep) == [a]
  {
    if a == [] {
      assert a + [sep] + rest == [sep] + rest;
    } else {
      SplitPiece(a[1..], sep, rest);
      assert (a + [sep] + rest)[1..] == a[1..] + [sep] + rest;
      assert [a[0]] + a[1..] == a;
    }
  }

  /** Splitting a join of separator-free pieces gives back the pieces. */
  lemma {:induction false} SplitJoin(xs: seq<string>, sep: char)
    requires |xs| >= 1
    requires forall k :: 0 <= k < |xs| ==> sep !in xs[k]
    ensures Split(Join(xs, sep), sep) == xs
  {
    if |xs| == 1 {
      SplitPiece(xs[0], sep, "");
    } else {
      SplitJoin(xs[1..], sep);
      SplitPiece(xs[0], sep, Join(xs[1..], sep));
      assert [xs[0]] + xs[1..] == xs;
    }
  }

  /** The first character of a join of non-empty pieces is that of the first piece. */
  lemma JoinFirst(xs: seq<string>, sep: char)
    requires |xs| >= 1 && |xs[0]| >= 1
    ensures |Join(xs, sep)| >= 1 && Join(xs, sep)[0] == xs[0][0]
  {
  }

  /** The last character of a join of non-empty pieces is that of the last piece. */
  lemma {:induction false} JoinLast(xs: seq<string>, sep: char)
    requires |xs| >= 1 && |xs[|xs| - 1]| >= 1
    ensures var j := Join(xs, sep); |j| >= 1 && j[|j| - 1] == xs[|xs| - 1][|xs[|xs| - 1]| - 1]
  {
    if |xs| > 1 {
      JoinLast(xs[1..], sep);
    }
  }

  /** A join contains no whitespace when neither the pieces nor the separator do. */
  lemma {:induction false} JoinNoWs(xs: seq<string>, sep: char)
    requires !IsWs(sep)
    requires forall k :: 0 <= k < |xs| ==> NoWs(xs[k])
    ensures NoWs(Join(xs, sep))
  {
    if |xs| > 1 {
      JoinNoWs(xs[1..], sep);
      var j := Join(xs, sep);
      assert j == xs[0] + [sep] + Join(xs[1..], sep);
      forall i | 0 <= i < |j| ensures !IsWs(j[i]) {
        if i < |xs[0]| {
          assert j[i] == xs[0][i];
        } else if i > |xs[0]| {
          assert j[i] == Join(xs[1..], sep)[i - |xs[0]| - 1];
        }
      }
    }
  }

  /** A join avoids a character that neither the pieces nor the separator contain. */
  lemma {:induction false} JoinAvoids(xs: seq<string>, sep: char, c: char)
    requires sep != c
    requires forall k :: 0 <= k < |xs| ==> c !in xs[k]
    ensures c !in Join(xs, sep)
  {
    if |xs| > 1 {
      JoinAvoids(xs[1..], sep, c);
    }
  }

  /** Joining one more piece adds the separator and the piece at the end. */
  lemma {:induction false} JoinSnoc(xs: seq<string>, sep: char, c: string)
    requires |xs| >= 1
    ensures Join(xs + [c], sep) == Join(xs, sep) + [sep] + c
    decreases |xs|
  {
    if |xs| == 1 {
      assert Join(xs + [c], sep) == xs[0] + [sep] + Join([c], sep);
    } else {
      assert (xs + [c])[1..] == xs[1..] + [c];
      JoinSnoc(xs[1..], sep, c);
    }
  }
}
