/** `cx(...classes)`: the truthy class names, joined by single spaces. */
module ClassNames {
  import opened Wrappers
  import opened Seqs
  import opened Strings

  /** A class argument: a string, or absent (`undefined`). */
  type Arg = Option<string>

  /** `Boolean(a)` for a class argument: present and not the empty string. */
  predicate Truthy(a: Arg) {
    a.Some? && a.value != ""
  }

  /** The class names `filter(Boolean)` keeps, in order. */
  function Kept(args: seq<Arg>): (r: seq<string>)
    ensures |r| <= |args|
    ensures forall c :: c in r <==> Some(c) in args && c != ""
  {
    var t := Filter(Truthy, args);
    var r := Map((a: Arg) => a.GetOr(""), t);
    assert forall c :: c in r ==> exists a :: a in t && c == a.GetOr("");
    assert forall c :: Some(c) in t ==> Some(c).GetOr("") in r;
    r
  }

  /** Adding an argument at the end adds its class name at the end of the
      kept names when it is truthy, and nothing otherwise: order and repeats
      are kept. */
  lemma KeptSnoc(args: seq<Arg>, a: Arg)
    ensures Kept(args + [a]) == Kept(args) + (if Truthy(a) then [a.value] else [])
  {
    assert (args + [a])[..|args|] == args;
    var t := Filter(Truthy, args);
    var t' := Filter(Truthy, args + [a]);
    var k, k' := Kept(args), Kept(args + [a]);
    if Truthy(a) {
      assert t' == t + [a];
      assert |k'| == |k| + 1;
      forall i | 0 <= i < |k'|
        ensures k'[i] == (k + [a.value])[i]
      {
        assert k'[i] == t'[i].GetOr("");
        if i < |k| {
          assert k[i] == t[i].GetOr("");
        }
      }
    } else {
      assert t' == t;
    }
  }

  /** No arguments keep no class names. */
  lemma KeptEmpty()
    ensures Kept([]) == []
  {
  }

  /** `cx`: the kept class names joined by single spaces. The class string is
      empty exactly when no argument is truthy. */
  function Cx(args: seq<Arg>): (r: string)
    ensures r == "" <==> forall a :: a in args ==> !Truthy(a)
  {
    var k := Kept(args);
    assert k != [] ==> Join(k, ' ') != "" by {
      if k != [] {
        assert k[0] in k;
        JoinFirst(k, ' ');
      }
    }
    assert k == [] ==> forall a :: a in args ==> !Truthy(a) by {
      forall a | a in args && Truthy(a) ensures k != [] {
        assert a.value in k;
      }
    }
    Join(k, ' ')
  }

  /** An absent or empty argument at the end changes nothing. */
  lemma CxIgnoresFalsy(args: seq<Arg>, a: Arg)
    requires !Truthy(a)
    ensures Cx(args + [a]) == Cx(args)
  {
    assert (args + [a])[..|args|] == args;
  }

  /** A truthy argument at the end becomes the whole class string when it is
      the first truthy one, and is appended after one space otherwise. */
  lemma CxAppends(args: seq<Arg>, c: string)
    requires c != ""
    ensures Cx(args + [Some(c)]) == if Kept(args) == [] then c else Cx(args) + " " + c
  {
    var k := Kept(args);
    KeptSnoc(args, Some(c));
    if k == [] {
      assert k + [c] == [c];
    } else {
      JoinSnoc(k, ' ', c);
    }
  }

  /** Splitting the class string at spaces gives back the kept class names,
      when none of them contains a space. */
  lemma CxSplits(args: seq<Arg>)
    requires Kept(args) != []
    requires forall a :: a in args && a.Some? ==> ' ' !in a.value
    ensures Split(Cx(args), ' ') == Kept(args)
  {
    var k := Kept(args);
    forall i | 0 <= i < |k| ensures ' ' !in k[i] {
      assert k[i] in k;
    }
    SplitJoin(k, ' ');
  }
}
