/**
 * The record's fields as a sequence: `Split` cuts a text at EVERY ':' and
 * `Join` puts fields back together with ':' between them. They are the
 * reference the positional parser of the codec is compared with.
 */
module Fields {

  /** Number of ':' characters in `s`. */
  function Colons(s: string): nat
  {
    multiset(s)[':']
  }

  predicate ColonFree(t: string)
  {
    ':' !in t
  }

  /** `s` cut at every ':'. */
  function Split(s: string): (fs: seq<string>)
    ensures |fs| > 0
    ensures forall i :: 0 <= i < |fs| ==> ColonFree(fs[i])
  {
    if s == [] then [""]
    else
      var r := Split(s[1..]);
      if s[0] == ':' then [""] + r else [[s[0]] + r[0]] + r[1..]
  }

  /** There is always one field more than there are colons. */
  lemma {:induction false} SplitCount(s: string)
    ensures |Split(s)| == Colons(s) + 1
  {
    if s != [] {
      SplitCount(s[1..]);
      assert s == [s[0]] + s[1..];
      assert multiset(s) == multiset([s[0]]) + multiset(s[1..]);
    }
  }

  /** The fields with a ':' between each two. */
  function Join(fs: seq<string>): string
    requires |fs| > 0
  {
    if |fs| == 1 then fs[0] else fs[0] + ":" + Join(fs[1..])
  }

  /** Joining the fields of a text gives the text back. */
  lemma {:induction false} JoinSplit(s: string)
    ensures Join(Split(s)) == s
  {
    if s != [] {
      var r := Split(s[1..]);
      JoinSplit(s[1..]);
      if s[0] == ':' {
        assert Split(s) == [""] + r;
        assert (Split(s))[1..] == r;
      } else {
        var fs := Split(s);
        assert fs[0] == [s[0]] + r[0] && fs[1..] == r[1..];
        if |r| > 1 {
          assert r == [r[0]] + r[1..];
          assert Join(r) == r[0] + ":" + Join(r[1..]);
        }
      }
    }
  }

  /** A colon-free prefix sticks to the first field. */
  lemma {:induction false} SplitPrefix(a: string, rest: string)
    requires ColonFree(a)
    ensures var r := Split(rest); Split(a + rest) == [a + r[0]] + r[1..]
  {
    if a != [] {
      var r := Split(rest);
      SplitPrefix(a[1..], rest);
      var big := Split(a[1..] + rest);
      assert big[0] == a[1..] + r[0] && big[1..] == r[1..];
      assert (a + rest)[1..] == a[1..] + rest;
      assert (a + rest)[0] == a[0] && a[0] != ':';
      assert Split(a + rest) == [[a[0]] + big[0]] + big[1..];
      assert [a[0]] + (a[1..] + r[0]) == a + r[0];
    } else {
      var r := Split(rest);
      assert a + rest == rest && a + r[0] == r[0];
      assert r == [r[0]] + r[1..];
    }
  }

  /** Splitting colon-free fields joined with ':' gives the fields back. */
  lemma {:induction false} SplitJoin(fs: seq<string>)
    requires |fs| > 0 && forall i :: 0 <= i < |fs| ==> ColonFree(fs[i])
    ensures Split(Join(fs)) == fs
  {
    if |fs| == 1 {
      SplitPrefix(fs[0], []);
      assert fs[0] + [] == fs[0];
    } else {
      var j := Join(fs[1..]);
      assert Join(fs) == fs[0] + (":" + j);
      SplitJoin(fs[1..]);
      SplitColon(j);
      SplitPrefix(fs[0], ":" + j);
      assert fs[0] + "" == fs[0];
      assert fs == [fs[0]] + fs[1..];
    }
  }

  lemma SplitColon(j: string)
    ensures Split(":" + j) == [""] + Split(j)
  {
    assert (":" + j)[1..] == j;
  }

  /** After the first field and its ':', the rest splits into the remaining fields. */
  lemma SplitRest(t: string)
    requires |Split(t)| > 1
    ensures var fs := Split(t);
      |fs[0]| < |t| && t[..|fs[0]|] == fs[0] && t[|fs[0]|] == ':' &&
      Split(t[|fs[0]| + 1..]) == fs[1..]
  {
    var fs := Split(t);
    JoinSplit(t);
    assert t == fs[0] + ":" + Join(fs[1..]);
    assert t[|fs[0]| + 1..] == Join(fs[1..]);
    SplitJoin(fs[1..]);
  }

  /** Joining two non-empty groups of fields puts one ':' between them. */
  lemma {:induction false} JoinAppend(a: seq<string>, b: seq<string>)
    requires |a| > 0 && |b| > 0
    ensures Join(a + b) == Join(a) + ":" + Join(b)
    decreases |a|
  {
    if |a| == 1 {
      assert (a + b)[1..] == b;
    } else {
      JoinAppend(a[1..], b);
      assert (a + b)[1..] == a[1..] + b;
    }
  }
}
