/** Python's `text.split(' ')` and `' '.join(words)`, on `string = seq<char>`.
    `split(' ')` splits on every single space and keeps empty words, so
    `"a  b".split(' ') == ["a", "", "b"]` and `"".split(' ') == [""]`. */
module Words {

  /** `s.split(' ')`: at least one word, and no word holds a space. */
  function Split(s: string): (words: seq<string>)
    ensures |words| >= 1
    ensures forall w :: w in words ==> ' ' !in w
    decreases |s|
  {
    if |s| == 0 then [""]
    else
      var rest := Split(s[1..]);
      if s[0] == ' ' then [""] + rest
      else [[s[0]] + rest[0]] + rest[1..]
  }

  /** `' '.join(words)`: empty for no words, otherwise the words' characters
      plus exactly one separator between each two neighbours. */
  function Join(words: seq<string>): (s: string)
    ensures |words| == 0 ==> s == ""
    ensures |words| >= 1 ==> |s| == TotalLength(words) + |words| - 1
    decreases |words|
  {
    if |words| == 0 then ""
    else if |words| == 1 then words[0]
    else words[0] + " " + Join(words[1..])
  }

  /** The number of characters in all the words together. */
  function TotalLength(words: seq<string>): nat
    decreases |words|
  {
    if |words| == 0 then 0 else |words[0]| + TotalLength(words[1..])
  }

  /** A non-empty join starts with the first word and ends with the last. */
  lemma {:induction false} JoinEnds(words: seq<string>)
    requires |words| >= 1
    ensures words[0] <= Join(words)
    ensures |words[|words| - 1]| <= |Join(words)|
    ensures Join(words)[|Join(words)| - |words[|words| - 1]|..] == words[|words| - 1]
    decreases |words|
  {
    if |words| >= 2 {
      JoinEnds(words[1..]);
      var rest := Join(words[1..]);
      assert Join(words) == words[0] + " " + rest;
      assert words[1..][|words| - 2] == words[|words| - 1];
      assert Join(words)[|Join(words)| - |words[|words| - 1]|..] == rest[|rest| - |words[|words| - 1]|..];
    }
  }

  /** All the words of a sequence of word groups, in order. */
  function Flatten(groups: seq<seq<string>>): seq<string>
    decreases |groups|
  {
    if |groups| == 0 then [] else Flatten(groups[..|groups| - 1]) + groups[|groups| - 1]
  }

  /** `[' '.join(g) for g in groups]`. */
  function JoinEach(groups: seq<seq<string>>): (lines: seq<string>)
    ensures |lines| == |groups|
    ensures forall i :: 0 <= i < |groups| ==> lines[i] == Join(groups[i])
    decreases |groups|
  {
    if |groups| == 0 then [] else JoinEach(groups[..|groups| - 1]) + [Join(groups[|groups| - 1])]
  }

  /** Joining what was split gives back the text. */
  lemma {:induction false} JoinSplit(s: string)
    ensures Join(Split(s)) == s
    decreases |s|
  {
    if |s| > 0 {
      var rest := Split(s[1..]);
      JoinSplit(s[1..]);
      if s[0] == ' ' {
        assert ([""] + rest)[1..] == rest;
      } else {
        var first := [s[0]] + rest[0];
        assert s == [s[0]] + s[1..];
        if |rest| > 1 {
          assert ([first] + rest[1..])[1..] == rest[1..];
          assert Join(rest) == rest[0] + " " + Join(rest[1..]);
          assert Join(Split(s)) == first + " " + Join(rest[1..]);
        } else {
          assert Join(Split(s)) == first;
        }
      }
    }
  }

  /** Splitting a text that starts with a space-free word `w`. */
  lemma {:induction false} SplitAfterWord(w: string, r: string)
    requires ' ' !in w
    ensures Split(w + r) == [w + Split(r)[0]] + Split(r)[1..]
    decreases |w|
  {
    if |w| > 0 {
      assert (w + r)[1..] == w[1..] + r;
      assert w[0] != ' ';
      SplitAfterWord(w[1..], r);
      assert [w[0]] + (w[1..] + Split(r)[0]) == w + Split(r)[0];
    } else {
      assert w + r == r;
      assert w + Split(r)[0] == Split(r)[0];
      assert Split(r) == [Split(r)[0]] + Split(r)[1..];
    }
  }

  /** Splitting what was joined gives back the words, when there is at least
      one word and no word holds a space. */
  lemma {:induction false} SplitJoin(words: seq<string>)
    requires |words| >= 1
    requires forall w :: w in words ==> ' ' !in w
    ensures Split(Join(words)) == words
    decreases |words|
  {
    var w := words[0];
    if |words| == 1 {
      SplitAfterWord(w, "");
      assert w + "" == w;
    } else {
      var rest := words[1..];
      SplitJoin(rest);
      SplitAfterWord(w, " " + Join(rest));
      assert (" " + Join(rest))[1..] == Join(rest);
      assert Split(" " + Join(rest)) == [""] + rest;
      assert w + " " + Join(rest) == w + (" " + Join(rest));
      assert w + "" == w;
      assert [w] + rest == words;
    }
  }

  /** Joining two non-empty word lists puts one space between them. */
  lemma {:induction false} JoinAppend(a: seq<string>, b: seq<string>)
    requires |a| >= 1 && |b| >= 1
    ensures Join(a + b) == Join(a) + " " + Join(b)
    decreases |a|
  {
    if |a| == 1 {
      assert (a + b)[1..] == b;
    } else {
      JoinAppend(a[1..], b);
      assert (a + b)[1..] == a[1..] + b;
    }
  }

  /** Joining the joined groups is joining all their words, when no group is empty. */
  lemma {:induction false} JoinFlatten(groups: seq<seq<string>>)
    requires forall g :: g in groups ==> |g| >= 1
    ensures Join(JoinEach(groups)) == Join(Flatten(groups))
    decreases |groups|
  {
    if |groups| > 0 {
      var n := |groups| - 1;
      var init, last := groups[..n], groups[n];
      assert init + [last] == groups;
      assert last in groups;
      if n == 0 {
        JoinFlattenOne(last);
      } else {
        forall g | g in init
          ensures |g| >= 1
        {
          assert g in groups;
        }
        JoinFlatten(init);
        JoinFlattenSnoc(init, last);
      }
    }
  }

  /** `JoinFlatten` for a single group. */
  lemma JoinFlattenOne(g: seq<string>)
    ensures Join(JoinEach([g])) == Join(Flatten([g]))
  {
    assert [g][..0] == [];
    assert JoinEach([g]) == [Join(g)];
    assert Flatten([g]) == g;
  }

  /** The step of `JoinFlatten`: one more non-empty group at the end. */
  lemma JoinFlattenSnoc(init: seq<seq<string>>, last: seq<string>)
    requires |init| >= 1 && |last| >= 1
    requires forall g :: g in init ==> |g| >= 1
    requires Join(JoinEach(init)) == Join(Flatten(init))
    ensures Join(JoinEach(init + [last])) == Join(Flatten(init + [last]))
  {
    var joined := JoinEach(init);
    assert (init + [last])[..|init|] == init;
    JoinAppend(joined, [Join(last)]);
    FlattenNonEmpty(init);
    FlattenAppend(init, last);
    JoinAppend(Flatten(init), last);
  }

  lemma {:induction false} FlattenNonEmpty(groups: seq<seq<string>>)
    requires |groups| >= 1
    requires forall g :: g in groups ==> |g| >= 1
    ensures |Flatten(groups)| >= 1
  {
    assert groups[|groups| - 1] in groups;
  }

  lemma FlattenAppend(groups: seq<seq<string>>, g: seq<string>)
    ensures Flatten(groups + [g]) == Flatten(groups) + g
  {
    assert (groups + [g])[..|groups|] == groups;
  }
}
