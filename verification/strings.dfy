/** Cutting strings at a separator, as `s.split(c)[0]` does. */
module Strings {
  import opened Wrappers

  /** A string cut at the first occurrence of a separator: the text before
      it, and the text after it when the separator occurs at all. */
  datatype Cut = Cut(head: string, tail: Option<string>)

  /** Cuts `s` at its first `c`. The contract pins the result down
      uniquely: the head holds no `c`, and either there is no `c` in `s`
      at all, or `s` is the head, one `c`, and the tail. */
  function SplitFirst(s: string, c: char): (r: Cut)
    ensures c !in r.head
    ensures r.tail.None? ==> r.head == s && c !in s
    ensures r.tail.Some? ==> s == r.head + [c] + r.tail.value
    decreases |s|
  {
    if |s| == 0 then Cut([], None)
    else if s[0] == c then Cut([], Some(s[1..]))
    else
      var rest := SplitFirst(s[1..], c);
      assert s == [s[0]] + s[1..];
      Cut([s[0]] + rest.head, rest.tail)
  }

  /** `s.split(c)[0]`: the longest prefix of `s` free of `c`. */
  function BeforeFirst(s: string, c: char): (r: string)
    ensures c !in r
    ensures r <= s
    ensures |r| < |s| ==> s[|r|] == c
  {
    var cut := SplitFirst(s, c);
    if cut.tail.Some? then
      assert s[..|cut.head|] == cut.head;
      cut.head
    else cut.head
  }

  /** A string free of the separator is left whole. */
  lemma SplitFirstOfPlain(s: string, c: char)
    requires c !in s
    ensures SplitFirst(s, c) == Cut(s, None)
  {
  }

  /** Joining two pieces with a separator the first piece lacks, and then
      cutting at that separator, gives the pieces back. */
  lemma {:induction false} SplitFirstOfJoin(x: string, c: char, y: string)
    requires c !in x
    ensures SplitFirst(x + [c] + y, c) == Cut(x, Some(y))
  {
    var s := x + [c] + y;
    if |x| == 0 {
      assert s == [c] + y;
      assert s[1..] == y;
    } else {
      assert s[0] == x[0];
      assert s[1..] == x[1..] + [c] + y;
      SplitFirstOfJoin(x[1..], c, y);
      assert [x[0]] + x[1..] == x;
    }
  }

  /** Cutting at the first separator is idempotent: the head of a cut has
      nothing left to cut. */
  lemma BeforeFirstIdempotent(s: string, c: char)
    ensures BeforeFirst(BeforeFirst(s, c), c) == BeforeFirst(s, c)
  {
    SplitFirstOfPlain(BeforeFirst(s, c), c);
  }
}
