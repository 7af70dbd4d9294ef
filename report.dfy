/** The line printed for one question of a batch: the reply's answers sorted with
    Python's string order and printed by `print_answer`, or a blank line when the
    interpreter has nothing to say. Sorting is what makes the line independent of
    the order in which the store lists its solutions. */
module Report {
  import opened PyString
  import opened Graph
  import opened Query

  /** `a <= b` for Python strings: code point by code point, a proper prefix first. */
  predicate AtMost(a: string, b: string)
    decreases |a|
  {
    |a| == 0 || (|b| > 0 && (a[0] < b[0] || (a[0] == b[0] && AtMost(a[1..], b[1..]))))
  }

  lemma {:induction false} AtMostTotal(a: string, b: string)
    ensures AtMost(a, b) || AtMost(b, a)
    decreases |a|
  {
    if |a| > 0 && |b| > 0 && a[0] == b[0] {
      AtMostTotal(a[1..], b[1..]);
    }
  }

  lemma {:induction false} AtMostReflexive(a: string)
    ensures AtMost(a, a)
    decreases |a|
  {
    if |a| > 0 {
      AtMostReflexive(a[1..]);
    }
  }

  lemma {:induction false} AtMostAntisymmetric(a: string, b: string)
    requires AtMost(a, b) && AtMost(b, a)
    ensures a == b
    decreases |a|
  {
    if |a| > 0 {
      AtMostAntisymmetric(a[1..], b[1..]);
      assert a == [a[0]] + a[1..] && b == [b[0]] + b[1..];
    }
  }

  lemma {:induction false} AtMostTransitive(a: string, b: string, c: string)
    requires AtMost(a, b) && AtMost(b, c)
    ensures AtMost(a, c)
    decreases |a|
  {
    if |a| > 0 && a[0] == b[0] && b[0] == c[0] {
      AtMostTransitive(a[1..], b[1..], c[1..]);
    }
  }

  /** Two strings that agree up to a position where the first has the smaller character are ordered. */
  lemma {:induction false} AtMostAfterCommonPrefix(p: string, c: char, d: char, x: string, y: string)
    requires c < d
    ensures AtMost(p + [c] + x, p + [d] + y)
    decreases |p|
  {
    var a, b := p + [c] + x, p + [d] + y;
    if |p| > 0 {
      assert a[1..] == p[1..] + [c] + x;
      assert b[1..] == p[1..] + [d] + y;
      AtMostAfterCommonPrefix(p[1..], c, d, x, y);
    }
  }

  /** Every earlier element is at most every later one. */
  predicate Ordered(s: seq<string>) {
    forall i, j :: 0 <= i < j < |s| ==> AtMost(s[i], s[j])
  }

  /** An element at most every element of an ordered list can go in front of it. */
  lemma OrderedCons(x: string, t: seq<string>)
    requires Ordered(t) && forall j :: 0 <= j < |t| ==> AtMost(x, t[j])
    ensures Ordered([x] + t)
  {
    var r := [x] + t;
    forall i, j | 0 <= i < j < |r| ensures AtMost(r[i], r[j]) {
      assert r[j] == t[j - 1];
      if i > 0 {
        assert r[i] == t[i - 1];
      }
    }
  }

  /** What goes after the head of an ordered list, together with a larger element, is at least the head. */
  lemma HeadBelowRest(x: string, s: seq<string>, tail: seq<string>)
    requires Ordered(s) && |s| > 0 && AtMost(s[0], x)
    requires multiset(tail) == multiset(s[1..]) + multiset{x}
    ensures forall j :: 0 <= j < |tail| ==> AtMost(s[0], tail[j])
  {
    forall j | 0 <= j < |tail| ensures AtMost(s[0], tail[j]) {
      var y := tail[j];
      assert y in multiset(tail);
      if y != x {
        assert y in multiset(s[1..]);
        var k :| 0 <= k < |s[1..]| && s[1..][k] == y;
        assert s[k + 1] == y;
      }
    }
  }

  /** Inserting into an ordered list keeps it ordered and adds exactly the new element. */
  function Insert(x: string, s: seq<string>): (r: seq<string>)
    requires Ordered(s)
    ensures multiset(r) == multiset(s) + multiset{x}
    ensures Ordered(r)
    decreases |s|
  {
    if |s| == 0 then [x]
    else if AtMost(x, s[0]) then
      assert forall j :: 0 <= j < |s| ==> AtMost(x, s[j]) by {
        forall j | 0 <= j < |s| ensures AtMost(x, s[j]) {
          if j > 0 {
            AtMostTransitive(x, s[0], s[j]);
          }
        }
      }
      OrderedCons(x, s);
      [x] + s
    else
      var tail := Insert(x, s[1..]);
      assert s == [s[0]] + s[1..];
      AtMostTotal(x, s[0]);
      HeadBelowRest(x, s, tail);
      OrderedCons(s[0], tail);
      [s[0]] + tail
  }

  /** `ans_lst.sort()`: the answers in ascending order, the same answers as before. */
  function Sort(s: seq<string>): (r: seq<string>)
    ensures multiset(r) == multiset(s)
    ensures Ordered(r)
    decreases |s|
  {
    if |s| == 0 then []
    else
      InitLast(s);
      Insert(s[|s| - 1], Sort(s[..|s| - 1]))
  }

  /** The first element of an ordered list is at most every element of it. */
  lemma OrderedHeadLeast(s: seq<string>, x: string)
    requires Ordered(s) && x in multiset(s)
    ensures AtMost(s[0], x)
  {
    var i :| 0 <= i < |s| && s[i] == x;
    if i == 0 {
      AtMostReflexive(x);
    }
  }

  /** Taking the head off both sides of equal multisets. */
  lemma TailsAgree(a: seq<string>, b: seq<string>)
    requires |a| > 0 && |b| > 0 && a[0] == b[0] && multiset(a) == multiset(b)
    ensures multiset(a[1..]) == multiset(b[1..])
  {
    var x := a[0];
    assert a == [x] + a[1..] && b == [x] + b[1..];
    assert multiset(a[1..]) == multiset(a) - multiset{x};
    assert multiset(b[1..]) == multiset(b) - multiset{x};
  }

  /** An ordered list is fixed by its elements: there is only one way to sort. */
  lemma {:induction false} OrderedUnique(a: seq<string>, b: seq<string>)
    requires Ordered(a) && Ordered(b) && multiset(a) == multiset(b)
    ensures a == b
    decreases |a|
  {
    assert |a| == |multiset(a)| == |multiset(b)| == |b|;
    if |a| > 0 {
      assert a[0] in multiset(b) && b[0] in multiset(a);
      OrderedHeadLeast(b, a[0]);
      OrderedHeadLeast(a, b[0]);
      AtMostAntisymmetric(a[0], b[0]);
      TailsAgree(a, b);
      assert Ordered(a[1..]) && Ordered(b[1..]);
      OrderedUnique(a[1..], b[1..]);
      assert a == [a[0]] + a[1..] && b == [b[0]] + b[1..];
    }
  }

  /** Sorting forgets the order of its input. */
  lemma SortPermutationInvariant(a: seq<string>, b: seq<string>)
    requires multiset(a) == multiset(b)
    ensures Sort(a) == Sort(b)
  {
    OrderedUnique(Sort(a), Sort(b));
  }

  /** An ordered list is its own sort. */
  lemma SortOrdered(s: seq<string>)
    requires Ordered(s)
    ensures Sort(s) == s
  {
    OrderedUnique(Sort(s), s);
  }

  /** The line `test` prints for one reply: the sorted answers joined by ", ", or a blank line for
      `None` and for the empty list; an exception of the interpreter propagates. */
  function Line(reply: Reply): (r: Result<string>)
    ensures reply.Raised? <==> r.Raise?
    ensures r.Ok? ==> |r.value| > 0 && r.value[|r.value| - 1] == '\n'
  {
    match reply
    case Raised(e) => Raise(e)
    case NoReply => Ok("\n")
    case Answer(items) =>
      if |items| == 0 then Ok("\n") else Ok(Join(Sort(items), ", ") + "\n")
  }

  /** The printed line depends on the question and the graph only, not on the order of the solutions. */
  lemma LineDeterministic(g: set<Triple>, query: string, r1: Reply, r2: Reply)
    requires Replies(g, query, r1) && Replies(g, query, r2)
    ensures Line(r1) == Line(r2)
  {
    RepliesUpToOrder(g, query, r1, r2);
    RepliesUpToOrder(g, query, r2, r1);
    if r1.Answer? {
      assert |r1.items| == |multiset(r1.items)| == |multiset(r2.items)| == |r2.items|;
      SortPermutationInvariant(r1.items, r2.items);
    }
  }

  /** One iteration of the loop of `test`: interpret the line, then print the sorted answers or a blank line. */
  method TestLine(g: set<Triple>, line: string) returns (out: Result<string>)
    ensures exists r :: Replies(g, line, r) && out == Line(r)
    ensures forall r :: Replies(g, line, r) ==> out == Line(r)
  {
    var ansLst := QueryParser(g, line);
    if ansLst.Raised? {
      out := Raise(ansLst.error);
    } else if ansLst.Answer? && |ansLst.items| != 0 {
      var sorted := Sort(ansLst.items);
      out := PrintAnswer(sorted);
    } else {
      out := Ok("\n");
    }
    forall r | Replies(g, line, r) ensures out == Line(r) {
      LineDeterministic(g, line, ansLst, r);
    }
    assert Replies(g, line, ansLst) && out == Line(ansLst);
  }

  /** Two answers come out in ascending order. */
  lemma SortTwo(lo: string, hi: string, s: seq<string>)
    requires AtMost(lo, hi) && s == [hi, lo]
    ensures Sort(s) == [lo, hi]
  {
    var t := [lo, hi];
    assert Ordered(t);
    assert multiset(s) == multiset(t);
    SortPermutationInvariant(s, t);
    SortOrdered(t);
  }

  lemma TwoAnswersLine(lo: string, hi: string, items: seq<string>)
    requires AtMost(lo, hi) && items == [hi, lo]
    ensures Line(Answer(items)) == Ok(lo + ", " + hi + "\n")
  {
    SortTwo(lo, hi, items);
    JoinTwo(lo, hi, ", ");
  }

  lemma DirectorsOrdered(lo: string, hi: string)
    requires lo == "Director_A" && hi == "Director_B"
    ensures AtMost(lo, hi)
  {
    var p := "Director_";
    assert lo == p + ['A'] + [] && hi == p + ['B'] + [];
    AtMostAfterCommonPrefix(p, 'A', 'B', [], []);
  }

  lemma DirectorsText(lo: string, hi: string)
    requires lo == "Director_A" && hi == "Director_B"
    ensures lo + ", " + hi + "\n" == "Director_A, Director_B\n"
  {
  }

  /** A sample reply: `Director_B` and `Director_A` print as "Director_A, Director_B". */
  lemma DirectorsExample(items: seq<string>, lo: string, hi: string)
    requires lo == "Director_A" && hi == "Director_B" && items == [hi, lo]
    ensures Line(Answer(items)) == Ok("Director_A, Director_B\n")
  {
    DirectorsOrdered(lo, hi);
    TwoAnswersLine(lo, hi, items);
    DirectorsText(lo, hi);
  }
}
