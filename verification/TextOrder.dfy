/** Texts in ascending order of their characters, as sorted() puts them. */
module TextOrder {
  predicate TextLeq(a: string, b: string) {
    a == "" || (b != "" && (a[0] < b[0] || (a[0] == b[0] && TextLeq(a[1..], b[1..]))))
  }

  lemma {:induction false} TextLeqTotal(a: string, b: string)
    ensures TextLeq(a, b) || TextLeq(b, a)
  {
    if a != "" && b != "" { TextLeqTotal(a[1..], b[1..]); }
  }

  lemma {:induction false} TextLeqAntisymmetric(a: string, b: string)
    requires TextLeq(a, b) && TextLeq(b, a)
    ensures a == b
  {
    if a != "" && b != "" {
      TextLeqAntisymmetric(a[1..], b[1..]);
      assert a == [a[0]] + a[1..] && b == [b[0]] + b[1..];
    }
  }

  lemma {:induction false} TextLeqTransitive(a: string, b: string, c: string)
    requires TextLeq(a, b) && TextLeq(b, c)
    ensures TextLeq(a, c)
  {
    if a != "" && a[0] == b[0] == c[0] { TextLeqTransitive(a[1..], b[1..], c[1..]); }
  }

  /** The texts agree before the place, and there the first has the smaller character. */
  predicate FirstSmaller(a: string, b: string, k: int) {
    0 <= k < |a| && k < |b| && a[..k] == b[..k] && (a[k] as int) < b[k] as int
  }

  lemma {:induction false} SmallerLater(a: string, b: string) returns (k: int)
    requires TextLeq(a, b)
    ensures a <= b || FirstSmaller(a, b, k)
  {
    k := 0;
    if a != "" && a[0] == b[0] {
      var rest := SmallerLater(a[1..], b[1..]);
      k := rest + 1;
      assert a == [a[0]] + a[1..] && b == [b[0]] + b[1..];
      if FirstSmaller(a[1..], b[1..], rest) {
        assert a[..k] == [a[0]] + a[1..][..rest] && b[..k] == [b[0]] + b[1..][..rest];
      }
    }
  }

  lemma {:induction false} LaterSmaller(a: string, b: string, k: int)
    requires a <= b || FirstSmaller(a, b, k)
    ensures TextLeq(a, b)
  {
    if FirstSmaller(a, b, k) && k > 0 { assert a[0] == a[..k][0] && b[0] == b[..k][0]; }
    if a != "" && b != "" && a[0] == b[0] {
      assert a == [a[0]] + a[1..] && b == [b[0]] + b[1..];
      if FirstSmaller(a, b, k) { assert a[1..][..k - 1] == a[..k][1..] && b[1..][..k - 1] == b[..k][1..]; }
      LaterSmaller(a[1..], b[1..], k - 1);
    }
  }

  /** One text comes no later than another exactly when it opens it, or is the smaller where they first differ. */
  lemma OrderIsLexical(a: string, b: string)
    ensures TextLeq(a, b) <==> a <= b || exists k :: FirstSmaller(a, b, k)
  {
    if TextLeq(a, b) {
      var k := SmallerLater(a, b);
    }
    if a <= b { LaterSmaller(a, b, 0); }
    if k :| FirstSmaller(a, b, k) { LaterSmaller(a, b, k); }
  }

  function Insert(text: string, sorted: seq<string>): seq<string> {
    if sorted == [] then [text]
    else if TextLeq(text, sorted[0]) then [text] + sorted
    else [sorted[0]] + Insert(text, sorted[1..])
  }

  function SortTexts(texts: seq<string>): seq<string> {
    if texts == [] then [] else Insert(texts[0], SortTexts(texts[1..]))
  }

  ghost predicate IsSorted(texts: seq<string>) {
    forall i, j | 0 <= i < j < |texts| :: TextLeq(texts[i], texts[j])
  }

  lemma {:induction false} InsertKeeps(text: string, sorted: seq<string>)
    ensures multiset(Insert(text, sorted)) == multiset(sorted) + multiset{text}
    ensures |Insert(text, sorted)| == |sorted| + 1
  {
    if sorted != [] && !TextLeq(text, sorted[0]) {
      InsertKeeps(text, sorted[1..]);
      assert sorted == [sorted[0]] + sorted[1..];
    }
  }

  lemma {:induction false} InsertSorts(text: string, sorted: seq<string>)
    requires IsSorted(sorted)
    ensures IsSorted(Insert(text, sorted))
  {
    if sorted != [] {
      if TextLeq(text, sorted[0]) {
        forall j | 0 <= j < |sorted| ensures TextLeq(text, sorted[j]) {
          if j > 0 { TextLeqTransitive(text, sorted[0], sorted[j]); }
        }
      } else {
        TextLeqTotal(text, sorted[0]);
        InsertSorts(text, sorted[1..]);
        var rest := Insert(text, sorted[1..]);
        InsertKeeps(text, sorted[1..]);
        forall j | 0 <= j < |rest| ensures TextLeq(sorted[0], rest[j]) {
          assert rest[j] in multiset(rest);
          assert rest[j] == text || rest[j] in sorted[1..];
        }
      }
    }
  }

  /** Sorting puts the same texts in ascending order. */
  lemma {:induction false} SortTextsSorts(texts: seq<string>)
    ensures IsSorted(SortTexts(texts)) && multiset(SortTexts(texts)) == multiset(texts) && |SortTexts(texts)| == |texts|
  {
    if texts != [] {
      var rest := SortTexts(texts[1..]);
      SortTextsSorts(texts[1..]);
      InsertSorts(texts[0], rest);
      InsertKeeps(texts[0], rest);
      assert texts == [texts[0]] + texts[1..];
      assert multiset(texts) == multiset(texts[1..]) + multiset{texts[0]};
    }
  }

  lemma SortedHeads(a: seq<string>, b: seq<string>)
    requires IsSorted(a) && IsSorted(b) && multiset(a) == multiset(b) && a != []
    ensures b != [] && a[0] == b[0]
  {
    assert a[0] in multiset(b);
    assert b[0] in multiset(a);
    var i :| 0 <= i < |b| && b[i] == a[0];
    var j :| 0 <= j < |a| && a[j] == b[0];
    if i != 0 && j != 0 { TextLeqAntisymmetric(a[0], b[0]); }
  }

  /** An ascending list is determined by its contents. */
  lemma {:induction false} SortedIsUnique(a: seq<string>, b: seq<string>)
    requires IsSorted(a) && IsSorted(b) && multiset(a) == multiset(b)
    ensures a == b
    decreases |a|
  {
    if a == [] {
      assert |multiset(b)| == |b|;
    } else {
      SortedHeads(a, b);
      assert a == [a[0]] + a[1..] && b == [b[0]] + b[1..];
      assert multiset(a[1..]) == multiset(a) - multiset{a[0]};
      assert multiset(b[1..]) == multiset(b) - multiset{b[0]};
      SortedIsUnique(a[1..], b[1..]);
    }
  }

  lemma SortIgnoresOrder(a: seq<string>, b: seq<string>)
    requires multiset(a) == multiset(b)
    ensures SortTexts(a) == SortTexts(b)
  {
    SortTextsSorts(a);
    SortTextsSorts(b);
    SortedIsUnique(SortTexts(a), SortTexts(b));
  }
}
