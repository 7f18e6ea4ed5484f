/** Small vocabulary shared by every component of the model. */
module Common {
  datatype Option<+T> = None | Some(value: T)

  /** True when `needle` stands in `hay` starting at `i`. */
  predicate StandsAt<T(==)>(needle: seq<T>, hay: seq<T>, i: nat) {
    i + |needle| <= |hay| && hay[i..i + |needle|] == needle
  }

  /** Substring search as its plain meaning. */
  predicate Occurs<T(==)>(needle: seq<T>, hay: seq<T>) {
    exists i | 0 <= i <= |hay| :: StandsAt(needle, hay, i)
  }

  predicate StartsWith<T(==)>(text: seq<T>, prefix: seq<T>) {
    prefix <= text
  }

  predicate EndsWith<T(==)>(text: seq<T>, suffix: seq<T>) {
    |suffix| <= |text| && text[|text| - |suffix|..] == suffix
  }

  /** ASCII case folding, enough for hexadecimal digests. */
  function LowerChar(c: char): char {
    if 'A' <= c <= 'Z' then (c as int + 32) as char else c
  }

  function Lower(text: string): (low: string)
    ensures |low| == |text|
  {
    seq(|text|, i requires 0 <= i < |text| => LowerChar(text[i]))
  }

  /** Two recorded digests are compared without regard to letter case. */
  predicate SameHex(a: string, b: string) {
    Lower(a) == Lower(b)
  }

  predicate Distinct<T(==)>(s: seq<T>) {
    forall i, j | 0 <= i < j < |s| :: s[i] != s[j]
  }

  /** How many positions of `flags` are set. */
  function CountTrue(flags: seq<bool>): (n: nat)
    ensures n <= |flags|
  {
    if flags == [] then 0
    else CountTrue(flags[..|flags| - 1]) + (if flags[|flags| - 1] then 1 else 0)
  }

  lemma {:induction false} CountTruePositive(flags: seq<bool>)
    ensures CountTrue(flags) > 0 <==> true in flags
  {
    if flags != [] {
      var init := flags[..|flags| - 1];
      CountTruePositive(init);
      assert flags == init + [flags[|flags| - 1]];
    }
  }

  /** White space as Python's str.split and the \s of its regular expressions see it. */
  predicate IsSpace(c: char) {
    c in " \t\n\r" || '\U{000B}' <= c <= '\U{000C}' || '\U{001C}' <= c <= '\U{001F}' || c == '\U{0085}' ||
    c == '\U{00A0}' || c == '\U{1680}' ||
    '\U{2000}' <= c <= '\U{200A}' || c == '\U{2028}' || c == '\U{2029}' || c == '\U{202F}' || c == '\U{205F}' ||
    c == '\U{3000}'
  }

  lemma Removed<T>(s: seq<T>, j: nat)
    requires j < |s|
    ensures multiset(s[..j] + s[j + 1..]) == multiset(s) - multiset{s[j]}
  {
    assert s == s[..j] + [s[j]] + s[j + 1..];
  }

  lemma {:induction false} OnceOnly<T>(s: seq<T>, x: T)
    requires Distinct(s)
    ensures multiset(s)[x] == if x in s then 1 else 0
  {
    if s != [] {
      var init := s[..|s| - 1];
      assert s == init + [s[|s| - 1]];
      OnceOnly(init, x);
    }
  }

  lemma AtLeastTwice<T>(s: seq<T>, i: nat, j: nat)
    requires i < j < |s| && s[i] == s[j]
    ensures multiset(s)[s[i]] >= 2
  {
    Removed(s, i);
    var rest := s[..i] + s[i + 1..];
    assert rest[j - 1] == s[j];
    assert rest[j - 1] in multiset(rest);
  }

  function Mapped<S, T>(f: S -> T, s: seq<S>): (images: seq<T>)
    ensures |images| == |s| && forall k | 0 <= k < |s| :: images[k] == f(s[k])
  {
    seq(|s|, k requires 0 <= k < |s| => f(s[k]))
  }

  lemma MappedWithout<S, T>(f: S -> T, s: seq<S>, j: nat)
    requires j < |s|
    ensures multiset(Mapped(f, s[..j] + s[j + 1..])) == multiset(Mapped(f, s)) - multiset{f(s[j])}
  {
    var images := Mapped(f, s);
    assert Mapped(f, s[..j] + s[j + 1..]) == images[..j] + images[j + 1..];
    Removed(images, j);
  }

  lemma SameWithoutFirst<T>(a: seq<T>, b: seq<T>, j: nat)
    requires a != [] && j < |b| && b[j] == a[0] && multiset(a) == multiset(b)
    ensures multiset(a[1..]) == multiset(b[..j] + b[j + 1..])
  {
    assert a[..0] + a[1..] == a[1..];
    Removed(a, 0);
    Removed(b, j);
  }

  lemma MappedWith<S, T>(f: S -> T, s: seq<S>, j: nat)
    requires j < |s|
    ensures multiset(Mapped(f, s)) == multiset(Mapped(f, s[..j] + s[j + 1..])) + multiset{f(s[j])}
  {
    MappedWithout(f, s, j);
    assert Mapped(f, s)[j] in multiset(Mapped(f, s));
  }

  lemma MappedFirst<S, T>(f: S -> T, s: seq<S>)
    requires s != []
    ensures multiset(Mapped(f, s)) == multiset(Mapped(f, s[1..])) + multiset{f(s[0])}
  {
    assert Mapped(f, s) == [f(s[0])] + Mapped(f, s[1..]);
  }

  /** The same elements have the same images, in whatever order. */
  lemma {:induction false} MappedIgnoresOrder<S, T>(f: S -> T, a: seq<S>, b: seq<S>)
    requires multiset(a) == multiset(b)
    ensures multiset(Mapped(f, a)) == multiset(Mapped(f, b))
    decreases |a|
  {
    if a == [] {
      assert |multiset(b)| == |b|;
    } else {
      assert a[0] in multiset(b) by { assert a[0] in multiset(a); }
      var j :| 0 <= j < |b| && b[j] == a[0];
      SameWithoutFirst(a, b, j);
      MappedIgnoresOrder(f, a[1..], b[..j] + b[j + 1..]);
      MappedFirst(f, a);
      MappedWith(f, b, j);
    }
  }

  /** Two lists without repetition that hold the same elements are permutations of each other. */
  lemma SameContents<T>(a: seq<T>, b: seq<T>)
    requires Distinct(a) && Distinct(b) && (forall x :: x in a <==> x in b)
    ensures multiset(a) == multiset(b) && |a| == |b|
  {
    forall x ensures multiset(a)[x] == multiset(b)[x] {
      OnceOnly(a, x);
      OnceOnly(b, x);
    }
    assert |multiset(a)| == |a| && |multiset(b)| == |b|;
  }

  /** A list is as long as the set of its elements exactly when none is repeated. */
  lemma {:induction false} DistinctByCount<T>(s: seq<T>)
    ensures |set x | x in s| <= |s|
    ensures |set x | x in s| == |s| <==> Distinct(s)
  {
    if s != [] {
      var init, last := s[..|s| - 1], s[|s| - 1];
      DistinctByCount(init);
      assert s == init + [last];
      assert (set x | x in s) == (set x | x in init) + {last};
      assert Distinct(s) <==> Distinct(init) && last !in init;
    }
  }

  lemma ImagesAdd<S, T>(f: S -> T, init: seq<S>, last: S, y: T)
    ensures multiset(Mapped(f, init + [last]))[y] == multiset(Mapped(f, init))[y] + if f(last) == y then 1 else 0
  {
    assert Mapped(f, init + [last]) == Mapped(f, init) + [f(last)];
  }

  function Preimage<S, T(==)>(f: S -> T, s: seq<S>, y: T): set<S> {
    set x | x in s && f(x) == y
  }

  lemma PreimageAdds<S, T>(f: S -> T, init: seq<S>, last: S, y: T)
    requires last !in init
    ensures |Preimage(f, init + [last], y)| == |Preimage(f, init, y)| + if f(last) == y then 1 else 0
  {
    var all, less := Preimage(f, init + [last], y), Preimage(f, init, y);
    if f(last) == y {
      assert all == less + {last};
    } else {
      assert all == less;
    }
  }

  /** In a list without repetition, as many images equal `y` as there are elements with that image. */
  lemma {:induction false} ImageCount<S, T>(f: S -> T, s: seq<S>, y: T)
    requires Distinct(s)
    ensures multiset(Mapped(f, s))[y] == |Preimage(f, s, y)|
  {
    if s != [] {
      var init, last := s[..|s| - 1], s[|s| - 1];
      assert Distinct(init) && last !in init;
      ImageCount(f, init, y);
      assert s == init + [last];
      ImagesAdd(f, init, last, y);
      PreimageAdds(f, init, last, y);
    }
  }
}
