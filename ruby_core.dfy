/** The few Ruby core operations the tagging helper is built from, stated over
    Dafny sequences and maps: `Array#uniq`, the `inject(Hash.new(0))` tally,
    `Array#select`'s order-preserving shape, and `String#downcase` (ASCII). */
module RubyCore {

  /** No element occurs twice. */
  predicate Distinct<T(==)>(s: seq<T>) {
    forall i, j :: 0 <= i < j < |s| ==> s[i] != s[j]
  }

  /** `a` is obtained from `b` by deleting elements, keeping the order of the rest. */
  predicate IsSubsequence<T(==)>(a: seq<T>, b: seq<T>)
    decreases |b|
  {
    a == [] || (b != [] && ((a[0] == b[0] && IsSubsequence(a[1..], b[1..])) || IsSubsequence(a, b[1..])))
  }

  /** Position of the first occurrence of `x` in `s`. */
  function IndexOf<T(==)>(s: seq<T>, x: T): (k: nat)
    requires x in s
    ensures k < |s| && s[k] == x && x !in s[..k]
  {
    if s[0] == x then 0 else 1 + IndexOf(s[1..], x)
  }

  /** `Array#uniq`: every element once, at the place of its first occurrence. */
  function Uniq<T(==,!new)>(s: seq<T>): (r: seq<T>)
    ensures forall x :: x in r <==> x in s
    ensures Distinct(r)
  {
    if |s| == 0 then []
    else
      var init := Uniq(s[..|s| - 1]);
      if s[|s| - 1] in s[..|s| - 1] then init else init + [s[|s| - 1]]
  }

  /** Appending one element to the input of `uniq` appends it to the output
      exactly when it is new. */
  lemma UniqSnoc<T(!new)>(s: seq<T>, x: T)
    ensures Uniq(s + [x]) == if x in s then Uniq(s) else Uniq(s) + [x]
  {
  }

  /** The first occurrence of an element is not moved by appending after it. */
  lemma {:induction false} IndexOfAppend<T>(s: seq<T>, t: seq<T>, x: T)
    requires x in s
    ensures IndexOf(s + t, x) == IndexOf(s, x)
  {
    if s[0] != x {
      assert (s + t)[1..] == s[1..] + t;
      IndexOfAppend(s[1..], t, x);
    }
  }

  /** `uniq` keeps first-occurrence order: the elements of the result appear in
      the order in which each first occurs in the input. */
  lemma {:induction false} UniqFirstOccurrenceOrder<T(!new)>(s: seq<T>)
    ensures forall i, j :: 0 <= i < j < |Uniq(s)| ==> IndexOf(s, Uniq(s)[i]) < IndexOf(s, Uniq(s)[j])
  {
    if |s| > 0 {
      var p, x := s[..|s| - 1], s[|s| - 1];
      assert s == p + [x];
      UniqFirstOccurrenceOrder(p);
      UniqSnoc(p, x);
      var u := Uniq(p);
      forall y | y in p
        ensures IndexOf(s, y) == IndexOf(p, y)
      {
        IndexOfAppend(p, [x], y);
      }
      if x !in p {
        assert IndexOf(s, x) == |p|;
      }
    }
  }

  /** `uniq` drops elements but never reorders them. */
  lemma {:induction false} UniqIsSubsequence<T(!new)>(s: seq<T>)
    ensures IsSubsequence(Uniq(s), s)
  {
    if |s| > 0 {
      var p, x := s[..|s| - 1], s[|s| - 1];
      assert s == p + [x];
      UniqIsSubsequence(p);
      UniqSnoc(p, x);
      SubsequenceSnoc(Uniq(p), p, x);
    }
  }

  /** Extending both sides of a subsequence by the same element, or only the
      larger one, keeps it a subsequence. */
  lemma {:induction false} SubsequenceSnoc<T>(a: seq<T>, b: seq<T>, x: T)
    requires IsSubsequence(a, b)
    ensures IsSubsequence(a, b + [x]) && IsSubsequence(a + [x], b + [x])
    decreases |b|
  {
    if a == [] {
      assert IsSubsequence([x], [x]) by { assert [x][1..] == []; }
      assert [] + [x] == [x];
      if b != [] {
        assert (b + [x])[1..] == b[1..] + [x];
        SubsequenceSnoc(a, b[1..], x);
      }
    } else {
      assert (b + [x])[1..] == b[1..] + [x];
      assert (a + [x])[1..] == a[1..] + [x];
      if a[0] == b[0] && IsSubsequence(a[1..], b[1..]) {
        SubsequenceSnoc(a[1..], b[1..], x);
      } else {
        SubsequenceSnoc(a, b[1..], x);
      }
    }
  }

  /** The hash built by `inject(Hash.new(0)) { |h, i| h[i] += 1; h }`: a left
      fold over `s` that bumps the count of each element it meets. */
  function Tally<T(==)>(s: seq<T>): map<T, nat> {
    if |s| == 0 then map[]
    else
      var h, x := Tally(s[..|s| - 1]), s[|s| - 1];
      h[x := At(h, x) + 1]
  }

  /** The tally has exactly the elements of `s` as keys, and maps each to its
      number of occurrences in `s`, which is at least one. */
  lemma {:induction false} TallyCounts<T(!new)>(s: seq<T>)
    ensures Tally(s).Keys == set x | x in s
    ensures forall x :: x in Tally(s) ==> Tally(s)[x] == multiset(s)[x] >= 1
  {
    if |s| > 0 {
      var p, x := s[..|s| - 1], s[|s| - 1];
      assert s == p + [x];
      TallyCounts(p);
    }
  }

  /** One more element bumps its own count and leaves the others alone. */
  lemma TallySnoc<T>(s: seq<T>, x: T)
    ensures Tally(s + [x]) == Tally(s)[x := At(Tally(s), x) + 1]
  {
  }

  /** Value of `m` at `k`, or 0 where `k` is not a key, as in `Hash.new(0)`. */
  function At<T>(m: map<T, nat>, k: T): nat {
    if k in m then m[k] else 0
  }

  /** Sum of `m`'s values at `keys`. */
  function SumAt<T>(m: map<T, nat>, keys: seq<T>): nat {
    if |keys| == 0 then 0 else SumAt(m, keys[..|keys| - 1]) + At(m, keys[|keys| - 1])
  }

  /** Changing `m` at a key outside `keys` does not change the sum at `keys`;
      raising it by one at a key listed once raises the sum by one. */
  lemma {:induction false} SumAtUpdate<T>(m: map<T, nat>, keys: seq<T>, x: T, v: nat)
    requires Distinct(keys)
    requires x in keys ==> v == At(m, x) + 1
    ensures SumAt(m[x := v], keys) == SumAt(m, keys) + (if x in keys then 1 else 0)
  {
    if |keys| > 0 {
      var p := keys[..|keys| - 1];
      assert keys == p + [keys[|keys| - 1]];
      SumAtUpdate(m, p, x, v);
    }
  }

  /** The counts of the tally, summed over the distinct elements, give the
      length of the input: every element is counted exactly once. */
  lemma {:induction false} TallySum<T(!new)>(s: seq<T>)
    ensures SumAt(Tally(s), Uniq(s)) == |s|
  {
    if |s| > 0 {
      var p, x := s[..|s| - 1], s[|s| - 1];
      assert s == p + [x];
      TallySum(p);
      UniqSnoc(p, x);
      var h, u := Tally(p), Uniq(p);
      var h' := h[x := At(h, x) + 1];
      TallySnoc(p, x);
      SumAtUpdate(h, u, x, h'[x]);
      if x in p {
        assert SumAt(h', Uniq(s)) == |s|;
      } else {
        TallyCounts(p);
        assert (u + [x])[..|u|] == u;
        assert SumAt(h', u + [x]) == SumAt(h', u) + 1;
        assert SumAt(h', Uniq(s)) == |s|;
      }
    }
  }

  /** `Character#downcase` restricted to ASCII letters. */
  function DowncaseChar(c: char): char {
    if 'A' <= c <= 'Z' then (c as int + 32) as char else c
  }

  /** `String#downcase`, ASCII only: 'A'..'Z' become 'a'..'z', every other
      character is kept. */
  function Downcase(s: string): (r: string)
    ensures |r| == |s|
    ensures forall i :: 0 <= i < |s| ==> r[i] == DowncaseChar(s[i])
  {
    seq(|s|, i requires 0 <= i < |s| => DowncaseChar(s[i]))
  }

  /** A downcased string has no upper-case ASCII letter, and downcasing it
      again changes nothing. */
  lemma DowncaseIdempotent(s: string)
    ensures forall i :: 0 <= i < |s| ==> !('A' <= Downcase(s)[i] <= 'Z')
    ensures Downcase(Downcase(s)) == Downcase(s)
  {
  }
}
