/** The statistics panel of the store-backed client: Pass votes are set aside, the
    rest are turned into numbers for the mean and the median, and the mode is taken
    over the vote strings. Numbers are exact rationals (`real`); the two-decimal
    display formatting is not part of the model. */
module Statistics {
  import opened Common
  import opened Tally
  import Text

  const PassVote: string := "Pass"
  const HalfPoint: string := "\U{00BD}"

  /** validVotes: the votes other than "Pass", in their original order. */
  function NonPass(values: seq<string>): (r: seq<string>)
    ensures PassVote !in r
    ensures |r| + Count(values, PassVote) == |values|
    ensures forall v :: v != PassVote ==> Count(r, v) == Count(values, v)
    ensures r == [] <==> forall i :: 0 <= i < |values| ==> values[i] == PassVote
  {
    if values == [] then []
    else
      var init := values[..|values| - 1];
      var last := values[|values| - 1];
      var rest := NonPass(init);
      assert forall i :: 0 <= i < |init| ==> values[i] == init[i];
      if last == PassVote then rest
      else
        forall v ensures Count(rest + [last], v) == Count(rest, v) + (if last == v then 1 else 0) {
          CountSnoc(rest, last, v);
        }
        rest + [last]
  }

  /** A non-Pass value is in validVotes exactly when somebody voted it. */
  lemma NonPassMembers(values: seq<string>, v: string)
    ensures v in NonPass(values) <==> v != PassVote && v in values
  {
    CountPositive(values, v);
    CountPositive(NonPass(values), v);
  }

  /** The modes of validVotes are the most frequent values once Pass is set aside. */
  lemma NonPassModes(values: seq<string>, v: string)
    ensures IsModeOf(NonPass(values), v) <==>
      v != PassVote && v in values &&
      forall w :: w != PassVote && w in values ==> Count(values, w) <= Count(values, v)
  {
    NonPassMembers(values, v);
    forall w ensures w in NonPass(values) <==> w != PassVote && w in values {
      NonPassMembers(values, w);
    }
  }

  // ---- parseFloat on the prefix forms a deck card can take -------------------------

  predicate IsDigit(c: char) {
    '0' <= c <= '9'
  }

  predicate AllDigits(s: string) {
    forall i :: 0 <= i < |s| ==> IsDigit(s[i])
  }

  /** Length of the run of decimal digits that s starts with. */
  function DigitRun(s: string): (n: nat)
    ensures n <= |s| && AllDigits(s[..n])
    ensures n < |s| ==> !IsDigit(s[n])
  {
    if s != [] && IsDigit(s[0]) then
      var n := DigitRun(s[1..]) + 1;
      assert forall i :: 1 <= i < n ==> s[..n][i] == s[1..][..n - 1][i - 1];
      n
    else 0
  }

  function DigitsValue(ds: string): nat
    requires AllDigits(ds)
  {
    if ds == [] then 0 else 10 * DigitsValue(ds[..|ds| - 1]) + (ds[|ds| - 1] as int - '0' as int)
  }

  function FractionValue(ds: string): (r: real)
    requires AllDigits(ds)
    ensures 0.0 <= r < 1.0
  {
    if ds == [] then 0.0 else ((ds[0] as int - '0' as int) as real + FractionValue(ds[1..])) / 10.0
  }

  /** parseFloat: leading whitespace, an optional sign, the integer digits and an optional
      fraction; None stands for NaN (no digit at all). */
  function ParseFloat(s: string): (r: Option<real>)
    ensures var t := Text.TrimStart(s);
      var u := if t != [] && (t[0] == '-' || t[0] == '+') then t[1..] else t;
      r.None? <==> !(u != [] && IsDigit(u[0])) && !(|u| >= 2 && u[0] == '.' && IsDigit(u[1]))
    ensures var t := Text.TrimStart(s); r.Some? && !(t != [] && t[0] == '-') ==> r.value >= 0.0
  {
    var t := Text.TrimStart(s);
    var negative := t != [] && t[0] == '-';
    var u := if t != [] && (t[0] == '-' || t[0] == '+') then t[1..] else t;
    var n := DigitRun(u);
    var rest := u[n..];
    var frac := if rest != [] && rest[0] == '.' then rest[1..][..DigitRun(rest[1..])] else [];
    if n == 0 && frac == [] then None
    else
      var magnitude := DigitsValue(u[..n]) as real + FractionValue(frac);
      Some(if negative then -magnitude else magnitude)
  }

  /** A card written with digits only is read by parseFloat as the integer it spells. */
  lemma ParseFloatOfInteger(vote: string)
    requires vote != [] && AllDigits(vote)
    ensures ParseFloat(vote) == Some(DigitsValue(vote) as real)
  {
    var t := Text.TrimStart(vote);
    assert t == vote by {
      assert !Text.IsWhitespace(vote[0]);
      assert Text.SkipForward(vote, 0) == 0;
    }
    var n := DigitRun(vote);
    assert n == |vote| by {
      assert IsDigit(vote[|vote| - 1]);
    }
    assert vote[..n] == vote && vote[n..] == [];
    var value := DigitsValue(vote) as real;
    assert ParseFloat(vote) == Some(value + FractionValue([]));
  }

  /** A card that starts with a letter (a T-shirt size, Pass) is NaN to parseFloat. */
  lemma ParseFloatOfWord(vote: string)
    requires vote != [] && ('A' <= vote[0] <= 'Z' || 'a' <= vote[0] <= 'z')
    ensures ParseFloat(vote).None?
  {
    assert !Text.IsWhitespace(vote[0]);
    assert Text.TrimStart(vote) == vote;
  }

  /** The number a vote counts for: '\U{00BD}' is 0.5, a card written in digits the integer
      it spells, and a card starting with a letter (a T-shirt size, Pass) 0. */
  function NumericValue(vote: string): (r: real)
    ensures vote == HalfPoint ==> r == 0.5
    ensures vote != [] && AllDigits(vote) ==> r == DigitsValue(vote) as real
    ensures vote != [] && ('A' <= vote[0] <= 'Z' || 'a' <= vote[0] <= 'z') ==> r == 0.0
  {
    if vote == HalfPoint then
      assert !IsDigit(HalfPoint[0]);
      0.5
    else
      var x := match ParseFloat(vote) case Some(x) => x case None => 0.0;
      assert vote != [] && AllDigits(vote) ==> x == DigitsValue(vote) as real by {
        if vote != [] && AllDigits(vote) {
          ParseFloatOfInteger(vote);
        }
      }
      assert vote != [] && ('A' <= vote[0] <= 'Z' || 'a' <= vote[0] <= 'z') ==> x == 0.0 by {
        if vote != [] && ('A' <= vote[0] <= 'Z' || 'a' <= vote[0] <= 'z') {
          ParseFloatOfWord(vote);
        }
      }
      x
  }

  function Numbers(votes: seq<string>): (r: seq<real>)
    ensures |r| == |votes|
  {
    seq(|votes|, i requires 0 <= i < |votes| => NumericValue(votes[i]))
  }

  // ---- mean ----------------------------------------------------------------------------

  function Sum(xs: seq<real>): real {
    if xs == [] then 0.0 else Sum(xs[..|xs| - 1]) + xs[|xs| - 1]
  }

  function Mean(xs: seq<real>): (r: real)
    requires |xs| > 0
    ensures r * |xs| as real == Sum(xs)
  {
    Sum(xs) / (|xs| as real)
  }

  ghost predicate Within(xs: seq<real>, lo: real, hi: real) {
    forall i :: 0 <= i < |xs| ==> lo <= xs[i] <= hi
  }

  lemma {:induction false} SumWithin(xs: seq<real>, lo: real, hi: real)
    requires Within(xs, lo, hi)
    ensures lo * |xs| as real <= Sum(xs) <= hi * |xs| as real
  {
    if xs != [] {
      var init := xs[..|xs| - 1];
      assert Within(init, lo, hi) by {
        forall i | 0 <= i < |init| ensures lo <= init[i] <= hi { assert init[i] == xs[i]; }
      }
      SumWithin(init, lo, hi);
    }
  }

  /** The mean lies between any lower and upper bound of the votes. */
  lemma MeanWithin(xs: seq<real>, lo: real, hi: real)
    requires |xs| > 0 && Within(xs, lo, hi)
    ensures lo <= Mean(xs) <= hi
  {
    SumWithin(xs, lo, hi);
    var n := |xs| as real;
    assert Mean(xs) * n == Sum(xs);
  }

  // ---- median: the numbers sorted ascending -----------------------------------------

  ghost predicate Sorted(xs: seq<real>) {
    forall i, j :: 0 <= i < j < |xs| ==> xs[i] <= xs[j]
  }

  function Insert(x: real, xs: seq<real>): (r: seq<real>)
    requires Sorted(xs)
    ensures Sorted(r)
    ensures multiset(r) == multiset(xs) + multiset{x}
    ensures |r| == |xs| + 1
  {
    if xs == [] then [x]
    else if x <= xs[0] then [x] + xs
    else
      var tail := Insert(x, xs[1..]);
      assert xs == [xs[0]] + xs[1..];
      InsertKeepsHead(x, xs, tail);
      [xs[0]] + tail
  }

  lemma InsertKeepsHead(x: real, xs: seq<real>, tail: seq<real>)
    requires Sorted(xs) && xs != [] && xs[0] < x
    requires Sorted(tail) && multiset(tail) == multiset(xs[1..]) + multiset{x}
    ensures Sorted([xs[0]] + tail)
  {
    forall k | 0 <= k < |tail| ensures xs[0] <= tail[k] {
      assert tail[k] in multiset(tail);
      if tail[k] != x {
        assert tail[k] in multiset(xs[1..]);
        var i :| 0 <= i < |xs[1..]| && xs[1..][i] == tail[k];
        assert xs[i + 1] == tail[k];
      }
    }
  }

  /** `[...numericVotes].sort((a, b) => a - b)`: the sorted permutation. */
  function Sort(xs: seq<real>): (r: seq<real>)
    ensures Sorted(r)
    ensures multiset(r) == multiset(xs)
    ensures |r| == |xs|
  {
    if xs == [] then []
    else
      assert xs == [xs[0]] + xs[1..];
      Insert(xs[0], Sort(xs[1..]))
  }

  /** Sorting x :: xs inserts x into the sorted xs. */
  lemma SortCons(x: real, xs: seq<real>)
    ensures Sort([x] + xs) == Insert(x, Sort(xs))
  {
    assert ([x] + xs)[1..] == xs;
  }

  lemma InsertFront(x: real, xs: seq<real>)
    requires Sorted(xs) && xs != [] && x <= xs[0]
    ensures Insert(x, xs) == [x] + xs
  {
  }

  lemma InsertAfterOne(x: real, y: real)
    requires y < x
    ensures Insert(x, [y]) == [y, x]
  {
    assert [y][1..] == [];
  }

  lemma MultisetTail(a: seq<real>)
    requires a != []
    ensures multiset(a[1..]) == multiset(a) - multiset{a[0]}
  {
    assert a == [a[0]] + a[1..];
  }

  /** Two sorted orderings of one multiset start with the same (least) element. */
  lemma SortedSameHead(a: seq<real>, b: seq<real>)
    requires Sorted(a) && Sorted(b) && multiset(a) == multiset(b) && a != []
    ensures b != [] && a[0] == b[0]
  {
    assert a[0] in multiset(b);
    var i :| 0 <= i < |b| && b[i] == a[0];
    assert b[0] in multiset(a);
    var j :| 0 <= j < |a| && a[j] == b[0];
    assert b[0] <= b[i] && a[0] <= a[j];
  }

  /** Only one ordering of a multiset is sorted, so any sort computes the same sequence. */
  lemma {:induction false} SortedUnique(a: seq<real>, b: seq<real>)
    requires Sorted(a) && Sorted(b) && multiset(a) == multiset(b)
    ensures a == b
    decreases |a|
  {
    if a == [] {
      assert |multiset(b)| == 0;
    } else {
      SortedSameHead(a, b);
      MultisetTail(a);
      MultisetTail(b);
      SortedUnique(a[1..], b[1..]);
      assert a == [a[0]] + a[1..] && b == [b[0]] + b[1..];
    }
  }

  function Median(xs: seq<real>): (r: real)
    requires |xs| > 0
    ensures Sort(xs)[0] <= r <= Sort(xs)[|xs| - 1]
    ensures |xs| % 2 == 1 ==> r in xs
  {
    var sorted := Sort(xs);
    var mid := |sorted| / 2;
    if |sorted| % 2 == 0 then (sorted[mid - 1] + sorted[mid]) / 2.0
    else
      assert sorted[mid] in multiset(sorted);
      sorted[mid]
  }

  /** The median lies between any lower and upper bound of the votes; for an odd count
      it is one of them. */
  lemma MedianWithin(xs: seq<real>, lo: real, hi: real)
    requires |xs| > 0 && Within(xs, lo, hi)
    ensures lo <= Median(xs) <= hi
    ensures |xs| % 2 == 1 ==> Median(xs) in xs
  {
    var sorted := Sort(xs);
    forall k | 0 <= k < |sorted| ensures lo <= sorted[k] <= hi && sorted[k] in xs {
      assert sorted[k] in multiset(sorted);
      assert sorted[k] in multiset(xs);
    }
  }

  // ---- the statistics record -----------------------------------------------------------

  datatype Stats = Stats(mean: real, median: real, modes: seq<string>, voteCount: nat, passCount: nat)

  /** calculateAndDisplayMode of the store-backed client, on the list of vote values. */
  method Calculate(values: seq<string>) returns (stats: Option<Stats>)
    ensures stats.None? <==> forall i :: 0 <= i < |values| ==> values[i] == PassVote
    ensures stats.Some? ==>
      && stats.value.voteCount == |NonPass(values)|
      && stats.value.passCount == Count(values, PassVote)
      && stats.value.voteCount + stats.value.passCount == |values|
    ensures stats.Some? ==>
      && Distinct(stats.value.modes)
      && PassVote !in stats.value.modes
      && forall v :: v in stats.value.modes <==> IsModeOf(NonPass(values), v)
    ensures stats.Some? ==>
      && stats.value.mean == Mean(Numbers(NonPass(values)))
      && stats.value.median == Median(Numbers(NonPass(values)))
  {
    var validVotes := NonPass(values);
    if |validVotes| == 0 {
      return None;
    }
    var numericVotes := Numbers(validVotes);
    var mean := Mean(numericVotes);
    var median := Median(numericVotes);
    var modes := Modes(validVotes);
    stats := Some(Stats(mean, median, modes, |validVotes|, |values| - |validVotes|));
  }

  // ---- the worked examples ---------------------------------------------------------------

  /** {Alice: "3", Bob: "5", Carol: "3"}: three votes, none of them Pass. */
  lemma ExampleThreeFiveThree()
    ensures NonPass(["3", "5", "3"]) == ["3", "5", "3"]
    ensures Count(["3", "5", "3"], PassVote) == 0
  {
    var values := ["3", "5", "3"];
    assert values[..2] == ["3", "5"] && ["3", "5"][..1] == ["3"];
    assert NonPass(["3"]) == ["3"];
    assert NonPass(["3", "5"]) == ["3", "5"];
  }

  /** The same votes count for 3, 5 and 3. */
  lemma ExampleThreeFiveThreeNumbers()
    ensures Numbers(["3", "5", "3"]) == [3.0, 5.0, 3.0]
  {
    assert NumericValue("3") == 3.0;
    assert NumericValue("5") == 5.0;
  }

  /** ... so the mean is 11/3 (shown 3.67) ... */
  lemma ExampleThreeFiveThreeMean()
    ensures Mean([3.0, 5.0, 3.0]) == 11.0 / 3.0
  {
    var nums := [3.0, 5.0, 3.0];
    assert nums[..2] == [3.0, 5.0] && [3.0, 5.0][..1] == [3.0];
    assert Sum(nums) == 11.0;
  }

  /** ... and the median, the middle of 3, 3, 5, is 3. */
  lemma SortPair(b: real, c: real)
    requires c < b
    ensures Sort([b, c]) == [c, b]
  {
    SortCons(b, [c]);
    assert [b] + [c] == [b, c];
    assert Sort([c]) == [c] by {
      SortCons(c, []);
      assert [c] + [] == [c];
    }
    InsertAfterOne(b, c);
  }

  /** Sorting [a, b, c] when c lies between a and b. */
  lemma SortThree(a: real, b: real, c: real)
    requires a <= c < b
    ensures Sort([a, b, c]) == [a, c, b]
  {
    SortPair(b, c);
    SortCons(a, [b, c]);
    assert [a] + [b, c] == [a, b, c];
    InsertFront(a, [c, b]);
  }

  lemma ExampleThreeFiveThreeSorted()
    ensures Sort([3.0, 5.0, 3.0]) == [3.0, 3.0, 5.0]
  {
    SortThree(3.0, 5.0, 3.0);
  }

  lemma ExampleThreeFiveThreeMedian()
    ensures Median([3.0, 5.0, 3.0]) == 3.0
  {
    ExampleThreeFiveThreeSorted();
  }

  /** The same votes have the single mode "3". */
  lemma ExampleThreeFiveThreeMode()
    ensures forall v :: IsModeOf(["3", "5", "3"], v) <==> v == "3"
  {
    var values := ["3", "5", "3"];
    assert values[..2] == ["3", "5"] && ["3", "5"][..1] == ["3"];
    assert Count(values, "3") == 2;
    assert Count(values, "5") == 1;
    forall v ensures IsModeOf(values, v) <==> v == "3" {
      if v in values {
        assert v == "3" || v == "5";
      }
    }
  }

  /** {Alice: "Pass", Bob: "8"}: one vote and one Pass ... */
  lemma ExamplePassEight()
    ensures NonPass(["Pass", "8"]) == ["8"]
    ensures Count(["Pass", "8"], PassVote) == 1
  {
    assert ["Pass", "8"][..1] == ["Pass"];
    assert NonPass(["Pass"]) == [];
  }

  /** ... and 8 for mean, median and mode. */
  lemma ExamplePassEightStats()
    ensures Numbers(["8"]) == [8.0]
    ensures Mean([8.0]) == 8.0 && Median([8.0]) == 8.0
    ensures forall v :: IsModeOf(["8"], v) <==> v == "8"
  {
    assert NumericValue("8") == 8.0;
    SortCons(8.0, []);
  }

  /** {Alice: "\U{00BD}", Bob: "1"}: no Pass, and the votes count for 0.5 and 1 ... */
  lemma ExampleHalfPoint()
    ensures NonPass([HalfPoint, "1"]) == [HalfPoint, "1"]
  {
    assert [HalfPoint, "1"][..1] == [HalfPoint];
    assert NonPass([HalfPoint]) == [HalfPoint];
  }

  lemma ExampleHalfPointNumbers()
    ensures Numbers([HalfPoint, "1"]) == [0.5, 1.0]
  {
    assert NumericValue(HalfPoint) == 0.5;
    assert NumericValue("1") == 1.0;
  }

  /** ... so mean and median are 0.75. */
  lemma ExampleHalfPointStats()
    ensures Mean([0.5, 1.0]) == 0.75
    ensures Median([0.5, 1.0]) == 0.75
  {
    assert [0.5, 1.0][..1] == [0.5];
    assert Sum([0.5, 1.0]) == 1.5;
    SortCons(1.0, []);
    SortCons(0.5, [1.0]);
    assert Insert(0.5, [1.0]) == [0.5, 1.0];
  }
}
