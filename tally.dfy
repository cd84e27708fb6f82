/** Vote counting: frequencies, the mode loop, and how a list of vote values
    taken out of a map relates to the map itself. */
module Tally {

  /** Number of occurrences of v in s. */
  function Count(s: seq<string>, v: string): nat {
    if s == [] then 0 else Count(s[..|s| - 1], v) + (if s[|s| - 1] == v then 1 else 0)
  }

  lemma {:induction false} CountPositive(s: seq<string>, v: string)
    ensures v in s <==> Count(s, v) > 0
  {
    if s != [] {
      CountPositive(s[..|s| - 1], v);
      assert s == s[..|s| - 1] + [s[|s| - 1]];
    }
  }

  lemma CountSnoc(s: seq<string>, x: string, v: string)
    ensures Count(s + [x], v) == Count(s, v) + (if x == v then 1 else 0)
  {
    assert (s + [x])[..|s|] == s;
  }

  predicate Distinct(s: seq<string>) {
    forall i, j :: 0 <= i < j < |s| ==> s[i] != s[j]
  }

  /** v is a most frequent value of s. */
  ghost predicate IsModeOf(s: seq<string>, v: string) {
    v in s && forall w :: w in s ==> Count(s, w) <= Count(s, v)
  }

  /** The mode loop of calculateAndDisplayMode: count each value, then keep the values
      whose count equals the running maximum. The source walks the counts in
      Object.entries order; here the order is left open, so only the set is stated. */
  method Modes(values: seq<string>) returns (modes: seq<string>)
    ensures modes == [] <==> values == []
    ensures Distinct(modes)
    ensures forall v :: v in modes <==> IsModeOf(values, v)
  {
    var frequency: map<string, nat> := map[];
    var i := 0;
    while i < |values|
      invariant 0 <= i <= |values|
      invariant forall v :: v in frequency <==> v in values[..i]
      invariant forall v :: v in frequency ==> frequency[v] == Count(values[..i], v) && frequency[v] >= 1
    {
      var vote := values[i];
      CountPositive(values[..i], vote);
      assert values[..i + 1] == values[..i] + [vote];
      forall v ensures Count(values[..i + 1], v) == Count(values[..i], v) + (if vote == v then 1 else 0) {
        CountSnoc(values[..i], vote, v);
      }
      frequency := frequency[vote := if vote in frequency then frequency[vote] + 1 else 1];
      i := i + 1;
    }
    assert values[..i] == values;

    var maxCount := 0;
    modes := [];
    var pending := frequency.Keys;
    while pending != {}
      invariant pending <= frequency.Keys
      invariant forall k :: k in frequency && k !in pending ==> frequency[k] <= maxCount
      invariant forall k :: k in modes <==> k in frequency && k !in pending && frequency[k] == maxCount
      invariant pending == frequency.Keys ==> maxCount == 0
      invariant pending == frequency.Keys || modes != []
      invariant Distinct(modes)
      decreases pending
    {
      var vote :| vote in pending;
      var count := frequency[vote];
      if count > maxCount {
        maxCount := count;
        modes := [vote];
      } else if count == maxCount {
        modes := modes + [vote];
      }
      pending := pending - {vote};
    }

    forall v ensures v in modes <==> IsModeOf(values, v) {
      if v in modes {
        forall w | w in values ensures Count(values, w) <= Count(values, v) {
          assert w in frequency;
        }
      }
      if IsModeOf(values, v) {
        var top := modes[0];
        assert Count(values, top) <= Count(values, v);
      }
    }
    if values != [] {
      assert values[0] in frequency;
    }
  }

  // ---- lists of values taken out of a map -------------------------------------

  /** names and values list the entries of m, each key once (Array.from(m.keys()/values())). */
  ghost predicate Enumerates(names: seq<string>, values: seq<string>, m: map<string, string>) {
    && |names| == |values|
    && Distinct(names)
    && (forall n :: n in m <==> n in names)
    && (forall i :: 0 <= i < |names| ==> m[names[i]] == values[i])
  }

  /** Reads the entries of m one by one, in an order the model leaves open. */
  method ValuesOf(m: map<string, string>) returns (names: seq<string>, values: seq<string>)
    ensures Enumerates(names, values, m)
  {
    names, values := [], [];
    var pending := m.Keys;
    while pending != {}
      invariant pending <= m.Keys
      invariant |names| == |values| && Distinct(names)
      invariant forall n :: n in m <==> n in names || n in pending
      invariant forall n :: n in names ==> n !in pending
      invariant forall i :: 0 <= i < |names| ==> names[i] in m && m[names[i]] == values[i]
      decreases pending
    {
      var n :| n in pending;
      names, values := names + [n], values + [m[n]];
      pending := pending - {n};
    }
  }

  /** The names whose vote is v. */
  ghost function Voters(m: map<string, string>, v: string): set<string> {
    set n | n in m && m[n] == v
  }

  /** v is a most frequent vote of m. */
  ghost predicate IsMode(m: map<string, string>, v: string) {
    v in m.Values && forall w :: w in m.Values ==> |Voters(m, w)| <= |Voters(m, v)|
  }

  lemma EnumeratesDropLast(names: seq<string>, values: seq<string>, m: map<string, string>)
    requires Enumerates(names, values, m) && names != []
    ensures var last := names[|names| - 1];
      Enumerates(names[..|names| - 1], values[..|values| - 1], m - {last})
  {
    var k := |names| - 1;
    var last := names[k];
    forall n ensures n in m - {last} <==> n in names[..k] {
      if n in names[..k] {
        var i :| 0 <= i < k && names[..k][i] == n;
        assert names[i] != names[k];
      }
      if n in m - {last} {
        var i :| 0 <= i < |names| && names[i] == n;
        assert i != k;
        assert names[..k][i] == n;
      }
    }
  }

  /** Counting a value in an enumeration counts its voters. */
  lemma {:induction false} EnumerationCounts(names: seq<string>, values: seq<string>, m: map<string, string>, v: string)
    requires Enumerates(names, values, m)
    ensures Count(values, v) == |Voters(m, v)|
    decreases |names|
  {
    if names == [] {
      assert forall n :: n !in m;
      assert Voters(m, v) == {};
    } else {
      var k := |names| - 1;
      var last := names[k];
      var rest := m - {last};
      EnumeratesDropLast(names, values, m);
      EnumerationCounts(names[..k], values[..k], rest, v);
      assert values == values[..k] + [values[k]];
      CountSnoc(values[..k], values[k], v);
      assert last in m && m[last] == values[k];
      assert last !in Voters(rest, v);
      if values[k] == v {
        assert Voters(m, v) == Voters(rest, v) + {last};
      } else {
        assert Voters(m, v) == Voters(rest, v);
      }
    }
  }

  /** The listing is as long as the map. */
  lemma {:induction false} EnumerationSize(names: seq<string>, values: seq<string>, m: map<string, string>)
    requires Enumerates(names, values, m)
    ensures |values| == |m|
    decreases |names|
  {
    if names == [] {
      assert forall n :: n !in m;
      assert m.Keys == {};
    } else {
      var k := |names| - 1;
      var last := names[k];
      var rest := m - {last};
      EnumeratesDropLast(names, values, m);
      EnumerationSize(names[..k], values[..k], rest);
      assert m.Keys == rest.Keys + {last};
      assert |m.Keys| == |rest.Keys| + 1;
    }
  }

  /** The values listed are exactly the map's values. */
  lemma EnumerationValues(names: seq<string>, values: seq<string>, m: map<string, string>, v: string)
    requires Enumerates(names, values, m)
    ensures v in values <==> v in m.Values
  {
    if v in values {
      var i :| 0 <= i < |values| && values[i] == v;
      assert names[i] in m;
    }
    if v in m.Values {
      var n :| n in m && m[n] == v;
      var i :| 0 <= i < |names| && names[i] == n;
      assert values[i] == v;
    }
  }

  /** A mode of the listed values is a mode of the map, whatever order the listing took. */
  lemma EnumerationModes(names: seq<string>, values: seq<string>, m: map<string, string>, v: string)
    requires Enumerates(names, values, m)
    ensures IsModeOf(values, v) <==> IsMode(m, v)
  {
    EnumerationValues(names, values, m, v);
    EnumerationCounts(names, values, m, v);
    forall w ensures (w in values <==> w in m.Values) && Count(values, w) == |Voters(m, w)| {
      EnumerationValues(names, values, m, w);
      EnumerationCounts(names, values, m, w);
    }
  }

  /** calculateAndDisplayMode over a vote map: the listed modes are exactly the most
      frequent votes, each once, and there is one as soon as anybody voted. */
  method MapModes(votes: map<string, string>) returns (modes: seq<string>)
    ensures modes == [] <==> votes == map[]
    ensures Distinct(modes)
    ensures forall v :: v in modes <==> IsMode(votes, v)
  {
    var names, values := ValuesOf(votes);
    EnumerationSize(names, values, votes);
    if |values| == 0 {
      return [];
    }
    modes := Modes(values);
    forall v ensures v in modes <==> IsMode(votes, v) {
      EnumerationModes(names, values, votes, v);
    }
  }
}
