/** Ordered enumeration of registry keys. A `std::map<std::string, _>` iterates its
    keys in ascending `std::string` order; the scope's name listings copy that
    iteration into a vector. */
module OrderedNames {

  /** `std::string`'s `operator<`: the first differing character decides, and a
      proper prefix comes before every longer string that extends it. */
  predicate Less(a: string, b: string)
    decreases |a|
  {
    if a == [] then b != []
    else if b == [] then false
    else if a[0] != b[0] then a[0] < b[0]
    else Less(a[1..], b[1..])
  }

  lemma {:induction false} LessIrreflexive(a: string)
    ensures !Less(a, a)
  {
    if a != [] {
      LessIrreflexive(a[1..]);
    }
  }

  lemma {:induction false} LessAsymmetric(a: string, b: string)
    requires Less(a, b)
    ensures !Less(b, a)
  {
    if a != [] && b != [] && a[0] == b[0] {
      LessAsymmetric(a[1..], b[1..]);
    }
  }

  lemma {:induction false} LessTransitive(a: string, b: string, c: string)
    requires Less(a, b) && Less(b, c)
    ensures Less(a, c)
  {
    if a != [] && b != [] && c != [] && a[0] == b[0] && b[0] == c[0] {
      LessTransitive(a[1..], b[1..], c[1..]);
    }
  }

  lemma {:induction false} LessTotal(a: string, b: string)
    requires a != b
    ensures Less(a, b) || Less(b, a)
  {
    if a != [] && b != [] && a[0] == b[0] {
      assert a == [a[0]] + a[1..] && b == [b[0]] + b[1..];
      LessTotal(a[1..], b[1..]);
    }
  }

  /** Ascending without repetition. */
  predicate StrictlySorted(s: seq<string>) {
    forall i, j :: 0 <= i < j < |s| ==> Less(s[i], s[j])
  }

  /** Two ascending listings of the same names are the same listing: the order of
      a name listing is fully determined by the set of names. */
  lemma {:induction false} SortedUnique(a: seq<string>, b: seq<string>)
    requires StrictlySorted(a) && StrictlySorted(b)
    requires forall x :: x in a <==> x in b
    ensures a == b
  {
    assert a != [] ==> a[0] in b;
    assert b != [] ==> b[0] in a;
    if a != [] && b != [] {
      assert b[0] in a && a[0] in b;
      var j :| 0 <= j < |a| && a[j] == b[0];
      var i :| 0 <= i < |b| && b[i] == a[0];
      if j != 0 {
        LessAsymmetric(a[0], b[0]);
      }
      assert a[0] == b[0];
      LessIrreflexive(a[0]);
      forall x
        ensures x in a[1..] <==> x in b[1..]
      {
        if x in a[1..] {
          var k :| 0 <= k < |a| - 1 && a[1..][k] == x;
          assert Less(a[0], a[k + 1]) && x in a;
          var m :| 0 <= m < |b| && b[m] == x;
          assert b[1..][m - 1] == x;
        }
        if x in b[1..] {
          var k :| 0 <= k < |b| - 1 && b[1..][k] == x;
          assert Less(b[0], b[k + 1]) && x in b;
          var m :| 0 <= m < |a| && a[m] == x;
          assert a[1..][m - 1] == x;
        }
      }
      SortedUnique(a[1..], b[1..]);
      assert a == [a[0]] + a[1..] && b == [b[0]] + b[1..];
    }
  }

  /** The least of a non-empty set of names: the key a map iterator visits first. */
  method LeastName(candidates: set<string>) returns (least: string)
    requires candidates != {}
    ensures least in candidates
    ensures forall y :: y in candidates && y != least ==> Less(least, y)
  {
    least :| least in candidates;
    var rest := candidates - {least};
    while rest != {}
      invariant rest <= candidates && least in candidates && least !in rest
      invariant forall y :: y in candidates - rest && y != least ==> Less(least, y)
      decreases rest
    {
      var y :| y in rest;
      if Less(y, least) {
        forall z | z in candidates - rest && z != y
          ensures Less(y, z)
        {
          if z != least {
            LessTransitive(y, least, z);
          }
        }
        least := y;
      } else {
        LessTotal(least, y);
      }
      rest := rest - {y};
    }
  }

  /** The keys of `m` in the order a `std::map` iterator visits them: every key
      exactly once, in ascending order. */
  method SortedKeys<V>(m: map<string, V>) returns (names: seq<string>)
    ensures StrictlySorted(names)
    ensures forall x :: x in names <==> x in m
    ensures |names| == |m|
  {
    names := [];
    var rest := m.Keys;
    while rest != {}
      invariant rest <= m.Keys
      invariant forall x :: x in names <==> x in m && x !in rest
      invariant StrictlySorted(names)
      invariant forall i, y :: 0 <= i < |names| && y in rest ==> Less(names[i], y)
      invariant |names| + |rest| == |m|
      decreases rest
    {
      var least := LeastName(rest);
      names := names + [least];
      rest := rest - {least};
    }
  }
}
