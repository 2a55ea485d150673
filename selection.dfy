/**
 * How the sampling loop chooses what to measure: detection of the busiest
 * interface from two snapshots of the counter table (at startup and on every
 * re-detection), and aggregation of every interface a comma-separated list of
 * glob patterns matches.
 */
module Selection {
  import opened Maybe
  import opened Text
  import opened Glob
  import opened ProcNetDev

  // ---------------------------------------------------------------------------
  // Busiest-interface detection

  /**
   * The traffic of one first-snapshot entry: growth of rx plus growth of tx, each
   * clamped at 0. An interface missing from the second snapshot counts as idle.
   */
  function Activity(e: Entry, second: Table): (d: int)
    ensures d >= 0
    ensures Lookup(second, e.name).None? ==> d == 0
    ensures Lookup(second, e.name).Some? ==>
              var c := Lookup(second, e.name).value;
              d == (if c.rx > e.counters.rx then c.rx - e.counters.rx else 0)
                 + (if c.tx > e.counters.tx then c.tx - e.counters.tx else 0)
  {
    var later := match Lookup(second, e.name) case Some(c) => c case None => e.counters;
    MaxInt(later.rx - e.counters.rx, 0) + MaxInt(later.tx - e.counters.tx, 0)
  }

  /** best_name and best_delta. */
  datatype Best = Best(name: Option<string>, delta: int)

  /** The detection loop over first.items() as a fold: a strictly larger delta replaces the best so far. */
  function Busiest(first: Table, second: Table): (b: Best)
    ensures b.name.None? <==> first == []
    ensures if first == [] then b.delta == -1 else b.delta >= 0
    decreases |first|
  {
    if first == [] then Best(None, -1)
    else
      var b := Busiest(first[..|first| - 1], second);
      var e := first[|first| - 1];
      if Activity(e, second) > b.delta then Best(Some(e.name), Activity(e, second)) else b
  }

  /** The detection loop itself. */
  method FindBusiest(first: Table, second: Table) returns (bestName: Option<string>, bestDelta: int)
    ensures Best(bestName, bestDelta) == Busiest(first, second)
  {
    bestName, bestDelta := None, -1;
    for i := 0 to |first|
      invariant Best(bestName, bestDelta) == Busiest(first[..i], second)
    {
      assert first[..i + 1][..i] == first[..i];
      var delta := Activity(first[i], second);
      if delta > bestDelta {
        bestDelta := delta;
        bestName := Some(first[i].name);
      }
    }
    assert first[..|first|] == first;
  }

  /** Entry k is busiest in t, and every entry before it is strictly less busy. */
  predicate IsFirstMaximum(t: Table, second: Table, k: int) {
    0 <= k < |t|
    && (forall j :: 0 <= j < |t| ==> Activity(t[j], second) <= Activity(t[k], second))
    && (forall j :: 0 <= j < k ==> Activity(t[j], second) < Activity(t[k], second))
  }

  /**
   * Detection picks an arg-max of the activity: no entry is busier, and every entry
   * before it is strictly less busy, so ties go to the first in table order. With an
   * empty first snapshot nothing is picked.
   */
  lemma {:induction false} BusiestIsFirstMaximum(first: Table, second: Table)
    ensures first == [] <==> Busiest(first, second).name.None?
    ensures first == [] ==> Busiest(first, second).delta == -1
    ensures first != [] ==>
              exists k :: IsFirstMaximum(first, second, k)
                && Busiest(first, second) == Best(Some(first[k].name), Activity(first[k], second))
    decreases |first|
  {
    if first != [] {
      var n := |first| - 1;
      BusiestIsFirstMaximum(first[..n], second);
      if n == 0 {
        assert IsFirstMaximum(first, second, 0);
      } else {
        var k :| IsFirstMaximum(first[..n], second, k)
                 && Busiest(first[..n], second) == Best(Some(first[..n][k].name), Activity(first[..n][k], second));
        if Activity(first[n], second) > Activity(first[k], second) {
          NewMaximum(first, second, k);
        } else {
          SameMaximum(first, second, k);
        }
      }
    }
  }

  lemma NewMaximum(t: Table, second: Table, k: int)
    requires |t| >= 2 && IsFirstMaximum(t[..|t| - 1], second, k)
    requires Activity(t[|t| - 1], second) > Activity(t[k], second)
    ensures IsFirstMaximum(t, second, |t| - 1)
  {
    var n := |t| - 1;
    forall j | 0 <= j < n ensures Activity(t[j], second) < Activity(t[n], second) {
      assert t[..n][j] == t[j];
    }
  }

  lemma SameMaximum(t: Table, second: Table, k: int)
    requires |t| >= 2 && IsFirstMaximum(t[..|t| - 1], second, k)
    requires Activity(t[|t| - 1], second) <= Activity(t[k], second)
    ensures IsFirstMaximum(t, second, k)
  {
    var n := |t| - 1;
    assert t[..n][k] == t[k];
    forall j | 0 <= j < n ensures Activity(t[j], second) <= Activity(t[k], second) {
      assert t[..n][j] == t[j];
    }
    forall j | 0 <= j < k ensures Activity(t[j], second) < Activity(t[k], second) {
      assert t[..n][j] == t[j];
    }
  }

  /** `if best_name:` -- the detected name is used only when there is one and it is not empty. */
  function Chosen(b: Best): (name: Option<string>)
    ensures name.Some? ==> name.value != "" && b.name == name
    ensures name.None? ==> b.name.None? || b.name.value == ""
  {
    if b.name.Some? && b.name.value != "" then b.name else None
  }

  /** Startup detection runs for an empty selector or one spelling "auto" in any case. */
  predicate WantsDetection(selector: string)
    ensures WantsDetection(selector) ==> !IsAggregate(selector)
  {
    AutoIsNoAggregate(selector);
    selector == "" || Lower(selector) == "auto"
  }

  /** A selector that lower-cases to "auto" holds no ',', '*' or '?', which lower-case to themselves. */
  lemma AutoIsNoAggregate(selector: string)
    ensures Lower(selector) == "auto" ==> !IsAggregate(selector)
  {
    if Lower(selector) == "auto" {
      forall i | 0 <= i < |selector| ensures selector[i] != ',' && selector[i] != '*' && selector[i] != '?' {
        assert Lower(selector)[i] == LowerChar(selector[i]);
      }
    }
  }

  // ---------------------------------------------------------------------------
  // Aggregation over glob patterns

  /** A selector holding ',', '*' or '?' is summed over every interface it matches. */
  predicate IsAggregate(selector: string) {
    ',' in selector || '*' in selector || '?' in selector
  }

  predicate IsComma(c: char) {
    c == ','
  }

  /** The non-empty stripped pieces of a list of pieces, in order. */
  function NonEmptyStripped(parts: seq<string>): seq<string>
  {
    if parts == [] then []
    else
      var p := Strip(parts[0]);
      if p == [] then NonEmptyStripped(parts[1..]) else [p] + NonEmptyStripped(parts[1..])
  }

  /** [p.strip() for p in selector.split(",") if p.strip()] */
  function Patterns(selector: string): (ps: seq<string>)
    ensures forall i :: 0 <= i < |ps| ==> CleanPattern(ps[i])
  {
    NonEmptyStrippedAreClean(SplitBy(selector, IsComma));
    NonEmptyStripped(SplitBy(selector, IsComma))
  }

  /** A piece the selector contributes as a pattern. */
  predicate CleanPattern(p: string) {
    p != [] && Strip(p) == p && Avoids(p, IsComma)
  }

  /** Every pattern is non-empty, stripped and free of commas. */
  lemma {:induction false} NonEmptyStrippedAreClean(parts: seq<string>)
    requires forall i :: 0 <= i < |parts| ==> Avoids(parts[i], IsComma)
    ensures forall i :: 0 <= i < |NonEmptyStripped(parts)| ==> CleanPattern(NonEmptyStripped(parts)[i])
    decreases |parts|
  {
    if parts != [] {
      NonEmptyStrippedAreClean(parts[1..]);
      var p := Strip(parts[0]);
      if p != [] {
        StripIdempotent(parts[0]);
        StripAvoids(parts[0], IsComma);
        var ps := NonEmptyStripped(parts);
        assert ps == [p] + NonEmptyStripped(parts[1..]);
        forall i | 0 <= i < |ps| ensures CleanPattern(ps[i]) {
          if i > 0 { assert ps[i] == NonEmptyStripped(parts[1..])[i - 1]; }
        }
      }
    }
  }

  /** Clean patterns joined with commas are read back as the same patterns. */
  lemma {:induction false} PatternsOfJoin(patterns: seq<string>)
    requires |patterns| >= 1 && forall i :: 0 <= i < |patterns| ==> CleanPattern(patterns[i])
    ensures Patterns(JoinBy(patterns, ',')) == patterns
  {
    SplitOfJoin(patterns, ',', IsComma);
    CleanPiecesKept(patterns);
  }

  lemma {:induction false} CleanPiecesKept(parts: seq<string>)
    requires forall i :: 0 <= i < |parts| ==> parts[i] != [] && Strip(parts[i]) == parts[i]
    ensures NonEmptyStripped(parts) == parts
    decreases |parts|
  {
    if parts != [] {
      KeptTail(parts);
      CleanPiecesKept(parts[1..]);
      NonEmptyStrippedKeeps(parts[0], parts[1..]);
      assert parts == [parts[0]] + parts[1..];
    }
  }

  lemma KeptTail(parts: seq<string>)
    requires parts != []
    requires forall i :: 0 <= i < |parts| ==> parts[i] != [] && Strip(parts[i]) == parts[i]
    ensures forall i :: 0 <= i < |parts| - 1 ==> parts[1..][i] != [] && Strip(parts[1..][i]) == parts[1..][i]
  {
    assert forall i :: 0 <= i < |parts| - 1 ==> parts[1..][i] == parts[i + 1];
  }

  lemma NonEmptyStrippedKeeps(p: string, rest: seq<string>)
    requires p != [] && Strip(p) == p
    ensures NonEmptyStripped([p] + rest) == [p] + NonEmptyStripped(rest)
  {
    assert ([p] + rest)[0] == p && ([p] + rest)[1..] == rest;
  }

  /** Sum of the counters of the entries whose name the pattern matches. */
  function MatchTotal(t: Table, pattern: string): Counters
    decreases |t|
  {
    if t == [] then Counters(0, 0)
    else
      var c := MatchTotal(t[..|t| - 1], pattern);
      var e := t[|t| - 1];
      if Matches(e.name, pattern) then Counters(c.rx + e.counters.rx, c.tx + e.counters.tx) else c
  }

  /** Sum over the patterns of what each one matches: an entry matched by two patterns counts twice. */
  function Totals(t: Table, patterns: seq<string>): Counters
    decreases |patterns|
  {
    if patterns == [] then Counters(0, 0)
    else
      var c := Totals(t, patterns[..|patterns| - 1]);
      var m := MatchTotal(t, patterns[|patterns| - 1]);
      Counters(c.rx + m.rx, c.tx + m.tx)
  }

  /** The aggregate counters for a selector over a counter table. */
  function AggregateCounters(selector: string, t: Table): (c: Counters)
    ensures c == Weighted(t, Patterns(selector))
  {
    TotalsAreWeighted(t, Patterns(selector));
    Totals(t, Patterns(selector))
  }

  /** The aggregation loops: for each pattern, for each interface, add its counters on a match. */
  method SumMatching(selector: string, allc: Table) returns (totalRx: int, totalTx: int)
    ensures Counters(totalRx, totalTx) == AggregateCounters(selector, allc)
  {
    var patterns := Patterns(selector);
    totalRx, totalTx := 0, 0;
    for i := 0 to |patterns|
      invariant Counters(totalRx, totalTx) == Totals(allc, patterns[..i])
    {
      var part := patterns[i];
      ghost var before := Counters(totalRx, totalTx);
      for j := 0 to |allc|
        invariant totalRx == before.rx + MatchTotal(allc[..j], part).rx
        invariant totalTx == before.tx + MatchTotal(allc[..j], part).tx
      {
        MatchTotalNext(allc, part, j);
        if Matches(allc[j].name, part) {
          totalRx := totalRx + allc[j].counters.rx;
          totalTx := totalTx + allc[j].counters.tx;
        }
      }
      assert allc[..|allc|] == allc;
      TotalsNext(allc, patterns, i);
    }
    assert patterns[..|patterns|] == patterns;
  }

  lemma MatchTotalNext(t: Table, pattern: string, j: int)
    requires 0 <= j < |t|
    ensures var c := MatchTotal(t[..j], pattern);
      MatchTotal(t[..j + 1], pattern) ==
        if Matches(t[j].name, pattern) then Counters(c.rx + t[j].counters.rx, c.tx + t[j].counters.tx) else c
  {
    assert t[..j + 1][..j] == t[..j];
  }

  lemma TotalsNext(t: Table, patterns: seq<string>, i: int)
    requires 0 <= i < |patterns|
    ensures var c, m := Totals(t, patterns[..i]), MatchTotal(t, patterns[i]);
      Totals(t, patterns[..i + 1]) == Counters(c.rx + m.rx, c.tx + m.tx)
  {
    assert patterns[..i + 1][..i] == patterns[..i];
  }

  // ---------------------------------------------------------------------------
  // What aggregation adds up, stated without the loops

  /** How many of the patterns match the name. */
  function Hits(name: string, patterns: seq<string>): (n: nat)
    ensures n <= |patterns|
    decreases |patterns|
  {
    if patterns == [] then 0
    else Hits(name, patterns[..|patterns| - 1]) + (if Matches(name, patterns[|patterns| - 1]) then 1 else 0)
  }

  /** Each entry's counters weighted by the number of patterns matching its name. */
  function Weighted(t: Table, patterns: seq<string>): Counters
    decreases |t|
  {
    if t == [] then Counters(0, 0)
    else
      var c := Weighted(t[..|t| - 1], patterns);
      var e := t[|t| - 1];
      var h := Hits(e.name, patterns);
      Counters(c.rx + h * e.counters.rx, c.tx + h * e.counters.tx)
  }

  lemma {:induction false} WeightedAddPattern(t: Table, patterns: seq<string>, p: string)
    ensures var w := Weighted(t, patterns); var m := MatchTotal(t, p);
      Weighted(t, patterns + [p]) == Counters(w.rx + m.rx, w.tx + m.tx)
    decreases |t|
  {
    if t != [] {
      var init, e := t[..|t| - 1], t[|t| - 1];
      assert (patterns + [p])[..|patterns|] == patterns;
      var h := Hits(e.name, patterns);
      WeightedAddPattern(init, patterns, p);
      var w0, m0 := Weighted(init, patterns), MatchTotal(init, p);
      if Matches(e.name, p) {
        assert Hits(e.name, patterns + [p]) == h + 1;
        MulSucc(h, e.counters.rx);
        MulSucc(h, e.counters.tx);
      } else {
        assert Hits(e.name, patterns + [p]) == h;
      }
    }
  }

  lemma MulSucc(h: int, x: int)
    ensures (h + 1) * x == h * x + x
  {
  }

  lemma {:induction false} WeightedOfNoPatterns(t: Table)
    ensures Weighted(t, []) == Counters(0, 0)
    decreases |t|
  {
    if t != [] {
      WeightedOfNoPatterns(t[..|t| - 1]);
    }
  }

  /**
   * The aggregate equals the sum over the table of each interface's counters times
   * the number of patterns that match its name: interfaces no pattern matches (and
   * "lo", which the table never holds) add nothing, and one matched twice counts twice.
   */
  lemma {:induction false} TotalsAreWeighted(t: Table, patterns: seq<string>)
    ensures Totals(t, patterns) == Weighted(t, patterns)
    decreases |patterns|
  {
    if patterns == [] {
      WeightedOfNoPatterns(t);
    } else {
      var n := |patterns| - 1;
      TotalsAreWeighted(t, patterns[..n]);
      WeightedAddPattern(t, patterns[..n], patterns[n]);
      assert patterns[..n] + [patterns[n]] == patterns;
    }
  }

  lemma {:induction false} HitsOfNoMatch(name: string, patterns: seq<string>)
    requires forall j :: 0 <= j < |patterns| ==> !Matches(name, patterns[j])
    ensures Hits(name, patterns) == 0
    decreases |patterns|
  {
    if patterns != [] {
      HitsOfNoMatch(name, patterns[..|patterns| - 1]);
    }
  }

  lemma {:induction false} WeightedOfNoMatch(t: Table, patterns: seq<string>)
    requires forall i, j :: 0 <= i < |t| && 0 <= j < |patterns| ==> !Matches(t[i].name, patterns[j])
    ensures Weighted(t, patterns) == Counters(0, 0)
    decreases |t|
  {
    if t != [] {
      var init := t[..|t| - 1];
      assert forall i :: 0 <= i < |init| ==> init[i] == t[i];
      WeightedOfNoMatch(init, patterns);
      HitsOfNoMatch(t[|t| - 1].name, patterns);
    }
  }

  /** When no pattern matches any interface the aggregate is zero, not missing. */
  lemma AggregateOfNoMatch(selector: string, t: Table)
    requires forall i, j :: 0 <= i < |t| && 0 <= j < |Patterns(selector)| ==> !Matches(t[i].name, Patterns(selector)[j])
    ensures AggregateCounters(selector, t) == Counters(0, 0)
  {
    WeightedOfNoMatch(t, Patterns(selector));
  }

  /** A wildcard-free pattern picks out exactly the interface of that name. */
  lemma {:induction false} LiteralMatchTotal(t: Table, name: string)
    requires !HasWildcard(name) && DistinctNames(t)
    ensures MatchTotal(t, name) == match Lookup(t, name) case Some(c) => c case None => Counters(0, 0)
    decreases |t|
  {
    if t != [] {
      var n := |t| - 1;
      var init := t[..n];
      assert DistinctNames(init) by {
        forall i, j | 0 <= i < j < |init| ensures init[i].name != init[j].name {
          assert init[i] == t[i] && init[j] == t[j];
        }
      }
      LiteralMatchTotal(init, name);
      LiteralPattern(t[n].name, name);
      LookupOfSnoc(init, t[n], name);
      if t[n].name == name {
        assert !HasName(init, name) by {
          forall i | 0 <= i < |init| ensures init[i].name != name {
            assert init[i] == t[i];
          }
        }
        LookupFindsEntry(init, name);
      }
      assert init + [t[n]] == t;
    }
  }

  /** Looking a name up in a table with one more entry at the end. */
  lemma {:induction false} LookupOfSnoc(t: Table, e: Entry, name: string)
    ensures Lookup(t + [e], name) == if Lookup(t, name).Some? then Lookup(t, name) else if e.name == name then Some(e.counters) else None
    decreases |t|
  {
    if t != [] {
      assert (t + [e])[1..] == t[1..] + [e];
      LookupOfSnoc(t[1..], e, name);
    }
  }

  /** The worked example: "eth*,wlan0" over eth0, eth1, wlan0 sums to rx 16, tx 26. */
  lemma AggregateExample()
    ensures Totals(ExampleTable(), ["eth*", "wlan0"]) == Counters(16, 26)
  {
    ExampleStarTotal();
    ExampleLiteralTotal();
    assert ["eth*", "wlan0"][..1] == ["eth*"] && ["eth*"][..0] == [];
  }

  function ExampleTable(): Table {
    [Entry("eth0", Counters(10, 20)), Entry("eth1", Counters(5, 5)), Entry("wlan0", Counters(1, 1))]
  }

  lemma ExampleStarTotal()
    ensures MatchTotal(ExampleTable(), "eth*") == Counters(15, 25)
  {
    var t := ExampleTable();
    assert "eth" + "*" == "eth*";
    PrefixStar("eth0", "eth");
    PrefixStar("eth1", "eth");
    PrefixStar("wlan0", "eth");
    assert "wlan0"[..3] != "eth";
    assert t[..2][..1] == t[..1] && t[..1][..0] == [] && t[..3][..2] == t[..2] && t[..3] == t;
    assert MatchTotal(t[..1], "eth*") == Counters(10, 20);
    assert MatchTotal(t[..2], "eth*") == Counters(15, 25);
  }

  lemma ExampleLiteralTotal()
    ensures MatchTotal(ExampleTable(), "wlan0") == Counters(1, 1)
  {
    var t := ExampleTable();
    LiteralPattern("eth0", "wlan0");
    LiteralPattern("eth1", "wlan0");
    LiteralPattern("wlan0", "wlan0");
    assert t[..2][..1] == t[..1] && t[..1][..0] == [] && t[..3][..2] == t[..2] && t[..3] == t;
    assert t[0].name == "eth0" && t[1].name == "eth1" && t[2].name == "wlan0";
    assert MatchTotal(t[..1], "wlan0") == Counters(0, 0);
    assert MatchTotal(t[..2], "wlan0") == Counters(0, 0);
  }
}
