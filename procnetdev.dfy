/**
 * The two parsers of the kernel's per-interface counter table (the text of
 * /proc/net/dev) in APMonitor: read_counters, which looks for one interface and
 * stops at the first line that parses, and read_all_counters, which builds a
 * dictionary of every interface except the loopback one. The command output is
 * the input string `data`.
 */
module ProcNetDev {
  import opened Maybe
  import opened Text

  /** Cumulative receive and transmit byte counters of one interface (or of a sum of interfaces). */
  datatype Counters = Counters(rx: int, tx: int)

  datatype Entry = Entry(name: string, counters: Counters)

  /** A Python dictionary from interface name to counters; the sequence keeps insertion order. */
  type Table = seq<Entry>

  predicate HasName(t: Table, name: string) {
    exists i :: 0 <= i < |t| && t[i].name == name
  }

  predicate DistinctNames(t: Table) {
    forall i, j :: 0 <= i < j < |t| ==> t[i].name != t[j].name
  }

  /** dict.get(name) */
  function Lookup(t: Table, name: string): (r: Option<Counters>)
    ensures r.Some? ==> Entry(name, r.value) in t
    decreases |t|
  {
    if t == [] then None
    else if t[0].name == name then Some(t[0].counters)
    else Lookup(t[1..], name)
  }

  /**
   * dict[name] = counters: a name already present keeps its position and gets
   * the new value; a new name goes at the end.
   */
  function Put(t: Table, e: Entry): (r: Table)
    ensures |t| <= |r| <= |t| + 1
    decreases |t|
  {
    if t == [] then [e]
    else if t[0].name == e.name then [e] + t[1..]
    else [t[0]] + Put(t[1..], e)
  }

  /** dict.get finds a name exactly when some entry carries it, and returns that entry's counters. */
  lemma {:induction false} LookupFindsEntry(t: Table, name: string)
    ensures Lookup(t, name).None? <==> !HasName(t, name)
    ensures Lookup(t, name).Some? ==> exists i :: 0 <= i < |t| && t[i] == Entry(name, Lookup(t, name).value)
    decreases |t|
  {
    if t != [] && t[0].name != name {
      LookupFindsEntry(t[1..], name);
      if HasName(t, name) {
        var i :| 0 <= i < |t| && t[i].name == name;
        assert t[1..][i - 1].name == name;
      }
      if Lookup(t, name).Some? {
        var i :| 0 <= i < |t[1..]| && t[1..][i] == Entry(name, Lookup(t, name).value);
        assert t[i + 1] == t[1..][i];
      }
    }
  }

  /** After dict[name] = c, dict.get(name) is c and every other name reads as before. */
  lemma {:induction false} PutThenLookup(t: Table, e: Entry, name: string)
    ensures Lookup(Put(t, e), name) == if name == e.name then Some(e.counters) else Lookup(t, name)
    decreases |t|
  {
    if t != [] && t[0].name != e.name {
      PutThenLookup(t[1..], e, name);
    }
  }

  /** dict[name] = c on a new name appends; on a present name it keeps every position's key. */
  lemma {:induction false} PutKeepsOrder(t: Table, e: Entry)
    ensures !HasName(t, e.name) ==> Put(t, e) == t + [e]
    ensures HasName(t, e.name) ==>
              |Put(t, e)| == |t| && forall i :: 0 <= i < |t| ==> Put(t, e)[i].name == t[i].name
    decreases |t|
  {
    if t != [] && t[0].name != e.name {
      PutKeepsOrder(t[1..], e);
      var r := Put(t, e);
      if HasName(t, e.name) {
        var i :| 0 <= i < |t| && t[i].name == e.name;
        assert t[1..][i - 1].name == e.name;
        forall i | 0 <= i < |t| ensures r[i].name == t[i].name {
          if i > 0 { assert r[i] == Put(t[1..], e)[i - 1]; }
        }
      } else {
        assert [t[0]] + (t[1..] + [e]) == t + [e];
      }
    }
  }

  /** Storing into a dictionary never creates a second entry for a name. */
  lemma PutKeepsNamesDistinct(t: Table, e: Entry)
    requires DistinctNames(t)
    ensures DistinctNames(Put(t, e))
  {
    PutKeepsOrder(t, e);
    var r := Put(t, e);
    if !HasName(t, e.name) {
      assert forall i :: 0 <= i < |t| ==> r[i] == t[i];
    }
  }

  // ---------------------------------------------------------------------------
  // One line of the table

  predicate IsColon(c: char) {
    c == ':'
  }

  /** A line cut at its first ':' into the stripped name and the whitespace-separated fields. */
  datatype RawLine = RawLine(name: string, fields: seq<string>)

  /**
   * Both parsers strip the line, skip it when it is blank or holds no ':', and
   * otherwise split it once at the first ':'; the name is stripped and the rest
   * split on whitespace.
   */
  function SplitCounterLine(line: string): Option<RawLine>
  {
    var l := Strip(line);
    if l == [] || ':' !in l then None
    else
      var k := FindFirst(l, IsColon);
      Some(RawLine(Strip(l[..k]), Words(l[k + 1..])))
  }

  /**
   * A line is split exactly when its stripped text is non-empty and holds a ':'; the
   * name is then stripped and holds no ':', and the fields are non-empty words.
   */
  lemma SplitCounterLineShape(line: string)
    ensures SplitCounterLine(line).Some? <==> Strip(line) != [] && ':' in Strip(line)
    ensures SplitCounterLine(line).Some? ==>
              var raw := SplitCounterLine(line).value;
              ':' !in raw.name && Strip(raw.name) == raw.name
              && forall i :: 0 <= i < |raw.fields| ==> raw.fields[i] != [] && NoSpace(raw.fields[i])
  {
    var l := Strip(line);
    if l != [] && ':' in l {
      var k := FindFirst(l, IsColon);
      assert Avoids(l[..k], IsColon);
      StripIdempotent(l[..k]);
      StripAvoids(l[..k], IsColon);
      NoColon(Strip(l[..k]));
    }
  }

  lemma NoColon(s: string)
    requires Avoids(s, IsColon)
    ensures ':' !in s
  {
  }

  /**
   * The fixed column positions: rx is field 0; tx is field 8 when there are more
   * than 8 fields, otherwise the last field. None when either is not an integer.
   */
  function FieldCounters(fields: seq<string>): (c: Option<Counters>)
    requires |fields| >= 1
    ensures |fields| == 1 && c.Some? ==> c.value.rx == c.value.tx
  {
    var rx := ParseInt(fields[0]);
    var tx := ParseInt(if |fields| > 8 then fields[8] else fields[|fields| - 1]);
    if rx.Some? && tx.Some? then Some(Counters(rx.value, tx.value)) else None
  }

  /** What read_counters takes from one line while looking for iface: at least one field. */
  function CountersFor(line: string, iface: string): (c: Option<Counters>)
    ensures c.Some? ==> var raw := SplitCounterLine(line);
      raw.Some? && raw.value.name == iface && |raw.value.fields| >= 1
  {
    match SplitCounterLine(line)
    case None => None
    case Some(raw) =>
      if raw.name != iface || |raw.fields| == 0 then None else FieldCounters(raw.fields)
  }

  /** What read_all_counters takes from one line: never "lo", at least two fields. */
  function TableEntry(line: string): (e: Option<Entry>)
    ensures e.Some? ==> var raw := SplitCounterLine(line);
      e.value.name != "lo" && raw.Some? && raw.value.name == e.value.name && |raw.value.fields| >= 2
  {
    match SplitCounterLine(line)
    case None => None
    case Some(raw) =>
      if raw.name == "lo" || |raw.fields| < 2 then None
      else
        match FieldCounters(raw.fields)
        case None => None
        case Some(c) => Some(Entry(raw.name, c))
  }

  /** On a line read_all_counters stores, read_counters for that name takes the same counters. */
  lemma TableEntryAgrees(line: string)
    requires TableEntry(line).Some?
    ensures CountersFor(line, TableEntry(line).value.name) == Some(TableEntry(line).value.counters)
  {
    var raw := SplitCounterLine(line).value;
    assert TableEntry(line).value == Entry(raw.name, FieldCounters(raw.fields).value);
  }

  /** read_counters over the lines: the counters of the first line that parses for iface. */
  function FirstCounters(lines: seq<string>, iface: string): Option<Counters>
    decreases |lines|
  {
    if lines == [] then None
    else
      match CountersFor(lines[0], iface)
      case Some(c) => Some(c)
      case None => FirstCounters(lines[1..], iface)
  }

  /** The entry each line yields to read_all_counters, line by line. */
  function LineEntries(lines: seq<string>): seq<Option<Entry>>
  {
    seq(|lines|, i requires 0 <= i < |lines| => TableEntry(lines[i]))
  }

  predicate Named(entry: Option<Entry>, name: string) {
    entry.Some? && entry.value.name == name
  }

  /** The loop body of read_all_counters applied to each parsed line in turn: result[name] = counters. */
  function StoreAll(entries: seq<Option<Entry>>): (t: Table)
    ensures DistinctNames(t)
    decreases |entries|
  {
    if entries == [] then []
    else
      var t := StoreAll(entries[..|entries| - 1]);
      match entries[|entries| - 1]
      case None => t
      case Some(e) =>
        PutKeepsNamesDistinct(t, e);
        Put(t, e)
  }

  /** read_all_counters over the lines; it never holds "lo" and never holds a name twice. */
  function CounterTable(lines: seq<string>): (t: Table)
    ensures DistinctNames(t) && !HasName(t, "lo")
  {
    var t := StoreAll(LineEntries(lines));
    StoreAllKeepsLast(LineEntries(lines), "lo");
    LookupFindsEntry(t, "lo");
    t
  }

  /** APMonitor.read_counters(iface) on the command output data; None stands for (None, None). */
  function ParseCounters(data: string, iface: string): (c: Option<Counters>)
    ensures var lines := SplitLines(data);
      c.Some? ==> exists k :: 0 <= k < |lines| && CountersFor(lines[k], iface) == c
                             && forall j :: 0 <= j < k ==> CountersFor(lines[j], iface).None?
  {
    var lines := SplitLines(data);
    if FirstCounters(lines, iface).Some? then
      FirstCountersIsFirstMatch(lines, iface);
      FirstCounters(lines, iface)
    else None
  }

  /** APMonitor.read_all_counters() on the command output data. */
  function ParseAllCounters(data: string): (t: Table)
    ensures DistinctNames(t) && !HasName(t, "lo")
  {
    CounterTable(SplitLines(data))
  }

  lemma FirstCountersNext(lines: seq<string>, i: int, iface: string)
    requires 0 <= i < |lines|
    ensures FirstCounters(lines[i..], iface) ==
              if CountersFor(lines[i], iface).Some? then CountersFor(lines[i], iface)
              else FirstCounters(lines[i + 1..], iface)
  {
    assert lines[i..][0] == lines[i] && lines[i..][1..] == lines[i + 1..];
  }

  /** One pass of the loop of read_counters: the counters of the line if it is iface's and parses. */
  method LineCounters(line: string, iface: string) returns (c: Option<Counters>)
    ensures c == CountersFor(line, iface)
  {
    c := None;
    var raw := SplitCounterLine(line);
    if raw.Some? && raw.value.name == iface && |raw.value.fields| > 0 {
      c := FieldCounters(raw.value.fields);
    }
  }

  /** The loop of read_counters: returns at the first line that parses for iface. */
  method ScanCounters(data: string, iface: string) returns (found: Option<Counters>)
    ensures found == ParseCounters(data, iface)
  {
    var lines := SplitLines(data);
    ParseCountersIsFirst(data, iface);
    var i := 0;
    while i < |lines|
      invariant 0 <= i <= |lines|
      invariant FirstCounters(lines[i..], iface) == FirstCounters(lines, iface)
    {
      FirstCountersNext(lines, i, iface);
      var c := LineCounters(lines[i], iface);
      if c.Some? {
        return c;
      }
      i := i + 1;
    }
    assert lines[i..] == [];
    return None;
  }

  lemma ParseCountersIsFirst(data: string, iface: string)
    ensures ParseCounters(data, iface) == FirstCounters(SplitLines(data), iface)
  {
  }

  lemma StoreNextLine(lines: seq<string>, i: int)
    requires 0 <= i < |lines|
    ensures StoreAll(LineEntries(lines[..i + 1])) ==
              match TableEntry(lines[i])
              case None => StoreAll(LineEntries(lines[..i]))
              case Some(e) => Put(StoreAll(LineEntries(lines[..i])), e)
  {
    var es := LineEntries(lines[..i + 1]);
    assert es[..i] == LineEntries(lines[..i]);
    assert es[i] == TableEntry(lines[i]);
  }

  /** One pass of the loop of read_all_counters: store the line if it parses, skipping "lo". */
  method StoreLine(result: Table, line: string) returns (next: Table)
    ensures next == match TableEntry(line) case None => result case Some(e) => Put(result, e)
  {
    next := result;
    var raw := SplitCounterLine(line);
    if raw.Some? && raw.value.name != "lo" && |raw.value.fields| >= 2 {
      var c := FieldCounters(raw.value.fields);
      if c.Some? {
        next := Put(result, Entry(raw.value.name, c.value));
      }
    }
  }

  /** The loop of read_all_counters: stores every line that parses, skipping "lo". */
  method ScanAllCounters(data: string) returns (result: Table)
    ensures result == ParseAllCounters(data)
  {
    var lines := SplitLines(data);
    result := [];
    for i := 0 to |lines|
      invariant result == StoreAll(LineEntries(lines[..i]))
    {
      StoreNextLine(lines, i);
      result := StoreLine(result, lines[i]);
    }
    assert lines[..|lines|] == lines;
    assert result == CounterTable(lines);
  }

  // ---------------------------------------------------------------------------
  // What the parsers return, stated without their loops

  /** read_counters returns None exactly when no line parses for iface. */
  lemma {:induction false} FirstCountersMissing(lines: seq<string>, iface: string)
    ensures FirstCounters(lines, iface).None? <==>
              forall k :: 0 <= k < |lines| ==> CountersFor(lines[k], iface).None?
    decreases |lines|
  {
    if lines != [] {
      FirstCountersMissing(lines[1..], iface);
      if CountersFor(lines[0], iface).None? {
        forall k | 0 <= k < |lines| - 1 ensures lines[1..][k] == lines[k + 1] { }
      }
    }
  }

  /** Otherwise it returns the counters of the first line that parses for iface. */
  lemma {:induction false} FirstCountersIsFirstMatch(lines: seq<string>, iface: string)
    requires FirstCounters(lines, iface).Some?
    ensures exists k :: 0 <= k < |lines| && CountersFor(lines[k], iface) == FirstCounters(lines, iface)
                       && forall j :: 0 <= j < k ==> CountersFor(lines[j], iface).None?
  {
    assert lines[0..] == lines;
    FirstMatchFrom(lines, iface, 0);
  }

  /** The search resumed at line i, every earlier line having yielded nothing. */
  lemma {:induction false} FirstMatchFrom(lines: seq<string>, iface: string, i: nat)
    requires i <= |lines| && FirstCounters(lines[i..], iface).Some?
    requires forall j :: 0 <= j < i ==> CountersFor(lines[j], iface).None?
    ensures exists k :: i <= k < |lines| && CountersFor(lines[k], iface) == FirstCounters(lines[i..], iface)
                       && forall j :: 0 <= j < k ==> CountersFor(lines[j], iface).None?
    decreases |lines| - i
  {
    if i < |lines| {
      FirstCountersNext(lines, i, iface);
      if CountersFor(lines[i], iface).None? {
        FirstMatchFrom(lines, iface, i + 1);
      }
    }
  }

  /**
   * Storing parsed lines in turn leaves, for each name, the counters of the LAST
   * entry with that name, and no entry for a name none of them carries.
   */
  lemma {:induction false} StoreAllKeepsLast(entries: seq<Option<Entry>>, name: string)
    ensures Lookup(StoreAll(entries), name).None? <==>
              forall k :: 0 <= k < |entries| ==> !Named(entries[k], name)
    ensures Lookup(StoreAll(entries), name).Some? ==>
              exists k :: 0 <= k < |entries| && entries[k] == Some(Entry(name, Lookup(StoreAll(entries), name).value))
                       && forall j :: k < j < |entries| ==> !Named(entries[j], name)
    decreases |entries|
  {
    if entries != [] {
      var n := |entries| - 1;
      var init := entries[..n];
      StoreAllKeepsLast(init, name);
      forall k | 0 <= k < n ensures init[k] == entries[k] { }
      var t0 := StoreAll(init);
      var r := Lookup(StoreAll(entries), name);
      var last := entries[n];
      if last.Some? {
        PutThenLookup(t0, last.value, name);
      }
      if !Named(last, name) {
        assert r == Lookup(t0, name);
        if r.Some? {
          var k :| 0 <= k < |init| && init[k] == Some(Entry(name, r.value))
                   && forall j :: k < j < |init| ==> !Named(init[j], name);
          assert entries[k] == Some(Entry(name, r.value));
        }
      }
    }
  }

  lemma LineEntriesAt(lines: seq<string>, k: int)
    requires 0 <= k < |lines|
    ensures LineEntries(lines)[k] == TableEntry(lines[k])
  {
  }

  /** read_all_counters has no entry for exactly the names no line supplies. */
  lemma CounterTableMissing(lines: seq<string>, name: string)
    ensures Lookup(CounterTable(lines), name).None? <==>
              forall k :: 0 <= k < |lines| ==> !Named(TableEntry(lines[k]), name)
  {
    var es := LineEntries(lines);
    StoreAllKeepsLast(es, name);
    forall k | 0 <= k < |lines| ensures es[k] == TableEntry(lines[k]) {
      LineEntriesAt(lines, k);
    }
  }

  /** read_all_counters keeps, for each name, the counters of the LAST line that parses with that name. */
  lemma CounterTableKeepsLastLine(lines: seq<string>, name: string)
    requires Lookup(CounterTable(lines), name).Some?
    ensures exists k :: 0 <= k < |lines| && TableEntry(lines[k]) == Some(Entry(name, Lookup(CounterTable(lines), name).value))
                     && forall j :: k < j < |lines| ==> !Named(TableEntry(lines[j]), name)
  {
    var es := LineEntries(lines);
    var v := Lookup(CounterTable(lines), name).value;
    StoreAllKeepsLast(es, name);
    var k :| 0 <= k < |es| && es[k] == Some(Entry(name, v))
             && forall j :: k < j < |es| ==> !Named(es[j], name);
    LineEntriesAt(lines, k);
    forall j | k < j < |lines| ensures !Named(TableEntry(lines[j]), name) {
      LineEntriesAt(lines, j);
    }
  }

  /** Every name read_all_counters reports is also found by read_counters (the converse fails for "lo" and one-field lines). */
  lemma TableNamesAreFound(data: string, name: string)
    requires HasName(ParseAllCounters(data), name)
    ensures ParseCounters(data, name).Some?
  {
    var lines := SplitLines(data);
    LookupFindsEntry(ParseAllCounters(data), name);
    CounterTableMissing(lines, name);
    var k :| 0 <= k < |lines| && Named(TableEntry(lines[k]), name);
    TableEntryAgrees(lines[k]);
    FirstCountersMissing(lines, name);
  }

  // ---------------------------------------------------------------------------
  // Round trip against a rendering of the table

  predicate ValidName(name: string) {
    NoSpace(name) && ':' !in name
  }

  predicate ValidFields(fields: seq<string>) {
    forall i :: 0 <= i < |fields| ==> fields[i] != [] && NoSpace(fields[i])
  }

  /**
   * A counter line in a single-space rendering: indented name, ':', then the fields
   * one space apart. The kernel pads its columns instead; Text.WordsOfSpaced shows
   * that the words of the fields come out the same for any padding.
   */
  function CounterLine(name: string, fields: seq<string>): string
  {
    "  " + (name + ": " + JoinWords(fields))
  }

  /** The sixteen columns of a /proc/net/dev row: rx bytes first, tx bytes ninth, every other column 0. */
  function DevFields(c: Counters): seq<string>
  {
    [ShowInt(c.rx), "0", "0", "0", "0", "0", "0", "0", ShowInt(c.tx), "0", "0", "0", "0", "0", "0", "0"]
  }

  function DevLine(e: Entry): string
  {
    CounterLine(e.name, DevFields(e.counters))
  }

  /** The rendered table: header lines followed by one row per entry, joined with newlines. */
  function DevText(header: seq<string>, t: Table): string
    requires |header| >= 1
  {
    JoinLines(header + seq(|t|, i requires 0 <= i < |t| => DevLine(t[i])))
  }

  lemma ShowIntIsWord(v: int)
    ensures ShowInt(v) != [] && NoSpace(ShowInt(v))
  {
  }

  lemma DevFieldsValid(c: Counters)
    ensures ValidFields(DevFields(c))
  {
    ShowIntIsWord(c.rx);
    ShowIntIsWord(c.tx);
  }

  lemma {:induction false} JoinWordsLast(ws: seq<string>)
    requires |ws| >= 1 && ws[|ws| - 1] != []
    ensures JoinWords(ws) != [] && JoinWords(ws)[|JoinWords(ws)| - 1] == ws[|ws| - 1][|ws[|ws| - 1]| - 1]
    decreases |ws|
  {
    if |ws| > 1 {
      JoinWordsLast(ws[1..]);
    }
  }

  lemma {:induction false} JoinWordsAvoids(ws: seq<string>, sep: char -> bool)
    requires !sep(' ')
    requires forall i :: 0 <= i < |ws| ==> Avoids(ws[i], sep)
    ensures Avoids(JoinWords(ws), sep)
    decreases |ws|
  {
    if |ws| > 1 {
      JoinWordsAvoids(ws[1..], sep);
    }
  }

  lemma StripOfCounterLine(name: string, fields: seq<string>)
    requires ValidName(name) && |fields| >= 1 && ValidFields(fields)
    ensures Strip(CounterLine(name, fields)) == name + ": " + JoinWords(fields)
  {
    var x := name + ": " + JoinWords(fields);
    calc {
      Strip(CounterLine(name, fields));
      Strip("  " + x);
      { StripLeadingSpace("  ", x); }
      Strip(x);
      { UntrimmedLine(name, fields); StripUntrimmed(x); }
      x;
    }
  }

  lemma UntrimmedLine(name: string, fields: seq<string>)
    requires ValidName(name) && |fields| >= 1 && ValidFields(fields)
    ensures var x := name + ": " + JoinWords(fields); x != [] && !IsSpace(x[0]) && !IsSpace(x[|x| - 1])
  {
    var j := JoinWords(fields);
    var x := name + ": " + j;
    JoinWordsLast(fields);
    assert x[|x| - 1] == j[|j| - 1];
    assert x[0] == if name == [] then ':' else name[0];
  }

  lemma ColonSplit(name: string, rest: string)
    requires ':' !in name
    ensures var x := name + [':'] + rest;
      && ':' in x && FindFirst(x, IsColon) == |name| && x[..|name|] == name && x[|name| + 1..] == rest
  {
    var x := name + [':'] + rest;
    assert Avoids(name, IsColon) by {
      forall i | 0 <= i < |name| ensures !IsColon(name[i]) {
        assert name[i] in name;
      }
    }
    FindFirstOfJoin(name, ':', rest, IsColon);
    assert x[|name|] == ':';
    assert x[..|name|] == name;
    assert x[|name| + 1..] == rest;
  }

  /** A stripped line of the form name ':' rest splits into the stripped name and the words of rest. */
  lemma SplitCounterLineAt(line: string, name: string, rest: string)
    requires ':' !in name && Strip(line) == name + [':'] + rest
    ensures SplitCounterLine(line) == Some(RawLine(Strip(name), Words(rest)))
  {
    var l := Strip(line);
    ColonSplit(name, rest);
    assert l != [] && ':' in l;
    var k := FindFirst(l, IsColon);
    assert k == |name| && l[..k] == name && l[k + 1..] == rest;
  }

  /** Columns after the ninth never matter. */
  lemma FieldCountersIgnoresLaterColumns(fields: seq<string>, extra: seq<string>)
    requires |fields| >= 9
    ensures FieldCounters(fields + extra) == FieldCounters(fields)
  {
    var all := fields + extra;
    assert all[0] == fields[0] && all[8] == fields[8];
  }

  /** A row of a single field: that field is both rx and tx. */
  lemma FieldCountersSingleField(v: int)
    ensures FieldCounters([ShowInt(v)]) == Some(Counters(v, v))
  {
    ParseShowInt(v);
  }

  /** A row of two to eight fields: rx is the first field and tx the last, whatever lies between. */
  lemma FieldCountersShortRow(rx: int, mid: seq<string>, tx: int)
    requires |mid| <= 6
    ensures FieldCounters([ShowInt(rx)] + mid + [ShowInt(tx)]) == Some(Counters(rx, tx))
  {
    var f := [ShowInt(rx)] + mid + [ShowInt(tx)];
    assert f[0] == ShowInt(rx) && f[|f| - 1] == ShowInt(tx) && |f| <= 8;
    ParseShowInt(rx);
    ParseShowInt(tx);
  }

  /** A row of more than eight fields: tx is the ninth field, whatever the later columns hold. */
  lemma FieldCountersLongRow(rx: int, mid: seq<string>, tx: int, rest: seq<string>)
    requires |mid| == 7
    ensures FieldCounters([ShowInt(rx)] + mid + [ShowInt(tx)] + rest) == Some(Counters(rx, tx))
  {
    var f := [ShowInt(rx)] + mid + [ShowInt(tx)] + rest;
    assert f[0] == ShowInt(rx) && f[8] == ShowInt(tx) && |f| >= 9;
    ParseShowInt(rx);
    ParseShowInt(tx);
  }

  /** A row whose rx column or tx column is not an integer gives no counters. */
  lemma FieldCountersNeedIntegers(fields: seq<string>)
    requires |fields| >= 1
    requires ParseInt(fields[0]).None? || ParseInt(fields[if |fields| > 8 then 8 else |fields| - 1]).None?
    ensures FieldCounters(fields).None?
  {
  }

  /**
   * read_counters skips a line of iface whose rx column holds a character int() rejects,
   * and goes on with the next line.
   */
  lemma NonIntegerLineSkipped(lines: seq<string>, iface: string, k: nat)
    requires lines != []
    requires var raw := SplitCounterLine(lines[0]);
      raw.Some? && raw.value.fields != [] && k < |raw.value.fields[0]|
      && !IsDigit(raw.value.fields[0][k]) && raw.value.fields[0][k] != '_'
      && !(k == 0 && (raw.value.fields[0][0] == '+' || raw.value.fields[0][0] == '-'))
    ensures CountersFor(lines[0], iface).None?
    ensures FirstCounters(lines, iface) == FirstCounters(lines[1..], iface)
  {
    var fields := SplitCounterLine(lines[0]).value.fields;
    ParseIntRejects(fields[0], k);
    FieldCountersNeedIntegers(fields);
  }

  /** A rendered line splits back into its name and fields. */
  lemma SplitCounterLineOfRender(name: string, fields: seq<string>)
    requires ValidName(name) && |fields| >= 1 && ValidFields(fields)
    ensures SplitCounterLine(CounterLine(name, fields)) == Some(RawLine(name, fields))
  {
    var j := JoinWords(fields);
    StripOfCounterLine(name, fields);
    assert name + ": " + j == name + [':'] + (" " + j);
    SplitCounterLineAt(CounterLine(name, fields), name, " " + j);
    StripUntrimmed(name);
    WordsAfterSpace(fields);
  }

  lemma WordsAfterSpace(fields: seq<string>)
    requires ValidFields(fields)
    ensures Words(" " + JoinWords(fields)) == fields
  {
    var j := JoinWords(fields);
    assert (" " + j)[1..] == j;
    WordsOfJoin(fields);
  }

  /** The rx column and the ninth column of a rendered row parse back to the counters. */
  lemma FieldCountersOfDevFields(c: Counters)
    ensures FieldCounters(DevFields(c)) == Some(c)
  {
    var f := DevFields(c);
    assert f[0] == ShowInt(c.rx) && f[8] == ShowInt(c.tx) && |f| == 16;
    ParseShowInt(c.rx);
    ParseShowInt(c.tx);
  }

  /** A rendered row is read back by read_all_counters as the entry it came from. */
  lemma TableEntryOfDevLine(e: Entry)
    requires ValidName(e.name) && e.name != "lo"
    ensures TableEntry(DevLine(e)) == Some(e)
  {
    DevFieldsValid(e.counters);
    SplitCounterLineOfRender(e.name, DevFields(e.counters));
    FieldCountersOfDevFields(e.counters);
  }

  /** read_counters finds a rendered row under its own name. */
  lemma CountersForDevLine(e: Entry)
    requires ValidName(e.name)
    ensures CountersFor(DevLine(e), e.name) == Some(e.counters)
  {
    DevFieldsValid(e.counters);
    SplitCounterLineOfRender(e.name, DevFields(e.counters));
    FieldCountersOfDevFields(e.counters);
  }

  /** A line without ':' (a header line) is skipped. */
  lemma HeaderLineSkipped(l: string)
    requires ':' !in l
    ensures TableEntry(l) == None
  {
    assert ':' !in Strip(l);
  }

  lemma {:induction false} StoreAllOfRows(pre: seq<Option<Entry>>, t: Table, n: nat)
    requires forall k :: 0 <= k < |pre| ==> pre[k].None?
    requires DistinctNames(t) && n <= |t|
    ensures StoreAll(pre + seq(n, i requires 0 <= i < n => Some(t[i]))) == t[..n]
    decreases |pre| + n
  {
    var es := pre + seq(n, i requires 0 <= i < n => Some(t[i]));
    if n == 0 {
      assert es == pre;
      if pre != [] {
        StoreAllOfRows(pre[..|pre| - 1], t, 0);
        assert pre[..|pre| - 1] + [] == pre[..|pre| - 1];
      }
    } else {
      StoreAllOfRows(pre, t, n - 1);
      assert es[..|es| - 1] == pre + seq(n - 1, i requires 0 <= i < n - 1 => Some(t[i]));
      PutKeepsOrder(t[..n - 1], t[n - 1]);
      assert !HasName(t[..n - 1], t[n - 1].name);
      assert t[..n - 1] + [t[n - 1]] == t[..n];
    }
  }

  lemma LineEntriesOfConcat(a: seq<string>, b: seq<string>)
    ensures LineEntries(a + b) == LineEntries(a) + LineEntries(b)
  {
    forall k | 0 <= k < |a + b| ensures LineEntries(a + b)[k] == (LineEntries(a) + LineEntries(b))[k] {
      LineEntriesAt(a + b, k);
      if k < |a| {
        LineEntriesAt(a, k);
      } else {
        LineEntriesAt(b, k - |a|);
      }
    }
  }

  lemma LineEntriesOfHeader(header: seq<string>)
    requires forall i :: 0 <= i < |header| ==> ':' !in header[i]
    ensures LineEntries(header) == seq(|header|, i requires 0 <= i < |header| => None)
  {
    forall k | 0 <= k < |header| ensures LineEntries(header)[k] == None {
      LineEntriesAt(header, k);
      HeaderLineSkipped(header[k]);
    }
  }

  lemma LineEntriesOfDevLines(t: Table)
    requires forall i :: 0 <= i < |t| ==> ValidName(t[i].name) && t[i].name != "lo"
    ensures LineEntries(seq(|t|, i requires 0 <= i < |t| => DevLine(t[i]))) == seq(|t|, i requires 0 <= i < |t| => Some(t[i]))
  {
    var rows := seq(|t|, i requires 0 <= i < |t| => DevLine(t[i]));
    forall k | 0 <= k < |t| ensures LineEntries(rows)[k] == Some(t[k]) {
      LineEntriesAt(rows, k);
      TableEntryOfDevLine(t[k]);
    }
  }

  /** Lines without ':' (the two header lines) contribute nothing, and each row restores its entry. */
  lemma CounterTableOfRows(header: seq<string>, t: Table)
    requires forall i :: 0 <= i < |header| ==> ':' !in header[i]
    requires DistinctNames(t) && forall i :: 0 <= i < |t| ==> ValidName(t[i].name) && t[i].name != "lo"
    ensures CounterTable(header + seq(|t|, i requires 0 <= i < |t| => DevLine(t[i]))) == t
  {
    var rows := seq(|t|, i requires 0 <= i < |t| => DevLine(t[i]));
    LineEntriesOfConcat(header, rows);
    LineEntriesOfHeader(header);
    LineEntriesOfDevLines(t);
    StoreAllOfRows(seq(|header|, i requires 0 <= i < |header| => None), t, |t|);
    assert t[..|t|] == t;
  }

  /**
   * Round trip: read_all_counters over a rendered table (header lines without ':'
   * followed by one row per interface) returns the table, order included.
   */
  lemma ParseAllCountersOfDevText(header: seq<string>, t: Table)
    requires |header| >= 1
    requires forall i :: 0 <= i < |header| ==> ':' !in header[i] && Avoids(header[i], IsLineBreak)
    requires DistinctNames(t) && forall i :: 0 <= i < |t| ==> ValidName(t[i].name) && t[i].name != "lo"
    ensures ParseAllCounters(DevText(header, t)) == t
  {
    var rows := seq(|t|, i requires 0 <= i < |t| => DevLine(t[i]));
    var ls := header + rows;
    forall i | 0 <= i < |ls| ensures Avoids(ls[i], IsLineBreak) {
      if i >= |header| {
        DevLineAvoidsBreaks(t[i - |header|]);
      }
    }
    SplitOfJoin(ls, '\n', IsLineBreak);
    CounterTableOfRows(header, t);
  }

  /**
   * Two rows for the same interface: read_counters stops at the first one, while
   * read_all_counters lets the second overwrite the first.
   */
  lemma FirstRowWins(name: string, first: Counters, last: Counters)
    requires ValidName(name)
    ensures ParseCounters(JoinLines([DevLine(Entry(name, first)), DevLine(Entry(name, last))]), name) == Some(first)
  {
    var lines := [DevLine(Entry(name, first)), DevLine(Entry(name, last))];
    DevLineAvoidsBreaks(Entry(name, first));
    DevLineAvoidsBreaks(Entry(name, last));
    SplitOfJoin(lines, '\n', IsLineBreak);
    CountersForDevLine(Entry(name, first));
  }

  /** See FirstRowWins. */
  lemma LastRowWins(name: string, first: Counters, last: Counters)
    requires ValidName(name) && name != "lo"
    ensures ParseAllCounters(JoinLines([DevLine(Entry(name, first)), DevLine(Entry(name, last))])) == [Entry(name, last)]
  {
    var t := [Entry(name, first), Entry(name, last)];
    var rows := seq(|t|, i requires 0 <= i < |t| => DevLine(t[i]));
    assert rows == [DevLine(Entry(name, first)), DevLine(Entry(name, last))];
    DevLineAvoidsBreaks(t[0]);
    DevLineAvoidsBreaks(t[1]);
    SplitOfJoin(rows, '\n', IsLineBreak);
    LineEntriesOfDevLines(t);
    var es := LineEntries(rows);
    assert es == [Some(t[0]), Some(t[1])];
    StoreAllOverwrites(t[0], t[1]);
  }

  /** A second entry for a name replaces the first. */
  lemma StoreAllOverwrites(a: Entry, b: Entry)
    requires a.name == b.name
    ensures StoreAll([Some(a), Some(b)]) == [b]
  {
    var es := [Some(a), Some(b)];
    assert es[..1] == [Some(a)] && es[..1][..0] == [];
    assert StoreAll(es[..1]) == Put([], a) == [a];
    assert Put([a], b) == [b];
  }

  lemma DevLineAvoidsBreaks(e: Entry)
    requires ValidName(e.name)
    ensures Avoids(DevLine(e), IsLineBreak)
  {
    DevFieldsValid(e.counters);
    JoinWordsAvoids(DevFields(e.counters), IsLineBreak);
  }
}
