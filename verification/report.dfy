/**
  The report of src/main.rs: each group projected to its name and total
  private memory, sorted ascending by the key (memory, name), and the kB
  figure turned into bytes for the formatter.
 */
module Report {

  import opened Usage
  import opened Groups
  import opened Grouping

  /** `(name, usage_totals().memory)`: one row of the report, memory in kB. */
  datatype Entry = Entry(name: Name, memory: nat)

  /** One printed row: the name and the byte figure handed to the SI formatter. */
  datatype Line = Line(name: Name, bytes: nat)

  /** Byte-wise lexicographic order on names, the order of `OsStr` on Unix. */
  predicate NameLe(a: Name, b: Name)
    decreases |a|
  {
    if |a| == 0 then true
    else if |b| == 0 then false
    else if a[0] != b[0] then a[0] < b[0]
    else NameLe(a[1..], b[1..])
  }

  lemma {:induction false} NameLeReflexive(a: Name)
    ensures NameLe(a, a)
    decreases |a|
  {
    if |a| > 0 {
      NameLeReflexive(a[1..]);
    }
  }

  lemma {:induction false} NameLeAntisymmetric(a: Name, b: Name)
    requires NameLe(a, b) && NameLe(b, a)
    ensures a == b
    decreases |a|
  {
    if |a| > 0 {
      NameLeAntisymmetric(a[1..], b[1..]);
      assert a == [a[0]] + a[1..] && b == [b[0]] + b[1..];
    }
  }

  lemma {:induction false} NameLeTransitive(a: Name, b: Name, c: Name)
    requires NameLe(a, b) && NameLe(b, c)
    ensures NameLe(a, c)
    decreases |a|
  {
    if |a| > 0 && a[0] == b[0] && b[0] == c[0] {
      NameLeTransitive(a[1..], b[1..], c[1..]);
    }
  }

  lemma {:induction false} NameLeTotal(a: Name, b: Name)
    ensures NameLe(a, b) || NameLe(b, a)
    decreases |a|
  {
    if |a| > 0 && |b| > 0 && a[0] == b[0] {
      NameLeTotal(a[1..], b[1..]);
    }
  }

  /** The sort key `(memory, name)` compared as a tuple: memory first, then name. */
  predicate EntryLe(x: Entry, y: Entry)
  {
    x.memory < y.memory || (x.memory == y.memory && NameLe(x.name, y.name))
  }

  /** The key order is a total order: total, antisymmetric and transitive. */
  lemma EntryLeTotalOrder(x: Entry, y: Entry, z: Entry)
    ensures EntryLe(x, y) || EntryLe(y, x)
    ensures EntryLe(x, y) && EntryLe(y, x) ==> x == y
    ensures EntryLe(x, y) && EntryLe(y, z) ==> EntryLe(x, z)
  {
    NameLeTotal(x.name, y.name);
    if EntryLe(x, y) && EntryLe(y, x) {
      NameLeAntisymmetric(x.name, y.name);
    }
    if EntryLe(x, y) && EntryLe(y, z) && x.memory == y.memory == z.memory {
      NameLeTransitive(x.name, y.name, z.name);
    }
  }

  predicate Sorted(s: seq<Entry>)
  {
    forall i, j | 0 <= i < j < |s| :: EntryLe(s[i], s[j])
  }

  /** An entry at most the head of a sorted sequence can go in front of it. */
  lemma PrependSorted(e: Entry, s: seq<Entry>)
    requires Sorted(s) && |s| > 0 && EntryLe(e, s[0])
    ensures Sorted([e] + s)
  {
    forall j | 0 < j < |s|
      ensures EntryLe(e, s[j])
    {
      EntryLeTotalOrder(e, s[0], s[j]);
    }
  }

  /** The head of a sorted sequence can go in front of any sorted arrangement of its tail and an entry above it. */
  lemma ConsSorted(h: Entry, e: Entry, tail: seq<Entry>, r: seq<Entry>)
    requires Sorted([h] + tail) && !EntryLe(e, h)
    requires Sorted(r) && multiset(r) == multiset(tail) + multiset{e}
    ensures Sorted([h] + r)
  {
    EntryLeTotalOrder(e, h, h);
    assert EntryLe(h, e);
    var s := [h] + tail;
    forall x | x in r
      ensures EntryLe(h, x)
    {
      assert x in multiset(r);
      if x != e {
        assert x in multiset(tail);
        var j :| 0 <= j < |tail| && tail[j] == x;
        assert s[0] == h && s[j + 1] == x;
        assert EntryLe(s[0], s[j + 1]);
      }
    }
  }

  /** Inserts one entry into a sorted sequence, keeping it sorted. */
  function Insert(e: Entry, s: seq<Entry>): (r: seq<Entry>)
    requires Sorted(s)
    ensures Sorted(r)
    ensures multiset(r) == multiset(s) + multiset{e}
    decreases |s|
  {
    if |s| == 0 then [e]
    else if EntryLe(e, s[0]) then
      PrependSorted(e, s);
      [e] + s
    else
      var tail := s[1..];
      assert s == [s[0]] + tail;
      var r' := Insert(e, tail);
      ConsSorted(s[0], e, tail, r');
      [s[0]] + r'
  }

  /** The row the projection of main.rs makes for a group of the snapshot. */
  predicate InReport(snapshot: map<Name, ProcessGroup>, e: Entry)
  {
    e.name in snapshot && e.memory == snapshot[e.name].usageTotals.memory
  }

  /**
    A report of the snapshot: sorted by (memory, name) and a permutation of the
    projected rows, each group's row occurring exactly once and nothing else.
   */
  ghost predicate IsReport(snapshot: map<Name, ProcessGroup>, entries: seq<Entry>)
  {
    && Sorted(entries)
    && forall e :: multiset(entries)[e] == if InReport(snapshot, e) then 1 else 0
  }

  /**
    The projection and `sort_unstable_by_key`: walks the groups in an
    unspecified order, as `HashMap` iteration does, and sorts by (memory, name).
   */
  method SortedUsage(snapshot: map<Name, ProcessGroup>) returns (entries: seq<Entry>)
    ensures Sorted(entries)
    ensures forall e :: multiset(entries)[e] == if InReport(snapshot, e) then 1 else 0
    ensures |entries| == |snapshot|
  {
    var pending := snapshot.Keys;
    entries := [];
    while pending != {}
      invariant pending <= snapshot.Keys
      invariant Sorted(entries)
      invariant forall e :: multiset(entries)[e] == if InReport(snapshot, e) && e.name !in pending then 1 else 0
      invariant |entries| + |pending| == |snapshot|
      decreases pending
    {
      var n :| n in pending;
      var e := Entry(n, snapshot[n].usageTotals.memory);
      entries := Insert(e, entries);
      pending := pending - {n};
    }
  }

  /** Every group of the snapshot has its row in a report. */
  lemma ReportCoversGroups(snapshot: map<Name, ProcessGroup>, entries: seq<Entry>)
    requires IsReport(snapshot, entries)
    ensures forall n | n in snapshot :: Entry(n, snapshot[n].usageTotals.memory) in entries
    ensures forall i | 0 <= i < |entries| :: InReport(snapshot, entries[i])
  {
    forall n | n in snapshot
      ensures Entry(n, snapshot[n].usageTotals.memory) in entries
    {
      assert multiset(entries)[Entry(n, snapshot[n].usageTotals.memory)] == 1;
    }
    forall i | 0 <= i < |entries|
      ensures InReport(snapshot, entries[i])
    {
      assert entries[i] in multiset(entries);
    }
  }

  /** A value at two positions of a sequence occurs at least twice in it. */
  lemma TwoPositionsCountTwice(s: seq<Entry>, i: int, j: int)
    requires 0 <= i < j < |s| && s[i] == s[j]
    ensures multiset(s)[s[i]] >= 2
  {
    assert s == s[..i] + [s[i]] + s[i + 1..j] + [s[j]] + s[j + 1..];
  }

  /**
    Names are map keys, so no two rows share a name: within equal memory the
    names strictly ascend, and a later row is strictly greater than an earlier one.
   */
  lemma ReportStrictlyOrdered(snapshot: map<Name, ProcessGroup>, entries: seq<Entry>)
    requires IsReport(snapshot, entries)
    ensures forall i, j | 0 <= i < j < |entries| :: entries[i].name != entries[j].name
    ensures forall i, j | 0 <= i < j < |entries| ::
              entries[i].memory < entries[j].memory
              || (entries[i].memory == entries[j].memory && NameLe(entries[i].name, entries[j].name))
  {
    ReportCoversGroups(snapshot, entries);
    forall i, j | 0 <= i < j < |entries|
      ensures entries[i].name != entries[j].name
    {
      if entries[i].name == entries[j].name {
        assert entries[i] == entries[j];
        TwoPositionsCountTwice(entries, i, j);
        assert false;
      }
    }
  }

  /** The groups with the most private memory come last. */
  lemma ReportLargestLast(snapshot: map<Name, ProcessGroup>, entries: seq<Entry>)
    requires IsReport(snapshot, entries) && snapshot != map[]
    ensures |entries| > 0
    ensures forall n | n in snapshot :: snapshot[n].usageTotals.memory <= entries[|entries| - 1].memory
  {
    ReportCoversGroups(snapshot, entries);
    var n :| n in snapshot;
    assert Entry(n, snapshot[n].usageTotals.memory) in entries;
    forall m | m in snapshot
      ensures snapshot[m].usageTotals.memory <= entries[|entries| - 1].memory
    {
      var e := Entry(m, snapshot[m].usageTotals.memory);
      assert e in entries;
      var i :| 0 <= i < |entries| && entries[i] == e;
      if i < |entries| - 1 {
        assert EntryLe(entries[i], entries[|entries| - 1]);
      }
    }
  }

  /** The head of a sorted sequence is below each of its elements. */
  lemma SortedHeadLeast(s: seq<Entry>, x: Entry)
    requires Sorted(s) && x in multiset(s)
    ensures |s| > 0 && EntryLe(s[0], x)
  {
    var k :| 0 <= k < |s| && s[k] == x;
    if k == 0 {
      EntryLeTotalOrder(x, x, x);
    }
  }

  /** The tail of a non-empty sorted sequence is sorted and holds the other entries. */
  lemma SortedTail(s: seq<Entry>)
    requires Sorted(s) && |s| > 0
    ensures Sorted(s[1..])
    ensures s == [s[0]] + s[1..]
    ensures multiset(s[1..]) == multiset(s) - multiset{s[0]}
  {
  }

  /** Two sorted sequences holding the same entries are equal. */
  lemma {:induction false} SortedUnique(a: seq<Entry>, b: seq<Entry>)
    requires Sorted(a) && Sorted(b) && multiset(a) == multiset(b)
    ensures a == b
    decreases |a|
  {
    assert |a| == |multiset(a)| == |multiset(b)| == |b|;
    if |a| > 0 {
      assert a[0] in multiset(a) && b[0] in multiset(b);
      SortedHeadLeast(b, a[0]);
      SortedHeadLeast(a, b[0]);
      EntryLeTotalOrder(a[0], b[0], b[0]);
      SortedTail(a);
      SortedTail(b);
      SortedUnique(a[1..], b[1..]);
    }
  }

  /**
    The order is fully determined: whatever order the groups are visited in,
    there is exactly one report of a snapshot.
   */
  lemma ReportDeterministic(snapshot: map<Name, ProcessGroup>, a: seq<Entry>, b: seq<Entry>)
    requires IsReport(snapshot, a) && IsReport(snapshot, b)
    ensures a == b
  {
    assert multiset(a) == multiset(b);
    SortedUnique(a, b);
  }

  /** `usage * 1000`: the kB figure converted to the byte figure the formatter receives. */
  function Lines(entries: seq<Entry>): (lines: seq<Line>)
    ensures |lines| == |entries|
    ensures forall i | 0 <= i < |lines| ::
              && lines[i].name == entries[i].name
              && lines[i].bytes % 1000 == 0
              && lines[i].bytes / 1000 == entries[i].memory
  {
    seq(|entries|, i requires 0 <= i < |entries| => Line(entries[i].name, entries[i].memory * 1000))
  }

  /** The printed byte figures keep the report's ascending order. */
  lemma LinesAscending(entries: seq<Entry>)
    requires Sorted(entries)
    ensures forall i, j | 0 <= i < j < |entries| :: Lines(entries)[i].bytes <= Lines(entries)[j].bytes
  {
  }

  /**
    A report of the groups built from some records has one row per counted
    basename, no name twice, each row's memory the summed private memory of
    that name's records, ascending.
   */
  lemma BuildReport(records: seq<ProcRecord>, entries: seq<Entry>)
    requires AllNoPanic(records) && IsReport(Build(records), entries)
    ensures forall i | 0 <= i < |entries| ::
              && entries[i].name in NamesOf(records)
              && entries[i].memory == Sum(UsagesFor(records, entries[i].name)).memory
    ensures forall n | n in NamesOf(records) :: exists i | 0 <= i < |entries| :: entries[i].name == n
    ensures forall i, j | 0 <= i < j < |entries| ::
              entries[i].name != entries[j].name && entries[i].memory <= entries[j].memory
  {
    var snapshot := Build(records);
    BuildTotals(records);
    ReportCoversGroups(snapshot, entries);
    ReportStrictlyOrdered(snapshot, entries);
    forall n | n in NamesOf(records)
      ensures exists i | 0 <= i < |entries| :: entries[i].name == n
    {
      var e := Entry(n, snapshot[n].usageTotals.memory);
      assert e in entries;
      var i :| 0 <= i < |entries| && entries[i] == e;
    }
    forall i | 0 <= i < |entries|
      ensures entries[i].memory == Sum(UsagesFor(records, entries[i].name)).memory
    {
      assert InReport(snapshot, entries[i]);
      assert GroupOf(snapshot, entries[i].name) == snapshot[entries[i].name];
    }
  }

  /** The printed lines of a report of the groups built from some records. */
  lemma BuildReportLines(records: seq<ProcRecord>, entries: seq<Entry>)
    requires AllNoPanic(records) && IsReport(Build(records), entries)
    ensures forall i | 0 <= i < |Lines(entries)| ::
              && Lines(entries)[i].name in NamesOf(records)
              && Lines(entries)[i].bytes % 1000 == 0
              && Lines(entries)[i].bytes / 1000 == Sum(UsagesFor(records, Lines(entries)[i].name)).memory
    ensures forall n | n in NamesOf(records) :: exists i | 0 <= i < |Lines(entries)| :: Lines(entries)[i].name == n
    ensures forall i, j | 0 <= i < j < |Lines(entries)| ::
              Lines(entries)[i].name != Lines(entries)[j].name && Lines(entries)[i].bytes <= Lines(entries)[j].bytes
    ensures forall i, j | 0 <= i < j < |Lines(entries)| ::
              || Lines(entries)[i].bytes < Lines(entries)[j].bytes
              || (Lines(entries)[i].bytes == Lines(entries)[j].bytes && NameLe(Lines(entries)[i].name, Lines(entries)[j].name))
  {
    var lines := Lines(entries);
    BuildReport(records, entries);
    LinesAscending(entries);
    forall n | n in NamesOf(records)
      ensures exists i | 0 <= i < |lines| :: lines[i].name == n
    {
      var i :| 0 <= i < |entries| && entries[i].name == n;
      assert lines[i].name == n;
    }
    forall i, j | 0 <= i < j < |lines|
      ensures lines[i].bytes < lines[j].bytes || (lines[i].bytes == lines[j].bytes && NameLe(lines[i].name, lines[j].name))
    {
      assert EntryLe(entries[i], entries[j]);
      assert lines[i].bytes == entries[i].memory * 1000 && lines[j].bytes == entries[j].memory * 1000;
    }
  }

  /**
    The pipeline of `main`: group the process records, sort the groups by
    (memory, name) and convert each total to bytes. Each counted name gets one
    line whose byte figure is 1000 times the private memory of all its records,
    and the lines ascend by (figure, name).
   */
  method TopGroup(records: seq<ProcRecord>) returns (lines: seq<Line>)
    requires AllNoPanic(records)
    ensures |lines| == |NamesOf(records)|
    ensures forall i | 0 <= i < |lines| ::
              && lines[i].name in NamesOf(records)
              && lines[i].bytes % 1000 == 0
              && lines[i].bytes / 1000 == Sum(UsagesFor(records, lines[i].name)).memory
    ensures forall n | n in NamesOf(records) :: exists i | 0 <= i < |lines| :: lines[i].name == n
    ensures forall i, j | 0 <= i < j < |lines| :: lines[i].name != lines[j].name && lines[i].bytes <= lines[j].bytes
    ensures forall i, j | 0 <= i < j < |lines| ::
              lines[i].bytes < lines[j].bytes || (lines[i].bytes == lines[j].bytes && NameLe(lines[i].name, lines[j].name))
  {
    var snapshot := Build(records);
    var entries := SortedUsage(snapshot);
    assert |entries| == |NamesOf(records)| by {
      assert |snapshot| == |snapshot.Keys|;
    }
    BuildReportLines(records, entries);
    lines := Lines(entries);
  }
}
