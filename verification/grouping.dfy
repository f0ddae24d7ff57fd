/**
  The fold inside `GroupedProcess::new` of src/lib.rs. The process table is
  abstracted into a sequence of records, one per process, in the order the
  table is walked; the fold buckets each counted record's usage under its
  executable basename.
 */
module Grouping {

  import opened Wrappers
  import opened Usage
  import opened Groups

  /** An executable basename: raw bytes, since OS paths need not be valid text. */
  type Name = seq<bv8>

  /** The two figures of a process's status file the fold reads, in kB. */
  datatype Status = Status(vmrss: Option<nat>, rssshmem: Option<nat>)

  /**
    One process as the fold sees it: `exe` is the basename of its executable
    (None when the exe link cannot be read), `status` is None when the status
    file cannot be read.
   */
  datatype ProcRecord = ProcRecord(pid: Pid, exe: Option<Name>, status: Option<Status>)

  /** The record passes the three skip checks: exe readable, status readable, VmRSS present. */
  predicate Counted(r: ProcRecord)
  {
    r.exe.Some? && r.status.Some? && r.status.value.vmrss.Some?
  }

  /**
    A counted record that has RssShmem (the code unwraps it) and whose RssShmem
    does not exceed VmRSS (the u64 subtraction panics in a debug build and wraps
    in a release build otherwise).
   */
  predicate NoPanic(r: ProcRecord)
  {
    Counted(r) ==> r.status.value.rssshmem.Some? && r.status.value.rssshmem.value <= r.status.value.vmrss.value
  }

  predicate AllNoPanic(rs: seq<ProcRecord>)
  {
    forall i | 0 <= i < |rs| :: NoPanic(rs[i])
  }

  /** The record is counted and belongs to the group named `n`. */
  predicate Matches(r: ProcRecord, n: Name)
  {
    Counted(r) && r.exe.value == n
  }

  /** The usage the fold records for a counted record. */
  function UsageOf(r: ProcRecord): (u: MemoryUsage)
    requires Counted(r) && NoPanic(r)
    ensures Consistent(u)
    ensures u.resident == r.status.value.vmrss.value && u.shared == r.status.value.rssshmem.value
  {
    FromStatus(r.status.value.vmrss.value, r.status.value.rssshmem.value)
  }

  /** `entry(n).or_insert(Default::default())`: the group named `n`, or a fresh empty one. */
  function GroupOf(groups: map<Name, ProcessGroup>, n: Name): ProcessGroup
  {
    if n in groups then groups[n] else EmptyGroup
  }

  /** One iteration of the loop: skip the record, or add its usage to its group. */
  function Step(groups: map<Name, ProcessGroup>, r: ProcRecord): (groups': map<Name, ProcessGroup>)
    requires NoPanic(r)
    ensures !Counted(r) ==> groups' == groups
    ensures Counted(r) ==> groups'.Keys == groups.Keys + {r.exe.value}
    ensures forall n | !Matches(r, n) :: GroupOf(groups', n) == GroupOf(groups, n)
  {
    if !Counted(r) then groups
    else
      var name := r.exe.value;
      groups[name := AddUsage(GroupOf(groups, name), r.pid, UsageOf(r))]
  }

  /** The basenames of the counted records. */
  function NamesOf(rs: seq<ProcRecord>): set<Name>
  {
    set r | r in rs && Counted(r) :: r.exe.value
  }

  lemma NamesOfSnoc(rs: seq<ProcRecord>, r: ProcRecord)
    ensures NamesOf(rs + [r]) == NamesOf(rs) + (if Counted(r) then {r.exe.value} else {})
  {
  }

  /** The whole loop: the groups built from the records, walked in order. */
  function Build(rs: seq<ProcRecord>): (snapshot: map<Name, ProcessGroup>)
    requires AllNoPanic(rs)
    ensures snapshot.Keys == NamesOf(rs)
  {
    if |rs| == 0 then map[]
    else
      var prefix := rs[..|rs| - 1];
      assert rs == prefix + [rs[|rs| - 1]];
      NamesOfSnoc(prefix, rs[|rs| - 1]);
      Step(Build(prefix), rs[|rs| - 1])
  }

  /** Reference: the usages of the counted records named `n`, in input order. */
  function UsagesFor(rs: seq<ProcRecord>, n: Name): (us: seq<MemoryUsage>)
    requires AllNoPanic(rs)
    ensures forall i | 0 <= i < |us| :: Consistent(us[i])
  {
    if |rs| == 0 then []
    else
      var r := rs[|rs| - 1];
      UsagesFor(rs[..|rs| - 1], n) + (if Matches(r, n) then [UsageOf(r)] else [])
  }

  /** Reference: the usage of the last counted record named `n` with pid `p`, if any. */
  function LastUsage(rs: seq<ProcRecord>, n: Name, p: Pid): (u: Option<MemoryUsage>)
    requires AllNoPanic(rs)
    ensures u.Some? ==> Consistent(u.value)
    ensures u.Some? <==> exists i | 0 <= i < |rs| :: Matches(rs[i], n) && rs[i].pid == p
  {
    if |rs| == 0 then None
    else
      var r := rs[|rs| - 1];
      if Matches(r, n) && r.pid == p then Some(UsageOf(r)) else LastUsage(rs[..|rs| - 1], n, p)
  }

  /** Counted records carry pairwise distinct pids, as in one process-table snapshot. */
  predicate UniquePids(rs: seq<ProcRecord>)
  {
    forall i, j | 0 <= i < j < |rs| && Counted(rs[i]) && Counted(rs[j]) :: rs[i].pid != rs[j].pid
  }

  /** Walking one more record applies one more step. */
  lemma BuildSnoc(rs: seq<ProcRecord>, r: ProcRecord)
    requires AllNoPanic(rs + [r])
    ensures AllNoPanic(rs) && NoPanic(r)
    ensures Build(rs + [r]) == Step(Build(rs), r)
  {
    assert (rs + [r])[..|rs|] == rs;
    assert forall i | 0 <= i < |rs| :: (rs + [r])[i] == rs[i];
    assert (rs + [r])[|rs|] == r;
  }

  /** Aggregating no records yields no groups. */
  lemma BuildEmpty()
    ensures Build([]) == map[]
  {
  }

  /** Each group's total is the sum of the usages of every counted record with its name. */
  lemma BuildTotals(rs: seq<ProcRecord>)
    requires AllNoPanic(rs)
    ensures forall n :: GroupOf(Build(rs), n).usageTotals == Sum(UsagesFor(rs, n))
  {
    forall n
      ensures GroupOf(Build(rs), n).usageTotals == Sum(UsagesFor(rs, n))
    {
      BuildTotalsOf(rs, n);
    }
  }

  lemma {:induction false} BuildTotalsOf(rs: seq<ProcRecord>, n: Name)
    requires AllNoPanic(rs)
    ensures GroupOf(Build(rs), n).usageTotals == Sum(UsagesFor(rs, n))
  {
    if |rs| > 0 {
      var prefix, r := rs[..|rs| - 1], rs[|rs| - 1];
      BuildTotalsOf(prefix, n);
      var before := GroupOf(Build(prefix), n);
      var us := UsagesFor(prefix, n);
      assert before.usageTotals == Sum(us);
      if Matches(r, n) {
        var u := UsageOf(r);
        assert UsagesFor(rs, n) == us + [u];
        assert GroupOf(Build(rs), n) == AddUsage(before, r.pid, u);
        SumSnoc(us, u);
      } else {
        assert UsagesFor(rs, n) == us + [];
        assert us + [] == us;
        assert GroupOf(Build(rs), n) == before;
      }
    }
  }

  /**
    Last write wins: a group maps exactly the pids of its counted records, each
    to the usage of the last such record carrying that pid.
   */
  lemma {:induction false} BuildLastWrite(rs: seq<ProcRecord>)
    requires AllNoPanic(rs)
    ensures forall n, p :: p in GroupOf(Build(rs), n).pidToUsage <==> LastUsage(rs, n, p).Some?
    ensures forall n, p | p in GroupOf(Build(rs), n).pidToUsage :: GroupOf(Build(rs), n).pidToUsage[p] == LastUsage(rs, n, p).value
  {
    if |rs| > 0 {
      var prefix, r := rs[..|rs| - 1], rs[|rs| - 1];
      BuildLastWrite(prefix);
      forall n, p
        ensures p in GroupOf(Build(rs), n).pidToUsage <==> LastUsage(rs, n, p).Some?
        ensures p in GroupOf(Build(rs), n).pidToUsage ==> GroupOf(Build(rs), n).pidToUsage[p] == LastUsage(rs, n, p).value
      {
      }
    }
  }

  /** Every recorded usage, and every group total, satisfies memory == resident - shared. */
  lemma BuildConsistent(rs: seq<ProcRecord>)
    requires AllNoPanic(rs)
    ensures forall n, p | n in Build(rs) && p in Build(rs)[n].pidToUsage :: Consistent(Build(rs)[n].pidToUsage[p])
    ensures forall n | n in Build(rs) :: Consistent(Build(rs)[n].usageTotals)
  {
  }

  /** With pids unique among counted records, every group keeps the totals invariant. */
  lemma {:induction false} BuildTotalsMatch(rs: seq<ProcRecord>)
    requires AllNoPanic(rs) && UniquePids(rs)
    ensures forall n :: TotalsMatch(GroupOf(Build(rs), n))
  {
    if |rs| > 0 {
      var prefix, r := rs[..|rs| - 1], rs[|rs| - 1];
      BuildTotalsMatch(prefix);
      if Counted(r) {
        var n := r.exe.value;
        var g := GroupOf(Build(prefix), n);
        BuildLastWrite(prefix);
        assert r.pid !in g.pidToUsage;
        AddUsageFreshKeepsTotals(g, r.pid, UsageOf(r));
      }
    }
  }

  /** A skipped record can be removed from anywhere in the input without changing the groups. */
  lemma {:induction false} BuildIgnoresSkipped(a: seq<ProcRecord>, r: ProcRecord, b: seq<ProcRecord>)
    requires AllNoPanic(a + [r] + b) && !Counted(r)
    ensures AllNoPanic(a + b)
    ensures Build(a + [r] + b) == Build(a + b)
    decreases |b|
  {
    var whole := a + [r] + b;
    assert AllNoPanic(a + b) by {
      forall i | 0 <= i < |a + b|
        ensures NoPanic((a + b)[i])
      {
        assert (a + b)[i] == if i < |a| then whole[i] else whole[i + 1];
      }
    }
    if |b| == 0 {
      assert whole == a + [r];
      assert a + b == a;
    } else {
      var b', x := b[..|b| - 1], b[|b| - 1];
      assert whole == (a + [r] + b') + [x];
      assert a + b == (a + b') + [x];
      assert AllNoPanic(a + [r] + b') by {
        forall i | 0 <= i < |a + [r] + b'|
          ensures NoPanic((a + [r] + b')[i])
        {
          assert (a + [r] + b')[i] == whole[i];
        }
      }
      BuildIgnoresSkipped(a, r, b');
      BuildSnoc(a + [r] + b', x);
      BuildSnoc(a + b', x);
    }
  }
  lemma AllNoPanicAppend(a: seq<ProcRecord>, b: seq<ProcRecord>)
    ensures AllNoPanic(a + b) <==> AllNoPanic(a) && AllNoPanic(b)
  {
    if AllNoPanic(a) && AllNoPanic(b) {
      forall i | 0 <= i < |a + b|
        ensures NoPanic((a + b)[i])
      {
        if i >= |a| {
          assert (a + b)[i] == b[i - |a|];
        }
      }
    }
    if AllNoPanic(a + b) {
      forall i | 0 <= i < |a|
        ensures NoPanic(a[i])
      {
        assert (a + b)[i] == a[i];
      }
      forall i | 0 <= i < |b|
        ensures NoPanic(b[i])
      {
        assert (a + b)[i + |a|] == b[i];
      }
    }
  }

  /** The per-name usages of a concatenation are the concatenated per-name usages. */
  lemma {:induction false} UsagesForAppend(a: seq<ProcRecord>, b: seq<ProcRecord>, n: Name)
    requires AllNoPanic(a) && AllNoPanic(b)
    ensures AllNoPanic(a + b)
    ensures UsagesFor(a + b, n) == UsagesFor(a, n) + UsagesFor(b, n)
    decreases |b|
  {
    AllNoPanicAppend(a, b);
    if |b| == 0 {
      assert a + b == a;
    } else {
      var b', x := b[..|b| - 1], b[|b| - 1];
      AllNoPanicAppend(b', [x]);
      assert b == b' + [x];
      assert a + b == (a + b') + [x];
      UsagesForAppend(a, b', n);
      assert (a + b)[..|a + b| - 1] == a + b';
    }
  }

  lemma AllNoPanicPermutation(rs: seq<ProcRecord>, rs': seq<ProcRecord>)
    requires AllNoPanic(rs) && multiset(rs) == multiset(rs')
    ensures AllNoPanic(rs')
  {
    forall i | 0 <= i < |rs'|
      ensures NoPanic(rs'[i])
    {
      assert rs'[i] in multiset(rs);
    }
  }

  /** Taking one record out of the middle removes exactly its usages. */
  lemma UsagesForMiddle(before: seq<ProcRecord>, x: ProcRecord, after: seq<ProcRecord>, n: Name)
    requires AllNoPanic(before + [x] + after)
    ensures AllNoPanic(before + after) && NoPanic(x)
    ensures multiset(UsagesFor(before + [x] + after, n))
         == multiset(UsagesFor(before + after, n)) + multiset(UsagesFor([x], n))
  {
    AllNoPanicAppend(before + [x], after);
    AllNoPanicAppend(before, [x]);
    AllNoPanicAppend(before, after);
    UsagesForAppend(before + [x], after, n);
    UsagesForAppend(before, [x], n);
    UsagesForAppend(before, after, n);
  }

  /** Reordering the records permutes each name's usages. */
  lemma {:induction false} UsagesForPermutation(rs: seq<ProcRecord>, rs': seq<ProcRecord>, n: Name)
    requires AllNoPanic(rs) && multiset(rs) == multiset(rs')
    ensures AllNoPanic(rs')
    ensures multiset(UsagesFor(rs, n)) == multiset(UsagesFor(rs', n))
    decreases |rs|
  {
    AllNoPanicPermutation(rs, rs');
    if |rs| == 0 {
      assert |rs'| == |multiset(rs')| == 0;
    } else {
      var k := |rs| - 1;
      var x, rest := rs[k], rs[..k];
      assert rs == rest + [x];
      assert x in multiset(rs');
      var i :| 0 <= i < |rs'| && rs'[i] == x;
      var before, after := rs'[..i], rs'[i + 1..];
      assert rs' == before + [x] + after;
      assert multiset(rest) == multiset(before + after) by {
        assert multiset(rs) == multiset(rest) + multiset{x};
        assert multiset(rs') == multiset(before) + multiset{x} + multiset(after);
        assert multiset(before + after) == multiset(before) + multiset(after);
        assert multiset(rest) == multiset(rs) - multiset{x};
        assert multiset(before + after) == multiset(rs') - multiset{x};
      }
      UsagesForMiddle(before, x, after, n);
      AllNoPanicAppend(rest, [x]);
      UsagesForPermutation(rest, before + after, n);
      UsagesForAppend(rest, [x], n);
    }
  }

  /**
    The walk order of the process table does not matter: any reordering of the
    records yields the same group names with the same totals.
   */
  lemma BuildOrderIndependent(rs: seq<ProcRecord>, rs': seq<ProcRecord>)
    requires AllNoPanic(rs) && multiset(rs) == multiset(rs')
    ensures AllNoPanic(rs')
    ensures Build(rs).Keys == Build(rs').Keys
    ensures forall n :: GroupOf(Build(rs), n).usageTotals == GroupOf(Build(rs'), n).usageTotals
  {
    AllNoPanicPermutation(rs, rs');
    assert forall r :: r in rs <==> r in rs' by {
      forall r
        ensures r in rs <==> r in rs'
      {
        assert r in rs <==> r in multiset(rs);
        assert r in rs' <==> r in multiset(rs');
      }
    }
    BuildTotals(rs);
    BuildTotals(rs');
    forall n
      ensures GroupOf(Build(rs), n).usageTotals == GroupOf(Build(rs'), n).usageTotals
    {
      UsagesForPermutation(rs, rs', n);
      SumPermutation(UsagesFor(rs, n), UsagesFor(rs', n));
    }
  }

  /** A counted record whose name has no group yet opens a group holding just that record. */
  lemma StepOpensGroup(groups: map<Name, ProcessGroup>, r: ProcRecord)
    requires Counted(r) && NoPanic(r) && r.exe.value !in groups
    ensures Step(groups, r) == groups[r.exe.value := ProcessGroup(map[r.pid := UsageOf(r)], UsageOf(r))]
  {
  }

  /** A counted record whose name has a group joins it. */
  lemma StepJoinsGroup(groups: map<Name, ProcessGroup>, r: ProcRecord)
    requires Counted(r) && NoPanic(r) && r.exe.value in groups
    ensures Step(groups, r) == groups[r.exe.value := AddUsage(groups[r.exe.value], r.pid, UsageOf(r))]
  {
  }

  const Nginx: Name := [0x6e, 0x67, 0x69, 0x6e, 0x78]
  const Sshd: Name := [0x73, 0x73, 0x68, 0x64]

  /** Two nginx processes form one group. */
  lemma ExampleNginxGroup(a: ProcRecord, b: ProcRecord)
    requires a == ProcRecord(100, Some(Nginx), Some(Status(Some(5000), Some(1000))))
    requires b == ProcRecord(101, Some(Nginx), Some(Status(Some(3000), Some(500))))
    ensures AllNoPanic([a, b])
    ensures Build([a, b]) == map[Nginx := ProcessGroup(map[100 := MemoryUsage(4000, 5000, 1000), 101 := MemoryUsage(2500, 3000, 500)],
                                                     MemoryUsage(6500, 8000, 1500))]
  {
    assert [] + [a] == [a];
    assert [a] + [b] == [a, b];
    var s0 := map[Nginx := ProcessGroup(map[100 := MemoryUsage(4000, 5000, 1000)], MemoryUsage(4000, 5000, 1000))];
    BuildSnoc([], a);
    StepOpensGroup(map[], a);
    assert Build([a]) == s0;
    BuildSnoc([a], b);
    StepJoinsGroup(s0, b);
  }

  /**
    Two nginx processes and one sshd process yield two
    groups, nginx holding both of its pids and their summed usage, sshd
    holding its single process.
   */
  lemma ExampleScenario(a: ProcRecord, b: ProcRecord, c: ProcRecord)
    requires a == ProcRecord(100, Some(Nginx), Some(Status(Some(5000), Some(1000))))
    requires b == ProcRecord(101, Some(Nginx), Some(Status(Some(3000), Some(500))))
    requires c == ProcRecord(200, Some(Sshd), Some(Status(Some(2000), Some(0))))
    ensures AllNoPanic([a, b, c])
    ensures Build([a, b, c])
         == map[Nginx := ProcessGroup(map[100 := MemoryUsage(4000, 5000, 1000), 101 := MemoryUsage(2500, 3000, 500)],
                                      MemoryUsage(6500, 8000, 1500)),
                Sshd := ProcessGroup(map[200 := MemoryUsage(2000, 2000, 0)], MemoryUsage(2000, 2000, 0))]
  {
    assert [a, b] + [c] == [a, b, c];
    assert AllNoPanic([a, b, c]);
    assert Nginx != Sshd by {
      assert |Nginx| != |Sshd|;
    }
    ExampleNginxGroup(a, b);
    var m := Build([a, b]);
    StepOpensGroup(m, c);
    BuildSnoc([a, b], c);
  }
}
