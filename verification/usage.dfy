/**
  The `MemoryUsage` value type of src/lib.rs: three kB counters that add
  field-wise and sum as a left fold starting from the all-zero default.
  Counters are unbounded naturals; the u64 width of the source is not modelled.
 */
module Usage {

  /** Memory usage statistics of a process or of a whole group, all in kB. */
  datatype MemoryUsage = MemoryUsage(memory: nat, resident: nat, shared: nat)

  /** `MemoryUsage::default()`: every counter zero. */
  const Zero := MemoryUsage(0, 0, 0)

  /** `impl Add for MemoryUsage`: field-wise addition. */
  function Add(a: MemoryUsage, b: MemoryUsage): MemoryUsage
  {
    MemoryUsage(a.memory + b.memory, a.resident + b.resident, a.shared + b.shared)
  }

  /** The relation the field documentation promises: `memory` is resident minus shared. */
  predicate Consistent(u: MemoryUsage)
  {
    u.shared <= u.resident && u.memory == u.resident - u.shared
  }

  /** The usage of one process, built from its resident and shared figures. */
  function FromStatus(resident: nat, shared: nat): (u: MemoryUsage)
    requires shared <= resident
    ensures Consistent(u)
    ensures u.resident == resident && u.shared == shared
  {
    MemoryUsage(resident - shared, resident, shared)
  }

  /** A usage is consistent exactly when it is the one built from its own resident and shared figures. */
  lemma ConsistentIffFromStatus(u: MemoryUsage)
    ensures Consistent(u) <==> (u.shared <= u.resident && u == FromStatus(u.resident, u.shared))
  {
  }

  lemma AddCommutative(a: MemoryUsage, b: MemoryUsage)
    ensures Add(a, b) == Add(b, a)
  {
  }

  lemma AddAssociative(a: MemoryUsage, b: MemoryUsage, c: MemoryUsage)
    ensures Add(Add(a, b), c) == Add(a, Add(b, c))
  {
  }

  lemma ZeroIdentity(a: MemoryUsage)
    ensures Add(Zero, a) == a && Add(a, Zero) == a
  {
  }

  /** Adding two consistent usages gives a consistent usage. */
  lemma AddConsistent(a: MemoryUsage, b: MemoryUsage)
    requires Consistent(a) && Consistent(b)
    ensures Consistent(Add(a, b))
  {
  }

  /** `impl Sum for MemoryUsage`: `fold(default, |acc, x| acc + x)`. */
  function Sum(xs: seq<MemoryUsage>): MemoryUsage
  {
    if |xs| == 0 then Zero else Add(Sum(xs[..|xs| - 1]), xs[|xs| - 1])
  }

  /** Appending one summand adds it to the sum. */
  lemma SumSnoc(xs: seq<MemoryUsage>, x: MemoryUsage)
    ensures Sum(xs + [x]) == Add(Sum(xs), x)
  {
    assert (xs + [x])[..|xs|] == xs;
  }

  lemma SumEmpty()
    ensures Sum([]) == Zero
  {
  }

  /** Summing the concatenation of two sequences adds their sums. */
  lemma {:induction false} SumAppend(xs: seq<MemoryUsage>, ys: seq<MemoryUsage>)
    ensures Sum(xs + ys) == Add(Sum(xs), Sum(ys))
    decreases |ys|
  {
    if |ys| == 0 {
      assert xs + ys == xs;
    } else {
      var ys' := ys[..|ys| - 1];
      var y := ys[|ys| - 1];
      var zs := xs + ys;
      assert zs[..|zs| - 1] == xs + ys';
      assert zs[|zs| - 1] == y;
      assert Sum(zs) == Add(Sum(xs + ys'), y);
      assert Sum(ys) == Add(Sum(ys'), y);
      SumAppend(xs, ys');
      AddAssociative(Sum(xs), Sum(ys'), y);
    }
  }

  /** Moving one summand out of the middle of a sequence to its end leaves the sum unchanged. */
  lemma {:induction false} SumMoveToEnd(before: seq<MemoryUsage>, x: MemoryUsage, after: seq<MemoryUsage>)
    ensures Sum(before + [x] + after) == Add(Sum(before + after), x)
  {
    var b, a := Sum(before), Sum(after);
    assert [x][..0] == [];
    assert Sum([x]) == x;
    SumAppend(before, [x]);
    assert Sum(before + [x]) == Add(b, x);
    SumAppend(before + [x], after);
    assert Sum(before + [x] + after) == Add(Add(b, x), a);
    SumAppend(before, after);
    assert Sum(before + after) == Add(b, a);
  }

  /** The sum does not depend on the order of the summands. */
  lemma {:induction false} SumPermutation(xs: seq<MemoryUsage>, ys: seq<MemoryUsage>)
    requires multiset(xs) == multiset(ys)
    ensures Sum(xs) == Sum(ys)
    decreases |xs|
  {
    if |xs| == 0 {
      assert |ys| == |multiset(ys)| == 0;
    } else {
      var n := |xs| - 1;
      var x := xs[n];
      var rest := xs[..n];
      assert xs == rest + [x];
      assert x in multiset(ys) by {
        assert x in multiset(xs);
      }
      var i :| 0 <= i < |ys| && ys[i] == x;
      var before, after := ys[..i], ys[i + 1..];
      assert ys == before + [x] + after;
      assert multiset(rest) == multiset(before + after) by {
        assert multiset(xs) == multiset(rest) + multiset{x};
        assert multiset(ys) == multiset(before) + multiset{x} + multiset(after);
        assert multiset(before + after) == multiset(before) + multiset(after);
        assert multiset(rest) == multiset(xs) - multiset{x};
        assert multiset(before + after) == multiset(ys) - multiset{x};
      }
      SumPermutation(rest, before + after);
      SumMoveToEnd(before, x, after);
    }
  }

  /** The sum of consistent usages is consistent: private memory adds up like resident minus shared. */
  lemma {:induction false} SumConsistent(xs: seq<MemoryUsage>)
    requires forall i | 0 <= i < |xs| :: Consistent(xs[i])
    ensures Consistent(Sum(xs))
  {
    if |xs| > 0 {
      SumConsistent(xs[..|xs| - 1]);
      AddConsistent(Sum(xs[..|xs| - 1]), xs[|xs| - 1]);
    }
  }

}
