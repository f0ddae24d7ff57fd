# top-group in Dafny

A model of `top-group`, a one-shot tool that lists the running processes,
groups them by the basename of their executable and prints each group's
private memory (resident minus shared), smallest first.

The model covers the pure part of the program:

- `Usage` (`usage.dfy`): the `MemoryUsage` value type of `src/lib.rs`. It has
  three kB counters, field-wise `Add`, the all-zero default and `Sum` as a left
  fold from that default. The lemmas prove the commutative monoid laws. They
  also prove that `Sum` distributes over concatenation and ignores the order of
  its summands, and that "memory = resident - shared" survives summation.
- `Groups` (`groups.dfy`): `ProcessGroups` and `add_usage`. `MapSum` is a ghost
  sum over the pid map. Against it the lemmas show that the running total
  equals the map sum as long as pids are fresh. On a repeated pid the total
  overshoots the map sum by exactly the overwritten entry.
- `Grouping` (`grouping.dfy`): the loop of `GroupedProcess::new`, with the
  process table abstracted into a sequence of `ProcRecord`s. Each record holds
  a pid, the exe basename if it was readable, and the status if it was
  readable; the status has optional VmRSS and RssShmem figures. `Build` folds
  `Step` over the records. It is related to two independent reference
  definitions: `UsagesFor` (the usages of the counted records with a given
  name, in order) and `LastUsage` (the last usage recorded for a name and pid).
- `Report` (`report.dfy`): the projection, sort and `* 1000` of `src/main.rs`.
  `SortedUsage` visits the groups in an arbitrary order, as `HashMap` iteration
  does, and sorts them by the key (memory, name). Names compare byte-wise, as
  `OsStr` does on Unix. The lemmas prove that the result is a permutation of
  the projected rows and has no repeated name. They also prove that the
  largest groups come last and that the order is unique whatever the visiting
  order. `TopGroup` chains all the steps and relates each printed byte figure
  to the records it came from.

Behaviour of the code that the model keeps as written:

- The code sorts ascending by (memory, name) (`src/main.rs:17`), so the
  largest groups print last.
- The code unwraps RssShmem and computes `resident - shared` with plain u64
  `-` (`src/lib.rs:100-101`). A missing RssShmem panics. RssShmem above VmRSS
  panics in a build with overflow checks (debug) and wraps to a huge value in
  a release build. The code never skips such a record. The model excludes
  both cases by a precondition (`Grouping.NoPanic`).
- On a repeated pid the code still adds to the total (`src/lib.rs:65-68`),
  so the total exceeds the sum of the pid map. `Groups.AddUsageRepeatedOvercounts`
  and `Groups.RepeatedPidBreaksTotals` show this. Under unique pids,
  which a single process-table snapshot has, `Grouping.BuildTotalsMatch`
  proves that each total equals the sum of its map.

## Model

| member | source | states |
|---|---|---|
| `Usage.FromStatus` | src/lib.rs:100-106 | the usage built from resident and shared figures (shared at most resident) keeps them and has memory = resident - shared |
| `Usage.ConsistentIffFromStatus` | src/lib.rs:12-21 | a usage satisfies the field documentation (memory is resident minus shared) exactly when it is the one built from its own resident and shared figures |
| `Usage.AddCommutative` | src/lib.rs:26-32 | adding usages does not depend on operand order |
| `Usage.AddAssociative` | src/lib.rs:26-32 | adding usages does not depend on grouping |
| `Usage.ZeroIdentity` | src/lib.rs:11-32 | the all-zero default is a left and right identity of addition |
| `Usage.AddConsistent` | src/lib.rs:13-32 | the sum of two usages obeying memory = resident - shared obeys it too |
| `Usage.SumEmpty` | src/lib.rs:35-41 | summing no usages gives the all-zero default |
| `Usage.SumAppend` | src/lib.rs:35-41 | the sum of a concatenation is the sum of the two parts' sums |
| `Usage.SumPermutation` | src/lib.rs:35-41 | two sequences with the same usages (as multisets) have the same sum |
| `Usage.SumConsistent` | src/lib.rs:13-41 | a sum of usages each obeying memory = resident - shared obeys it too |
| `Groups.AddUsage` | src/lib.rs:65-68 | after adding, the pid maps to the new usage, other pids keep their entries, the key set gains only the pid, and the total grows by exactly the usage |
| `Groups.EmptyGroupTotalsMatch` | src/lib.rs:45-52 | the default group's total equals the sum over its (empty) map |
| `Groups.AddUsageFreshKeepsTotals` | src/lib.rs:65-68 | adding a pid not yet in the map keeps total = sum of the map's values |
| `Groups.AddUsageRepeatedOvercounts` | src/lib.rs:65-68 | adding a pid already in the map makes the total exceed the map sum by exactly the overwritten usage |
| `Groups.RepeatedPidBreaksTotals` | src/lib.rs:65-68 | two adds under one pid leave one map entry but a doubled total, so the totals invariant fails |
| `Grouping.UsageOf` | src/lib.rs:95-106 | a counted record yields a usage with its VmRSS as resident, its RssShmem as shared, and memory = resident - shared |
| `Grouping.Step` | src/lib.rs:84-111 | a record without exe, status or VmRSS leaves the groups unchanged; a counted record adds its basename to the group names and leaves every other group untouched |
| `Grouping.Build` | src/lib.rs:80-117 | the group names are exactly the basenames of the counted records |
| `Grouping.BuildEmpty` | src/lib.rs:82-116 | no records give no groups |
| `Grouping.BuildTotalsOf` | src/lib.rs:101-111 | one name's group total is the sum of the usages of all counted records with that name (zero when there are none) |
| `Grouping.BuildTotals` | src/lib.rs:101-111 | every name's group total is the sum of the usages of all counted records with that name, repeated pids included |
| `Grouping.BuildLastWrite` | src/lib.rs:108-111 | a group maps exactly the pids of its counted records, each to the usage of the last such record with that pid |
| `Grouping.BuildConsistent` | src/lib.rs:101-111 | every recorded usage and every group total has memory = resident - shared |
| `Grouping.BuildTotalsMatch` | src/lib.rs:108-111 | when counted records have distinct pids, every group's total equals the sum over its pid map |
| `Grouping.BuildIgnoresSkipped` | src/lib.rs:84-99 | a record without exe, status or VmRSS can be removed from anywhere in the input without changing any group |
| `Grouping.BuildOrderIndependent` | src/lib.rs:81-112 | any reordering of the records gives the same group names and the same group totals |
| `Grouping.StepOpensGroup` | src/lib.rs:108-111 | a counted record whose basename has no group yet creates a default group holding only that pid and usage |
| `Grouping.ExampleNginxGroup` | src/lib.rs:83-111 | two nginx records (pids 100 and 101) form one group holding both pids, with total (6500, 8000, 1500) |
| `Grouping.ExampleScenario` | src/lib.rs:80-117 | two nginx records and one sshd record give exactly the groups nginx (both pids, total 6500/8000/1500) and sshd (pid 200, total 2000/2000/0) |
| `Report.NameLeTotal` | src/main.rs:17 | any two names are comparable in byte-wise order |
| `Report.NameLeAntisymmetric` | src/main.rs:17 | two names each at most the other are equal |
| `Report.NameLeTransitive` | src/main.rs:17 | byte-wise name order is transitive |
| `Report.EntryLeTotalOrder` | src/main.rs:17 | the (memory, name) key order is total, antisymmetric and transitive |
| `Report.Insert` | src/main.rs:17 | inserting a row into a sorted list keeps it sorted and adds exactly that row |
| `Report.SortedUsage` | src/main.rs:12-17 | the result is sorted by (memory, name), holds each group's (name, total memory) row exactly once and nothing else, and has one row per group |
| `Report.ReportCoversGroups` | src/main.rs:12-16 | every group has its row in the report, and every row is some group's (name, total memory) |
| `Report.ReportStrictlyOrdered` | src/main.rs:17 | no two rows share a name, so rows with equal memory are in strictly ascending name order |
| `Report.ReportLargestLast` | src/main.rs:17-18 | the last row has the largest group memory |
| `Report.SortedUnique` | src/main.rs:17 | two sorted lists with the same rows are identical |
| `Report.ReportDeterministic` | src/main.rs:12-17 | any two reports of one snapshot are equal, whatever order the map is walked in |
| `Report.Lines` | src/main.rs:18-19 | each printed figure is an exact multiple of 1000 whose quotient is the row's kB memory, with the name unchanged |
| `Report.LinesAscending` | src/main.rs:17-19 | the printed byte figures ascend along a sorted report |
| `Report.BuildReport` | src/main.rs:12-17 | a report of the groups built from records has one row per counted basename, no name twice, each row's memory the summed private memory of that name's records, ascending |
| `Report.TopGroup` | src/main.rs:8-19 | one line per counted basename, no name twice, each figure 1000 times the summed private memory of that name's records, figures ascending, equal figures in ascending name order |

## Left out

- Reading the process table (`procfs::all_processes`, `exe()`, `status()`, `src/lib.rs:81-100`) is OS I/O. The model takes the resulting records as an input sequence.
- Taking the basename of the exe path and its `expect` (`src/lib.rs:89`) are not modelled. Each record carries the basename directly, so the panic for a path without a final component is not represented.
- A missing RssShmem (a panic) and RssShmem above VmRSS (a panic in a debug build, a wrapped u64 in a release build) at `src/lib.rs:100-101` are excluded by a precondition (`Grouping.NoPanic`). The model has no error path or wrapped value for them.
- Counters are unbounded naturals. The u64 overflow of `+` (`src/lib.rs:28-30`) and of `usage * 1000` (`src/main.rs:19`) is not modelled.
- Pids are an `i32` newtype.
- SI formatting (`size_format`), `println!`, the `{:#?}` dump and `to_string_lossy` (`src/main.rs:10, 20-21`) are a foreign library and output only. `Report.Lines` stops at the byte figure.
- The `.expect` on `GroupedProcess::new()` in `src/main.rs:9` is left out. `new` in `src/lib.rs` returns `Self` and has no error to expect.
- The accessors `pid_to_usage()`, `usage_totals()` and `name_to_group()` are the datatype fields.
- The `sort_unstable` algorithm is replaced by insertion into a sorted sequence. Only the sorted result is specified, and by `Report.ReportDeterministic` it is unique.
- `HashMap` iteration order is modelled as an arbitrary choice of the next key.
- `OsString` names are byte sequences.
- Grouping.BuildOrderIndependent: states that group names and totals do not depend on record order. It does not state the same for the pid maps, which (under unique pids) the source also guarantees.
