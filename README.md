# Sweep bookkeeping of the OpenCatalyst profiling driver

`open_catalyst/auto-test.py` profiles OpenCatalyst training over a grid of
settings: thread count, MPI workers, batch size and loader workers. It
enumerates every combination of the parameter matrix (`product_dict`). When
restarting, it drops the combinations already recorded in the persisted
results (`list_differences`). It then runs the rest one by one (`main`):

- it renders the run config from two of the fields (`write_config`);
- it launches training and reads the timing from the last token of its
  output (`launch`);
- it records that timing, or `"nan"` when the launch raised, in the
  configuration;
- it appends the record to the data and dumps all the data after every run.

This project models that bookkeeping and proves what it guarantees.

- `wrappers.dfy` (`Wrappers`): `Option` and `Result`.
- `dicts.dfy` (`Dicts`): a Python dictionary as the sequence of its items in
  insertion order, with distinct keys. It covers `d.get`, `d[k] = v` and
  `del d[k]` (which raises `KeyError`), and a record's identity,
  `frozenset(d.items())`.
- `product.dfy` (`Product`): `product_dict` as `itertools.product` enumerates
  it, plus the two matrices of the script.
- `launcher.dfy` (`Launcher`): the timing parse of `launch`, Python's
  `str.split`/`str.strip` over the exact `str.isspace` character set, and the
  field selection of `write_config`. What the training process did is an
  input (`RunOutcome`).
- `resume.dfy` (`Resume`): `list_differences` as a method with both of its
  loops, specified by the filter function `Unrecorded`.
- `sweep.dfy` (`Sweep`): the loop of `main` as a method that returns the data,
  the fields rendered for each run and the document dumped after each run.
  Also the `__main__` composition (generate, filter, run) and the properties
  of resuming.

Some behaviours of the code are easy to misread; the model follows what the
code does:

- A training process that exits with a nonzero status does not raise:
  `subprocess.run` is called without `check=True`, so its output is parsed
  anyway. Only an exception (a missing binary, output that is not UTF-8, no
  token to parse) records `"nan"`.
- `launch` itself raises. The `try` in `main` turns the exception into
  `"nan"`.
- The timing is the last whitespace-delimited token of the whole output.
  That is the last token of the last line that holds one.
- An empty candidate list for a parameter is not rejected. The product is
  then empty and nothing runs (`Product.ProductDictEmpty`).
- A missing results file is not treated as a first run. `load_previous`
  raises.

## Model

| member | source | states |
|---|---|---|
| Dicts.Get | open_catalyst/auto-test.py:116 | `config.get(k)` is a value exactly when the key is present, and then it is the item stored under that key |
| Dicts.SetItem | open_catalyst/auto-test.py:139 | assigning an existing key keeps the key order; a new key is appended after all the others |
| Dicts.SetItemToMap | open_catalyst/auto-test.py:139 | after `d[k] = v` the dictionary maps `k` to `v` and every other key as before |
| Dicts.Delete | open_catalyst/auto-test.py:67 | `del d[k]` raises `KeyError(k)` exactly when `k` is absent; otherwise it removes that one item and keeps the others in order |
| Dicts.WithoutToMap | open_catalyst/auto-test.py:67 | after `del d[k]` the mapping has lost `k` and nothing else |
| Dicts.DeleteUndoesSetItem | open_catalyst/auto-test.py:67 | setting a key the dictionary lacks and then deleting it gives the dictionary back |
| Dicts.Identity | open_catalyst/auto-test.py:69-71 | `frozenset(d.items())` has one element per entry, because the keys are distinct; `IdentityIffSameMap` gives its meaning |
| Dicts.IdentityIffSameMap | open_catalyst/auto-test.py:69-71 | two records have the same `frozenset(items())` exactly when they denote the same mapping |
| Dicts.IdentityIgnoresOrder | open_catalyst/auto-test.py:69-71 | the same items in another insertion order give the same identity |
| Product.Combinations | open_catalyst/auto-test.py:109 | `itertools.product(*vals)` yields the product of the list lengths many tuples, each with one value from each list in list order; `CombinationAt` and `RankMonotone` give their order |
| Product.Zip | open_catalyst/auto-test.py:110 | `dict(zip(keys, instance))` has the keys in order, each with the value at the same position |
| Product.ProductDict | open_catalyst/auto-test.py:106-110 | yields the product of the candidate-list lengths many dictionaries; each has exactly the matrix's names, in order, and draws each value from that name's candidates |
| Product.ProductDictAt | open_catalyst/auto-test.py:109-110 | the dictionary that picks candidate `idx[i]` of parameter `i` sits at the mixed-radix position of `idx` |
| Product.CombinationAt | open_catalyst/auto-test.py:109 | `itertools.product` puts the choice `idx` at position `Rank(idx)`, below the product size |
| Product.RankMonotone | open_catalyst/auto-test.py:109 | lexicographically smaller choices come earlier, so the last parameter varies fastest |
| Product.ProductDictEmpty | open_catalyst/auto-test.py:109-110 | nothing is yielded exactly when some parameter has no candidates |
| Product.CombinationsDistinct | open_catalyst/auto-test.py:109 | with no repeated candidate in any list, no combination repeats |
| Product.ProductDictIdentitiesDistinct | open_catalyst/auto-test.py:109-110 | with no repeated candidate in any list, the yielded dictionaries have pairwise different identities |
| Product.DefaultMatrixSize | open_catalyst/auto-test.py:22-35 | the full matrix yields 4 * 4 * 5 * 2 = 160 configurations |
| Product.TestMatrixCombinations | open_catalyst/auto-test.py:38-52 | the test matrix yields two configurations: threads 12 first, then threads 16, with the other values fixed |
| Launcher.Strip | open_catalyst/auto-test.py:102 | `str.strip()` is the part of the string between a whitespace prefix and a whitespace suffix, and it neither starts nor ends with whitespace |
| Launcher.Split | open_catalyst/auto-test.py:102 | every token of `str.split()` is non-empty and holds no whitespace; `SplitEmptyIffAllSpace` and `LastOfSplit` say which tokens it yields |
| Launcher.SplitEmptyIffAllSpace | open_catalyst/auto-test.py:102 | `stdout.split()` is empty, so that `[-1]` raises, exactly when the output is all whitespace |
| Launcher.LastOfSplit | open_catalyst/auto-test.py:102 | the last element of `split()` is a token of the output followed only by whitespace |
| Launcher.ParseTiming | open_catalyst/auto-test.py:102 | the parse raises `IndexError` exactly on all-whitespace output; otherwise it returns the last token of the output |
| Launcher.ParseTimingIffLastToken | open_catalyst/auto-test.py:102 | the parse returns `t` if and only if `t` is the last whitespace-delimited token of the output |
| Launcher.Launch | open_catalyst/auto-test.py:100-103 | `launch` raises exactly when the process raised or its output holds no token (then `IndexError`); otherwise it returns the last token of the output |
| Launcher.SelectFields | open_catalyst/auto-test.py:115-117 | the rendered fields are exactly `batch_size` and `loader_workers`; each holds the configuration's value, or `None` when the configuration lacks it |
| Launcher.SelectFieldsDependsOnlyOnTemplateFields | open_catalyst/auto-test.py:115-117 | configurations that agree on the two template fields render the same fields |
| Resume.StripTimes | open_catalyst/auto-test.py:64-67 | the `del` loop raises `KeyError('time')` exactly when some previous record lacks `time`; otherwise it yields every record without `time`, in order |
| Resume.RecordedStripsTo | open_catalyst/auto-test.py:66-69 | records that strip back to given configurations have recorded exactly those configurations' identities |
| Resume.ListDifferences | open_catalyst/auto-test.py:61-79 | fails with `KeyError('time')` exactly when a previous record has no `time`; otherwise returns the candidates whose identity no stripped previous record has |
| Resume.UnrecordedMembers | open_catalyst/auto-test.py:76-78 | a candidate is returned if and only if it is a candidate whose identity is not among the previous identities |
| Resume.UnrecordedIsFilter | open_catalyst/auto-test.py:73-79 | the result is the subsequence of the candidates at strictly increasing positions, and a position is taken if and only if its identity is not recorded |
| Resume.UnrecordedNothingDone | open_catalyst/auto-test.py:73-79 | with nothing recorded, every candidate is kept in order |
| Resume.UnrecordedAllDone | open_catalyst/auto-test.py:73-79 | with every candidate recorded, nothing is kept |
| Resume.UnrecordedIdempotent | open_catalyst/auto-test.py:73-79 | filtering the result again removes nothing |
| Resume.ResumeFromNothing | open_catalyst/auto-test.py:61-79 | against an empty previous list the candidates come back unchanged |
| Resume.RecordedAppend | open_catalyst/auto-test.py:66-69 | the identities recorded by appended data are those of the old data plus those of the new records |
| Sweep.Timing | open_catalyst/auto-test.py:137-141 | a launch that raised, or printed no token, records `"nan"`; otherwise it records the last token of the output |
| Sweep.Initial | open_catalyst/auto-test.py:132-133 | `data=None` starts from an empty list; `RunSweep` states the data built on it |
| Sweep.Record | open_catalyst/auto-test.py:137-141 | the configuration with `time` set to the run's timing; `RecordFields` states its fields |
| Sweep.RunOne | open_catalyst/auto-test.py:137-141 | one pass of the `try`: the configuration with `time` set to the timing or to `"nan"` |
| Sweep.RecordFields | open_catalyst/auto-test.py:137-141 | a record holds the run's timing under `time`, keeps every other field of the configuration, and deleting `time` gives an untimed configuration back |
| Sweep.RecordStrips | open_catalyst/auto-test.py:139 | an untimed configuration's record holds `time`, and deleting `time` gives the configuration back |
| Sweep.SweptStep | open_catalyst/auto-test.py:134-145 | one more iteration renders, records, appends exactly one record and dumps; the state after it is the state after `n + 1` runs |
| Sweep.RunSweep | open_catalyst/auto-test.py:129-145 | the data is the initial data (empty for `None`) followed by one record per configuration, in order; run `i` rendered its configuration's two fields; the dump after run `i` is the data up to and including run `i`'s record |
| Sweep.RecordsRecorded | open_catalyst/auto-test.py:139-143 | records of untimed configurations all hold `time`, and their stripped identities are exactly those of the configurations |
| Sweep.ResumeAfterCompleteSweep | open_catalyst/auto-test.py:154-156 | resuming after an uninterrupted sweep finds nothing left to run |
| Sweep.ResumeAfterInterruption | open_catalyst/auto-test.py:154-156 | for candidates without `time` and with pairwise different identities, resuming after a sweep stopped once the first `k` runs were recorded runs exactly the remaining configurations, in order |
| Sweep.SecondResumeFindsNothing | open_catalyst/auto-test.py:154-159 | after a resumed sweep, resuming again finds every candidate recorded |
| Sweep.ResumeKeepsRunsUnique | open_catalyst/auto-test.py:154-159 | if the previous data has no configuration recorded twice and the candidates have distinct identities, the resumed data has none recorded twice either |
| Sweep.ProductDictUntimed | open_catalyst/auto-test.py:106-110 | a matrix without a `time` parameter yields configurations without `time` |
| Sweep.Sweep | open_catalyst/auto-test.py:148-159 | fails with `KeyError('time')` exactly when a previous run has no `time`; otherwise the data is the previous runs followed by one record per pending configuration, and every record in it holds `time`; a fresh sweep holds the full product size many records; and when no parameter is named `time`, nothing of the matrix is left to run afterwards |
| Sweep.TimedAfterSweep | open_catalyst/auto-test.py:139-143 | appending records to data whose records all hold `time` keeps every record timed |
| Sweep.ResumeAfterSweepChangesNothing | open_catalyst/auto-test.py:154-159 | when no parameter is named `time`, resuming from the data of a successful sweep raises nothing, launches nothing and returns the same data |
| Sweep.TimingOfToken | open_catalyst/auto-test.py:102 | a launch that printed a single token records that token |
| Sweep.MockedTestMatrixSweep | open_catalyst/auto-test.py:129-145 | the test matrix with launches printing one timing each records both timings in candidate order, and resuming afterwards launches nothing |
| Sweep.PartialFailureScenario | open_catalyst/auto-test.py:137-143 | a first launch that raises records `"nan"`, and the second run still records its timing |

## Left out

- Launching `torchrun` through `subprocess.run`, and its argument list (open_catalyst/auto-test.py:87-100), is an external process. Its effect is the input `RunOutcome`: it raised, or it exited after printing some output.
- Setting `OMP_NUM_THREADS` (open_catalyst/auto-test.py:86) changes the process environment and has no effect on the bookkeeping.
- File I/O is not modelled:
  - `load_previous` (open_catalyst/auto-test.py:55-58) raises when the results file is missing. The previous runs are an input.
  - `read_template` (open_catalyst/auto-test.py:122-126) and the YAML write (open_catalyst/auto-test.py:118-119) are left out too.
  - The `json.dump` checkpoint is modelled only as the document dumped after each run: the `dumps` of `Sweep.RunSweep`.
- `str.format_map` templating (open_catalyst/auto-test.py:119) is an opaque string library. Only the fields handed to it are modelled. An error it raises would stop the sweep, because `write_config` is called outside the `try`; that is not modelled.
- The `tqdm` progress bar (open_catalyst/auto-test.py:134) only displays progress.
- Python's `hash()` is idealised. Identities are compared as sets of items, while the code compares hashes of frozensets and could in principle be misled by a collision.
- `deepcopy` and aliasing: dictionaries and lists are values. That `main` mutates the very dictionaries of the candidate list, and appends to the caller's `previous_runs` list, is not modelled. The copy in `list_differences` leaves the caller's records unchanged by construction.
- `main` iterates the global `iterator` rather than its parameter (open_catalyst/auto-test.py:129,134). The model loops over the list passed in, which is the same list in the `__main__` block.
- The bare `except:` also catches `KeyboardInterrupt`. The model records `"nan"` for any raised outcome and has no notion of interruption other than stopping between runs (`Sweep.ResumeAfterInterruption`).
- Values in the persisted JSON other than integers and strings (floats, nulls, nested values) are not modelled.
- The hard-coded `restart = True` (open_catalyst/auto-test.py:149) is caller policy. `Sweep.Sweep` takes the previous runs as an `Option`, covering both branches.
- Product.ProductDictIdentitiesDistinct: it also requires that no candidate list repeat a value. With a repeated value, `itertools.product` repeats dictionaries.
- Sweep.MockedTestMatrixSweep: it is stated for any single-token timings rather than the literals `"1.23"` and `"4.56"`.
