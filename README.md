# performance-lab exercises in Dafny

A verified model of the four command-line exercises of the performance-lab
repository:

- **Report join** (task 3, the main part). The values document is turned
  into a lookup table from `id` to `value`. The tests document is then
  decoded with an object hook. At every JSON object, at any depth, the hook
  sets `"value"` to the table entry for the object's `"id"`
  (`json_report.dfy`, module `JsonReport`).
- **Circular array path** (task 1). From the first element of an array of
  `n` elements, the walk moves `m - 1` places at a time, wrapping around.
  It reports each 1-based position until it is back at the start
  (`circular_path.dfy`, module `CircularPath`).
- **Minimum turns** (task 4). This is the sum of the distances of a list's
  elements from its lower median (`min_turns.dfy`, module `MinTurns`).
- **Dots and a circle** (task 2). Each dot is classified as inside (1),
  outside (2) or on the edge (0) (`circle_dots.dfy`, module `CircleDots`).

`wrappers.dfy` holds the `Result` and `Option` types the modules share.

The report join works on already-parsed JSON: a `Json` datatype with null,
booleans, numbers, strings, arrays and objects (RFC 8259, section 3).
`JsonReport.Load` replays what `json.loads(..., object_hook=hook)` does with
such a tree. Each object's members are decoded first, and then the hook
replaces the object. Any failing hook call aborts the whole load.

`JsonReport.Rewritten` is a reference definition of the report, read off the
input alone. The lemmas prove two things:

- a load succeeds exactly when no on key holds a list or an object;
- a successful load yields exactly the rewritten document.

The circular path is a method with a loop, proved against a closed form: the
index after `k` moves is `(k * (m - 1)) mod n`.

The minimum-turns result is proved to be the least cost over every integer
target, and some target attains it.

The circle classification is proved to agree with comparing the true
Euclidean distance with the radius.

### Behaviour of the report join worth knowing

- **The hook runs bottom-up** (task3/task3.py:41-43, 60). An object's
  members are finished before its own hook runs. So an inserted table value
  is never rewritten, even if it is itself an object with a matching id.
  `Rewritten`, `LoadObjStep` and `SubstitutedAtDepth` state that the join
  key holds exactly the table's value.
- **A load can fail.** When an on key holds a list or an object,
  `idx in target_dict` raises TypeError, even with an empty table
  (task3/task3.py:49). The run then writes no report. The model returns
  `Err(TypeError)`, and `LoadOkIff` states exactly when this happens.
- **Loading the report again** is proved to give the same report when the
  join key differs from the on key and every table value can itself be
  loaded (`LoadIdempotent`). `ReloadChainsWhenKeysCoincide` shows that a
  second load can change the report when the two keys are the same.
- **Odd `values` members.** When `values` is an empty object or an empty
  string, iterating it yields nothing, so the table is empty. Any other
  `values` that is not an array raises TypeError (`BuildLookup`).

## Model

| member | source | states |
|---|---|---|
| `JsonReport.Hook` | task3/task3.py:46-52 | The hook raises TypeError exactly when the on key holds a list or object. When the id is in the table, the join key is set to the table value, whether it was there before or not. Otherwise the object is unchanged. No key other than the join key is added, removed or changed |
| `JsonReport.HookIdempotent` | task3/task3.py:46-52 | Applying the hook to its own result changes nothing more, when the join key is not the on key |
| `JsonReport.Load` | task3/task3.py:57-60 | Decoding with the hook fails only with TypeError. It leaves scalars as they are and keeps arrays arrays and objects objects |
| `JsonReport.LoadArrStep` | task3/task3.py:41-43 | An array loads when each element does, to an array of the same length whose i-th element is the load of the i-th input element |
| `JsonReport.LoadObjStep` | task3/task3.py:41-51 | An object loads exactly when its members load and its on key, if present, holds neither a list nor an object. Each member other than an overwritten join key is the member's own load. The join key of a matching object holds the table value |
| `JsonReport.LoadOkIff` | task3/task3.py:47-49 | A load fails exactly when some object, at any depth, holds a list or an object under the on key |
| `JsonReport.LoadMeetsSpec` | task3/task3.py:41-52 | A successful load yields the rewritten document of the reference definition |
| `JsonReport.RewrittenUnique` | task3/task3.py:41-52 | The reference definition allows only one report per input |
| `JsonReport.LoadCharacterised` | task3/task3.py:41-60 | Load gives `Ok(out)` if and only if no on key holds a list or object and `out` is the rewritten document |
| `JsonReport.LoadAt` | task3/task3.py:41-43 | Depth independence: at every path not passing through an overwritten join key, the report holds what loading the input's node there on its own gives |
| `JsonReport.SubstitutedAtDepth` | task3/task3.py:47-51 | An object at any depth, reached without passing through a join key that the hook overwrites, has the table value under the join key in the report when its id is in the table |
| `JsonReport.LoadIdempotentArr` | task3/task3.py:41-43 | Reloading an array reproduces it once each element reloads to itself |
| `JsonReport.LoadIdempotentObj` | task3/task3.py:46-52 | Reloading an object reproduces it once each member reloads to itself, when the join key differs from the on key and every table value loads |
| `JsonReport.LoadIdempotent` | task3/task3.py:46-52 | Loading the report again with the same hook gives the same report, when the join key differs from the on key and every table value loads |
| `JsonReport.EmptyTargetIdentity` | task3/task3.py:47-52 | With an empty table, every document that loads comes back unchanged |
| `JsonReport.LookupFromEntries` | task3/task3.py:91 | The table is built exactly when every entry is an object with a hashable `id` and a `value`. Otherwise the error is that of the first malformed entry: TypeError for a non-object or a list/object id, KeyError for a missing key |
| `JsonReport.LookupStep` | task3/task3.py:91 | Each entry extends the table built from the entries before it by setting its id to its value |
| `JsonReport.LookupHasEveryId` | task3/task3.py:91 | Every entry's id is a key of the table |
| `JsonReport.LookupOnlyIds` | task3/task3.py:91 | Every key of the table is the id of some entry |
| `JsonReport.LookupLastWins` | task3/task3.py:91 | Each id maps to the value of its last entry, so a later duplicate overwrites an earlier one |
| `JsonReport.BuildLookup` | task3/task3.py:88-91 | A non-object values document raises TypeError and a missing `values` raises KeyError. An array of entries gives the table of those entries. Any other `values` gives an empty table if it is an empty object or empty string, and raises TypeError otherwise |
| `JsonReport.MakeReport` | task3/task3.py:87-100 | A report is produced exactly when the table builds and no on key in the tests document holds a list or object. The report is then the rewritten tests document under the `"value"`/`"id"` hook. A failed run carries the table's own error, or TypeError when only the tests document fails |
| `JsonReport.HookExample` | task3/task3.py:30-38 | `{"id": "653", "value": ""}` with `{"653": "passed"}` becomes `{"id": "653", "value": "passed"}` |
| `JsonReport.NestedExample` | task3/task3.py:41-43 | An object nested inside another object and inside an array is filled in like the outer one |
| `JsonReport.ReloadChainsWhenKeysCoincide` | task3/task3.py:46-52 | When on key and join key coincide, a second load follows the table one step further |
| `JsonReport.IdsCompareByType` | task3/task3.py:49 | The string `"1"` does not match the number `1` in the table |
| `CircularPath.IndexAfter` | task1/task1.py:32 | The index after any number of moves lies in `0..n-1` |
| `CircularPath.StepIndex` | task1/task1.py:32 | One loop step `(cur + m - 1) % n` advances the closed form `(k * (m - 1)) mod n` by one move, negative `m` included |
| `CircularPath.ReturnsWithin` | task1/task1.py:32-34 | After `n` moves the walk is back at the start, so the loop ends |
| `CircularPath.SameIndexGap` | task1/task1.py:32-34 | Two moves reaching the same index are separated by a return to the start |
| `CircularPath.CircularArrayPath` | task1/task1.py:18-34 | For `n >= 1` and `m != 0`, the path is the 1-based position after each move, from the start up to the first move that returns to index 0 |
| `CircularPath.PathShape` | task1/task1.py:29-34 | The path starts at 1, stays in `1..n`, has no repeated position and at most `n` elements, and shows 1 only at its start |
| `CircularPath.PathUnique` | task1/task1.py:29-34 | The path is determined by `n` and `m` |
| `CircularPath.SingleStepPath` | tests/test_task1.py:16-18 | The path is `[1]` exactly when `m - 1` is a multiple of `n`, so for `m = 1` and for `n = 1` |
| `CircularPath.TestCases` | tests/test_task1.py:14-19 | `(5, 4)` gives 1 4 2 5 3, `(4, 3)` gives 1 3 and `(9, 2)` gives 1 to 9 |
| `MinTurns.Insert` | task4/task4.py:30 | Inserting into a sorted list keeps it sorted and adds exactly the one element |
| `MinTurns.Sort` | task4/task4.py:30 | Sorting yields an ascending permutation of the data |
| `MinTurns.MedianLow` | task4/task4.py:30 | The lower median exists exactly for non-empty data. It is the element at index `(len - 1) / 2` of the sorted data, and so one of the data's elements |
| `MinTurns.Cost` | task4/task4.py:31 | The sum of distances is never negative |
| `MinTurns.CostConcat` | task4/task4.py:31 | The cost of two lists joined is the sum of their costs |
| `MinTurns.CostPermutation` | task4/task4.py:31 | The cost does not depend on the order of the elements |
| `MinTurns.SortedMedianOptimal` | task4/task4.py:29-31 | For sorted data, no target costs less than the element at index `(len - 1) / 2` |
| `MinTurns.MinTurns` | task4/task4.py:28-31 | Empty data is an error. Otherwise the result is the minimum, over all integer targets, of the number of unit steps that make every element equal: it is attained and no target does better, and it equals the cost of moving every element to the lower median |
| `MinTurns.MinTurnsOptimal` | task4/task4.py:29-31 | The lower median costs no more than any other target |
| `MinTurns.CostZero` | task4/task4.py:31 | The cost is zero exactly when every element equals the target |
| `MinTurns.ZeroTurnsIffAllEqual` | task4/task4.py:31 | No turns are needed exactly when all elements are equal |
| `MinTurns.OrderIndependent` | task4/task4.py:30-31 | Reordering the input does not change the result |
| `CircleDots.SquaredDistance` | task2/task2.py:63 | The squared distance is non-negative and zero exactly at the centre |
| `CircleDots.Classify` | task2/task2.py:63-69 | Every code is 0, 1 or 2 |
| `CircleDots.ClassifyMatchesDistance` | task2/task2.py:58-69 | The code is 1 exactly when the Euclidean distance is below the radius, 2 exactly when it is above, and 0 exactly when it equals it |
| `CircleDots.FartherNeverInside` | task2/task2.py:64-67 | A dot farther from the centre is never classified inside when a nearer one is not, nor a nearer one outside when a farther one is not |
| `CircleDots.ClassifySymmetric` | task2/task2.py:63 | Swapping or negating the offsets from the centre keeps the code |
| `CircleDots.DegenerateRadius` | task2/task2.py:63-69 | A negative radius puts every dot outside. A zero radius puts the centre on the edge and every other dot outside |
| `CircleDots.IsectCircle` | task2/task2.py:62-69 | One code per dot, in input order, each the dot's classification (so no codes for no dots) |
| `CircleDots.IsectConcat` | task2/task2.py:62 | Classifying two lists in turn equals classifying them joined |

## Left out

- Argument parsing, file reading and writing, and printing (every
  `parse_args`, `read_json`, `write_json`, `read_circle_coordinates`,
  `read_dot_coordinates`, `read_nums` and the `print_*` functions). Their
  inputs become parameters. The checks `n >= 1` and `m != 0` of task 1
  become the precondition of `CircularArrayPath`.
- The wrapping of exceptions into IOError/ValueError messages and the texts
  of error messages. Errors are modelled by kind only (KeyError, TypeError,
  StatisticsError).
- The `sep=""` join of task 1's output, which is ambiguous for `n >= 10`. It
  is output formatting only.
- JSON text parsing and serialisation (`json.loads` on text, `json.dumps`
  with indentation). The model starts from a parsed tree.
- The order of the members of a JSON object. Objects are maps, so the
  position of an added join key is not modelled (parsed-JSON equality does
  not depend on it).
- Duplicate member names inside one JSON object, which the decoder resolves
  before the hook runs.
- Python's cross-type key equality (`True == 1`). Ids compare by exact
  equality of the decoded value. Numbers are exact reals, so `1` and `1.0`
  still match, as in Python. Float rounding, NaN and infinities are not
  modelled.
- JsonReport.Hook: it is modelled as a function returning the updated
  object, not as an update of the dictionary in place. Nothing else holds a
  reference to a freshly decoded object, so no aliasing is lost.
- CircleDots.Classify: the float `math.dist` is replaced by an exact
  comparison of the squared distance with the squared radius. The model
  requires integer radii of magnitude below 2^26. The exact comparison
  is guaranteed to agree with the floating-point one while every coordinate of the dot
  and the centre converts to a double exactly (magnitude at most 2^53).
  Beyond that, `math.dist` rounds the coordinates first: for the dot
  (2^53 + 1, 0), the centre (2^53, 0) and radius 1, the program yields 1
  where the model yields 0. The model does not capture this rounding.
  Coordinates of magnitude 2^1024 or more make `math.dist` raise
  OverflowError, so the run prints an error and yields no codes. The model
  still classifies those dots.
- The internals of `statistics.median_low`. It is specified as the element
  at index `(len - 1) / 2` of the sorted data.
- The test drivers under `tests/`. Only the expected outputs they spell out
  for task 1 are modelled. The fixture files of the other tasks are not
  part of this model.
