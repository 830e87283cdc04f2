# Optimus column-list logic in Dafny

Optimus attaches helper methods to a Spark `DataFrame`. Nearly all of them
hand their work to the engine. The logic it does itself works on lists of
column names:

- `move_col` moves one column next to a reference column. It pops the column
  out of the list and inserts it back at a computed index.
- `astype` resolves a user's type name through two alias tables. It then lists
  the cast columns, followed by the columns it leaves alone.
- `parse_columns` and `_check_columns_tuples` normalise column arguments.

The four modelled methods are not among those attached with
`@add_method(DataFrame)` (optimus/optimus.py:218, 236, 333, 410); they are
methods of `Optimus` that read `self.columns` (and `self.dtypes`), and that
list is what this model sees as the dataframe. This model sees a dataframe
only as its sequence of column names, in schema order. An operation returns the column list it would select, or the column
expressions it would hand to the engine. Python exceptions become a `Result`
with an `Error` named after the exception.

Files:

- `lists.dfy`, module `Lists`: the Python list operations `pop` and `insert`,
  with `insert`'s negative-index and clamping rules. It also holds filtering
  one list by another (`Excluding`) and the lemmas that turn "distinct, same
  names" into "a permutation".
- `optimus.dfy`, module `Optimus`: argument normalisation, `move_col` and
  `astype`.

Modelling choices:

- `_assert_columns_names` is not part of this model.
  - `AssertColumnsNames` stands in for it. A single name becomes a one-element
    list, and a list stays as it is.
  - Every name must be a column, or it fails with `ColumnsNotFound`, which
    lists the missing names.
  - An empty list passes.
- In `move_col`, `find_col` compares every column name with the whole list
  that the name check returned, not with its one element.
  - Python never finds a string equal to a list, so both searches come back
    empty, and `new_index[0]` raises `IndexError` on every call.
  - `MoveCol` models what was meant: it looks up `column[0]` and `ref_col[0]`.
  - `MoveColAsWritten` models the code as it stands (see Findings).
- The position check in `move_col` builds its message with
  `"..." % position`. That format string has no placeholder, so a bad position
  raises `TypeError`, not `AssertionError`. The model returns `Err(TypeError)`.
- Python's `list.insert` counts a negative index from the end and clamps the
  index to `0..len`. This matters in one case: `'before'` with the column as
  its own reference inserts at `index - 1`.
  - A column at index `o > 0` trades places with its left neighbour.
  - A first column goes to just before the last one.
  - `MovedBeforeItself` states this directly.
- `astype` builds its type table from `StringType()`, `IntegerType()`,
  `FloatType()` and `DoubleType()`, but the module never imports them (its
  imports are lines 1-8). So every call raises `NameError` before any argument
  is looked at.
  - `AsType` models what was meant, with those types imported from
    `pyspark.sql.types`.
  - `AsTypeAsWritten` models the code as it stands (see Findings).
- An element of a pair list is a tuple of strings or a plain string.
  - `_check_columns_tuples` checks only element 0 for being a tuple.
  - For a later plain string, `c[0]` is its first character. The model keeps
    that.

## Model

| member | source | states |
|---|---|---|
| `Optimus.AssertColumnsNames` | optimus/optimus.py:343 | stand-in for the name check whose source is missing: succeeds exactly when every given name is a column, and then returns the names as a list. Otherwise it returns `ColumnsNotFound` with exactly the absent names |
| `Optimus.ParseColumns` | optimus/optimus.py:236-252 | `"*"` yields every column in schema order. Any other argument succeeds exactly when all its names are columns, and then yields those names. Every result name is a column |
| `Optimus.Component` | optimus/optimus.py:229 | `c[i]` is defined exactly when `i` is below the element's length. Otherwise it is `IndexError` |
| `Optimus.FirstComponents` | optimus/optimus.py:229 | the comprehension `[c[0] for c in ...]` succeeds exactly when no element is empty, and then gives each element's first component, in order. Otherwise it is `IndexError` |
| `Optimus.CheckColumnsTuples` | optimus/optimus.py:218-234 | an empty list raises `IndexError`. A first element that is not a tuple raises the tuple assertion. A later element with no component raises `IndexError`, and first components that are not all columns give `ColumnsNotFound` with exactly the missing ones. The call succeeds exactly when the first components exist and are all columns, and then returns them in input order |
| `Optimus.FindCol` | optimus/optimus.py:357 | `find_col` returns every index whose name matches the key, each in range, strictly increasing |
| `Optimus.FindFrom` | optimus/optimus.py:357 | the comprehension from a start index yields exactly the matching indices at or after it, each in range, strictly increasing |
| `Optimus.FindColFirst` | optimus/optimus.py:357-359 | for a name that is a column, `find_col`'s first index is the name's first position |
| `Optimus.FindColWithListFindsNothing` | optimus/optimus.py:357-359 | `find_col` given a list finds nothing, because a string never equals a list |
| `Optimus.FindFromWithListFindsNothing` | optimus/optimus.py:357 | the same, for the comprehension from any start index |
| `Optimus.ValidateMove` | optimus/optimus.py:342-351 | the checks succeed exactly when the column names exist and are exactly one, the reference names exist, and the position is `'after'` or `'before'`. Each failure has its own error, in the source's order: missing column names give `ColumnsNotFound` with exactly those names, a count other than one gives the one-column assertion, missing reference names then give `ColumnsNotFound` with exactly those, and a bad position gives `TypeError`. No other error occurs |
| `Lists.RemovedAt` | optimus/optimus.py:365 | `pop(i)` leaves one element fewer: those before `i` stay, those after shift down. The popped element plus the rest is the original multiset |
| `Lists.InsertedAt` | optimus/optimus.py:365 | `insert(i, x)` puts `x` at the clamped index, with the elements before it unchanged and those after it shifted up. The multiset gains exactly `x` |
| `Lists.InsertionPoint` | optimus/optimus.py:370 | `insert` lands within `0..len`, and an index already in that range is used as given |
| `Lists.Excluding` | optimus/optimus.py:432 | `filter(lambda c: c not in keys, ...)` keeps exactly the elements not in `keys`, and is no longer than its input |
| `Lists.ExcludingConcat` | optimus/optimus.py:432 | filtering a concatenation is concatenating the filtered parts |
| `Lists.ReinsertKeepsOthers` | optimus/optimus.py:365-372 | popping one element and inserting it anywhere leaves every other element in its relative order |
| `Lists.ExcludingDistinct` | optimus/optimus.py:432 | filtering a list without repeats gives a list without repeats |
| `Lists.ChosenThenRestIsPermutation` | optimus/optimus.py:432-435 | distinct chosen names that are all in a list without repeats, followed by that list's other names in order, are a permutation of the list |
| `Lists.SameElementsPermutation` | optimus/optimus.py:434-435 | two lists without repeats that hold the same names are permutations of each other |
| `Optimus.InsertIndex` | optimus/optimus.py:362-372 | the index each branch inserts at. For a reference other than the moved column it lies within the popped list, so no clamping happens; only a column moved before itself gets `index - 1` |
| `Optimus.Spliced` | optimus/optimus.py:365-372 | `insert(i, pop(o))` keeps the length and the multiset, puts the popped column at the clamped index, and leaves every other column in its relative order |
| `Optimus.SpliceColumn` | optimus/optimus.py:362-372 | the four branches of `move_col`, each with its own `pop` and `insert`, compute `Spliced` at `InsertIndex` |
| `Optimus.PopInsertSameIndex` | optimus/optimus.py:365 | moving a column after itself leaves the list unchanged |
| `Optimus.PopInsertBeforeItself` | optimus/optimus.py:370 | moving a column before itself gives `MovedBeforeItself`: it swaps with its left neighbour, or a first column goes to just before the last |
| `Optimus.SplicePlacesColumn` | optimus/optimus.py:362-372 | in all four branches the moved column ends up right after the reference (`'after'`) or right before it (`'before'`) when the two differ. When they coincide, the list is unchanged after and follows the quirk before |
| `Optimus.MoveCol` | optimus/optimus.py:333-374 | fails exactly as the checks do, or with `IndexError` for an empty reference list, and always fails for a bad position or a column count other than one. On success the result is a permutation of the columns. The columns other than the moved one keep their relative order. The moved column is adjacent to the reference on the requested side, and moving a column relative to itself gives the identity after and `MovedBeforeItself` before |
| `Optimus.MoveColAsWritten` | optimus/optimus.py:357-365 | as written, `move_col` never succeeds: every call that passes the checks raises `IndexError` |
| `Optimus.CanonicalNamesResolve` | optimus/optimus.py:423-427 | every canonical name in `types` is a key of `dict_types`, so the second lookup never fails |
| `Optimus.ResolveType` | optimus/optimus.py:423-434 | with the type names imported (see Findings): `str`, `string` and `String` resolve to the string type. `int` and `integer` resolve to the integer type. `double` and `Double` resolve to double, and `float` to float. These hold in both directions, and any other name is `KeyError` on that name |
| `Optimus.CastColumns` | optimus/optimus.py:434 | the cast list succeeds exactly when every pair has a second component naming a known type. It then has one cast per pair, in order, named by the pair's first component, to the resolved type |
| `Optimus.OutputNamesOfCasts` | optimus/optimus.py:434-435 | the cast columns are named by the pairs' first components, followed by the names of the kept columns |
| `Optimus.AsType` | optimus/optimus.py:410-437 | with the type names imported (see Findings): succeeds exactly when the pair check passes and every pair is castable. It fails with the pair check's error when that check fails, and otherwise with the cast list's error. The output is the casts in pair order, followed by the unnamed dataframe columns in dataframe order, all of them columns of the dataframe |
| `Optimus.AsTypeIsPermutation` | optimus/optimus.py:430-435 | with distinct columns and distinct pair names, the output columns are a permutation of the dataframe's columns |
| `Optimus.AsTypeAsWritten` | optimus/optimus.py:423 | as written, `astype` always fails with `NameError`, so it differs from `AsType` on every call that `AsType` lets succeed |
| `Optimus.AsTypeAsWrittenExample` | optimus/optimus.py:423-435 | casting `b` of `["a", "b"]` to `int` gives `[Cast(b, int), Kept(a)]` as meant, and `NameError` as written |

## Left out

- The Spark engine itself is not modelled: `select`, `withColumn`, `cast`,
  `alias` and `col` are opaque. `self[columns]` becomes the column list, and a
  cast becomes a `Cast(name, type)` tag.
- The aggregations (`_agg`, `min`, `max`, `stddev`, `kurt`, `mean`,
  `skewness`, `sum`, `variance`, `median`) are remote, floating-point
  computations in the engine.
- `lower`, `upper`, `trim`, `reverse`, `apply_to_row` and `drop` are each a
  sequence of opaque `withColumn` or `drop` calls.
- `keep` is a `select` of `ParseColumns`'s result, so its column order is that
  result.
- `_remove_accents` depends on Unicode normalisation tables.
- `age_calculate` is date arithmetic inside the engine.
- `rename` builds engine alias expressions.
- `range` discards what it computes.
- Also left out: `add_method`, `create_df`, `__init__`, `query`,
  `count_items`, `empty_str_to_str` and `lookup`. These are monkey-patching,
  engine calls, print-only stubs, or argument checks with no result.
- `_assert_type_str_or_list` is not modelled. A column argument is a string or
  a list of strings by construction, so no other Python value is
  representable.
- Tuple items other than strings are likewise not representable. So is an
  element of a pair list that is neither a tuple nor a string.
- `_assert_columns_names` is not part of this model; see
  `AssertColumnsNames` above for the behaviour assumed.

## Findings

| source | as written | input that shows it | evidently intended | confidence | as-written member | corrected member |
|---|---|---|---|---|---|---|
| optimus/optimus.py:357-364 | `find_col(columns, ref_col)` and `find_col(columns, column)` compare each column name with a list, so both return `[]` and `new_index[0]` raises `IndexError` | columns `["a", "b"]`, `move_col("a", "b", "after")` | compare with `ref_col[0]` and `column[0]`, giving `["b", "a"]` | not executed | `Optimus.MoveColAsWritten` | `Optimus.MoveCol` |
| optimus/optimus.py:423 | `dict_types` is built from `StringType()` and the other type classes, which the module never imports (lines 1-8), so it raises `NameError` on every call | columns `["a", "b"]`, `astype([("b", "int")])` | import the types from `pyspark.sql.types`, giving a cast of `b` to `int` followed by `a` | not executed | `Optimus.AsTypeAsWritten` | `Optimus.AsType` |
