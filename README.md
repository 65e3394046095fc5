# Taxi-share grouping optimiser, modelled in Dafny

This project models the grouping optimiser of the taxi-share web application.
The optimiser takes a batch of at most ten users, each with a destination (latitude and longitude), a sex code and a birth date, and, when the annealer's answer is a 0/1 assignment that passes the feasibility check, gives every user a taxi number in `[0, 15)`. It works as follows:

- **Feature preparation** (`preparations.py`): each user's age is computed from the birth date. The four feature columns (latitude, longitude, age, sex) are selected and standardised. The upper-triangular matrix of weighted pairwise distances is then built: the geographic distance `sqrt(dlat² + dlon²)`, the squared age difference and the squared sex difference are weighed and divided by the sum of the weights.
- **Cost model** (`CostFunction` in `modeling.py`): the problem becomes a QUBO over `(user+5)*taxi` binary variables.
  - `q[i,k]` ("user i rides taxi k") sits at index `user*k+i`.
  - The five slack bits `y[k,l]` of taxi k sit at `user*taxi+5k+l`.
  - `initialize` accumulates the quadratic coefficients into the upper triangle of a square array, adds the linear coefficients on the diagonal and sets the constant.
  - `to_dict` turns the array into a sparse term list: one term per nonzero entry in row-major order, then the constant if it is nonzero.
- **Decoding** (`Response` in `modeling.py`):
  - The configuration the annealer reports is converted to integers.
  - Its first `taxi*user` values are laid out as a taxi-by-user grid.
  - Two violation counts are computed: columns whose sum is not 1 and rows whose sum is 5 or more. On a 0/1 answer these are the users not in exactly one taxi and the taxis holding five or more users.
  - Each user's taxi number is read off the grid.
- **Orchestration** (`main.py`):
  - The size guard allows at most 10 users.
  - The parameters are fixed: 15 taxis, weights `[1,0,0]`, penalties 10 and 10.
  - When every distance is zero, the groups are drawn at random.
  - Otherwise the model is solved and decoded. An infeasible answer is an error.

Files:

| file | module | contents |
|---|---|---|
| `basics.dfy` | `Basics` | `Option`/`Result`, `sum`, numpy's row-major `reshape` and its inverse |
| `preparations.dfy` | `Preparations` | `calc_age`, `normalize`, `square_diff_matrix`, `calc_dist_array` |
| `qubo.dfy` | `Qubo` | The variable layout and the coefficient of every pair of variables, in closed form, with the entry at every index `initialize` writes. Also the sparse term list of `to_dict`, and reading it back. |
| `decoding.dfy` | `Decoding` | `int()` on the reply, the dict it builds, the grid of `to_array`, `check_penalty` and `group` as functions on values |
| `modeling.dfy` | `Modeling` | Classes `CostFunction` (an `array2<real>` field updated in place by loops) and `Response` (fields reassigned by `to_array`), and `DAPTSolver.minimize` |
| `main.dfy` | `Orchestrator` | `main` |

How the model is set up:

- `CostFunction.Initialize` is proved against the closed-form matrix `Qubo.QuboMatrix`.
  - Its loops are the source's loops. Each loop body is a method of its own, and every loop carries the invariant "entries visited so far hold their coefficient, all others are unchanged".
  - Like numpy's `+=`, it adds to whatever the array already holds. On a freshly constructed object the array therefore becomes exactly `QuboMatrix`, as `Orchestrator.BuildModel` proves.
- The annealing service, the clock, `zscore`, `np.sqrt` and `np.random.randint` are parameters. They are listed under "## Left out".

Behaviours of the code that the model reproduces:

- `to_array` takes the first `taxi*user` values in the dict's iteration order. `Decoding.GridCellIsAssignment` shows that cell `(k, u)` is then the value of `q[u,k]` when the reply lists the indices 0, 1, 2, … in order.
- The default weights of `calc_dist_array` are `[1, 1, 1]`. Only `main` passes `[1, 0, 0]`, so, for finite standardised features, `main`'s distances ignore age and sex (`Orchestrator.NonzeroExactlyWhenApart`). A constant feature column breaks this in the code (see `Orchestrator.NonzeroExactlyWhenApart` under "## Left out").
- The diagonal of the distance matrix is not cleared by `np.triu`. For finite standardised features it is zero, because every difference of a user with itself is zero (`Preparations.DistArrayDiagonalIsZero`). When a feature is NaN the diagonal is NaN too.
- `check_penalty` sums columns and rows; it does not look at single cells. On an answer that is not 0/1, a column can sum to 1 with no cell equal to 1. The check then passes and `group` gives that user no number (`Decoding.CleanCheckWithoutBits`). On 0/1 answers a passing check gives every user exactly one taxi (`Orchestrator.DecidedGroupsAreAssignment`).

## Model

| member | source | states |
|---|---|---|
| Preparations.CalcAge | taxishare/anneal/preparations.py:22-38 | The age is the unique n such that the n-th birthday has come by `today` and the (n+1)-th has not. This is `today.year - born.year`, minus one when `(month, day)` of today is before the birthday. |
| Preparations.AddAge | taxishare/anneal/preparations.py:41 | Every row is kept, in order, and gains the `calc_age` of its birth date |
| Preparations.FeatureColumn | taxishare/anneal/preparations.py:46-47 | One selected column of the table with ages: one value per row, in row order |
| Preparations.Normalize | taxishare/anneal/preparations.py:7-48 | One feature row per input row. Each of the four features (latitude, longitude, age, sex) is that row's entry of `zscore` applied to the corresponding column of the aged table. |
| Preparations.NormalizedColumns | taxishare/anneal/preparations.py:41-47 | The age column that is standardised holds each user's `calc_age`. The other three hold the table's own latitude, longitude and sex. |
| Preparations.Column | taxishare/anneal/preparations.py:67-70 | `norm_df[col].values`: one value per user, in row order |
| Preparations.SquareDiffList | taxishare/anneal/preparations.py:87 | The flat list has `len(xs)*len(ys)` entries. Position `i*len(ys)+j` holds `(xs[i]-ys[j])²`. |
| Preparations.SquareDiffMatrix | taxishare/anneal/preparations.py:72-89 | An n-by-n matrix whose entry `[i][j]` is `(f[i]-f[j])²` |
| Preparations.SquareDiffMatrixReshapes | taxishare/anneal/preparations.py:86-89 | The matrix equals the flat comprehension over all ordered pairs, reshaped to n rows of n |
| Preparations.SquareDiffMatrixShape | taxishare/anneal/preparations.py:87 | The matrix is symmetric and non-negative, and its diagonal is zero |
| Preparations.Triu | taxishare/anneal/preparations.py:99 | Same shape. Entries below the diagonal become 0; the diagonal and what lies above it are kept. |
| Preparations.WeightedMatrix | taxishare/anneal/preparations.py:92-98 | An n-by-n matrix holding the weighted distance of every pair of users |
| Preparations.WeightedDistanceFromMatrices | taxishare/anneal/preparations.py:92-98 | Each weighted distance is what the numpy expression gives at that entry: `sqrt` of the sum of the latitude and longitude squared-difference matrices, plus the age and sex squared-difference matrices, weighed and divided by `sum(w)` |
| Preparations.CalcDistArray | taxishare/anneal/preparations.py:51-100 | An n-by-n matrix. On and above the diagonal it holds the weighted distance. Below the diagonal it is 0. Defined when `sum(w) != 0`. |
| Preparations.DistArrayDiagonalIsZero | taxishare/anneal/preparations.py:92-99 | Given `sqrt(0) = 0` and finite standardised features, every diagonal entry is 0 as well |
| Preparations.DistArrayNonNegative | taxishare/anneal/preparations.py:92-99 | With non-negative weights of positive sum and a non-negative `sqrt`, no distance is negative |
| Basics.Reshape | taxishare/anneal/modeling.py:172-173 | `rows` rows of `cols` values. Cell `[k][u]` is element `k*cols+u` of the flat list. |
| Basics.FlattenReshape | taxishare/anneal/modeling.py:172-173 | Flattening the reshaped rows gives back the flat list: nothing is lost or reordered |
| Qubo.Index | taxishare/anneal/modeling.py:73-92 | `q[i,k]` maps to `user*k+i` and `y[k,l]` to `user*taxi+5k+l`. Every index is below `(user+5)*taxi`, and the q indices are exactly those below `user*taxi`. |
| Qubo.QubitAt | taxishare/anneal/modeling.py:73-92 | Every index of the `(user+5)*taxi` matrix names a variable of the model, and `Index` maps that variable back to the index |
| Qubo.DecodeIndex | taxishare/anneal/modeling.py:73-92 | Decoding an index gives back the variable it came from, so the layout is a bijection |
| Qubo.AssignIndexOrder | taxishare/anneal/modeling.py:73-92 | `q` indices are ordered by taxi, then by user |
| Qubo.Entry | taxishare/anneal/modeling.py:72-98 | The entry at row r and column c: the in-group, cross-taxi and linear coefficients of the variables at r and c |
| Qubo.QuboMatrix | taxishare/anneal/modeling.py:56-98 | The array `initialize` fills is `(user+5)*taxi` square, and every entry strictly below the diagonal is 0 |
| Qubo.Constant | taxishare/anneal/modeling.py:102 | The constant term `penalty1*user + penalty2*taxi` (αI + βK) |
| Qubo.LowerTriangleIsZero | taxishare/anneal/modeling.py:52-93 | No coefficient lies strictly below the diagonal, because every off-diagonal write goes to a column after its row |
| Qubo.SameTaxiPairEntry | taxishare/anneal/modeling.py:76-78 | For users i < j in taxi k, entry `[user*k+i, user*k+j]` is `dist[i][j] + 2*penalty2` |
| Qubo.OneUserTwoTaxisEntry | taxishare/anneal/modeling.py:88-93 | For user i in taxis k < k2, entry `[user*k+i, user*k2+i]` is `2*penalty1` |
| Qubo.PairAndCrossDisjoint | taxishare/anneal/modeling.py:76-93 | The index pairs of the two loop nests never coincide, so no entry is accumulated twice |
| Qubo.UserSlackEntry | taxishare/anneal/modeling.py:79-81 | Entry `[user*k+i, user*taxi+5k+l]` is `-2*l*penalty2`, which is 0 for l = 0 |
| Qubo.SlackPairEntry | taxishare/anneal/modeling.py:83-87 | For l < l2, entry `[s+5k+l, s+5k+l2]` is `2*penalty2*(l*l2+1)` |
| Qubo.UserDiagonalEntry | taxishare/anneal/modeling.py:96-98 | The first `user*taxi` diagonal entries are `penalty2 - penalty1` |
| Qubo.SlackDiagonalEntry | taxishare/anneal/modeling.py:97-98 | The diagonal entry of slack bit l of every taxi is `penalty2*(l*l-1)` |
| Qubo.SlackDiagonalAt | taxishare/anneal/modeling.py:97 | The slack part of `diag_list` has five values per taxi. The value at `5k+l` is `penalty2*(l*l-1)`. |
| Qubo.DiagListAt | taxishare/anneal/modeling.py:96-98 | `diag_list` has one value per variable, and each value is that variable's linear coefficient |
| Qubo.RowTermsShape | taxishare/anneal/modeling.py:115-117 | The terms of one row carry `[row, col]` keys and the nonzero entry at that key, in increasing column order |
| Qubo.MatrixTermsShape | taxishare/anneal/modeling.py:115-117 | Every term names a nonzero matrix entry and carries it, and the terms come in row-major order |
| Qubo.Polynomial | taxishare/anneal/modeling.py:104-123 | No term has a zero coefficient. Index terms name and carry matrix entries, in strictly row-major order. A term with empty `polynomials` comes last if and only if the constant is nonzero, and it carries the constant. |
| Qubo.PolynomialRecoversEntries | taxishare/anneal/modeling.py:115-117 | Reading the list back by key `[r, c]` gives the entry when it is nonzero, and nothing when it is zero. So exactly the nonzero entries are emitted, once each. |
| Qubo.PolynomialRecoversConstant | taxishare/anneal/modeling.py:119-120 | Reading the list back by the empty key gives the constant exactly when it is nonzero |
| Decoding.ParseDecimal | taxishare/anneal/modeling.py:155 | `int()` on a string: an optional sign followed by one or more ASCII decimal digits, anything else is an error |
| Decoding.ParseDecimalForm | taxishare/anneal/modeling.py:155 | A plain digit string converts to its decimal value. Anything accepted starts with a digit or a sign. The result is negative only after a minus sign, and never positive after one. |
| Decoding.ParseDecimalRejects | taxishare/anneal/modeling.py:155 | A non-digit anywhere after the first character makes `int()` fail |
| Decoding.ToInt | taxishare/anneal/modeling.py:155 | `int()` on a JSON key or value: booleans and numbers always convert, `True` to 1 and `False` to 0, a number to itself; only a string can fail, as `ParseDecimal` says |
| Decoding.ParseShowDecimal | taxishare/anneal/modeling.py:155 | `int(str(n)) == n`: every key written as a decimal numeral converts back to the index it names |
| Decoding.Lookup | taxishare/anneal/modeling.py:155 | Looking a key up in the dict that the comprehension builds finds nothing exactly when no item has that key |
| Decoding.LookupAt | taxishare/anneal/modeling.py:155 | In a dict with distinct keys, each key finds its own value |
| Decoding.Put | taxishare/anneal/modeling.py:155 | `d[key] = value`: a new key is appended last. An existing key keeps its position and takes the new value, and nothing else changes. |
| Decoding.PutLookup | taxishare/anneal/modeling.py:155 | After `d[key] = value` the keys are still distinct, `key` finds `value`, and every other key finds what it found before |
| Decoding.Configuration | taxishare/anneal/modeling.py:154-155 | The converted dict has distinct keys and no more items than the reply |
| Decoding.ConfigurationSucceeds | taxishare/anneal/modeling.py:155 | The conversion fails exactly when some key or value of the reply is not an integer |
| Decoding.ConfigurationKeepsOrder | taxishare/anneal/modeling.py:155 | When the keys convert to distinct integers, the dict holds every converted item, in the reply's order |
| Decoding.ToGrid | taxishare/anneal/modeling.py:171-173 | A `taxi` by `user` grid whose cell `(k, u)` is the value of the `(k*user+u)`-th item in dict order |
| Decoding.GridCellIsAssignment | taxishare/anneal/modeling.py:171-173 | When the reply lists the indices 0, 1, 2, … in order, cell `(k, u)` is the value of variable `q[u,k]` at index `user*k+u` |
| Decoding.BitValuesGiveBits | taxishare/anneal/modeling.py:155-173 | A converted dict whose values are all 0 or 1 gives a 0/1 grid |
| Decoding.FlagsGiveBits | taxishare/anneal/modeling.py:155-173 | A reply made of JSON booleans gives a 0/1 grid |
| Decoding.ColumnSum | taxishare/anneal/modeling.py:186 | `sum(axis=0)` of one column from a given row down; on a 0/1 grid it lies between 0 and the number of rows summed |
| Decoding.RowSum | taxishare/anneal/modeling.py:187 | `sum(axis=1)` of one row; on a 0/1 grid it lies between 0 and the number of users |
| Decoding.BadColumns | taxishare/anneal/modeling.py:186 | The count is at most the number of columns. It is zero if and only if every column sums to 1. |
| Decoding.FullRows | taxishare/anneal/modeling.py:187 | The count is at most the number of rows. It is zero if and only if every row sums to less than 5. |
| Decoding.Violations | taxishare/anneal/modeling.py:175-188 | `0 <= f_user <= user` and `0 <= f_taxi <= taxi`. Each count is zero exactly when its constraint holds, and the pair is `(0, 0)` exactly when the grid is feasible. |
| Decoding.OnesInColumnShape | taxishare/anneal/modeling.py:199-200 | The rows listed for a column are exactly the rows whose cell in that column is 1 |
| Decoding.GroupNumbers | taxishare/anneal/modeling.py:199-200 | `np.where(qubit_array.T == 1)[1]` read user by user, taxi by taxi within a user: every number is a row of the grid |
| Decoding.Group | taxishare/anneal/modeling.py:190-201 | Every number returned is a taxi number, below the number of rows |
| Decoding.CleanCheckWithoutBits | taxishare/anneal/modeling.py:184-200 | On the non-0/1 grid with one user and cells 2 and -1, `check_penalty` gives `(0, 0)` and `group` gives no number at all |
| Decoding.OnesCountIsColumnSum | taxishare/anneal/modeling.py:186-200 | In a 0/1 column the number of ones found is the column sum |
| Decoding.GroupNumbersAssign | taxishare/anneal/modeling.py:199-201 | When every column sums to 1, there is one group number per user, and it is the unique row holding that user's 1 |
| Decoding.GroupIsAssignment | taxishare/anneal/modeling.py:190-201 | On a 0/1 grid whose columns sum to 1, `group` has length `user`. Element u is below `taxi`, and it is the only row whose cell for user u is 1. |
| Decoding.OccurrencesMatchRow | taxishare/anneal/modeling.py:187-200 | When a user's number is k exactly where row k holds a 1, k occurs as often as row k sums to |
| Decoding.TaxiCapacity | taxishare/anneal/modeling.py:186-201 | On a feasible 0/1 grid, the number of users given taxi k is the sum of row k, which is below 5 |
| Modeling.CostFunction.constructor | taxishare/anneal/modeling.py:37-54 | A fresh all-zero `(user+5)*taxi` square array and a zero constant |
| Modeling.CostFunction.Initialize | taxishare/anneal/modeling.py:56-102 | Every entry gains exactly the closed-form coefficient of its pair of variables (`old + Entry`), and the constant becomes `penalty1*user + penalty2*taxi` |
| Modeling.CostFunction.AddGroup | taxishare/anneal/modeling.py:72-87 | One pass of the first outer loop: the rows of the variables of taxi k gain their in-group terms, and nothing else changes |
| Modeling.CostFunction.AddUserRow | taxishare/anneal/modeling.py:74-81 | Row `user*k+i` gains its in-group terms, and nothing else changes |
| Modeling.CostFunction.AddUserPairs | taxishare/anneal/modeling.py:76-78 | Row `user*k+i` gains `dist[i][j] + 2*penalty2` at every later user j of taxi k |
| Modeling.CostFunction.AddUserSlacks | taxishare/anneal/modeling.py:79-81 | Row `user*k+i` gains `-2*l*penalty2` at every slack bit of taxi k |
| Modeling.CostFunction.AddSlackRow | taxishare/anneal/modeling.py:83-87 | Row `s+5k+l` gains `2*penalty2*(l*l2+1)` at every later slack bit l2 of taxi k |
| Modeling.CostFunction.AddCrossUser | taxishare/anneal/modeling.py:88-93 | One pass of the second outer loop: the rows of user i gain `2*penalty1` toward every later taxi |
| Modeling.CostFunction.AddCrossRow | taxishare/anneal/modeling.py:89-93 | Row `user*k+i` gains `2*penalty1` at `user*k2+i` for every k2 > k |
| Modeling.CostFunction.AddDiagonal | taxishare/anneal/modeling.py:96-98 | Every entry gains the linear coefficient of its variable, which is nonzero only on the diagonal |
| Modeling.CostFunction.ToDict | taxishare/anneal/modeling.py:104-123 | The term list is the sparse form of the array. Reading it back by `[r, c]` gives exactly the nonzero entries. Reading it back by the empty key gives the constant when it is nonzero. |
| Modeling.Response.constructor | taxishare/anneal/modeling.py:147-158 | `config` is the converted dict, `energy` is the reported energy, and there is no grid yet |
| Modeling.Response.ToArray | taxishare/anneal/modeling.py:160-173 | Succeeds exactly when there are at least `taxi*user` values, and then stores the `ToGrid` layout. `config` and `energy` are unchanged. |
| Modeling.Response.CheckPenalty | taxishare/anneal/modeling.py:175-188 | `(0, 0)` exactly when the stored grid is feasible |
| Modeling.Response.Group | taxishare/anneal/modeling.py:190-201 | Every number is a row of the stored grid |
| Modeling.Minimize | taxishare/anneal/modeling.py:231-258 | A failed request raises with its text, and a false status raises `result_status is false.`. A configuration that does not convert is an error. Otherwise the outcome is a fresh `Response` for the reply. The outcome succeeds if and only if the reply is answered, its status is true and its configuration converts. |
| Orchestrator.DistanceMatrix | taxishare/anneal/main.py:29-30 | With weights `[1,0,0]` (sum 1), the distance matrix is n-by-n and zero below the diagonal |
| Preparations.AnyNonzero | taxishare/anneal/main.py:33 | `dist_array.any()`: some entry of the distance matrix is nonzero |
| Orchestrator.NonzeroExactlyWhenApart | taxishare/anneal/main.py:30-46 | For finite standardised features, as in this model's exact reals: with weights `[1,0,0]` and a square root that is positive on positive input, the distance matrix has a nonzero entry exactly when two users stand at different standardised positions, whatever their ages and sexes. Otherwise the groups are drawn at random. |
| Orchestrator.Decide | taxishare/anneal/main.py:37-44 | A failed request or a false status is a solver error. A success means the reply converted, had enough values and passed the check, and the result is `group` of its grid, every number below 15. An infeasible verdict means the grid violates a constraint. |
| Orchestrator.InfeasibleExactlyWhenViolated | taxishare/anneal/main.py:40-44 | An answered reply with enough values is rejected as infeasible exactly when the grid violates a constraint. Otherwise `group` is returned. |
| Orchestrator.DecidedGroupsAreAssignment | taxishare/anneal/main.py:39-44 | When the gate passes and every converted value is 0 or 1 (as for a reply of booleans), every user gets one taxi number below 15, the taxi whose bit is set for that user, and no taxi gets five or more users |
| Orchestrator.AssignTaxis | taxishare/anneal/main.py:7-48 | More than 10 users is an error before anything else, and exactly 10 proceeds. An all-zero distance matrix returns the random draw without calling the solver. Otherwise the request is the QUBO of `user` users, 15 taxis and penalties 10/10, and the outcome is the decoded reply. |
| Orchestrator.BuildModel | taxishare/anneal/main.py:34-36 | A fresh `CostFunction` after `initialize(dist, 10, 10)` and `to_dict` sends exactly the closed-form QUBO's term list |
| Orchestrator.SolveAndDecode | taxishare/anneal/main.py:37-44 | Solving and decoding with the same `(user, 15)` gives `Decide` of the reply: a solver or conversion error, a reshape error, an infeasible answer, or `group` |

## Left out

- The HTTP request of `DAPTSolver.minimize` is not modelled: its URL, access key and machine parameters, the JSON body and `MyEncoder`'s numpy-to-JSON coercion. The service is a function parameter `post` from the term list to a `Reply`. A failed HTTP response is `Rejected` with its text.
- `Response.timing` is not modelled. Nothing in the optimiser reads it.
- Modeling.Response.constructor: requires the configuration to convert. In the source, `int()` raises inside the constructor; here `Minimize` checks first and reports `MalformedConfiguration`.
- Decoding.ParseDecimal, Decoding.ToInt: the model covers booleans, integers and decimal strings as keys and values. On strings, leading and trailing whitespace, digit-group underscores and non-ASCII Unicode decimal digits, which `int()` accepts, are rejected. JSON floats are not modelled. JSON `null`, lists and objects are not modelled either: on them `int()` raises `TypeError`, and `RawValue` has no case for them.
- `zscore` is a parameter, assumed only to keep the length of a column. Its floating-point arithmetic is not modelled.
- Orchestrator.NonzeroExactlyWhenApart, Preparations.DistArrayDiagonalIsZero, Orchestrator.AssignTaxis: these hold for finite standardised features only.
  - In the code, `zscore` of a constant column is NaN. This happens, for example, for two users of the same sex, or for a single user.
  - Since `0 * nan` is NaN, every entry on and above the diagonal of `main`'s distance matrix is then NaN.
  - `dist_array.any()` is therefore true, and the solver is sent NaN pair coefficients.
  - So in the code the random branch is reached only for an empty table.
  - The model's `zscore` returns exact reals, so it does not capture this.
- `np.sqrt` is a parameter with `sqrt(0) = 0` that is non-negative on non-negative input. All arithmetic is on exact reals, not floats.
- Preparations.CalcDistArray: requires `sum(w) != 0`. For a zero weight sum the source divides by zero and yields `inf`/`nan` entries, and that case is not modelled.
- `date.today()` is the parameter `today`, and `np.random.randint(0, taxi, user)` is the parameter `randomGroups`, constrained to `user` values in `[0, 15)`.
- `to_array` assigns its grid to a field and returns nothing, so `main`'s local `qubit_array` is always `None`. It is unused and not modelled.
- The text of the `ValueError` messages is not modelled. Each raise is an `Error` constructor.
- The model does not prove that the QUBO's energy equals the intended objective (in-group distance plus the two squared penalty terms). It proves the coefficient at every index instead.
- The Django views, models, forms and admin, and the browser scripts, are not part of this model.
