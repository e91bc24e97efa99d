# Cluster-count sweeps, SWAPI/SpaceX scripts and the RNN driver, in Dafny

This project models the control logic of six Python files and proves what each one promises. The numeric and networked work around that logic becomes parameters, and the logic is modelled around them:

- **`BIC`** (`unsupervised_learning/clustering/9-BIC.py`)
  - It validates its six arguments, runs EM once for each k from kmin to kmax, and scores each fit as `k·ln n − 2·ll`.
  - It picks `best_k` by the source's plateau rule: the first k whose score is `isclose` to the previous score makes `best_k = k − 1`. The score before kmin counts as 0.
  - The aliased `likelyhoods = bics = []` list is reproduced: both appends go to one shared list, which interleaves ll and score. `l` and `b` are two equal arrays built from that single list.
- **`optimum_k`** (`unsupervised_learning/clustering/3-optimum.py`): it validates its arguments, runs K-means for every k, and records each k's drop in variance relative to kmin.
- **`count_launches` and `display_launch_counts`** (`pipeline/apis/4-rocket_frequency.py`)
  - It counts the launches per rocket id in an insertion-ordered dictionary.
  - It then keeps the ids with a known name, rekeys them by name, and sorts by count (descending), then name.
  - It emits one `"Name: count"` line per entry.
- **`sentientPlanets`** (`pipeline/apis/1-sentience.py`)
  - It reads species pages until `next` is null and collects the home planet of every sentient species. A species with no homeworld gives `"unknown"`, and a failed planet request gives nothing.
  - It then de-duplicates, keeping the first occurrence of each name.
- **`availableShips`** (`pipeline/apis/0-passengers.py`)
  - It reads starship pages until `next` is null.
  - It keeps the ships whose comma-stripped passengers string parses to at least the requested count. It skips "n/a", "unknown" and unparsable values.
- **`rnn`** (`supervised_learning/RNNs/1-rnn.py`): it fills the preallocated arrays `H` (t + 1 states) and `Y` (t outputs) by applying the cell once per time step.

Modules:

- `Wrappers` has Option and Result.
- `PyArgs` has the `isinstance` view of an argument.
- `Seqs` has order-preserving de-duplication and concatenation of per-element contributions.
- `Text` covers decimal rendering, Python's `int()` on a string, `str.replace(c, '')` and Python's string order.
- `Paging` covers paginated answers.
- There is one module per source file: `Bic`, `Optimum`, `RocketFrequency`, `Sentience`, `Passengers` and `Rnn`.

The loops of the source are methods with loop invariants, proved against specification functions. The properties the source promises are proved about those functions as lemmas.

Collaborators that become parameters:

- The numeric ones (`expectation_maximization`, `kmeans`, `variance`, `np.log`, `np.isclose`, `rnn_cell.forward`) are function parameters.
- The answers of HTTP requests are input sequences (pages) and maps (planet names by URL, rocket names by id).
- Printing is a returned sequence of lines.

Where the code of `BIC` and its own docstring (`unsupervised_learning/clustering/9-BIC.py`, lines 46-53) disagree, the model follows the code:

- The docstring gives `l` and `b` the shape `(kmax - kmin + 1)`, one entry per k. The code returns 2·(kmax − kmin + 1) entries in each, ll and score interleaved (`Bic.TraceEntries`).
- The docstring gives the score as `BIC = p * ln(n) - 2 * 1`, where the `1` is a typo for the log likelihood `l` that its next lines define, and p is the number of model parameters. The code penalises by k alone (`Bic.BicOf`).

## Model

| member | source | states |
|---|---|---|
| Bic.BIC | unsupervised_learning/clustering/9-BIC.py:56-94 | The call fails, i.e. returns four `None`s, exactly when one of six checks fails: X is not 2-D; kmin is not an int ≥ 1; kmax is not an int ≥ kmin; iterations is not an int; tol is not a float ≥ 0; verbose is not a bool. A `None` kmax always fails, so the `kmax = iterations` default is dead code. A failed call runs EM for no k. On success EM is called once per k, for kmin..kmax in increasing order; `l` and `b` are two equal arrays built from the single shared list, which interleaves ll and score (`Trace`); `best_k`/`best_res` are those of the first plateau, or kmax and None without one |
| Bic.ValidArgs | unsupervised_learning/clustering/9-BIC.py:56-72 | The six argument checks of `BIC`, in order: X is a 2-D array, kmin an int ≥ 1, kmax an int ≥ kmin, iterations an int, tol a float ≥ 0, verbose a bool (`Bic.BIC` fails exactly when this is false). Passing them rules out a `None` kmax, so the `kmax = iterations` default is dead, and leaves a non-empty range of k |
| Bic.ScoreSweep | unsupervised_learning/clustering/9-BIC.py:77-92 | The one loop of the sweep: EM is called for kmin..kmax in increasing order, the shared list is the ll/score trace, and `best_k`/`best_res` are those the plateau rule gives (see the lemmas below) |
| Bic.FirstPlateauIsFirst | unsupervised_learning/clustering/9-BIC.py:82-88 | The k the sweep stops on is a plateau and no earlier k is one (both directions), and when it finds none, no k in range is a plateau. This is the effect of the `best_k >= k` guard, which blocks every later plateau |
| Bic.TraceEntries | unsupervised_learning/clustering/9-BIC.py:79-94 | The shared list holds 2·(kmax − kmin + 1) entries. Entry 2j is the log likelihood of EM for kmin + j, and entry 2j + 1 is its score `(kmin + j)·ln n − 2·ll`, with penalty k |
| Bic.BestKBounds | unsupervised_learning/clustering/9-BIC.py:80-87 | `best_k` lies in [kmin − 1, kmax] |
| Bic.NoPlateauKeepsKmax | unsupervised_learning/clustering/9-BIC.py:78-88 | If no k's score is close to the score before it (0 for kmin), the result is `best_k = kmax` with `best_res = None` |
| Bic.FirstPlateauDecides | unsupervised_learning/clustering/9-BIC.py:86-89 | The first plateau k gives `best_k = k − 1` and the parameters of the fit for k − 1, or the `(None, None, None)` of no fit when k = kmin; later plateaus change nothing |
| Optimum.ValidArgs | unsupervised_learning/clustering/3-optimum.py:41-50 | The five argument checks of `optimum_k`: X is a 2-D array, kmin and kmax are positive ints, kmin < kmax, iterations is a positive int (`Optimum.OptimumK` fails exactly when this is false). Passing them rules out a `None` kmax, so the `kmax = X.shape[0]` default is dead, and leaves at least two k to try |
| Optimum.OptimumK | unsupervised_learning/clustering/3-optimum.py:41-64 | Fails exactly when X is not 2-D, kmin or kmax is not a positive int, kmin ≥ kmax, or iterations is not a positive int; a `None` kmax always fails, so the `kmax = X.shape[0]` default is dead code. On success K-means runs once per k, for kmin..kmax in increasing order. `results[j]` is the fit for kmin + j, and `d_vars[j] = variance(C_kmin) − variance(C_kmin+j)`. Both lists have kmax − kmin + 1 ≥ 2 entries, and `d_vars[0] = 0` |
| RocketFrequency.CountLaunches | pipeline/apis/4-rocket_frequency.py:55-65 | The keys are exactly the truthy rocket ids, in order of first launch, each once. A launch without a truthy `rocket` is ignored. The count of an id is its number of launches and is ≥ 1. The counts add up to the number of launches with a truthy rocket id |
| RocketFrequency.Put | pipeline/apis/4-rocket_frequency.py:75-79 | Storing into the ordered dictionary keeps its keys distinct; afterwards the key holds the new value and every other key its old one |
| RocketFrequency.ValidCounts | pipeline/apis/4-rocket_frequency.py:75-79 | The comprehension builds a dictionary: its keys (the rocket names) are pairwise distinct |
| RocketFrequency.FormatLine | pipeline/apis/4-rocket_frequency.py:86 | A line is the rocket name, then ": ", then a non-empty decimal numeral whose value is the count, so the line can be split back into name and count |
| RocketFrequency.ValidCountsByName | pipeline/apis/4-rocket_frequency.py:75-79 | A name is a key of `valid_counts` exactly when some id known to `rocket_names` carries it, so the "Unknown Rocket" default never appears. Its count is that of the last such id in the count dictionary's order: a later id overwrites an earlier one |
| RocketFrequency.BeforeTransitive | pipeline/apis/4-rocket_frequency.py:82 | The order of the sort key (−count, name) is transitive |
| RocketFrequency.BeforeTotal | pipeline/apis/4-rocket_frequency.py:82 | Any two entries with different names are ordered one way or the other |
| RocketFrequency.BeforeAsymmetric | pipeline/apis/4-rocket_frequency.py:82 | No two entries are ordered both ways |
| RocketFrequency.SortByRank | pipeline/apis/4-rocket_frequency.py:82 | The sorted entries are a permutation (same multiset) of the items of `valid_counts` |
| RocketFrequency.SortByRankSorted | pipeline/apis/4-rocket_frequency.py:82 | Sorting items with distinct names orders them strictly by count descending, then name ascending |
| RocketFrequency.DisplayedEntriesSpec | pipeline/apis/4-rocket_frequency.py:75-82 | The displayed entries are sorted by (−count, name). An entry (name, count) is displayed exactly when the last known id carrying that name has that count |
| RocketFrequency.DisplayLaunchCounts | pipeline/apis/4-rocket_frequency.py:82-86 | Exactly one "Name: count" line is emitted per displayed entry, in sorted order |
| Text.NatToString | pipeline/apis/4-rocket_frequency.py:86 | The count is printed as a non-empty run of decimal digits, with no leading zero except for 0 itself |
| Text.NatToStringValue | pipeline/apis/4-rocket_frequency.py:86 | The printed digits denote the count |
| Text.StringLessIrreflexive | pipeline/apis/4-rocket_frequency.py:82 | No name sorts before itself |
| Text.StringLessTransitive | pipeline/apis/4-rocket_frequency.py:82 | Name order is transitive |
| Text.StringLessTotal | pipeline/apis/4-rocket_frequency.py:82 | Any two different names are ordered |
| Text.StringLessAsymmetric | pipeline/apis/4-rocket_frequency.py:82 | No two names are ordered both ways |
| Sentience.Contribution | pipeline/apis/1-sentience.py:26-37 | A record adds at most one name. Only a sentient species (`designation` or `classification` equal to 'sentient') adds one. A sentient species without a truthy homeworld adds "unknown". One with a homeworld adds a name exactly when its planet request succeeded, and that name is the one answered for its own homeworld URL |
| Sentience.CollectedMembers | pipeline/apis/1-sentience.py:24-37 | A name is collected exactly when some record is a sentient species (its `designation` or its `classification` is 'sentient') that either has no truthy homeworld, the name being "unknown", or has one whose request succeeded and answered that name |
| Sentience.CollectedAppend | pipeline/apis/1-sentience.py:20-41 | The planets of consecutive pages are those of the first pages followed by those of the next, so planets come in page order, then record order |
| Sentience.AppendPlanets | pipeline/apis/1-sentience.py:24-37 | The record loop of one page appends exactly that page's contributions, in record order |
| Sentience.RemoveDuplicates | pipeline/apis/1-sentience.py:43-49 | The `seen`-set loop returns the order-preserving de-duplication of `planets`. It has no duplicates, contains every collected planet, and contains nothing else |
| Sentience.SentientPlanets | pipeline/apis/1-sentience.py:9-51 | Pages 1, 2, … are requested up to and including the first page whose `next` is null. The result is the de-duplicated list of the planets those pages contribute; running out of pages before a null `next` is an error |
| Seqs.Distinct | pipeline/apis/1-sentience.py:43-49 | De-duplication yields no duplicates, loses no element, adds none, and is no longer than its input |
| Seqs.FirstPositionsAreFirsts | pipeline/apis/1-sentience.py:46-49 | The positions kept are exactly those where an element occurs for the first time |
| Seqs.DistinctIsFirstOccurrences | pipeline/apis/1-sentience.py:46-49 | The de-duplicated list is the subsequence of the input at its first-occurrence positions, in ascending order |
| Seqs.DistinctOfNoDup | pipeline/apis/1-sentience.py:46-49 | A list without duplicates is returned unchanged |
| Passengers.AcceptedPositionsExact | pipeline/apis/0-passengers.py:29-35 | The positions listed are exactly those of the accepted ships: a passengers string other than "n/a"/"unknown" that parses, once its commas are removed, to at least `passengerCount` |
| Passengers.SelectedAtAcceptedPositions | pipeline/apis/0-passengers.py:28-33 | The names returned for a page are the subsequence of ship names at exactly the accepted positions, in record order |
| Passengers.SelectedAppend | pipeline/apis/0-passengers.py:24-39 | The ships of consecutive pages are those of the first pages followed by those of the next |
| Passengers.GuardIsRedundant | pipeline/apis/0-passengers.py:29-35 | With Python's `int()`, the explicit "n/a"/"unknown" test changes nothing: a ship is accepted exactly when its comma-stripped passengers string parses to at least `passengerCount` |
| Passengers.PlainDigitsCompared | pipeline/apis/0-passengers.py:31-33 | For any parse that reads plain digit strings as `int()` does, a ship with such a passengers string is kept exactly when its number reaches `passengerCount` |
| Passengers.AppendAcceptedShips | pipeline/apis/0-passengers.py:28-35 | The record loop, which continues past a parse failure, appends exactly the accepted names of the page, in record order |
| Passengers.AvailableShips | pipeline/apis/0-passengers.py:9-41 | Pages 1, 2, … are requested up to and including the first page whose `next` is null. The result is the accepted names of those pages in page and record order; running out of pages before a null `next` is an error |
| Text.RemoveChar | pipeline/apis/0-passengers.py:31 | `replace(',', '')` leaves no comma, never lengthens the string, and leaves a string without commas as it is |
| Text.RemoveCharMultiset | pipeline/apis/0-passengers.py:31 | `replace(',', '')` keeps every other character as many times as it occurs and drops every comma: the multiset of the result is that of the input with the comma's count set to zero |
| Text.RemoveCharAppend | pipeline/apis/0-passengers.py:31 | Removal distributes over concatenation, so the kept characters stay in their original order |
| Text.ParseInt | pipeline/apis/0-passengers.py:31 | `int()` on a string: it succeeds exactly when the string, once surrounding whitespace is stripped, is non-empty and is an optional sign followed by digit groups (single underscores between digits); a blank string raises ValueError; the result is ≥ 0 unless the sign is `-`, and ≤ 0 when it is |
| Text.RemoveCharLeavesDigits | pipeline/apis/0-passengers.py:31 | Removing a character from a digit string leaves a digit string |
| Passengers.Accepts | pipeline/apis/0-passengers.py:29-33 | The record test of `availableShips`: the passengers string is neither "n/a" nor "unknown", it parses once its commas are removed, and the number is at least `passengerCount`; a parse failure (the `ValueError` branch) rejects the ship |
| Text.ParseIntOfDigits | pipeline/apis/0-passengers.py:31 | `int()` reads a non-empty plain digit string as its decimal value |
| Text.ParseIntReadsPlainDigits | pipeline/apis/0-passengers.py:31 | The concrete `int()` model meets the assumption that `PlainDigitsCompared` makes of `parse` |
| Text.ParseIntRejectsPlaceholders | pipeline/apis/0-passengers.py:29-31 | `int("n/a")` and `int("unknown")` raise ValueError |
| Text.ParseIntOfNatToString | pipeline/apis/0-passengers.py:31 | `int()` reads back a rendered count as that count |
| Paging.LastPage | pipeline/apis/0-passengers.py:37-39 | The last page read is the first whose `next` is null; every page before it has a `next` |
| Paging.LastPageIs | pipeline/apis/1-sentience.py:39-41 | A page with a null `next` that follows only pages with a `next` is the last page read |
| Paging.RecordsStep | pipeline/apis/1-sentience.py:20-24 | Reading one more page appends its records |
| Paging.PageNumbers | pipeline/apis/0-passengers.py:22-39 | The requests go to pages 1, 2, …, n in this order |
| Rnn.Unroll | supervised_learning/RNNs/1-rnn.py:27-31 | The reference unrolling has t + 1 states and t outputs and starts at `h_0` |
| Rnn.UnrollSteps | supervised_learning/RNNs/1-rnn.py:34-39 | For every step s < t, `(H[s+1], Y[s]) = forward(H[s], X[s])` |
| Rnn.UnrollPrefix | supervised_learning/RNNs/1-rnn.py:34-37 | The states and outputs of the first s steps depend only on the first s inputs, because steps run in increasing order |
| Rnn.UnrollUnique | supervised_learning/RNNs/1-rnn.py:31-39 | Any states and outputs that start at `h_0` and follow the cell step by step are the unrolling |
| Rnn.Run | supervised_learning/RNNs/1-rnn.py:22-41 | `H` (fresh, t + 1 slots) and `Y` (fresh, t slots) hold exactly the unrolling. `H[0] = h_0` is never overwritten, and `(H[s+1], Y[s]) = forward(H[s], X[s])` for every step. When t = 0, `Y` is empty and `H` holds only `h_0` |

## Left out

- Floating point: log likelihoods, scores, variances and `ln n` are Dafny reals, so rounding, NaN and infinities are not modelled. `np.isclose` is a parameter. `float('inf')`, the initial value of `var` in `optimum_k`, is a "no variance yet" `None` that is never read.
- Bic.BIC: what `expectation_maximization` does is not part of this model. It is a parameter that returns parameters and a log likelihood for each k, so its own failure result `(None, …)`, on which the score computation would raise, is not modelled. Its printing under `verbose` is not modelled either.
- Optimum.OptimumK: `kmeans` and `variance` are parameters; their randomness and their own failure results are not modelled.
- Python's `bool` being a subclass of `int` is not modelled. `isinstance(True, int)` is true in Python, while the tagged argument type here treats booleans as non-ints.
- Rnn.Run: the states, inputs and outputs are values of abstract types. The (m, h), (m, i) and (m, o) matrix shapes and `rnn_cell.by.shape` are not modelled, and `X` is a sequence of time steps.
- HTTP requests and JSON decoding are not modelled. Pages of answers are input sequences, planet names are a map from homeworld URL to name (defined exactly for the URLs whose request answers 200), and the rocket names are a map. A page that does not exist is an `Err(MissingPage)` result where the scripts would raise on the missing `results`. Every JSON value a script compares is taken to be a string or null.
- Bic.ScoreSweep: the `for k` loop of `BIC` is a separate method, which `Bic.BIC` calls after validating its arguments.
- Sentience.SentientPlanets, Passengers.AvailableShips: the loop over the records of one page is a separate method, which the page loop calls.
- Passengers.AvailableShips: `int()` is a parameter (any partial parse). The concrete `Text.ParseInt` covers ASCII digits, whitespace, sign and single underscores; non-ASCII digits and whitespace are not modelled.
- `fetch_launches`, `fetch_rockets` and the `__main__` block of `pipeline/apis/4-rocket_frequency.py` only fetch, print error messages and call the two modelled functions; they are left out as I/O.
- RocketFrequency.DisplayLaunchCounts: printing is modelled as the returned list of lines.
