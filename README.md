# DoneDoneML in Dafny

DoneDoneML reads support issues (title, description, status, fixer name, fixer e-mail) from a CSV file.
It trains a multiclass text classifier that predicts the fixer of an issue from its title and description.
It then answers console queries with the three best-scored fixers.

This project models the program's own logic in `Program.cs` and proves properties of it:

- `issues.dfy` (module `Issues`): the `Issue` record and the `Input` row type.
  It also holds the projection of issues to training inputs at the top of `Main`.
- `ranking.dfy` (module `Ranking`): `Prediction.GetPredictions`.
  Each score is paired with its slot name, the pairs are sorted by score (highest first, stably), and the first three are kept.
  LINQ's `OrderByDescending` is modelled the way LINQ computes it.
  It first builds the permutation of source positions that orders the keys, with ties broken by source position.
  It then reads the elements through that permutation.
  The permutation is computed here by an insertion sort.
  `TopSelectionIsGetPredictions` shows that the result does not depend on how it is computed.
  Any selection that meets the declarative description equals the result.
- `interactive.dfy` (module `Interactive`): the `do`/`while (true)` prompt loop of `Main`.
  It is a method with a loop over the console's lines, proved against the function `Queries`.
- `wrappers.dfy` (module `Wrappers`): `Option`, which stands for C#'s nullable strings.

Modelling decisions:

- Scores are `int`. Only their order matters to the ranking.
- Slot names are passed in as a `seq<string>`. A slot with no name gets the default label, the empty string.
- The console is a `seq<string>` of input lines. `ReadLine` returns null (`None`) once the lines are used up.
- The prediction engine is a function parameter from an `Input` to its score vector.
- `Input`'s fields are `Option<string>`, because C# strings may be null.
  A fresh `new Input()` is `Input(None, None, None)`.
- The loop's assignments to `input.Title` and `input.Description` are datatype updates of a local value.
  The object is fresh in every iteration and never shared, so value semantics loses nothing.
- `string.IsNullOrWhiteSpace` and `char.IsWhiteSpace` are written out with .NET's set of white-space characters.

Behaviour of the code that a reader might not expect:

- The result of `GetPredictions` is non-increasing, not strictly decreasing: equal scores both appear.
- Labels may repeat, for example when several slots have no name. What is distinct is the source position of each entry.
- The result has min(3, number of scores) entries. It has fewer than 3 when there are fewer classes.
- The loop also stops on a null title (end of input), not only on an empty or white-space title.

## Model

| member | source | states |
|---|---|---|
| `Issues.ToInputs` | Program.cs:14-18 | one training input per issue, in the same order; entry k has issue k's title and description, and its fixer name as the label |
| `Issues.ToInputsAppend` | Program.cs:14-18 | the projection works row by row: projecting a concatenation concatenates the projections, so order is preserved |
| `Issues.ToInputsDropsStatusAndEmail` | Program.cs:14-18 | two issue lists give the same training inputs if and only if they have equal length and agree row by row on title, description and fixer name; status and e-mail never matter |
| `Ranking.Insert` | Program.cs:108 | inserting a source position into a list of positions adds exactly that position (multiset) and keeps every entry a valid position |
| `Ranking.InsertOrdered` | Program.cs:108 | inserting a new position into a list in stable descending order keeps it in that order |
| `Ranking.SortPrefix` | Program.cs:108 | the sort of positions 0..n-1 holds exactly those n positions |
| `Ranking.SortPrefixOrdered` | Program.cs:108 | the sort of positions 0..n-1 is in stable descending order: higher score first, equal scores in source order |
| `Ranking.SortMap` | Program.cs:108 | the permutation `OrderByDescending` applies covers every source position once and lists them in stable descending order |
| `Ranking.GetPredictions` | Program.cs:102-111 | the result has exactly min(3, number of scores) entries, whatever `top` is, and its scores never increase from first to last |
| `Ranking.GetPredictionsSelects` | Program.cs:107-109 | entry k of the result is (name of slot i, score i) for source position i = k-th top position; the positions are in stable descending order, and every position left out comes after every position kept |
| `Ranking.TopSelectionPositionsUnique` | Program.cs:108-109 | two selections of the same length that both meet the declarative top-k description are read from the same positions |
| `Ranking.TopSelectionIsGetPredictions` | Program.cs:107-110 | any sequence of min(3, n) entries that meets the declarative top-k description equals the result of `GetPredictions`, for every `top` |
| `Ranking.GetPredictionsDistinct` | Program.cs:107 | the result's entries come from pairwise distinct source positions |
| `Ranking.GetPredictionsDropsNoLarger` | Program.cs:108-109 | a score that is left out implies that 3 entries were kept, and that score is no larger than the last kept score |
| `Ranking.GetPredictionsStable` | Program.cs:108 | ties keep source order: among kept entries with equal scores the earlier slot comes first, and an equal score left out lies after every kept slot with that score |
| `Ranking.GetPredictionsExample` | Program.cs:107-110 | for scores 1, 5, 5, 2 and slot names a, b, c the result is (b, 5), (c, 5), ("", 2) |
| `Interactive.Prompt` | Program.cs:30-49 | the loop hands `Queries(lines, 0)` to the prediction engine, in order, and for each query shows `GetPredictions` of its scores |
| `Interactive.QueriesAt` | Program.cs:32-40 | query k is a fresh input with the title read at line 2k, which is not null or blank, the next line (or null at the end of input) as description, and no fixer |
| `Interactive.QueriesEndAtStop` | Program.cs:34-37 | the title read after the last query, at line 2n for n queries, is null or blank |
| `Interactive.QueriesStopAtFirstBlank` | Program.cs:33-42 | the loop makes exactly n queries if and only if the titles read at lines 0, 2, ..., 2(n-1) are not null or blank and the title at line 2n is |
| `Interactive.QueriesNeverBlank` | Program.cs:34-37 | no query has a null or blank title, and no query has a fixer, so `Predict` is never called for the stopping title |
| `Interactive.InputAfterStopIgnored` | Program.cs:36-37 | once the loop stops, no further line is read: appending input after the stopping title changes no query |

## Left out

- `Issue.GetAllIssues` (IssueList.cs:18-24): CSV reading with an external library and file I/O. The model starts from the list of issues.
- `Issue`'s properties (IssueList.cs:12-16) are C# strings that could be null. The model assumes the CSV reader never yields a null field (it reads an empty field as ""), so `Issue` holds plain strings and `ToInputs` yields non-null fields.
- `CreateModel` (Program.cs:58-82): the pipeline declaration, the text featurisation, the trainer, 6-fold cross-validation and fitting. All of it is done by the machine-learning library, and training is floating-point numerics.
- `LoadModel` and model saving (Program.cs:52-56, Program.cs:80-81): file streams and opaque binary serialisation.
- The `File.Exists` gate (Program.cs:22-23): a file-system check that decides whether training runs. Training is not modelled, so the gate is not either.
- How slot names are fetched from the engine's output schema (Program.cs:104-105): a library call. The names are a parameter. A slot past the end of the names reads as the empty label. The library's own handling of such an index is not part of this model.
- Floating-point scores: `float` ordering, including NaN, is not modelled. Scores are integers.
- The console's text: the prompts "Title (or enter to exit):" and "Description:" and the format of the `Prediction: {0} ({1})` lines. The model returns the entries shown for each query instead.
- Exceptions thrown by the prediction engine: `predict` is a total function. In the program such an exception would end the process.
- `char` is a Unicode scalar value here, where .NET strings hold UTF-16 code units. White space outside the Basic Multilingual Plane does not exist in either, so `IsNullOrWhiteSpace` is unaffected.
