# Housing availability predictor: a verified model

The application is a desktop form with two parts.

- **Retrieval index** (`rag_helper.py`, class `SimpleRAG`): it flattens the rows of several CSV files into one text document per row. It scores those documents against a query and returns the `top_k` best. It also formats them as a context block for a language model.
- **Application logic** (`Main.py`):
  - the house-type/applicant-type table and its inverse;
  - two linked dropdown menus;
  - a time slider with ten labels;
  - a "Submit" action that turns the numbers in the model's reply into three series;
  - a colour for each submission and a history for each of three graphs.

The model is written in Dafny.

- `wrappers.dfy`: `Option`.
- `sequences.dfy`: `Min`, `Distinct`, `DistinctConcat`, `Reverse`.
- `strings.dfy`: Python's `str.join`, the code-point order of `<` on strings, and `sorted()` for a list of strings.
- `ranking.dfy`: what any argsort may return, and the top-k selection `argsort()[-k:][::-1]`.
- `rag_helper.dfy`: the `SimpleRag` class. Its constructor loads the documents with a loop. The functions over its state are `TopDocuments`, `Retrieve` and `BuildContext`.
- `dict.dfy`: Python dicts as insertion-ordered `(key, list)` pairs, `get`, and `setdefault(...).append`. It also has the nested loop that builds `APPLICANT_TO_HOUSE` and the properties of that inverse.
- `housing_app.dfy`:
  - the constants;
  - the slider buckets;
  - the number split;
  - the history update, both as written and corrected;
  - the `HousePredictionApp` class, whose menus, slider label, counter and history are plain state; `ChooseHouse` and `ChooseApplicant` are a user's pick from a menu, which shows the entry picked and then runs the menu's handler.

Modelling choices:

- **Similarity.** The TF-IDF vectoriser and cosine similarity are an abstract parameter `Scorer`: (documents, query, document index) to a real.
- **CSV files.** Each file path is `None` when the file does not exist, otherwise the table of cells it holds. A cell's value is `None` where pandas reads a missing value.
- **The model's reply.** It arrives as an `Option` of the numbers read from it. `None` stands for a failed call.

## Model

| member | source | states |
|---|---|---|
| Strings.JoinAppend | rag_helper.py:23 | `sep.join` of two non-empty runs of parts is the join of the first, one separator, then the join of the second |
| Strings.JoinStartsWithFirst | rag_helper.py:49 | a `sep.join` of parts starts with its first part |
| Strings.Sort | Main.py:92 | `sorted(...)` of strings: a permutation of its input (same multiset) that is sorted in code-point lexicographic order |
| Strings.SortedUnique | Main.py:100 | two sorted permutations of the same strings are equal, so the sorted menu lists are fully determined by the keys |
| Strings.SortStrictlyIncreasing | Main.py:181-184 | sorting pairwise-distinct strings gives a strictly increasing list |
| Strings.SortDistinct | Main.py:181-184 | sorting distinct strings keeps them distinct and keeps exactly the same members |
| Strings.LexLessTotal | Main.py:92 | the string order is total (with `LexLessTransitive` and `LexLessIrreflexive`, a strict total order) |
| RagHelper.PresentColumns | rag_helper.py:23 | the positions of exactly the non-missing cells of a row, strictly increasing |
| RagHelper.FragmentsArePresentCells | rag_helper.py:23 | a row's fragments are one `"col: value"` per non-missing cell, in column order, and nothing else |
| RagHelper.FragmentsAppend | rag_helper.py:23 | the fragments of two runs of cells are those of the first run followed by those of the second |
| RagHelper.FlattenSkipsMissing | rag_helper.py:23 | a missing cell anywhere in a row adds nothing to the row's fragments or text |
| RagHelper.FlattenConcat | rag_helper.py:23 | the text of two runs of cells, each with a present value, is the first run's text, one space, then the second's |
| RagHelper.FlattenAllMissing | rag_helper.py:23 | a row with every value missing flattens to the empty string |
| RagHelper.AllRowsAppend | rag_helper.py:17-24 | loading two runs of paths yields the rows of the first followed by those of the second |
| RagHelper.CorpusSize | rag_helper.py:21-24 | exactly one document per row of every existing file |
| RagHelper.CorpusSkipsMissing | rag_helper.py:18-20 | a path whose file does not exist contributes no document and loading continues with the next path |
| RagHelper.CorpusPosition | rag_helper.py:17-24 | row `r` of file `p` becomes document `RowCount(sources[..p]) + r`: path order, then row order |
| RagHelper.CorpusEmpty | rag_helper.py:26-28 | the corpus is empty exactly when every file is missing or has no rows |
| RagHelper.Similarities | rag_helper.py:39 | one similarity per document |
| RagHelper.SimpleRag.constructor | rag_helper.py:11-31 | the documents are the corpus of the sources, and the vectoriser is fitted exactly when there is a document |
| Ranking.ArgSort | rag_helper.py:40 | an argsort exists: a permutation of the indices in non-decreasing score order |
| Ranking.TopKSelection | rag_helper.py:40 | for ANY argsort and `k >= 1`, `idx[-k:][::-1]` has `min(k, n)` distinct valid indices, in non-increasing score order, and none of the indices left out scores higher than any index chosen |
| RagHelper.SimpleRag.TopDocuments | rag_helper.py:35-40 | the indices retrieved: `min(top_k, n)` of them, distinct, non-increasing in score, dominating every index not chosen; none for an empty index |
| RagHelper.SimpleRag.Retrieve | rag_helper.py:33-42 | `min(top_k, n)` documents, empty exactly when there are no documents, each a document of the index, namely the texts of `TopDocuments` in order |
| RagHelper.SimpleRag.BuildContext | rag_helper.py:44-49 | the fixed sentence "No relevant housing or applicant data found." exactly when there are no documents; otherwise the `"- "`-prefixed results joined by blank lines, starting with the best one |
| Dict.GetAbsent | Main.py:162 | `get(k, [])` of an absent key is the empty list |
| Dict.GetAt | Main.py:174 | `get` of a stored key returns the list stored under it |
| Dict.SetDefaultAppend | Main.py:57 | `setdefault(k, []).append(v)`: the list under `k` gains `v` at its end and every other key reads as before; a key already present keeps its place in the key order, and a new key goes last |
| Dict.SetDefaultAppendDistinct | Main.py:57 | `setdefault(k, []).append(v)` keeps the keys distinct |
| Dict.BuildApplicantToHouse | Main.py:54-57 | the nested loop computes `Invert` of the house table |
| Dict.AddHouseGet | Main.py:56-57 | one house's inner loop appends that house once for each occurrence of an applicant in the house's list |
| Dict.AddHouseKeys | Main.py:56-57 | the inner loop adds exactly the house's applicants as keys |
| Dict.AddHouseDistinct | Main.py:56-57 | the inner loop keeps the keys distinct |
| Dict.InvertGet | Main.py:54-57 | the houses stored for `a` are, in house order, each house repeated as often as it lists `a` |
| Dict.InvertKeys | Main.py:54-57 | the inverse has distinct keys, and `a` is a key exactly when some house lists `a` |
| Dict.ListingMembers | Main.py:54-57 | a house is in the reference listing for `a` exactly when some entry for that house lists `a` |
| Dict.HousesListingDistinct | Main.py:54-57 | with distinct house keys, the houses listing `a` are distinct and all are keys of the table |
| Dict.InvertMembership | Main.py:54-57 | for a table with distinct keys, `h` is listed under `a` in the inverse if and only if `a` is listed under `h` |
| Dict.InvertFollowsHouseOrder | Main.py:54-57 | when no house lists an applicant twice, the houses under `a` are the houses listing `a`, in table order |
| Dict.InvertNoDuplicates | Main.py:54-57 | with distinct house keys and no repeated applicants, no house appears twice under any applicant |
| HousingApp.HouseTableWellFormed | Main.py:34-52 | the house keys of the literal table are distinct and no house lists an applicant twice |
| HousingApp.HouseTableNoPlaceholderNames | Main.py:34-52 | no house and no applicant of the literal table ends with `-`, as the clear entry and both placeholders do, so none of them equals one of those entries |
| HousingApp.MenuValuesDistinct | Main.py:180-184 | clear, a placeholder, then the sorted names hold every entry once, when the names are distinct and none ends with `-` |
| HousingApp.HouseTableInverse | Main.py:34-57 | for the literal table, the inverse is an if-and-only-if, in house order, without duplicates |
| HousingApp.TimeBucket | Main.py:187-209 | the bucket index is in 0..9, its lower boundary is at most the value (except bucket 0), and the value is below its upper boundary (except bucket 9) |
| HousingApp.TimeLabelIsBucket | Main.py:190-209 | the label shown is the label of the value's ten-wide bucket, with boundaries at 10, 20, ..., 90 |
| HousingApp.TimeBucketMonotone | Main.py:190-209 | a larger slider value never gets an earlier label |
| HousingApp.TimeLabelExactlyOne | Main.py:190-209 | each value gets exactly one of the ten distinct labels |
| HousingApp.SplitNumbers | Main.py:243-248 | three series: the first `chunk` numbers and the next `chunk` (`chunk = n // 3 or 1`, slices clamped); the rest when non-empty (so the series concatenate back to the input), otherwise the pairwise differences over the shorter of the first two |
| HousingApp.SplitCases | Main.py:243-248 | three or more numbers split as `n // 3`, `n // 3` and the remaining at least `n // 3`, concatenating to the input; two numbers give `[a]`, `[b]`, `[a - b]`; one gives `[a]`, `[]`, `[]` |
| HousingApp.Appended | Main.py:254-256 | each of the three histories gains exactly one entry `(data, color)` after all earlier ones |
| HousingApp.SingleNumberLosesDifference | Main.py:254-283 | as written, a first submission with one number leaves the difference history empty |
| HousingApp.HistoryAsWrittenAgrees | Main.py:254-283 | the history as written equals "one entry per graph" if and only if the reply had two or more numbers or an earlier need series held a value |
| HousingApp.HousePredictionApp.constructor | Main.py:54-128 | the inverse table is `Invert` of the house table; both menus hold clear, placeholder, then the sorted keys, with the placeholder selected; label "Day 1", count 0, three empty histories |
| HousingApp.HousePredictionApp.FullMenusDistinct | Main.py:180-184 | for a table naming no house and no applicant that ends with `-` (the literal one among them), each full menu lists every entry once |
| HousingApp.HousePredictionApp.ResetDropdowns | Main.py:180-184 | both menus return to their full sorted lists and placeholders; nothing else changes |
| HousingApp.HousePredictionApp.OnHouseSelected | Main.py:156-166 | clear resets both menus; any other `--` entry leaves everything unchanged; a house with applicants sets the applicant menu to clear plus those applicants with the first selected, and that applicant's houses include the selected one; a house without applicants changes nothing |
| HousingApp.HousePredictionApp.OnApplicantSelected | Main.py:168-178 | the mirror image for an applicant: the house menu gets clear plus the applicant's houses with the first selected, and that house lists the applicant |
| HousingApp.HousePredictionApp.ChooseHouse | Main.py:156-166 | a pick from the house menu (whose `command` is `on_house_selected`, Main.py:100): clear resets both menus; any other pick stays shown in the house menu; a house with applicants restricts the applicant menu to clear plus them with the first shown, and the inverse lists the shown house for the shown applicant; label, count and history unchanged |
| HousingApp.HousePredictionApp.ChooseApplicant | Main.py:168-178 | the mirror image for a pick from the applicant menu (`command` at Main.py:92): the pick stays shown except after clear, and the house shown for an applicant with houses lists that applicant |
| HousingApp.HousePredictionApp.UpdateTimeLabel | Main.py:187-210 | the label becomes the label of the value's bucket; nothing else changes |
| HousingApp.HousePredictionApp.SubmitAction | Main.py:213-256 | the context is `build_context` of the query built from the current selections, with `top_k = 3`. No reply, or a reply without numbers, leaves all state unchanged. Otherwise the colour is `COLORS[count % 10]`, the count grows by one, and each history gains exactly one entry |
| HousingApp.HousePredictionApp.SubmitActionAsWritten | Main.py:213-283 | the same, except that the history loop stops after the first graph with no stored value, where `max([])` raises and the `except` swallows it |
| HousingApp.PickHouseThenSubmit | Main.py:213-220 | on the one-house table `{"H": ["A"]}`, picking house "H" and then submitting builds the query `Applicant: A, House: H, Time: Day 1`: the pick and the applicant its handler selected both reach `build_context` |

## Left out

- TF-IDF fitting, vectorising and cosine similarity (rag_helper.py:13, 30, 38-39): floating-point library code, modelled as an abstract `Scorer`. The model keeps the fitted flag, not the fitted matrix.
- RagHelper.SimpleRag.constructor: assumes fitting succeeds whenever there is a document. The vectoriser's `fit_transform` (rag_helper.py:30) raises `ValueError` when no document holds a term outside the English stop-word list. One example is files whose rows have every value missing, so that every document is `""`. The error leaves `SimpleRAG.__init__`, and the module-level `rag = SimpleRAG(csv_files)` (Main.py:68) stops the application. The model instead sets `fitted` and keeps those documents.
- The order numpy's `argsort` gives equal scores: not fixed by the code. Every retrieval property is proved for any valid argsort (`Ranking.IsArgSort`). The concrete `Ranking.ArgSort` is one such argsort.
- RagHelper.SimpleRag.Retrieve: requires `top_k >= 1`. For `top_k <= 0`, Python's negative slicing gives other results, and the application only uses `top_k = 3`.
- Reading CSV files, and how pandas renders a value as text (`f"{row[col]}"`): the tables are given as cells holding their already-rendered text, or `None` for a missing value.
- `print` calls and console output: no effect on state.
- `chat_with_model` and the language-model client (Main.py:10-25): network I/O. The reply arrives as an `Option` of numbers, and `None` stands for a raised exception.
- `extract_numbers` (Main.py:28-30): regular-expression parsing of the reply. The numbers are an input.
- The prompt text (Main.py:222-231): it is only sent to the model, which is not part of this model.
- Window, frames, graphs, axes, ticks and drawing (Main.py:74-153, 258-281): GUI and plotting. The plotting effect on state that the model captures, the `max([])` exception, is modelled in `SubmitActionAsWritten`.
- The menus' widgets: each menu is a value (its list and its selection). `configure(values=...)` and `set(...)` are two successive updates of that value. The widget's own step on a pick, showing the entry picked before calling `command`, is written out in `ChooseHouse` and `ChooseApplicant`; the widget offers only the entries in its list, which is their precondition.
- The numbers read from the reply are mathematical reals, not 64-bit floats: rounding, and the overflow of a very long digit run to `inf` in `float()` (Main.py:30), are not modelled. Neither is the `ValueError` that `ax.set_ylim` (Main.py:272, 275) then raises for an infinite or NaN limit, which the `except` at Main.py:283 swallows, again skipping the remaining graphs.
- HousingApp.HousePredictionApp.constructor: takes the house table as a parameter that must have distinct keys. The application passes the literal `HOUSE_TO_APPLICANT`, which `HouseTableWellFormed` shows qualifies. The parameter avoids unfolding the literal inside the constructor's proof.
- The module-level `rag` object: passed to `SubmitAction` as a parameter.

## Findings

| source | as written | input that shows it | evidently intended | confidence | as-written member | corrected member |
|---|---|---|---|---|---|---|
| Main.py:254-283 | the history loop computes `max(all_values)` over a graph's whole history right after appending; when that history holds no value, `max([])` raises `ValueError`, the outer `except` catches it, and the remaining graphs are skipped although `submission_count` already grew | a first submission whose reply holds exactly one number: placed `[x]`, need `[]`, diff `[]`; graph 1 raises, so graph 2 gets no entry | every graph's history gains one entry per submission with numbers | not executed | HousingApp.SingleNumberLosesDifference, HousingApp.HousePredictionApp.SubmitActionAsWritten | HousingApp.Appended, HousingApp.HousePredictionApp.SubmitAction |
