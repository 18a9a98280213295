# Step & Calorie Challenge — a Dafny model of its session logic

The challenge page (`app.py`) is a Streamlit app. Under its UI calls it keeps
one in-memory session: a login gate checked against a shared invite code, a
table of daily entries (name, date, steps, calories, score) that each
submission upserts, and two views computed from that table on every render:
a leaderboard of mean scores with the top three rows tagged gold, silver and
bronze, and the user's latest entry.

This project models that logic and proves its properties:

- `Score.dfy` (module `Scoring`): `calculate_score`. Each ratio is capped at 1:
  steps over 12,000 and calories over 400. The ratios are weighted 50/50,
  scaled to 100, and rounded to two decimals with Python's round-half-even.
  All of this is on exact reals.
- `Text.dfy` (module `Text`): `str.strip()` and `str.title()` over ASCII, as
  the login gate applies them to the display name.
- `Entries.dfy` (module `Entries`): the entry table as a `seq<Entry>`. It has
  the submission's filter-then-append (`Upsert`) and the latest-entry
  lookup (`Latest`). Dates are integer day numbers.
- `Leaderboard.dfy` (module `Leaderboard`): group by name, take the mean,
  sort by mean (highest first), and the top-3 tagging of `highlight_top3`.
- `Session.dfy` (module `App`): the class `Session` with the session-state
  fields `loggedIn`, `name` and `data`. Its methods are the login button
  and the submit button. Its functions are the two views.

The leaderboard sort is not stable, and `groupby` orders names
alphabetically. So the source promises no order among names with equal
means. The model's `Board` function is a concrete insertion sort. What is
proved about it (`BoardSpec`) is only what the code promises:

- it is a permutation of the per-name means;
- it is in non-increasing order of mean;
- it has exactly one row per name.

No tie-break is promised: `sort_values` uses its default sort kind, which
is not stable (app.py:86), so no order among equal means is promised.

Within one session every row carries the session's own name. The name is
set once at login, and only the logged-in user submits. The class
invariant `Session.Valid` records this. Two things follow:

- the leaderboard shown has exactly one row;
- the latest-entry lookup (`iloc[-1]`, which would fail on an empty
  selection) always finds a row when the table is non-empty.

## Model

| member | source | states |
|---|---|---|
| `Scoring.Score` | app.py:20-24 | for non-negative steps and calories the score lies between 0 and 100 |
| `Scoring.RoundHalfEven` | app.py:24 | the rounded value is an integer within 0.5 of its input, and when the input lies exactly halfway between two integers it is the even one |
| `Scoring.Round2` | app.py:24 | `round(x, 2)` is a whole number of hundredths within 0.005 of x; `Round2Monotone` and `Round2Bounds` state its order and range properties |
| `Scoring.Round2Monotone` | app.py:24 | rounding to two decimals never reverses the order of two values |
| `Scoring.Round2Bounds` | app.py:24 | rounding to two decimals keeps a value of [0, 100] inside [0, 100] |
| `Scoring.RawScoreBounds` | app.py:22-24 | the capped ratios weighted 50/50 and scaled give a value in [0, 100] |
| `Scoring.ScoreOfNothing` | app.py:21-24 | 0 steps and 0 calories score 0 |
| `Scoring.ScoreAtGoals` | app.py:22-24 | any steps >= 12000 with calories >= 400 scores exactly 100: no credit beyond the goals |
| `Scoring.ScoreAtHalfGoals` | app.py:20-24 | 6000 steps and 200 calories score 50 |
| `Scoring.ScoreMonotoneInSteps` | app.py:22-24 | more steps never lower the score |
| `Scoring.ScoreMonotoneInCalories` | app.py:23-24 | more calories never lower the score |
| `Text.TrimStart` | app.py:45 | the result is a suffix of the input, everything dropped is whitespace, and it does not start with whitespace |
| `Text.TrimEnd` | app.py:45 | the result is a prefix of the input, everything dropped is whitespace, and it does not end with whitespace |
| `Text.Strip` | app.py:45 | `strip()` never lengthens the name, and a non-empty result neither starts nor ends with whitespace; `StripIsMiddle` and `StripEmptyIffAllSpace` state what it removes |
| `Text.StripIsMiddle` | app.py:45 | `strip()` returns a slice of the name with only whitespace before and after it |
| `Text.StripEmptyIffAllSpace` | app.py:45 | the stripped name is empty exactly when the name is all whitespace |
| `Text.Title` | app.py:47 | `title()` keeps the length; each character is upper-cased when the character before it is not a letter (or it is the first) and lower-cased otherwise; `TitleKeepsNonLetters` and `TitleIdempotent` state the consequences |
| `Text.TitleKeepsNonLetters` | app.py:47 | `title()` changes only letters and keeps them letters |
| `Text.TitleIdempotent` | app.py:47 | title-casing twice equals title-casing once |
| `Text.TitleOfStripped` | app.py:45-47 | the stored name (stripped, then title-cased) is non-empty and has no surrounding whitespace |
| `Entries.Select` | app.py:76-77 | the rows selected for a (name, date) are exactly the table's rows with that key |
| `Entries.Without` | app.py:75-78 | the filtered table holds exactly the rows whose key differs from the removed one |
| `Entries.SelectWithout` | app.py:75-78 | after the filter no row of the removed key is left, and every other key's rows are unchanged, in order |
| `Entries.WithoutIsSubseq` | app.py:75-78 | the filter keeps table order and drops exactly the rows of the removed key |
| `Entries.Upsert` | app.py:75-80 | after a submission exactly one row has the submitted (name, date): the submitted row, which is last; every other (name, date) selects the same rows as before. `UpsertKeepsOthers`, `UpsertIdempotent` and `UpsertKeepsUniqueKeys` state the rest |
| `Entries.UpsertKeepsOthers` | app.py:75-80 | the rows before the appended one keep the old table's relative order, and the table changes length only by the removed rows of the key plus the one appended row |
| `Entries.UpsertIdempotent` | app.py:75-80 | submitting the same row twice gives the same table as submitting it once |
| `Entries.UpsertKeepsUniqueKeys` | app.py:74-80 | if the table had at most one row per (name, date) before a submission, it still does after |
| `Entries.Latest` | app.py:93 | None exactly when the user has no row; otherwise a row of the user whose date is the greatest among the user's rows |
| `Entries.LatestIsDetermined` | app.py:93 | with one row per (name, date), the latest entry is the user's unique row with the greatest date |
| `Leaderboard.NameSet` | app.py:86 | the set of names that occur in the table |
| `Leaderboard.NamesOf` | app.py:86 | the grouping keys: every name of the table, each once |
| `Leaderboard.Means` | app.py:86 | `groupby("Name")["Score"].mean()` has exactly one row for each name of the table and none other, each carrying the mean of that name's scores |
| `Leaderboard.MeanRows` | app.py:86 | each grouped name is paired with the arithmetic mean of its scores |
| `Leaderboard.InsertPermutes` | app.py:86 | inserting a row into the ranking adds exactly that row |
| `Leaderboard.InsertSorted` | app.py:86 | inserting into a ranking ordered by mean keeps it ordered |
| `Leaderboard.SortDesc` | app.py:86 | `sort_values(ascending=False)` yields a permutation of its input in non-increasing order of mean |
| `Leaderboard.Board` | app.py:85-86 | the leaderboard is a permutation of the per-name means in non-increasing order of mean; `BoardSpec` adds the per-name and emptiness facts |
| `Leaderboard.BoardSpec` | app.py:85-86 | the leaderboard is a non-increasing permutation of the per-name means, with exactly one row per name in the table, each the mean of that name's scores; it is empty exactly when the table is |
| `Leaderboard.MeanBounds` | app.py:86 | with every score in [0, 100], each mean lies in [0, 100] |
| `Leaderboard.Highlight` | app.py:26-34 | a name is gold exactly when it is the first row's name, and gets no colour exactly when none of the first three rows carries it; `HighlightIff` and `HighlightByRank` give silver and bronze on a board with distinct names |
| `Leaderboard.RankMedal` | app.py:26-34 | positions 0, 1 and 2 have a colour and no later position has one |
| `Leaderboard.HighlightByRank` | app.py:26-34 | on a board with distinct names, the rows at positions 0, 1, 2 get gold, silver, bronze, each a distinct colour, and all later rows get none |
| `Leaderboard.HighlightIff` | app.py:26-34 | on a board with distinct names, a row is gold, silver or bronze exactly when its name is at position 0, 1 or 2; otherwise it is uncoloured |
| `Leaderboard.BoardHighlight` | app.py:86-87 | tagging the leaderboard of a non-empty table colours its rows by rank |
| `App.Session.constructor` | app.py:10-17 | a new session is logged out with an empty name and an empty table |
| `App.Session.Login` | app.py:44-51 | login succeeds exactly when the code is "NOV2025" and the name is not all whitespace. On success the session is logged in under the stripped, title-cased (non-empty) name. On failure nothing changes. The table is untouched and the invariant holds |
| `App.Session.Submit` | app.py:65-80 | the table becomes the old table without the (session name, today) rows, then the new row with the submitted values and their score. The session stays logged in under the same name, and the invariant (one row per key, all rows the user's, scores in [0, 100]) is kept |
| `App.Session.ShownBoard` | app.py:85-89 | the leaderboard is shown exactly when the table is non-empty. It is then the leaderboard of the table: one row, the session user with their mean score in [0, 100] |
| `App.Session.Progress` | app.py:92-93 | the progress row exists exactly when the table is non-empty. It is then the user's row with the greatest date |
| `App.LoginNameExample` | app.py:45-47 | the name "  alice  " is not blank and is stored as "Alice" |

## Left out

- Streamlit calls are not modelled: page setup, titles, inputs, buttons,
  messages, `experimental_rerun`, `stop`, progress bars and the caption.
  They are presentation only. The page flow survives as preconditions:
  `Login` requires a logged-out session, because the login form is only
  shown then. `Submit` requires a logged-in session, because `st.stop()`
  ends the page before the entry form otherwise.
- pandas internals are not modelled: DataFrame construction, index
  handling in `concat`, and `style.apply`. The table is a sequence of
  entries.
- `highlight_top3` returns one CSS string per cell (`[...] * len(row)`).
  The model returns a single `Medal` per row.
- `date.today()` is a clock read. The day is a parameter of `Submit`.
- The entry form's input ranges (0..50000 steps, 0..2000 calories) are
  enforced by the UI. They appear only as preconditions of `Submit`.
- The progress-bar fractions (app.py:95, 97) are display-only and not
  modelled.
- Unicode behaviour of `strip()` and `title()` beyond ASCII is not
  modelled. Non-ASCII characters are treated as non-whitespace and
  uncased.
- The order `groupby` gives names before sorting is not modelled, nor the
  sort algorithm pandas uses. Only the order of means is specified.
- Scoring.Score: the arithmetic is exact real arithmetic, not binary
  floating point. The quotients and the rounding in
  `round(..., 2)` can differ from CPython in the last digit where a
  decimal tie is not exactly representable as a float.
- Leaderboard.MeanRows: the mean is the exact real mean, not pandas'
  floating-point accumulation.
