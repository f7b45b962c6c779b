# Fútbol Conectado, modelled in Dafny

*Fútbol Conectado* is a Streamlit page with two football games, both built on
answers from the Wikidata SPARQL endpoint.

- **World Cup quiz.** A tournament is drawn from a fixed table of ten World Cups. One query asks for its winner and a second, batched query asks for the winners of the other nine. The player picks the winner from two to four shuffled options, and may retry after a wrong pick.
- **"Which player played for both clubs?"** Two distinct clubs are drawn from a table of eleven. A query lists the players they share, and the result rows are folded into one record per player: an image, plus start year, end year, matches and goals at each club. The player types a name, which is accepted by a case-insensitive, whitespace-trimmed, two-way substring test against the candidate names, in dictionary order.

The model covers these parts of `app.py`:

- the two display formatters;
- the answer check;
- the row fold, together with the search that runs it;
- the three query builders;
- question generation;
- the session-state changes behind the buttons of both games.

It is organised in modules that follow the program:

| module | file | what it holds |
|---|---|---|
| `Wrappers` | wrappers.dfy | `Option`; Python truthiness of an optional string |
| `Text` | text.dfy | `str.strip`, `str.lower`, `a in b`, `join`, `split` |
| `Format` | format.dfy | `formatear_periodo`, `formatear_estadisticas` and readers that invert them |
| `Matching` | matching.dfy | `validar_respuesta_jugador` |
| `Bindings` | bindings.dfy | the per-player records; the row fold as a function (`Fold`) and as the loop itself (`FoldRows`) |
| `Queries` | queries.dfy | the tournament and club tables; the champion, distractor and player query texts |
| `Quiz` | quiz.dfy | `generar_nueva_pregunta` and the quiz session state (`class QuizGame`) |
| `PlayerGame` | playergame.dfy | `buscar_jugadores_en_ambos_clubes` and the player-game session state (`class PlayerGame`) |

How the model treats the outside world:

- **Endpoint.** It is a parameter of type `string -> Option<seq<Row>>`. A failed call (`run_query` returning `None`) is `None`, and a row is a map from each bound variable to its value.
- **Random draws.**
  - `random.choice` of a tournament and `random.sample` of two clubs become parameters. The tournament is a position `k` of the tournament table, whose year is shown and whose identifier is queried; the clubs are two distinct positions of the club table.
  - `random.sample` of the distractors and `random.shuffle` of the options are nondeterministic choices. `ComposeOptions` proves about every possible outcome.
- **Dictionary order.** The players dictionary keeps its insertion order as `Table.names`, because the answer check scans the keys in that order.

Two behaviours of the code are worth knowing:

- **The fold overwrites.** Every later row that binds a variable overwrites that field, and an empty start or end value resets the year to `None`, so the result depends on row order. `FoldLastWins` proves the last-setter rule, and `FoldDependsOnOrder` exhibits two orders of the same rows with different results.
- **Options can repeat.** Only the correct answer is removed from the distractors, so nothing but the endpoint's `DISTINCT` prevents repeated options. `AdmissibleDistinct` proves distinct options for distinct labels, and `RepeatedLabelsRepeatOptions` exhibits a repeated option otherwise.

## Model

| member | source | states |
|---|---|---|
| Text.Strip | app.py:422 | `strip` cuts only whitespace, and only from the two ends, down to a text neither end of which is whitespace; the result is empty exactly when the input is all whitespace |
| Text.Lower | app.py:422-425 | `lower` keeps the length, maps each character by itself, and leaves no capital letter |
| Text.SubstringAt | app.py:425 | the scanning substring test holds exactly when the text occurs at some position |
| Text.SplitJoin | app.py:361 | splitting on the separator undoes `join` when no piece holds it |
| Format.FormatPeriod | app.py:343-352 | the period sentinel is shown exactly when neither year is present; `None` and `""` count as absent |
| Format.PeriodRoundTrip | app.py:343-352 | reading the shown period back gives both years, with absent ones as `None` ("start-?", "?-end", "start-end") |
| Format.FormatStats | app.py:354-361 | the statistics sentinel is shown exactly when neither figure is present |
| Format.StatsRoundTrip | app.py:354-361 | a reader that accepts only "m partidos", "g goles" and "m partidos \| g goles" recovers from the shown statistics the matches and the goals, each only when present |
| Matching.Normalize | app.py:422 | the normalised input has no capital and no whitespace at either end, and is empty exactly when the input is all whitespace |
| Matching.Matches | app.py:425 | a candidate matches exactly when the (normalised) input occurs somewhere in the lower-cased name, or the lower-cased name occurs somewhere in the input |
| Matching.FirstMatchFrom | app.py:424-428 | the scan returns the first position whose name matches in either direction, or none when no name matches |
| Matching.ValidateAnswer | app.py:417-429 | success exactly when the input is non-empty and some candidate matches the trimmed, lower-cased input; the name returned is the first match in dictionary order |
| Matching.BlankInputMatchesFirst | app.py:419-426 | all-blank input passes the emptiness test and is accepted as the first candidate |
| Matching.FirstKeyWins | app.py:424-426 | when the first candidate matches, it is the answer |
| Matching.TieBreakByOrder | app.py:424-426 | "ron" answers "Ronaldo" or "Ronaldinho" depending on which comes first |
| Matching.CaseInsensitive | app.py:422-426 | "ronaldinho" finds "Ronaldinho" |
| Matching.PartialAndTrimmed | app.py:422-426 | " gaúcho " finds "Ronaldinho Gaúcho" |
| Bindings.Year | app.py:322-325 | an empty value becomes `None`; any other value keeps its first four characters, or all of it when shorter |
| Bindings.ApplyRowField | app.py:318-339 | after one row, each of the nine fields is the row's converted value when its variable is bound, and the old value otherwise |
| Bindings.StepKeys | app.py:310-316 | one row keeps the keys distinct and one record per key, and adds exactly its own player |
| Bindings.FoldKeys | app.py:305-316 | the dictionary has distinct keys, one record per key, and a key exactly for each player labelled in some row |
| Bindings.FoldSnoc | app.py:307-339 | one more row changes only its own player; a new player is appended to the key order with every unbound field `None` |
| Bindings.FoldLastWins | app.py:318-339 | each field holds the converted value of the last row of that player that binds it, or `None` when no row does |
| Bindings.FoldDependsOnOrder | app.py:318-319 | the same two rows in the two orders give different images |
| Bindings.FoldRows | app.py:305-339 | the loop with its in-place updates builds exactly `Fold(rows)` |
| Bindings.ApplyRowInPlace | app.py:318-339 | the sequence of `if "var" in r` updates yields `ApplyRow` |
| Bindings.UpdateTenureInPlace | app.py:322-339 | the four updates for one club yield `UpdateTenure` |
| Queries.OtherIds | app.py:56 | a tournament identifier is listed exactly when it differs from the excluded one; the list is no longer than the table |
| Queries.OtherIdsCount | app.py:56 | excluding one of distinct identifiers leaves one fewer than the table |
| Queries.TournamentIdsDistinct | app.py:14-25 | the ten tournament identifiers are distinct |
| Queries.ValuesClauseLists | app.py:57 | the VALUES clause splits back into the prefixed identifiers, in order |
| Queries.ChampionQuery | app.py:44-52 | the champion query holds the tournament identifier between its fixed head and tail |
| Queries.DistractorQuery | app.py:54-66 | the distractor query's VALUES list, between its fixed head and tail, is the clause for every tournament identifier but the excluded one |
| Queries.DistractorQueryNamesOthers | app.py:54-66 | the distractor query's VALUES list names the other nine tournaments, each once, and not the drawn one |
| Queries.PlayerQuery | app.py:257-292 | both club identifiers can be read back from the player query's `wdt:P54` pattern (identifiers without ',' or '.'), and the query holds the clause `FILTER(u1 != u2)` |
| Queries.TeamIdPrefixes | app.py:206-251 | every club identifier but Borussia Dortmund's carries the "wd:" prefix |
| Queries.TeamIdsUsable | app.py:206-251 | no club identifier holds ',' or '.' |
| Quiz.Distractors | app.py:117-121 | the correct answer is never a distractor, and there are no more distractors than labels |
| Quiz.DistractorsKeepOthers | app.py:117-121 | every label other than the correct answer is kept as often as it occurs |
| Quiz.Pool | app.py:107-126 | a question can be built exactly when the champion result has a row, the distractor result has rows, and some label differs from the answer; the answer is the first champion row's label, and the pool is every distractor label but the answer, in order |
| Quiz.ComposeOptions | app.py:124-130 | the options are `min(3, n)` sampled distractors plus the correct answer, shuffled: the correct answer appears once, the rest are distractors |
| Quiz.AdmissibleShape | app.py:124-130 | every possible option list has two to four entries, the answer once, and no distractor more often than it was labelled |
| Quiz.AdmissibleDistinct | app.py:60-61 | with distinct labels, which the query's DISTINCT asks for, the options are distinct |
| Quiz.RepeatedLabelsRepeatOptions | app.py:118-130 | repeated labels can yield a repeated option |
| Quiz.QuizGame.constructor | app.py:91-98 | the initial quiz state: no options, nothing generated or answered |
| Quiz.QuizGame.Generate | app.py:100-142 | for the k-th tournament of the table: success exactly when a question can be built from its two query results; then the new options (an admissible draw from the pool), answer and the tournament's year replace the old question, which is unanswered; on failure nothing changes |
| Quiz.QuizGame.Install | app.py:133-139 | the stored question replaces every quiz field |
| Quiz.QuizGame.EnsureQuestion | app.py:152-155 | when no question has been generated, the new state is that of a question generation for the k-th tournament; otherwise nothing changes |
| Quiz.QuizGame.Answer | app.py:157-176 | unless already solved, the chosen option is recorded and the question counts as solved exactly when the choice is the correct answer; the question is unchanged |
| Quiz.QuizGame.Retry | app.py:179-193 | after a wrong answer the answer is cleared and the question kept; otherwise nothing changes |
| PlayerGame.Shared | app.py:305-339 | the players dictionary is a well-formed table with a key exactly for each player label in the result; it is empty for a failed or empty result |
| PlayerGame.SharedPlayers | app.py:294-341 | the drawn clubs' names and infos, and the fold of the player query's rows for their identifiers |
| PlayerGame.Others | app.py:522 | the other players are exactly the candidates other than the one found |
| PlayerGame.OthersCount | app.py:522-524 | one player fewer than the candidates is listed as "other players" |
| PlayerGame.PlayerGame.constructor | app.py:431-439 | the initial state: no clubs, no candidates, no attempts |
| PlayerGame.PlayerGame.NewPair | app.py:441-451 | the new clubs and their shared players replace the old ones; found, attempts and solved start over |
| PlayerGame.PlayerGame.EnsurePair | app.py:454-456 | while a club is unset, the drawn clubs, their infos and their shared players replace the old pair and the round starts over; otherwise nothing changes |
| PlayerGame.PlayerGame.Verify | app.py:459-510 | while no pair is shown, once solved, or for empty input, nothing changes; otherwise the attempt is counted, and a matching name is recorded as the one found and solves the round; the invariant keeps the found player among the candidates |

## Left out

- `run_query`: network I/O and the JSON decoding. The endpoint is a parameter, and its error message is not modelled.
- What the SPARQL queries return. Only their text is modelled; the rows are whatever the endpoint parameter gives.
- Streamlit rendering, spinners, `st.rerun`, the expander, the status messages (lines 527-542) and `mostrar_info_jugador` (lines 363-415). These are display only; the formatters they call are modelled.
- The "consult champion" button (lines 68-83) and the storytelling tabs (lines 556 onwards). They only display query results.
- Randomness. The draws are parameters or nondeterministic choices, so no probability is modelled.
- Text.Lower: maps ASCII and Latin-1 capitals only, not the full Unicode `str.lower`.
- Text.Strip: whitespace is the fixed `str.isspace` set for code points, with no Unicode database behind it.
- Quiz.QuizGame.Generate: requires `winnerLabel` in the first champion row and, when there is one, in every distractor row, because a missing label raises `KeyError` in the source. The exception path is not modelled.
- Quiz.QuizGame.EnsureQuestion: carries the same `winnerLabel` requires as `Generate`, because it calls it; the `KeyError` path of the first-load generation is not modelled either.
- PlayerGame.SharedPlayers: requires `jugadorLabel` in every row, because a missing label raises `KeyError` in the source.
- Quiz.QuizGame.Answer: requires the response to be one of the options, which is all the radio widget can give.
- PlayerGame.PlayerGame.constructor: the initial `jugadores_en_comun` is an empty list and `club1_info` is an empty dict. The model writes them as an empty table and `None`, and every reader treats them alike.
- Aliasing. The nested per-player dictionaries are values in the model; the source never shares them.
- Borussia Dortmund's identifier lacks the "wd:" prefix in the club table. The model keeps the table as written (`TeamIdPrefixes`) and does not model what the endpoint does with the resulting query.
