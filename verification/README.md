# Reference-back trial sequences

A model of how the reference-back working-memory experiment (`exp.py`)
builds its blocks of trials. It covers five steps:

- It draws a stream of stimuli ("X" is 0, "O" is 1).
- It searches for a stream of reference flags whose proportion of equal
  adjacent flags is close to a wanted proportion (`create_ref_stream`).
- It labels every trial with the stimulus held in memory and with whether
  the trial shows that stimulus (`parse_ref_back_block`).
- It zips the columns into a table (`create_block_dataframe`) and numbers
  the rows (`RefBackExp.create_trials`).
- For each trial it derives the trigger code sent to the recording device
  and the set of correct answers (`RefBackExp.show_trial`).

The project has six modules:

- `Wrappers` holds `Option`, `Result` and the error cases.
- `Rounding` holds exact rationals and numpy's round-half-to-even.
- `Interpreter` is the memory register of `parse_ref_back_block`.
- `RefStream` is the search of `create_ref_stream`, written as a fold over
  the candidate draws.
- `Trials` covers block generation, the table and the numbering.
- `TrialCodes` covers trigger codes and correct responses.

Randomness is an input. A block's draws are the stimulus stream, the initial
reference draw and the list of candidate reference draws, consumed in
order. The wanted proportion `p` is an exact rational. Every proportion the
search compares is a count of equal adjacent pairs over a common number of
pairs, so the floating-point tests `diff < current_diff` and
`current_prop == closest_possible` become comparisons of integers.
`CloserIffSmallerDistance` and `HitsIffRateIsClosest` prove that the
integer tests agree with the real-number ones.

In four places the code does not do what its parameters say. Each is modelled
twice: once as written (`...AsWritten` members) and once corrected
(`CreateRefStream`, `GenerateBlock`, `CreateTrials`), and the corrected
version is the one the rest of the model uses:

- Draws always have 60 flags, whatever `n_trials` is.
- At most 10000 candidates are examined, whatever `n_rep` is.
- The initial draw is not forced to start with a reference.
- `n_trials = 1` divides by zero.

The corrected search also rejects a proportion outside [0, 1] and an empty
search budget. The first three are listed under "Findings". Three of the
four are latent in the experiment itself: `create_block_dataframe` calls
`generate_ref_back_block` with its defaults (60 trials, 3/4, 10000), so
only the unforced initial draw can occur in a session
(`Trials.UnforcedInitialBreaksBlock`). The other three show only when the
functions are called with other parameters.

Notes on behaviour that may surprise a reader:

- A reference trial is compared with the memory held *before* it loads its
  own stimulus. For stimuli 0, 1, 1, 0 with references on trials 0 and 2,
  no trial is "same", and the remembered stimuli are 0, 0, 0, 1
  (`Interpreter.WorkedBlock`).
- If `p * (n - 1)` lies exactly half-way between two counts, the two
  proportions are equally close to `p`. The search can then keep a stream on
  the other side of the rounded target and never stop early, even though a
  candidate reaches the target (`RefStream.TieCanMissTarget`).
- The rule that any answer is correct keys on the trial number 1, not on
  the first row of a block. A block numbered from a later start expects
  "no" on its first trial (`TrialCodes.FirstTrialOfLaterBlock`).

## Model

| member | source | states |
|---|---|---|
| `Interpreter.Scan` | exp.py:200-205 | The loop over the zipped streams gives one label per remaining trial. Each trial is "same" exactly when it shows the memory held before it. The memory moves to a trial's stimulus after a reference trial and stays put otherwise. |
| `Interpreter.Parse` | exp.py:194-207 | Fails exactly when the reference stream is empty, its first flag is false, or there is no first stimulus, each with its own error. Otherwise the labels meet the step equations: one label per zipped trial, trial 0 remembers its own stimulus and is not "same", and later trials compare with the memory from before their own update. |
| `Interpreter.LastReference` | exp.py:204-205 | The index of the last reference trial strictly before trial `i`: no trial between it and `i` is a reference, and it is a reference whenever the first trial is one. |
| `Interpreter.InMemIsLastReference` | exp.py:196-205 | Closed form: the remembered stimulus of trial `i` is the stimulus of the last reference trial before `i`, or of trial 0. A later trial is "same" exactly when it shows that stimulus. |
| `Interpreter.LabelsFollowLastReference` | exp.py:196-205 | The closed form for every trial at once. |
| `Interpreter.RememberedIsEarlierReference` | exp.py:195-205 | When the first trial is a reference, every remembered value is a stimulus shown on an earlier reference trial, or on trial 0. |
| `Interpreter.SolutionsAgree` | exp.py:196-205 | Two labellings that satisfy the step equations are equal. |
| `Interpreter.StepEquationsDetermineLabels` | exp.py:194-207 | Any labelling that satisfies the step equations is what the interpreter returns, so the equations describe it completely. |
| `Interpreter.WorkedBlock` | exp.py:194-207 | Stimuli 0, 1, 1, 0 with references on trials 0 and 2 give memories 0, 0, 0, 1 and no "same" trial. |
| `Rounding.RoundHalfEven` | exp.py:176 | numpy's rounding of `q / b`: the result is within half a unit of `q / b`, and an exact half goes to the even integer. |
| `Rounding.RoundIsNearest` | exp.py:176 | No integer is closer to `q / b` than the rounded value. |
| `Rounding.RoundIsUniqueNearest` | exp.py:176 | Away from a half-way tie, an integer as close to `q / b` as the rounded value is the rounded value. |
| `Rounding.RoundExact` | exp.py:176 | Rounding a whole number returns it. |
| `Rounding.RoundBetween` | exp.py:176 | Rounding a value that lies between two integers stays between them. |
| `RefStream.EqualPairs` | exp.py:172 | The number of equal adjacent pairs is at most the number of pairs. |
| `RefStream.EqualPairsAppend` | exp.py:172 | Joining two streams adds their counts, plus one if the pair across the seam is equal. |
| `RefStream.WithEqualPairs` | exp.py:172 | For any count `e < n` there is a stream of `n` flags that starts with a reference and has exactly `e` equal pairs. |
| `RefStream.ClosestPossible` | exp.py:175-177 | `closest_possible` has `n - 1` as its denominator and is defined only for `n >= 2`. It lies in [0, 1] when `p` does. |
| `RefStream.TargetPairsInRange` | exp.py:175-176 | For `p` in [0, 1], the target count `round(p * (n - 1))` is between 0 and `n - 1`. |
| `RefStream.ClosestPossibleIsNearest` | exp.py:175-177 | No count of equal pairs over `n - 1` pairs is closer to `p` than `closest_possible`. |
| `RefStream.HitsIffTargetPairs` | exp.py:176-177 | A draw of `n` flags has proportion `closest_possible` exactly when its count of equal pairs is the rounded target. |
| `RefStream.HitsIffRateIsClosest` | exp.py:172-177 | The cross-multiplied integer test is the same as the exact comparison `current_prop == closest_possible`. |
| `RefStream.DistanceIsScaledGap` | exp.py:172-173 | The integer distance is the gap between `p` and the proportion, times a positive scale shared by all draws of one length. |
| `RefStream.CloserIffSmallerDistance` | exp.py:183-184 | Among draws of one length, a smaller integer distance is exactly a smaller gap between `p` and the proportion, which is the `diff < current_diff` test. |
| `RefStream.TargetIsReachable` | exp.py:175-177 | For `p` in [0, 1], some stream of `n` flags starting with a reference has proportion `closest_possible`. |
| `RefStream.HitsAreClosest` | exp.py:172-177 | A draw whose proportion is `closest_possible` is at least as close to `p` as any other draw of the same length. |
| `RefStream.Forced` | exp.py:181 | Forcing keeps the length, sets the first flag to a reference and leaves every other flag alone. |
| `RefStream.Fold` | exp.py:179-191 | The search loop. It stops early exactly when it accepts a candidate whose proportion is the target. Otherwise it examines every candidate. The result is the initial draw or an accepted forced candidate; an accepted one is strictly closer to `p` than the initial draw, and the result is never farther. |
| `RefStream.FoldBeatsEarlier` | exp.py:171-187 | Every candidate examined before the one the result came from is strictly farther from `p` than the result, so ties keep the earliest stream. |
| `RefStream.FoldNoCloserExamined` | exp.py:171-187 | No examined candidate is closer to `p` than the result, so the result is a closest stream among the initial draw and the examined candidates. |
| `RefStream.CreateRefStreamAsWritten` | exp.py:170-191 | The search as written: `n = 1` fails with a division by zero. Otherwise the stream has 60 flags, at most 10000 candidates are examined, the initial draw comes back unchanged if nothing beats it, and an accepted candidate starts with a reference. |
| `RefStream.CreateRefStream` | exp.py:170-191 | The corrected search: it fails exactly when `n < 2`, `p` is outside [0, 1] or `n_rep` is 0, each with its own error. Otherwise it returns `n` flags starting with a reference, after examining at most `n_rep` candidates, and at least one when any is supplied. |
| `RefStream.ReachableTargetIsFound` | exp.py:176-190 | Away from a tie, if an examined candidate reaches the target, the returned stream has proportion `closest_possible`. |
| `RefStream.FoldFindsReachableTarget` | exp.py:179-190 | The same for the loop alone, starting from any incumbent. |
| `RefStream.BestCountIsTarget` | exp.py:176-189 | Away from a tie, a draw no farther from `p` than one that hits the target also hits it. |
| `RefStream.TieCanMissTarget` | exp.py:176-190 | On a tie (three trials, `p = 1/4`), an examined candidate reaches the target but the returned stream does not. |
| `RefStream.AllSameTargetFound` | exp.py:170-190 | With four trials, `p = 1` and a first candidate of all references, the returned stream has proportion 1. |
| `RefStream.NoDrawMatchesThreeQuarters` | exp.py:171-176 | No 60-flag draw has a proportion of exactly 3/4. |
| `RefStream.UnforcedInitialIsReturned` | exp.py:171-191 | With the default 60 trials and `p = 3/4`, an initial draw with 44 equal pairs that starts with a non-reference is returned as it is, whatever the candidates. |
| `RefStream.AsWrittenIgnoresTrialCount` | exp.py:170-180 | `create_ref_stream` asked for 4 trials returns a stream of 60 flags. |
| `RefStream.NoTiesAtThreeQuarters` | exp.py:172-184 | With `p = 3/4` and 60 flags, two draws equally far from `p` have the same count of equal pairs, so the search never meets an exact tie between different proportions. |
| `RefStream.AsWrittenExaminesBoth` | exp.py:179-190 | As written, a losing first candidate and a winning second one are both examined, whatever `n_rep` is. |
| `RefStream.AsWrittenIgnoresRepetitions` | exp.py:179 | With `n_rep = 1`, the search as written still examines two candidates. |
| `RefStream.CorrectedExaminesOne` | exp.py:170-179 | With `n_rep = 1`, the corrected search returns the forced initial draw when the first candidate does not beat it. |
| `RefStream.CorrectedHonoursRepetitions` | exp.py:170-179 | With `n_rep = 1`, the corrected search never sees the second candidate, which would have hit the target. |
| `Trials.GenerateBlock` | exp.py:163-167 | Fails exactly when the configuration is invalid: fewer than two trials, a proportion outside [0, 1] or an empty search budget. Otherwise it returns the drawn stimuli and a reference stream of `n` flags that starts with a reference. |
| `Trials.GenerateBlockAsWritten` | exp.py:163-167 | As written, it fails only for `n = 1`, and its reference stream has 60 flags. |
| `Trials.BlockTable` | exp.py:210-217 | The table fails exactly when the interpreter fails, passing on its error, or when the columns differ in length. Otherwise every row carries its stimulus and reference flag, the stimulus of the last reference trial before it, and "same" exactly when it is not the first row and shows that stimulus. |
| `Trials.TableDeterminedByStreams` | exp.py:210-217 | Any table that follows that rule for two streams is the table built from them. |
| `Trials.NumberTrials` | exp.py:94-96 | Row `i` gets trial number `start + i` and the block number, and keeps its contents and order. |
| `Trials.NumberingConcatenates` | exp.py:94-96 | Numbering two lists of rows one after the other, the second starting where the first stopped, is the same as numbering them joined. |
| `Trials.TrialNumbersContiguous` | exp.py:95-96 | Trial numbers are contiguous and strictly increasing. |
| `Trials.NumberedBlockTable` | exp.py:93-96 | Numbering the table built from two streams gives rows numbered from `start`, tagged with the block, whose stimulus, reference, remembered stimulus and "same" columns follow the memory rule over those streams. |
| `Trials.CreateTrials` | exp.py:91-100 | One block with its parameters honoured. It fails exactly when the configuration is invalid, with the generator's error. Otherwise it has `n` rows and the first is a reference. Row `i` is trial `start + i` of the block, shows stimulus `i` of the draw, carries the generated reference flag, remembers the stimulus of the last reference trial before it, and is "same" exactly when it is not the first row and shows that stimulus. |
| `Trials.CreateTrialsAsWritten` | exp.py:91-100 | The block as exp.py builds it, from `generate_ref_back_block` with its default of 60 trials. It fails, on the interpreter's assertion, exactly when the searched reference stream starts with a non-reference. Otherwise it has 60 rows that follow the same numbering and memory rule. |
| `Trials.UnforcedInitialBreaksBlock` | exp.py:171-195 | With the experiment's own parameters, an unforced initial draw that nothing beats makes the block fail on the interpreter's assertion. |
| `Trials.AsWrittenBlockIgnoresTrialCount` | exp.py:163-165 | `generate_ref_back_block` asked for 4 trials returns 60 stimuli and 60 reference flags, and a table built from them has 60 rows. |
| `TrialCodes.TriggerCode` | exp.py:120 | The code is in 10..13, it is at least 12 exactly for reference trials, and its parity is the stimulus. |
| `TrialCodes.DecodeTrigger` | exp.py:120 | The receiving side reads back a pair exactly for codes 10..13. |
| `TrialCodes.TriggerRoundTrip` | exp.py:120 | Decoding a trigger code gives back the stimulus and the reference flag. |
| `TrialCodes.DecodedTriggerRoundTrip` | exp.py:120 | Every code that decodes is the code of what it decodes to. |
| `TrialCodes.BlockTriggersDecode` | exp.py:115-120 | For every row of a generated block, the trigger code decodes to that trial's drawn stimulus and generated reference flag. |
| `TrialCodes.TriggerInjective` | exp.py:120 | Different (stimulus, reference) pairs get different codes. |
| `TrialCodes.AcceptedResponses` | exp.py:145-148 | "yes" is correct exactly on trial number 1 or a "same" trial, and "no" exactly on trial number 1 or a trial that is not "same". |
| `TrialCodes.ResponsesFollowMemory` | exp.py:145-148 | In a block numbered from 1, the first trial accepts either answer. Every later trial accepts only "yes" when it shows the stimulus of the last reference trial before it, and only "no" otherwise. |
| `TrialCodes.FirstTrialOfLaterBlock` | exp.py:145-148 | In a block numbered from a start above 1, the first trial accepts only "no". |

## Left out

- Display, timing, response collection, feedback and the quit key in
  `show_trial`, and `create_stimuli`: these are screen and device I/O built
  on helper libraries that are not part of this model. Only the trigger code
  and the set of correct answers are modelled.
- `run.py`: it only orchestrates the session (paths, dialogs, the window and
  break screens).
- The random number generator: every draw is a caller-supplied sequence.
- Floating point: `p` is an exact rational, and proportions are compared
  exactly. The experiment's own case, `p = 3/4` with 60 flags, behaves the
  same in floats: no two counts of equal pairs are equally far from 3/4
  (`RefStream.NoTiesAtThreeQuarters`), so every float comparison agrees with
  the exact one. For other `p`, even ones a float holds exactly, two
  proportions can be exactly as far from `p` while their float distances
  differ. With `p = 1/2` and 59 pairs, 28/59 and 31/59 tie exactly, but in
  floats the first is slightly closer. The source can then replace an
  incumbent on such a tie, where the model keeps it, so "ties keep the
  earliest stream" (`RefStream.FoldBeatsEarlier`) holds in exact arithmetic
  only. The rounding of `p * (n - 1)` in floats can also differ from the
  exact rounding when `p` is not held exactly.
- The column reordering at exp.py:97-98 and the other DataFrame mechanics:
  the table is a sequence of records with named fields.
- `RefStream.CreateRefStreamAsWritten`: for `n_trials <= 0` it does not
  model numpy's behaviour beyond the integer arithmetic (a negative number of
  pairs).
- `RefStream.CreateRefStreamAsWritten`: its contract does not restate the
  loop. The loop's properties are stated once, on `RefStream.Fold` and its lemmas, which
  the function calls on the first 10000 candidates and the unforced initial
  draw.
- `RefStream.CreateRefStream`: the same holds for the corrected search, which
  calls `RefStream.Fold` on the first `n_rep` candidates and the forced
  initial draw.
- The fields `examined`, `origin` and `early` of a search result are
  observations added to the model. The source returns only the stream.
- `create_block_dataframe` always calls the generator with its defaults.
  `Trials.CreateTrialsAsWritten` does the same. `Trials.CreateTrials` takes
  the configuration as a parameter, and `Trials.SourceConfig` holds the
  defaults (60 trials, 3/4, 10000).

## Findings

| source | as written | input that shows it | evidently intended | confidence | as-written member | corrected member |
|---|---|---|---|---|---|---|
| exp.py:171 | The initial draw is not forced to start with a reference. If no candidate strictly beats it, it is returned as drawn. | 60 trials with `p = 3/4` and an initial draw of 45 non-references followed by 15 alternating flags starting with a reference. It has 44 equal pairs, which no draw can beat. `parse_ref_back_block` then fails its assertion. | Force the first flag of the initial draw too, as exp.py:181 does for every candidate. | not executed | `RefStream.UnforcedInitialIsReturned` | `RefStream.CreateRefStream` |
| exp.py:165 | Both draws of `generate_ref_back_block` have 60 flags, whatever `n_trials` is. The experiment always passes the default 60, so this is latent. | `generate_ref_back_block(n_trials=4)` returns 60 stimuli and 60 flags, and a table built from them has 60 rows. | Draw `n_trials` flags. | not executed | `Trials.AsWrittenBlockIgnoresTrialCount` | `Trials.GenerateBlock` |
| exp.py:179 | The loop runs 10000 times, whatever `n_rep` is. No caller passes `n_rep`, so this is latent. | `n_rep = 1`, `p = 1`, an alternating initial draw, then an alternating candidate and an all-reference candidate. Two candidates are examined and the second is returned. | Run the loop `n_rep` times. | not executed | `RefStream.AsWrittenIgnoresRepetitions` | `RefStream.CorrectedHonoursRepetitions` |
