# Acro Party game core in Dafny

This project models the game state of Acro Party, a Discord party game.

- Each round draws a random acronym of 3 to 6 uppercase letters.
- Players submit a phrase whose words start with those letters. Each accepted phrase gets an image and a random 8-character id.
- Players then vote for other players' phrases by id.
- The game keeps the roster of players and the rounds played so far. A command handler tells the game loop through a queue that a player has submitted or voted. The loop drains one entry per player.

The core appears twice in the repository with the same code: `game.py` and its inlined copy in `main.py`. The inlined copy is at lines 25-78 (`Game`), 92-143 (`Round`), 146-174 (`Submission`) and 203-204 (`gen_acro`). The table cites `game.py`. Each `game.py` line maps to `main.py` by fixed offsets:

| part of `game.py` | add to get the `main.py` line |
|---|---|
| 16-69 | +9 |
| 72-154 | +20 |
| 157-158 | +46 |

Modules, smallest first:

- `Wrappers`: `Option`, `Result` and `Outcome`. `Outcome` stands for an operation that either completes or raises.
- `Domain`: players (compared by user id), image bytes, and the errors the core can raise. It also holds what one call of the image service can produce: an image, nothing, or an exception.
- `Text`: the Python string operations the acronym test uses:
  - `str.strip()`, over Python's whitespace set;
  - `str.split(" ")`, which keeps empty pieces;
  - `" ".join`;
  - `str.upper()` on ASCII.
- `Acronym`: `gen_acro`, and the initials test of `Round.add_submission`. An empty word, where `word[0]` raises `IndexError`, is its own failure. It is not reported as a mismatch.
- `Submissions`: the `Submission` record, its voter list and `add_vote`, plus the id draw of `Submission.gen_img`.
- `Tally`: one round's submissions as a sequence, with the functions that state what `add_vote`, `num_votes` and `all_voter_user_ids` compute. It also holds the round invariant: no repeat voter, and no self-vote. The lemmas prove that any history of submissions and votes keeps this invariant.
- `Rounds`: the `Round` class. Its `submissions` field is reassigned by `add_submission` and by the search loop of `add_vote`. Both methods are proved against `Tally`.
- `Games`: the `Game` class, with the roster, the rounds and the two queues. Each queue is a sequence: `put` appends and `get` takes from the front.

Outside inputs appear as parameters:

- Randomness: the draws of `random.randint`, `random.choice` and `random.choices` are parameters, constrained to the values Python could return.
- The image service: a `RenderOutcome` parameter.

## Model

| member | source | states |
|---|---|---|
| Acronym.GenAcro | game.py:157-158 | `gen_acro(low, hi)` fails (ValueError) exactly when `hi < low`. Otherwise it returns only uppercase ASCII letters, and for `low >= 0` the length lies in `[low, hi]`. |
| Acronym.GenAcroCovers | game.py:157-158 | Every uppercase string with length in `[low, hi]` is a possible result of `gen_acro(low, hi)` for some draw. |
| Acronym.InitialsMeaning | game.py:89 | Taking `word[0]` of every word fails exactly when some word is empty. Otherwise it yields each word's first character, in order. |
| Acronym.CheckAcroMeaning | game.py:89-90 | About `CheckAcro`: the initials test fails with an empty word exactly when a piece of `text.strip().split(" ")` is empty. It passes exactly when there are as many words as letters and each word's upper-cased initial is the matching letter. Every other case is a mismatch. |
| Acronym.AcceptsJoinedWords | game.py:89-90 | For non-empty, whitespace-free words joined by single spaces, the words come back from the split. Such a phrase passes exactly when its upper-cased initials spell the acronym. |
| Acronym.BlankIsEmptyWord | game.py:89 | Empty or all-whitespace text raises the empty-word error, never a mismatch. |
| Acronym.DoubleSpaceIsEmptyWord | game.py:89 | Two consecutive spaces inside the stripped text raise the empty-word error, never a mismatch. |
| Text.TrimStartMeaning | game.py:89 | `lstrip` keeps the longest suffix that does not start with whitespace. Everything it cut is whitespace. |
| Text.TrimEndMeaning | game.py:89 | `rstrip` keeps the longest prefix that does not end with whitespace. Everything it cut is whitespace. |
| Text.StripMeaning | game.py:89 | `strip` returns the slice between the leading and the trailing whitespace. That slice neither starts nor ends with whitespace. |
| Text.StripFacts | game.py:89 | `strip` is idempotent. It yields "" exactly for all-whitespace text. |
| Text.Split | game.py:89 | `split(" ")` yields at least one piece, and no piece contains a space. |
| Text.JoinSplit | game.py:89 | Joining the pieces of `split(" ")` with single spaces gives the text back. |
| Text.SplitJoin | game.py:89 | Splitting the single-space join of space-free pieces gives the pieces back. |
| Text.SplitDoubleSpace | game.py:89 | A double space yields an empty piece other than the first. |
| Text.Upper | game.py:89 | `upper()` keeps the length and maps each character on its own. |
| Submissions.IdAlphabet | game.py:146 | The id alphabet is the 26 lowercase letters, then the 26 uppercase letters, then the 10 digits. |
| Submissions.GenId | game.py:146 | A generated id has exactly 8 characters, each an ASCII letter or digit. |
| Submissions.GenIdCovers | game.py:146 | Every 8-character string of ASCII letters and digits is a possible id. |
| Submissions.Submission.VoterUserIds | game.py:139-141 | `voter_user_ids` holds one id per vote, in arrival order. |
| Submissions.Submission.NumVotes | game.py:149-151 | `num_votes` equals the number of voter ids. |
| Submissions.Submission.AddVote | game.py:153-154 | `add_vote` appends the voter at the end and adds its id to `voter_user_ids`. `num_votes` rises by 1, and owner, text, image and id stay as they were. |
| Submissions.Generate | game.py:143-147 | `gen_img` fails exactly when the image service raises. Otherwise it builds a submission with this player and text, the service's image (or none), an 8-character id over the id alphabet, and no voters. |
| Tally.AllVoterIdsConcat | game.py:105-111 | About `AllVoterIds` and `TotalVotes`: the chained voter ids and the vote total of two runs of submissions are those of each run, put together. |
| Tally.AllVoterIdsMeaning | game.py:105-111 | About `AllVoterIds` and `TotalVotes`: `all_voter_user_ids` has one entry per vote, so its length is `num_votes`. An id is in it exactly when some submission lists that voter. |
| Tally.FirstWithIdMeaning | game.py:96-97 | About `FirstWithId`: the lookup of `add_vote` finds the first submission with the id. It finds nothing exactly when no submission has that id. |
| Tally.VoteOutcomeMeaning | game.py:93-103 | About `VoteOutcome`: `add_vote` checks in a fixed order. A repeat voter is refused first, whatever the id. Then an id that no submission has is refused. Then a self-vote on the first submission with the id is refused. Only a vote that passes all three lands, on that first matching submission. |
| Tally.CastVoteEffect | game.py:93-103 | About `CastVote`: a refused vote changes nothing. A vote that lands appends the voter, in arrival order, to the first submission with the id. Every other submission, and every other field of the target, is untouched. |
| Tally.ApplyVoteIds | game.py:100-101 | Appending a voter to one submission inserts its id at that submission's place in the chained ids, and raises the total by 1. |
| Tally.CastVoteStep | game.py:93-111 | One `add_vote` call keeps the round invariant: no repeat voter, and no self-vote. A vote that lands adds exactly one vote and exactly its voter's id to the voter set. A refused vote leaves the round as it was. |
| Tally.SubmitStep | game.py:88-91 | Appending a submission with no voters keeps the round invariant and changes neither the voter ids nor the vote count. |
| Tally.VotesAreDistinctVoters | game.py:105-111 | In a round that keeps the invariant, `num_votes` is the number of distinct players who voted. |
| Tally.ReplayWellFormed | game.py:88-111 | Over any interleaving of accepted submissions and `add_vote` calls, the invariant holds and `num_votes` equals the number of distinct voters. |
| Rounds.SubmitOutcomeMeaning | game.py:88-91 | About `SubmitOutcome`: `add_submission` accepts exactly when the initials pass and the image service does not raise. The acronym test runs first, so a failed test is reported whatever the service would do. |
| Rounds.Round.constructor | game.py:80-82 | `Round(acro)` starts with no submissions. |
| Rounds.Round.GenWithAcro | game.py:76-78 | `gen_with_acro` builds a fresh, empty round. Its acronym is `gen_acro(3, 6)`, so it is 3 to 6 uppercase letters. |
| Rounds.Round.NumSubmissions | game.py:84-86 | `num_submissions` is the number of submissions. |
| Rounds.Round.AllVoterUserIds | game.py:109-111 | `all_voter_user_ids` has one id per vote. It contains exactly the ids that some submission's voters hold. |
| Rounds.Round.NumVotes | game.py:105-107 | `num_votes`, the sum of the submissions' vote counts, equals the length of `all_voter_user_ids`. |
| Rounds.Round.AddSubmission | game.py:88-91 | The result is the outcome of `SubmitOutcome`. A refusal leaves `submissions` unchanged. An acceptance appends exactly one submission at the end, with this player, this text and no votes. The invariant holds and `num_votes` does not change. |
| Rounds.Round.AddVote | game.py:93-103 | The search loop returns the outcome `VoteOutcome` decides. It leaves `submissions` equal to `CastVote` of the old ones. A refusal changes nothing, and a vote that lands raises `num_votes` by 1. The invariant holds afterwards. |
| Rounds.NumVotesCountsVoters | game.py:105-111 | In a valid round `num_votes` is the number of distinct voters. |
| Games.Drain | game.py:42-46 | Taking `n` players from a queue takes them from the front in order. It reports suspension exactly when fewer than `n` are queued, and then it has emptied the queue. |
| Games.Game.constructor | game.py:17-25 | A new game has the creator as its only player, no rounds, empty queues and `is_done` false. `num_rounds` defaults to `NUM_ROUNDS`, which is 2. |
| Games.Game.CurrentRoundNo | game.py:27-29 | `current_round_no` is the number of rounds started. |
| Games.Game.CurrentRound | game.py:31-33 | `current_round` is the last round started. |
| Games.Game.AddPlayer | game.py:35-36 | `add_player` appends with no duplicate check. Earlier players and everything else are unchanged. |
| Games.Game.AddSubmission | game.py:38-40 | Before the first round there is no current round, so the call fails and the queue is unchanged. Otherwise the current round decides. The player is enqueued exactly when its `add_submission` succeeds, and the round's submissions change as `Round.add_submission` says. The roster, the rounds, the vote queue and `is_done` are unchanged. |
| Games.Game.WaitSubmissions | game.py:42-46 | `wait_submissions` yields the first `len(players)` queued players in order and leaves the rest queued. When fewer are queued, it suspends after yielding all of them. |
| Games.Game.AddVote | game.py:48-50 | Before the first round there is no current round, so the call fails and the queue is unchanged. Otherwise the result and the new submissions are those of `Round.add_vote` on the current round. The player is enqueued exactly when the vote lands. The roster, the rounds, the submission queue and `is_done` are unchanged. |
| Games.Game.WaitVotes | game.py:52-55 | `wait_votes` yields the first `len(players)` queued voters in order and leaves the rest queued. When fewer are queued, it suspends after yielding all of them. |
| Games.Game.Start | game.py:57-58 | `start` appends exactly one fresh, empty round with a `gen_acro(3, 6)` acronym. |
| Games.Game.NextRound | game.py:60-61 | `next_round` appends exactly one fresh, empty round with a `gen_acro(3, 6)` acronym and keeps the earlier rounds. `current_round_no` rises by 1 and `current_round` is the new round. |
| Games.Game.NumSubmissionsRemaining | game.py:63-65 | The roster size less the current round's `num_submissions`. |
| Games.Game.NumVotesRemaining | game.py:67-69 | The roster size less the current round's `num_votes`. |
| Games.VotesRemainingCountsVoters | game.py:67-69 | In a valid game, the votes still awaited number the roster size less the distinct voters of the current round. |

## Left out

- The Discord slash-command handlers, the `while not game.is_done` driver loop and `bot.run` (main.py:177-314, 344). These are user interface and I/O. The handlers turn each `Round` error into a chat message (main.py:285-288, 305-312). They do not catch the `IndexError` that an empty word raises. `Game.AddSubmission` and `Game.AddVote` report that error, and the one from a missing round, as outcomes of their own.
- The Stability image call `gen_img` and its thread offload (game.py:161-181). It is a network service. It appears as a `RenderOutcome` parameter: an image, no image (the answers run out and the function returns None), or an exception. The safety-filter case is a plain exception and is not a distinct error.
- asyncio suspension, and `Queue.task_done`. The queues are plain sequences with no interleaving. A `wait_*` call that finds too few players reports that it would suspend, instead of waiting.
- Randomness. `random.randint`, `random.choice` and `random.choices` appear as parameters, constrained to the values Python could return.
- `submission_img_bytesio`, the `io.BytesIO` wrapper (game.py:136-137).
- The `_current_game` singleton and its abort (main.py:18, 81-89, 210-214), the game channel, and conf.py, which only loads keys.
- `str.upper()` beyond ASCII. Unicode case mapping, where one character can become several, is not modelled.
- Games.Game.Valid: requires only the current round to keep the vote invariant; earlier rounds are not changed by any game operation after `next_round`, and their values are not tracked.
- Submissions.Submission: modelled as a value in the round's sequence, not as a shared mutable object; aliasing of one submission object from several places, which the source never does, is not modelled.
- Games.Game.CurrentRound, Games.Game.NumSubmissionsRemaining, Games.Game.NumVotesRemaining: these require a started round. Before the first round, `self._rounds[-1]` raises `IndexError` in the source (game.py:33). The driver calls them only after `game.start()` (main.py:238, 249, 253, 261, 265), and the handler at main.py:288 only after a round-level error.
- `is_done` is never set and nothing compares the round count with `num_rounds`, so the model asserts neither.
