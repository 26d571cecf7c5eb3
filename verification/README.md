# Punteggiobot scoring core in Dafny

A model of the scoring and leaderboard engine of a Telegram bot that awards points for hashtags.
The source is `Punteggiobot.py`. The bot keeps two dictionaries:

- `classifica` maps a user to their total points.
- `hashtag_usati` maps a user to a map from tag to the last date that tag was used.

A fixed table `parole_punteggio` gives each of 19 hashtags a positive value.

When a text message arrives, every table tag that occurs in the text is checked against the user's ledger slot.
A tag that is missing from the slot, or that carries a date other than today, earns its points and is stamped with today.
A positive sum goes to the user's total.
`/classifica` shows the totals sorted by points, highest first, or a fixed "empty" message.
`/reset` clears both dictionaries.

The modules follow those parts:

- `Rules` (`rules.dfy`): the rule table and the substring test. `Occurs` is Python's `tag in text`.
- `ScoreTable` (`score_table.dfy`): `classifica` as a map plus the insertion order of its keys. Python dictionaries keep that order, and the leaderboard's tie-break depends on it.
- `Scoring` (`scoring.dfy`): the state (score table and ledger), the message handler `HandleMessage`, the per-message scan `Scan`, the reference sum `Earned`, and `Reset`.
- `DailyRule` (`daily_rule.dfy`): multi-message consequences. These cover the once-per-day rule, the date rollover, the reply branch, monotone totals, and what a reset re-enables.
- `Leaderboard` (`leaderboard.dfy`): the stable descending sort and the `/classifica` reply.
- `Bot` (`bot.dfy`): the commands as a state machine over the fixed table, and traces of commands.
- `WorkedExample` (`worked_example.dfy`): a worked example with the rules "#workout" and "#sensazioni", worth 10 each, over three messages and the leaderboard that follows.

Days are `nat` day numbers, and "today" is a parameter of every message.
The code only ever compares dates with `!=`, so only equality of days matters.
The user key is the string the code computes (`username or first_name`).
The empty string stands for a user without either.

Behaviour of the code worth noting:

- A message with no table tag at all still gets the "already used these hashtags today" reply, because the `else` at Punteggiobot.py:102 covers both cases. `DailyRule.NoTagRepliesAlreadyUsed` states this.
- Scores and the ledger live in memory only. Nothing is persisted.
- Users are keyed by display string, not by a numeric id.
- Tags are matched case-sensitively, in the message text only (not in photo captions).

## Model

| member | source | states |
|---|---|---|
| Rules.TableWellFormed | Punteggiobot.py:26-46 | The table has 19 rules, every value is positive, and no tag appears twice. |
| Rules.OccursAt | Punteggiobot.py:94 | The recursive substring test holds exactly when the tag sits at some index of the text, as Python's `in` on strings. |
| ScoreTable.Get | Punteggiobot.py:100 | A user without an entry has total 0, and a valid table never yields a negative total. |
| ScoreTable.Add | Punteggiobot.py:100 | The user's total rises by exactly `delta`. Every other user's total is unchanged. An existing user keeps their position, and a new user is appended last. The table stays well-formed. |
| ScoreTable.Entries | Punteggiobot.py:66 | The table's lines, as `classifica.items()` gives them: one line per user in insertion order, each with that user's total. |
| Scoring.Scan | Punteggiobot.py:92-97 | After the scan, every matched tag is stamped with today. A tag the message does not match keeps its old date. The slot's keys grow by exactly the matched tags. |
| Scoring.ScanEarnsReference | Punteggiobot.py:92-97 | With distinct tags, the scan credits exactly the reference sum. That sum is the points of the rules that occur in the text and were not stamped today before the message. |
| Scoring.EarnedZeroIff | Punteggiobot.py:26-46 | With positive rule values, the points earned are never negative. They are zero exactly when no rule is eligible. |
| Scoring.EarnedCoversEligible | Punteggiobot.py:94-96 | Each eligible rule contributes its full value to the points earned. |
| Scoring.Visit | Punteggiobot.py:89-97 | The user gets a ledger slot. The points credited are the reference sum over the slot as it was, and never negative. Every matched tag is stamped with today, other tags keep their dates, and other users' slots are untouched. |
| Scoring.RevisitKeepsLedger | Punteggiobot.py:89-97 | When every tag the message matches is already stamped with today in the user's existing slot, the scan credits 0 and the ledger is unchanged. |
| Scoring.Credit | Punteggiobot.py:99-100 | Positive points raise the user's total by exactly that amount, and a first-time scorer goes last in insertion order. Zero points leave the table as it was. No other user's total changes. |
| Scoring.HandleMessage | Punteggiobot.py:80-103 | An empty user key changes nothing and gets no reply. Otherwise the points equal the reference sum and the ledger gains a slot for the user. Matched tags are stamped with today, and other tags and other users are untouched. The user's total rises by exactly the points, no one else's changes, and with 0 points the table is unchanged. A first-time scorer is placed last in the table's insertion order, and everyone else keeps their place. The reply congratulates, with the new total, exactly when points are positive, and otherwise says "already used". |
| Scoring.Reset | Punteggiobot.py:74-78 | After a reset every user's total is 0, every ledger slot is empty, and the table has no lines. |
| DailyRule.RepeatSameDayEarnsNothing | Punteggiobot.py:95-103 | Handling the same message again on the same day credits 0 and takes the "already used" branch. It leaves the state exactly as the first call left it. |
| DailyRule.NoTagRepliesAlreadyUsed | Punteggiobot.py:89-103 | A message with no rule tag credits 0 but still takes the "already used" branch. The scores are unchanged, and the only ledger change is an empty slot for a new user. |
| DailyRule.StaleTagAwarded | Punteggiobot.py:95-97 | A matching tag that is unused, or was last used on another day, is credited its value and the reply congratulates. |
| DailyRule.NextDayAwardsAgain | Punteggiobot.py:95-97 | After the date changes, a tag credited on the earlier day is credited again. |
| DailyRule.AwardedIffEligible | Punteggiobot.py:92-101 | A message is rewarded exactly when some rule occurs in it and is not stamped today in the user's slot. |
| DailyRule.ScoresNeverDecrease | Punteggiobot.py:99-100 | After a message, totals are still non-negative and no user's total has gone down. |
| DailyRule.ResetReenablesTags | Punteggiobot.py:74-97 | After a reset, a matching tag is credited again even if it was already used today, and the user's total is the points just earned. |
| Leaderboard.Insert | Punteggiobot.py:66 | Inserting into a descending sequence keeps it descending and adds one line. The new head is the inserted line or the old head. |
| Leaderboard.InsertPermutes | Punteggiobot.py:66 | Inserting adds exactly the new line to the multiset of lines. |
| Leaderboard.InsertKeepsTies | Punteggiobot.py:66 | The inserted line goes ahead of the lines with its own score, and every other score's lines keep their order. |
| Leaderboard.Sort | Punteggiobot.py:66 | The sort is a stable descending sort. Its output is a permutation of the input, its points never increase, and for every score the lines with that score keep their input order. |
| Leaderboard.DeterminedByTies | Punteggiobot.py:66 | Two descending sequences that agree on the lines of every score are equal. |
| Leaderboard.StableSortUnique | Punteggiobot.py:66 | The stable descending sort of a sequence is unique. |
| Leaderboard.Render | Punteggiobot.py:60-72 | An empty table gives the empty board. A non-empty table gives its lines in stable descending order of points, so ties keep insertion order. |
| Leaderboard.RenderIsTheStableSort | Punteggiobot.py:66-70 | Any stable descending ordering of a non-empty table's lines is exactly the ranking shown. |
| Bot.Step | Punteggiobot.py:56-103 | `/start` and `/classifica` leave the state unchanged. `/classifica` shows the empty board exactly when the table is empty. `/reset` empties both maps. A message never lowers any total. |
| Bot.Run | Punteggiobot.py:74-103 | Any sequence of commands keeps the score table well-formed. |
| Bot.TotalsNeverDecreaseWithoutReset | Punteggiobot.py:74-103 | Along any sequence of commands without a reset, totals stay non-negative and never go down. |
| Bot.ResetThenLeaderboardEmpty | Punteggiobot.py:60-78 | `/classifica` right after `/reset` shows the empty board. |
| Bot.LeaderboardRepeatable | Punteggiobot.py:60-72 | Showing the leaderboard twice in a row gives the same board and changes nothing. |
| WorkedExample.WorkoutScan | Punteggiobot.py:26-46 | With the rules "#workout" and "#sensazioni", the text "#workout" matches only "#workout". It earns 10 unless that tag is stamped with today. |
| WorkedExample.WorkoutMessage | Punteggiobot.py:92-97 | With the rules "#workout" and "#sensazioni", the message "#workout" stamps "#workout" with today. It earns 10 unless the tag is already stamped today. |
| WorkedExample.AliceExample | Punteggiobot.py:92-103 | Alice's "#workout" earns 10 (total 10). The same message that day gets "already used". The next day it earns 10 (total 20), and alice is the table's only user. |
| WorkedExample.SingleUserBoard | Punteggiobot.py:66-70 | A table with one user ranks exactly that user with their total. |
| WorkedExample.AliceBoard | Punteggiobot.py:60-103 | After alice's three messages the leaderboard ranks alice alone, with 20 points. |

## Left out

- The Flask webhook route, `Update.de_json`, `asyncio.run` per request, and the Telegram `Application` with its handler registration. These are transport and foreign library calls. `Bot.Step` stands in for the dispatch to handlers.
- The keep-alive thread with HTTP pings, and the `waitress` server startup. These are I/O and concurrency.
- The environment read of the token, and logging.
- `datetime.date.today()`. The day is a parameter of each message.
- The exact emoji and Italian reply strings. The model keeps which reply branch is taken, with the user, points and total it carries. The leaderboard is kept as its sequence of (user, points) lines.
- Concurrency. Messages are handled one at a time. Waitress's worker threads, each running `asyncio.run`, could interleave the check at Punteggiobot.py:95 with the stamp at Punteggiobot.py:97.
- Commands in text. `Bot.Step`'s `Message` stands for a text that is not a command. A text starting with a bot command (such as "/foo #workout") never reaches `gestisci_messaggi`, because of `~filters.COMMAND` at Punteggiobot.py:109.
- Non-text messages. The handler is registered for text only, so the text is always a string.
- Scoring.HandleMessage: requires the rule table to have distinct tags and positive values. The source's table is a fixed dictionary with positive values, and `Rules.TableWellFormed` shows it meets this.
- A two-phase reset confirmation, a scheduled daily report, persistence, and numeric user ids appear in other revisions of the program. They are not in this one.
