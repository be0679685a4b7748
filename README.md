# Twitter custom-reply bot: a verified model of its reply engines

The repository holds four Streamlit dashboards (`cus_rep1.py` … `cus_rep4.py`) for a Twitter
bot. Each one answers mentions from selected users with a reply text stored per user name in
`replies.json`. This project models the parts of those scripts that decide what the bot does:

- **The cursor-based worker** of `cus_rep3.py` (`auto_reply_worker`), in module `CursorEngine`.
  It probes the account's API plan (`get_access_level`) and refuses to start below "Elevated".
  Each cycle fetches the mentions newer than `last_seen_id` and walks them in reverse. It replies
  `"@" + handle + " " + rule` when the lower-cased author handle has a rule, and moves
  `last_seen_id` to every mention it finishes. An exception ends the cycle with one error line.
- **The replied-set bot** of `cus_rep2.py` and `cus_rep1.py` (`run_bot`), in module `ReplySet`.
  The two scripts run the same loop and differ only in the language of the log text. It walks
  the mentions in list order and skips ids already in `replied_ids`. After each successful post
  it records a log line, the reply time and the id. The module also holds `cus_rep2.py`'s
  "publish tweet" button and its `tweets_sent` counter.
- **The rule edit paths** of all four dashboards, in module `Store` (class `ReplyTable`).
  `cus_rep3.py` lower-cases the name but does not strip it. `cus_rep1.py` and `cus_rep2.py`
  lower-case and strip it. `cus_rep4.py` strips both fields and keeps the case.
- **The read-only views**, in module `Dashboard`: `get_user_status` at the 24-hour boundary,
  the status filter, the status colours, the last-20 activity-log views and the statistics
  counter.
- **The settings tab** of `cus_rep4.py`, in module `Settings`, which shows the credentials with
  the secrets masked.

Python's string operations live in `Text` (`lower`, `strip`, substring `in`) and `Seqs`
(`reversed`, `s[-n:]`). Platform calls live in `Platform`: each API call becomes an input that
either returns a value or raises with a message (`Fetch`, `Call`). A run of the bot is a
sequence of such inputs, one per cycle. Time is an integer count of microseconds, with one
clock reading per cycle.

Each engine is written twice. There is a specification by folds (`AfterMention`, `AfterBatch`,
`AfterPoll`, `AfterPolls`). There is also a class whose methods run the source's loops over
mutable fields. The methods are proved equal to the folds, and the source's promises are proved
as lemmas about the folds.

The model follows the code in these points, where a reader might expect otherwise:

- Mentions are walked as `reversed(...)` of whatever the API returns, not sorted by id. The
  ordering results of `CursorEngine` rest on the hypothesis `Honest` about the endpoint.
- Keys are not normalised on every path: `cus_rep3.py` lower-cases without stripping, and
  `cus_rep4.py` strips without lower-casing.
- The plan probe has no typed permission error: it looks for "403" in the error text.
- In `cus_rep3.py` a failed `get_user` or `create_tweet` ends the cycle. `last_seen_id` stays on
  the last mention finished, so the failed mention is fetched and tried again next cycle, and
  the rest of the batch is abandoned (cus_rep3.py:92-99).

## Model

| member | source | states |
|---|---|---|
| Seqs.Reversed | cus_rep3.py:91 | `reversed(...)`: same length, and entry k is entry len-1-k of the input |
| Seqs.Tail | cus_rep3.py:172-173 | `logs[-20:]`: the result has min(20, len) entries and is a suffix of the log |
| Text.Lower | cus_rep3.py:92 | `str.lower()` on ASCII: same length, no capitals left, each capital moved by 32 code points, every other character kept |
| Text.Strip | cus_rep2.py:86 | `str.strip()`: never longer than the input, and a non-empty result neither starts nor ends with whitespace |
| Text.StripSpec | cus_rep2.py:86 | the stripped text stands in the input right after its leading whitespace, with only whitespace before and after it; it is empty exactly when the input is all whitespace; lower case is kept |
| Text.ContainsAt | cus_rep3.py:64 | the substring test `"403" in str(e)` holds exactly when the needle occurs at some offset |
| Store.Put | cus_rep3.py:127 | storing a rule sets its key to its text and leaves every other key unchanged; no rule leaves the mapping as it was |
| Store.LoweredRule | cus_rep3.py:126-127 | a rule is accepted exactly when name and reply are non-empty; the key is exactly `Lower` of the name, not stripped and the text is the reply as typed |
| Store.NormalizedKey | cus_rep2.py:86 | `username.lower().strip()` is lower case with no whitespace at either end |
| Store.NormalizedRule | cus_rep2.py:89-91 | accepted exactly when the cleaned name and the reply are non-empty; stored under the cleaned name with the reply unchanged |
| Store.StrippedRule | cus_rep4.py:52-53 | accepted exactly when both stripped fields are non-empty; key and text are the stripped fields, case kept |
| Store.NormalizedKeyIsStable | cus_rep2.py:86 | cleaning a cleaned name changes nothing, so editing a listed key hits the same entry |
| Store.StripOfLower | cus_rep2.py:86 | lower-casing and stripping commute, so `username.lower().strip()` is the lower-cased stripped name |
| Store.NormalizedKeyMatchesHandle | cus_rep1.py:75 | a name typed in any case with any surrounding blanks is stored under the key the bot looks up for that handle |
| Store.CaseKeptKeyNeverMatches | cus_rep4.py:53 | a key stored with an upper-case letter never equals a lower-cased handle |
| Store.ReplyTable.AddLowered | cus_rep3.py:126-128 | the add form saves exactly when both fields are non-empty, and the new mapping is `Put` of the lowered rule |
| Store.ReplyTable.AddNormalized | cus_rep2.py:89-95 | the add/update button, also at cus_rep1.py:78-84: saves exactly when the cleaned name and reply are non-empty, and the new mapping is `Put` of that rule |
| Store.ReplyTable.Delete | cus_rep2.py:97-103 | the delete button, also at cus_rep1.py:86-92: reports whether the cleaned key was present, removes only that key and keeps every other value |
| Store.ReplyTable.AddStripped | cus_rep4.py:51-57 | saves exactly when both stripped fields are non-empty, and the new mapping is `Put` of the stripped rule |
| CursorEngine.GetAccessLevel | cus_rep3.py:59-66 | "Elevated" exactly when the probe answers, "Basic" exactly when its error text contains "403", "Unknown" exactly otherwise |
| CursorEngine.BasicIffForbidden | cus_rep3.py:63-66 | a refused probe reads as "Basic" exactly when "403" occurs at some offset of the error text |
| CursorEngine.AfterMention | cus_rep3.py:92-97 | one mention raises exactly when its author cannot be resolved or its post fails, and then changes nothing; otherwise the cursor moves onto it and the replies grow by its answer (one reply when the lower-cased handle has a rule, none otherwise) |
| CursorEngine.AfterBatch | cus_rep3.py:91-97 | the walk over `reversed(mentions.data)`, stopping at the first mention that raises; its results are `CleanBatch` and `StoppedBatch` |
| CursorEngine.AfterPoll | cus_rep3.py:86-99 | one cycle: an empty fetch leaves cursor, log and replies untouched, whatever loading the rules would do; a raised fetch or load adds one error line |
| CursorEngine.AfterPolls | cus_rep3.py:85-99 | the `while` loop as a fold of `AfterPoll` over the cycles; its results are `RunKeepsOrder` and `NoDoubleReplies` |
| CursorEngine.CleanBatch | cus_rep3.py:91-97 | with no exception, the batch replies once to each mention whose lower-cased handle has a rule, in the reverse of the fetched order, logs one line per reply, and leaves the cursor on the first fetched mention |
| CursorEngine.StoppedBatch | cus_rep3.py:91-99 | when mention k raises and the ones walked before it do not, the batch stops there: the cursor rests on mention k+1, those mentions keep their replies, and mentions before k are never considered |
| CursorEngine.StoppedStaysStopped | cus_rep3.py:86-99 | once the walk stops, the rest of the list is never looked at |
| CursorEngine.CleanCycle | cus_rep3.py:89-97 | a failure-free cycle ends as `Finished`, with the cursor on the first fetched mention |
| CursorEngine.FailedCycle | cus_rep3.py:92-99 | a cycle that raises at mention k adds exactly one error line, and its cursor is the last finished mention (unchanged if none finished) |
| CursorEngine.BatchKeepsOrder | cus_rep3.py:88-97 | under the endpoint's newest-first, beyond-the-cursor promise, a batch keeps the replies on rising ids at or below the cursor, and the cursor ends on a fetched id or stays |
| CursorEngine.PollKeepsOrder | cus_rep3.py:86-99 | under that promise a cycle never moves the cursor back and keeps the replies rising |
| CursorEngine.RunKeepsOrder | cus_rep3.py:85-99 | the same over any run of cycles |
| CursorEngine.NoDoubleReplies | cus_rep3.py:81-99 | a worker started with no cursor never answers the same mention twice while the endpoint keeps its promise |
| CursorEngine.Worker.Work | cus_rep3.py:75-85 | below "Elevated" it logs once and returns, with the flag, the replies and the cursor untouched; otherwise it sets the flag, logs the start, and its cursor, log and replies are those of the fold over the cycles |
| CursorEngine.Worker.RunCycle | cus_rep3.py:86-99 | the loop body, walking the batch from its end, leaves exactly the cursor, log and replies of `AfterPoll` |
| ReplySet.AfterMention | cus_rep2.py:55-64 | an id already in `replied_ids` is skipped with nothing changed; the mention raises exactly when it is unseen, its author has a rule and the post fails, and then changes nothing; otherwise its id is recorded exactly when its author has a rule |
| ReplySet.AfterBatch | cus_rep2.py:51-64 | the walk over the mentions in list order, stopping at the first failing post; its results are `BatchGrowth`, `BatchLog`, `BatchProvenance` and `CleanBatch` |
| ReplySet.AfterPoll | cus_rep2.py:47-66 | one cycle: a raised fetch or load adds one error line, otherwise the batch, with a failed post adding its error line |
| ReplySet.AfterPolls | cus_rep2.py:47-67 | the `while True` loop as a fold of `AfterPoll` over the cycles; its results are `RunKeepsRecord` and `RepliesOncePerRun` |
| ReplySet.BatchGrowth | cus_rep2.py:51-64 | a batch keeps the earlier replies; the new ones answer distinct tweets not in `replied_ids`; and `replied_ids` grows by exactly those tweets |
| ReplySet.BatchProvenance | cus_rep2.py:58-60 | every reply a batch posts is `"@" + user + " " + data[user]`, in reply to one fetched mention whose author has a rule and whose post returned |
| ReplySet.BatchLog | cus_rep2.py:61-63 | a batch logs one success line per reply in reply order; the users with a reply time afterwards are exactly those before plus the replied ones; each replied user is stamped with the cycle's time; every other user keeps their time |
| ReplySet.PollKeepsRecord | cus_rep2.py:47-66 | per `run_bot` thread, a cycle keeps `replied_ids` equal to the set of tweets answered in this run, each answered once |
| ReplySet.RunKeepsRecord | cus_rep2.py:47-67 | per `run_bot` thread, the same over any run of cycles |
| ReplySet.RepliesOncePerRun | cus_rep2.py:46-64 | within one `run_bot` thread, from the empty `replied_ids` it starts with, no tweet is answered twice, and `replied_ids` is exactly the set of answered tweets |
| ReplySet.UnmappedNeverRecorded | cus_rep2.py:58 | `replied_ids` never shrinks, and a mention whose author has no rule is in it after a cycle exactly when it was before |
| ReplySet.CleanBatch | cus_rep1.py:44-57 | with distinct ids and no failing post, the batch posts exactly the due replies: one per unseen mention with a rule, in list order, none for the others; their ids are recorded |
| ReplySet.StoppedStaysStopped | cus_rep2.py:60-66 | once a post raises, the remaining mentions are never looked at |
| ReplySet.FailedPoll | cus_rep1.py:53-59 | when the post for mention k raises, the cycle ends there with exactly one error line, and the id of k is not recorded |
| ReplySet.EditTakesEffect | cus_rep2.py:86-91 | a rule saved under a name that lower-cased and stripped is the lower-cased handle fires on that handle's next unseen mention with the saved text |
| ReplySet.DeleteTakesEffect | cus_rep2.py:97-99 | after deleting a name that lower-cased and stripped is the lower-cased handle, that handle's mentions get no reply and nothing is recorded |
| ReplySet.ReplyBot.RunBot | cus_rep2.py:45-67 | `run_bot` starts from an empty `replied_ids`, and its state after the cycles is that of the fold |
| ReplySet.ReplyBot.RunCycle | cus_rep1.py:41-59 | the loop body in list order leaves exactly the state of `AfterPoll`, stopping at the first failing post |
| ReplySet.ReplyBot.PostTweet | cus_rep2.py:136-147 | a blank text posts nothing; otherwise the stripped text is posted; `tweets_sent` and the log change only when the post returns, the counter by exactly one |
| Dashboard.StatusOf | cus_rep2.py:108-117 | also at cus_rep1.py:98-107: "new" exactly when the user has no reply time, "replied" exactly when less than 24 hours have passed, "no reply" exactly when 24 hours or more have passed |
| Dashboard.Label | cus_rep2.py:106-117 | the text of each status, which is also its option in the status filter |
| Dashboard.Filtered | cus_rep2.py:119-123 | `filtered_users`: the users whose status the option shows, each with its reply text and status; its results are `FilterByStatus` and `AllKeepsEverything` |
| Dashboard.FilterUsers | cus_rep2.py:119-123 | the filter loop builds exactly `Filtered`: the users the option shows, each with its reply text and status |
| Dashboard.FilterByStatus | cus_rep1.py:109-113 | a status option keeps exactly the users with that status |
| Dashboard.AllKeepsEverything | cus_rep1.py:112 | the "all" option keeps every rule with its reply text |
| Dashboard.Colour | cus_rep2.py:127 | the colour chosen by comparing the status text; its result is `ColourOfStatus` |
| Dashboard.ColourOfStatus | cus_rep1.py:117 | replied is green, no reply is orange, new is blue |
| Dashboard.LabelsDistinct | cus_rep2.py:106 | the three status labels differ from each other and from "all" |
| Dashboard.RecentFirst | cus_rep1.py:129-131 | also at cus_rep2.py:160-162: at most 20 entries, empty exactly when the log is, and entry i is the i-th newest |
| Dashboard.CountEntries | cus_rep2.py:153-154 | documents that counting the rules one by one gives `len(data)`, so the two metrics agree |
| Dashboard.FreshReplyShowsReplied | cus_rep2.py:63 | right after a cycle, every user it replied to shows as "replied" |
| Settings.Shown | cus_rep4.py:89 | an unmasked value shows as itself, or "None" when it is not set |
| Settings.Mask | cus_rep4.py:90 | the result shows the first min(keep, len) characters, then "...", then five stars exactly when the secret is non-empty |
| Settings.MaskHidesRest | cus_rep4.py:92-93 | two secrets with the same shown prefix, both empty or both not, mask to the same text |
| Settings.SettingsLines | cus_rep4.py:89-93 | the five lines of the block, a missing secret masked as if it were empty |
| Settings.SettingsText | cus_rep4.py:88-94 | the corrected block: a blank line, then each line with its line break |
| Settings.SettingsAsWritten | cus_rep4.py:88-94 | the block as written: it raises when any secret is unset, otherwise it is the corrected block |
| Settings.SettingsHideSecrets | cus_rep4.py:88-94 | the corrected block depends only on the key, the token and the shown prefixes of the secrets |
| Settings.SettingsAgree | cus_rep4.py:88-94 | with every secret set, the block as written equals the corrected block |
| Settings.MissingSecretFails | cus_rep4.py:93 | an unset `BEARER_TOKEN` makes the block as written raise, while the corrected block shows "BEARER_TOKEN = ..." |

## Left out

- The Twitter API (tweepy `get_me`, `get_users_mentions`, `get_user`, `create_tweet`, `mentions_timeline`, `update_status`) is not modelled. Each call is an input that returns or raises. `since_id` filtering and newest-first ordering belong to that library, so they appear as the hypothesis `Honest` of the ordering lemmas.
- Streamlit rendering, tabs and forms are not modelled: they are presentation. The view functions model what those widgets display.
- Streamlit reruns are not modelled. Each rerun of cus_rep1.py or cus_rep2.py runs the module again, which starts another `run_bot` thread (cus_rep1.py:63, cus_rep2.py:70) with its own empty `replied_ids`. In cus_rep2.py it also resets `activity_log`, `reply_times` and `tweets_sent` (cus_rep2.py:40-42). The once-per-run results hold for each `run_bot` thread on its own. Two threads started by two reruns can both answer the same mention.
- Threads, `time.sleep(30)` and the stop button that clears `auto_reply_running` from the UI thread (cus_rep3.py:155-164) are not modelled, because their point is concurrency. A run is a finite sequence of cycles.
- CursorEngine.Worker.Work: the source re-checks `auto_reply_running` before each cycle. The model runs every given cycle and leaves `running` set, since only another thread could clear the flag.
- File I/O is not modelled: `load_data`/`save_data`, the append-only log file, and the JSON import/export (cus_rep3.py:177-187). Loading the rules is an input of each cycle, and a failed load raises like any other call. The missing file argument of `save_data` in cus_rep1.py:30-32 is an I/O effect, so only the in-memory update of the edit paths is modelled.
- `datetime.now()` and `strftime` are not modelled. Each cycle takes one clock reading, while the source reads the clock once for the log line and once for the reply time. Log lines keep the user, the reply text or the error message, and drop the timestamp and the wording.
- The log line that cus_rep3.py:130 writes after an edit, and the manual tweet of cus_rep3.py:136-148 and cus_rep4.py:66-76, are not modelled: the first is file I/O, the other two are a single API call with no bookkeeping.
- Rendering of the log file with `splitlines` and `"\n".join` (cus_rep3.py:172-173) is not modelled: the view is the last 20 lines.
- `Text.Lower` lower-cases only the ASCII letters `A`–`Z`, not the full Unicode case mapping of `str.lower()`.
- The environment variables and `dotenv`: credentials are an input to the settings view.

## Findings

| source | as written | input that shows it | evidently intended | confidence | as-written member | corrected member |
|---|---|---|---|---|---|---|
| cus_rep4.py:93 | `BEARER_TOKEN[:10]` slices the value of `os.getenv`, which is `None` when the variable is not set, so the settings tab raises `TypeError` (the same holds for `API_SECRET` and `ACCESS_SECRET` on lines 90 and 92) | `BEARER_TOKEN` unset, every other variable set | the `if BEARER_TOKEN else ''` guard shows a missing secret was meant to be masked, showing "..." | not executed | Settings.SettingsAsWritten, Settings.MissingSecretFails | Settings.SettingsText, Settings.SettingsHideSecrets |
