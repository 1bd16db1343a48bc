# Reddit-to-Telegram monitors, modelled in Dafny

This project models three Reddit-to-Telegram monitoring scripts.

**new-posts3.py.** It follows several subreddits and forwards new submissions as Telegram alerts:
- alert text is escaped for MarkdownV2 and labelled with the subreddit's short name;
- buildapcsales posts go out only for woot.com links;
- boardgameexchange posts carry a thumbs-down button, and a click on it appends the author to `banned.txt`;
- after a Reddit `ServerError` it reconnects up to five times.

**sportsbook-comments.py.** It follows the newest "Sportsbook Promos" thread of r/sportsbook:
- it sends each new top-level comment of the followed thread, marking its id seen (the second finding shows a switch sends some twice);
- when a newer thread appears, it replays that thread's comments and switches to it.

**baps-monitor2.py.** It watches each recent buildapcsales submission for up to 20 minutes:
- it polls the score on a 3 s / 15 s / 30 s cadence;
- it sends one message when the first rule matches: 3 upvotes within 5 minutes, 6 within 10, or 10 within 20;
- it keeps a registry of monitored posts, which an active scan prunes.

The network is modelled as inputs, and everything sent is returned as a log:
- submission streams, update batches, comment listings, per-poll scores and author lookups are sequences, maps or functions;
- time is whole seconds;
- `banned.txt` is a sequence of lines.

State the scripts update in place becomes a class:
- `banned.txt` becomes `NewPosts.BanFile`;
- sportsbook's current thread and seen set become `Sportsbook.Session`;
- `posts_to_monitor` becomes `BapsMonitor.Registry`.

Each loop becomes a method proved against a function that specifies it. The properties are proved about those functions.

Modules:
- `Wrappers`: `Option`.
- `Strings`: ASCII lower-casing, `startswith`, substring search.
- `Markdown`: `escape_markdown`, a MarkdownV2 plain-text reader, and a corrected escaper.
- `NewPosts`: new-posts3.py.
- `Sportsbook`: sportsbook-comments.py.
- `BapsMonitor`: baps-monitor2.py.

## Model

| member | source | states |
|---|---|---|
| Strings.Lower | new-posts3.py:180 | `lower()` keeps the length and leaves no `A`-`Z` in the result. Each upper-case letter becomes its lower-case partner and every other character is unchanged. |
| Strings.LowerIdempotent | new-posts3.py:180 | Lower-casing twice is lower-casing once. |
| Strings.ContainsAt | new-posts3.py:181 | `needle in s` holds whenever the needle occurs at some index of `s`. |
| Strings.ContainsOccurs | new-posts3.py:181 | Conversely, `needle in s` holds only when the needle occurs at some index, so the two together pin `Contains` to Python's `in`. |
| Markdown.EscapeMarkdown | new-posts3.py:50-52 | The output length is the input length plus the number of the 18 reserved characters. |
| Markdown.UnescapeEscape | new-posts3.py:50-52 | Deleting every `\` that directly precedes a reserved character gives the input back exactly. |
| Markdown.EscapeConcat | new-posts3.py:52 | Escaping works character by character, so it distributes over concatenation. |
| Markdown.EscapeNoReserved | new-posts3.py:50-52 | A text with no reserved characters comes back unchanged. |
| Markdown.EscapedReservedArePreceded | new-posts3.py:50-52 | Every reserved character of the output directly follows a backslash. |
| Markdown.EscapeReadsBack | new-posts3.py:50-52 | For a text without `\`, a MarkdownV2 reader reads the escaped text back as exactly the original. |
| Markdown.EscapeMissesBackslash | new-posts3.py:50-52 | As written, the title `\*` becomes `\\*`, which a MarkdownV2 reader does not read as plain text. |
| Markdown.EscapeMarkdownV2 | new-posts3.py:50-52 | The corrected escaper also escapes `\`, and a reader reads every output back as its input. |
| Markdown.EscapeV2Agrees | new-posts3.py:50-52 | On text without `\` the corrected escaper and `escape_markdown` give the same output. |
| NewPosts.Shorthand | new-posts3.py:148-152 | frugalmalefashion, BoardGameExchange and buildapcsales map to FMF, BGE and BAPS. Any other name passes through unchanged (line 172). |
| NewPosts.Route | new-posts3.py:172-209 | Alert text is `[label] \| [title](https://reddit.com<permalink>)`, with label and title escaped by `escape_markdown` as written (lines 174-177). buildapcsales is sent iff its lowercased URL contains `woot.com`, never with markup. boardgameexchange is dropped iff the author is present and banned, and otherwise carries exactly one `thumbs_down_<id>` button. Every other subreddit is always sent, without markup. |
| NewPosts.AlertTextV2Agrees | new-posts3.py:174-177 | The alert text built with the corrected escaper equals the one the script sends whenever label and title hold no `\`. |
| NewPosts.WithAuthor | new-posts3.py:81-90 | Afterwards the author is a member and the old lines are a prefix. At most one line is added, exactly the author is new, and nothing changes when the author is already present. |
| NewPosts.BanAllMembers | new-posts3.py:81-90 | After any run of appends the old lines are a prefix, and the members are the old lines plus the added names. |
| NewPosts.BanAllPresent | new-posts3.py:84-90 | Re-adding authors who are all present changes nothing. |
| NewPosts.BanAllIdempotent | new-posts3.py:81-90 | Replaying the same bans a second time leaves the file as the first run left it. |
| NewPosts.BanFile.AddAuthor | new-posts3.py:73-97 | The file becomes the old lines plus the author's name (`[deleted]` for a deleted account), unless the name is already there or the lookup failed. |
| NewPosts.FirstField | new-posts3.py:117 | The first `_`-separated field is a prefix without `_`, and `_` or the end of the string follows it. |
| NewPosts.ParseCallback | new-posts3.py:116-117 | Only data starting with `thumbs_down_` yields an id. That id is the `_`-free field that follows the prefix. |
| NewPosts.CallbackRoundTrip | new-posts3.py:116-117 | The button's callback data parses back to the submission id, for ids without `_` (line 200). |
| NewPosts.FirstFieldWhole | new-posts3.py:117 | A string without `_` is its own first field. |
| NewPosts.BatchOffset | new-posts3.py:107-110 | After a batch the offset is one past the id of the last update looked at: the last update, or the first whose callback lacks `data`. An empty batch leaves the offset alone. |
| NewPosts.BatchBansOnlyThumbsDown | new-posts3.py:112-120 | Old file lines and answered queries stay prefixes. Without a thumbs-down callback neither changes. |
| NewPosts.BatchAcked | new-posts3.py:107-120 | A batch appends its answered queries after those answered before it, and the offset and file do not depend on the earlier answers. |
| NewPosts.HandleBatch | new-posts3.py:107-120 | The offset, file and answered queries after one getUpdates answer are those the batch specification gives. |
| NewPosts.HandleUpdates | new-posts3.py:99-123 | Over successive answers, starting at offset 0, the offset, file and answered queries are those of the batches run in turn. |
| NewPosts.ThumbsDownSuppressesAuthor | new-posts3.py:191-203 | A boardgameexchange post by an author not yet banned is sent with the thumbs-down button. A click on that button bans the author, and a later boardgameexchange post by the same author is not sent. |
| NewPosts.Reconnect | new-posts3.py:215-231 | Between 1 and 5 attempts, each after a 60 s pause. Retrying stops at the first attempt that does not raise. It fails iff all 5 raise. |
| NewPosts.WatchSendsRouted | new-posts3.py:160-209 | Every alert sent is the routing of some submission of the stream, against banned.txt as the bans landed before that submission left it (line 178 re-reads the file each time). |
| NewPosts.LinesAfterKeeps | new-posts3.py:81-90 | A line of banned.txt stays there whatever bans land later. |
| NewPosts.LinesAfterBans | new-posts3.py:73-90 | A ban whose author lookup succeeds puts the author's name in banned.txt for good. |
| NewPosts.WatchSuppressesBanned | new-posts3.py:178-195 | Once a ban of an author has landed during the stream loop, every later boardgameexchange submission by that author is routed to no alert. |
| NewPosts.WatchExhausted | new-posts3.py:213-231 | The loop gives up on retries iff it reaches a `ServerError` whose five attempts all raise. |
| NewPosts.MonitorReddit | new-posts3.py:140-236 | The alerts sent, the way the loop ends and the final banned.txt are those of the stream-loop specification, with bans from the moderation loop applied to the file as they land. |
| Sportsbook.LatestIsNewestPromo | sportsbook-comments.py:41-52 | The chosen thread is a promo whose `created_utc` is at least that of every promo and strictly greater than every earlier promo's (ties go to the first). None iff no promo has a positive timestamp. |
| Sportsbook.LatestNoneIffNoPromo | sportsbook-comments.py:43-52 | With positive timestamps, nothing is found iff no title contains "Sportsbook Promos". |
| Sportsbook.FindLatestThread | sportsbook-comments.py:41-52 | The scan returns the thread of the specification above. |
| Sportsbook.Replay | sportsbook-comments.py:54-62 | The replayed comments are exactly the top-level, non-bot comments, with no more entries than the listing. |
| Sportsbook.ProcessExistingComments | sportsbook-comments.py:54-62 | The messages are `u/{author}:\n{body}` for the replayed comments, in listing order. |
| Sportsbook.DiffSeen | sportsbook-comments.py:68-76 | The seen set becomes the old one plus the ids of all top-level comments. Nothing is removed and no reply id is added. Bot comments are marked seen too. |
| Sportsbook.DiffNotifies | sportsbook-comments.py:69-76 | A message goes out only for an unseen, top-level, non-bot comment. No id gets two messages, and every notified id ends up seen. |
| Sportsbook.DiffAllSeen | sportsbook-comments.py:69-76 | A listing whose top-level ids are all seen sends nothing and changes nothing. |
| Sportsbook.DiffTwice | sportsbook-comments.py:69-76 | Monitoring the same listing twice sends nothing the second time. |
| Sportsbook.DiffComplete | sportsbook-comments.py:68-76 | With unique ids, every unseen qualifying comment gets its message. |
| Sportsbook.Session.MonitorComments | sportsbook-comments.py:64-81 | Messages and seen set are the differ's. A failed fetch sends nothing and changes nothing. |
| Sportsbook.CheckForNewThread | sportsbook-comments.py:83-91 | Switches iff a thread with another id is found, and then replays its comments. Otherwise it returns the current thread and sends nothing. |
| Sportsbook.TopLevelIdsOf | sportsbook-comments.py:103-106 | Collects exactly the ids of the top-level comments. |
| Sportsbook.Session.constructor | sportsbook-comments.py:101-106 | Follows the given thread, with its top-level comment ids seen. |
| Sportsbook.Start | sportsbook-comments.py:94-106 | No session iff no promo thread is found. Otherwise the session follows that thread with its top-level ids seen. |
| Sportsbook.Session.Tick | sportsbook-comments.py:111-122 | One pass of main's loop. On a switch the target becomes the new thread, the seen set is reset to empty, and the replay is followed by the differ's messages. |
| Sportsbook.SwitchResendsReplay | sportsbook-comments.py:87-121 | As written, every comment replayed on a switch is sent again by the next monitoring pass whenever the listing (any listing with unique ids) still holds it. |
| Sportsbook.SwitchSendsTwice | sportsbook-comments.py:87-121 | A one-comment thread produces the same message twice in the switching pass. |
| Sportsbook.Session.TickDedup | sportsbook-comments.py:115-121 | The corrected pass: on a switch the replayed comments' ids start out seen. |
| Sportsbook.DedupSwitchNeverRepeats | sportsbook-comments.py:115-121 | With the correction, no replayed comment is sent again, whatever later listings hold. |
| BapsMonitor.SleepFor | baps-monitor2.py:49-54 | The pause is always 3, 15 or 30 seconds. |
| BapsMonitor.SleepMonotone | baps-monitor2.py:49-54 | The pause never shrinks as elapsed time grows. |
| BapsMonitor.FirstMatchIsFirst | baps-monitor2.py:59-67 | The rule picked is met and no earlier rule is met. None iff no rule is met. |
| BapsMonitor.FireRule | baps-monitor2.py:59-67 | Equals the first match in the ordered table (3 within 5 min, 6 within 10, 10 at any time). Score < 3 never fires and score >= 10 always fires. After 10 minutes only the 10-upvote rule can fire. |
| BapsMonitor.ElapsedGrows | baps-monitor2.py:46-56 | Each poll moves the clock on by at least 3 seconds. |
| BapsMonitor.RunFiresOnFirstMatch | baps-monitor2.py:44-67 | A message (only one) goes out at the first poll before the deadline whose score and pre-sleep elapsed time meet a rule, and no earlier poll meets one. |
| BapsMonitor.RunExpiresUnmatched | baps-monitor2.py:44-69 | Expiry (and the delete) happens only when no poll before the deadline met a rule and every fetch succeeded, and the last clock reading is past 20 minutes. |
| BapsMonitor.RunFailsOnFetchError | baps-monitor2.py:42-56 | A score fetch that raises ends monitoring with no message. It happens before the deadline, and every earlier poll fetched a score and met no rule. |
| BapsMonitor.PollCount | baps-monitor2.py:46-54 | A post is polled at most 400 times, whichever way monitoring ends. |
| BapsMonitor.ReachingTenFires | baps-monitor2.py:56-67 | A score of 10 or more fetched before the deadline ends monitoring at that poll or earlier. It ends with a message unless an earlier fetch raised. |
| BapsMonitor.PollPost | baps-monitor2.py:44-67 | The polling loop produces the outcome of the specification above. |
| BapsMonitor.Pruned | baps-monitor2.py:96-100 | The keys kept are exactly those with fetched score below 10, with their titles unchanged. |
| BapsMonitor.Registry.constructor | baps-monitor2.py:24 | The registry starts empty. |
| BapsMonitor.Registry.MonitorPost | baps-monitor2.py:44-70 | On fire, or when a score fetch raises, the registry is unchanged. On expiry the id is deleted, raising KeyError iff it was already gone. |
| BapsMonitor.Registry.Observe | baps-monitor2.py:72-91 | Spawns iff now - created <= 20 min. The registry gets `id := title`, overwriting an entry, with no check for a running monitor. |
| BapsMonitor.Registry.ActiveScan | baps-monitor2.py:96-100 | The registry becomes its pruning by fetched scores. |
| BapsMonitor.Registry.OnSubmission | baps-monitor2.py:83-100 | One stream step: insertion of a recent post, then the active scan. |

## Left out

- Network I/O is not modelled: the praw and Telegram calls, and `replace_more`. Their results are inputs: submission events, getUpdates answers, author lookups, comment listings and per-poll scores. Telegram messages are returned instead of sent, and the Telegram `ok` field only chose a log line.
- Threads, the `terminate` flag and SIGINT handling are not modelled. In new-posts3.py the two loops run side by side. Here `HandleUpdates` runs on its own, and in `MonitorReddit` the bans it makes are `Banning` events that land between two submissions.
- The race in baps-monitor2.py between the expiry `del` and the active scan is not modelled as an interleaving. `Registry.MonitorPost` sees the registry as it was when polling started, and states the KeyError condition against it.
- The recursive retry on HTTP 503 in `check_post_score` is not modelled. A poll's `lags` value stands for all the time its score fetch took, and any fetch that finally raises is a None score.
- The sleep-and-restart exception handler of the baps main loop (baps-monitor2.py:101-106) and sportsbook's 30 s sleep are not modelled. The handlers inside sportsbook's `monitor_comments` (lines 78-81) are modelled as a None listing.
- The daily `schedule` job of sportsbook-comments.py:109 is not modelled. Its return value is discarded, and it only repeats the loop's own thread check.
- `get_banned_authors` opens `banned.txt` in the working directory (new-posts3.py:59), while `add_author_to_banned` writes next to the script (line 78). The model takes these to be one file, as they are when the script is started from its own directory.
- `fsync`, the path join and the re-read-and-print check of `banned.txt` are not modelled. The file is its list of lines, so a missing file and an empty one are the same.
- `get_timestamp`, `format_timestamp` and all `print` output depend on the clock, locale and stdout, and are not modelled.
- Times are whole seconds rather than floats or microsecond `timedelta`s.
- BapsMonitor.Registry.ActiveScan: `scoreOf` always answers. In the source a fetch that raises mid-scan ends the pass, the handler at lines 104-106 restarts the stream, and the keys not yet scanned stay unpruned.
- Sportsbook.Session.Tick: the thread lookup (sportsbook-comments.py:46) and the new thread's comment fetch (line 56) are taken to succeed. In the source a raise there, or in main's startup fetch (line 104), has no handler and ends the script.
- BapsMonitor.Run: the loop guard and `current_time` read the clock twice; the model takes one reading per iteration.
- Strings.Lower: `str.lower` is modelled for ASCII only. Subreddit names, user names and URLs compared here are ASCII.
- NewPosts.BanFile.AddAuthor: a failed author lookup is an id missing from `authors`, which leaves the file unchanged.
- NewPosts.HandleBatch: a missing `update_id` or callback `id` is not modelled. A missing `data` is modelled as the KeyError that ends the batch.
- NewPosts.HandleUpdates: a failed getUpdates call, which the source logs, is modelled as an empty answer.
- NewPosts.Route: posts from other subreddits reach this code only through the three-subreddit stream. The `str(submission.subreddit)` conversion is taken to be the name.
- NewPosts.Watch: after a successful reconnect, the fresh stream continues the same event sequence.

## Findings

| source | as written | input that shows it | evidently intended | confidence | as-written member | corrected member |
|---|---|---|---|---|---|---|
| new-posts3.py:50-52 | `escape_markdown` leaves `\` unescaped, but MarkdownV2 requires it escaped | a title `\*`, escaped to `\\*`: an escaped backslash then an unescaped `*` | every character, `\` included, arrives literally | high, not executed | Markdown.EscapeMissesBackslash | Markdown.EscapeMarkdownV2 |
| sportsbook-comments.py:87-121 | a thread switch replays the new thread's comments, then resets the seen set to empty, so the next monitoring pass sends them again | a new thread with one top-level comment `hi` by alice: `u/alice:\nhi` is sent twice in one pass | replayed comments are marked seen, as at startup (lines 103-106) | high, not executed | Sportsbook.SwitchResendsReplay | Sportsbook.Session.TickDedup |
