# User_bot_1 relay core, modelled in Dafny

User_bot_1 is a Telegram user bot. It watches a source channel for messages that carry `t.me` message links. For each link it fetches the message the link points to and forwards it to a list of target channels. Along the way it:

- joins a channel when the message is not accessible, evicting the oldest pending join request when the account is over its channel limit;
- keeps pending join requests in a table;
- remembers what it has forwarded in a deduplication store, so nothing is forwarded twice;
- spaces sends out under a rate limit.

This project models the core of that system with the Telegram client and SQLite taken out. Each piece keeps the form it has in the source:

| File | Module | What it models |
|---|---|---|
| `text.dfy` | `Text` | The parts of Python's string handling the code relies on: the `str.isspace` set (what `\s` matches), `strip`, ASCII `lower`, `split`/`join` on one character, `find`, `str(int)`, and `int(str)` with its sign, whitespace and underscore rules. |
| `wrappers.dfy` | `Wrappers` | `Option`. |
| `messages.dfy` | `Messages` | `parse_telegram_link`, with the regular-expression search spelled out position by position. Also `message_identity`, `message_identity_string`, and `fetch_message_by_link` over the client's possible replies. Pure functions and lemmas. |
| `run.dfy` | `Run` | `extract_links` (the `re.findall` scan) and the new-message handler's filter: skip links already seen, enqueue nothing when forwarding is disabled. |
| `dedup.dfy` | `Dedup` | `DeduplicationStore` as a class over the `processed_messages` table (a map from digest to time). Pure `Insert` and `Sweep` specify the SQL statements. |
| `subscriptions.dfy` | `Subscriptions` | `SubscriptionTracker` as a class over the `pending_subscriptions` table (a map keyed by `channel_id`). `ensure_membership` is specified by a function of the table and the outcomes of the network calls. |
| `queue.dfy` | `Forwarding` | `ForwardingQueue` as a class: FIFO, `running` flag, worker task, last send time, the `for target` loop, and one turn of the worker loop. Each per-item method is proved equal to a pure function of the state, and the properties are lemmas about that function. |
| `config.dfy` | `Config` | `_to_bool`, `_sqlite_path_from_url`, the `TARGET_CHANNELS` split, and `Settings()` as a function of an environment map, returning the settings or the first `ValueError`. |
| `forwarder.dfy` | `Forwarder` | `KeywordForwarder`: the constructor's pattern loop, `get_matched_keywords`'s loop, and the word-boundary search as pure functions. |

Conventions used throughout:

- **Network replies.** The Telegram client's answers are parameters. These include the fetch replies, the join outcome and the retry outcome, which peer resolves to which `channel_id`, and whether each forward succeeds.
- **Failures and time.** Storage errors, clock readings and `CURRENT_TIMESTAMP` are parameters too.
- **The hash.** The SHA-256 digest is a function the store is given. Where a lemma needs it to be injective, that is a precondition.
- **Character classes.** `\w` and `IGNORECASE` are ASCII.
- **Time units.** Times in the rate limiter are real numbers of seconds. Table timestamps are integer seconds.

## Model

| member | source | states |
|---|---|---|
| Text.Strip | User_bot_1/app/config.py:13 | the stripped text has no whitespace at either end; it is the slice right after the leading whitespace, and only whitespace follows it |
| Text.StripPadded | User_bot_1/app/config.py:70 | stripping whitespace padding off a value whose own ends are not whitespace gives that value back |
| Text.Lower | User_bot_1/app/config.py:13 | same length, every character lower-cased (ASCII letters; other characters kept) |
| Text.Split | User_bot_1/app/config.py:70 | `split(",")` gives at least one piece and no piece contains the separator |
| Text.SplitJoin | User_bot_1/app/config.py:70 | joining the pieces of a split with the separator gives the text back |
| Text.JoinSplit | User_bot_1/app/config.py:70 | splitting a join of separator-free pieces gives the pieces back |
| Text.Find | User_bot_1/app/config.py:34-35 | the first occurrence: the pattern occurs there and nowhere before; `None` exactly when it occurs nowhere |
| Text.RunEnd | User_bot_1/run.py:39 | a greedy run: every character up to the end is in the class, and the character at the end (if any) is not |
| Text.DecimalString | User_bot_1/app/messages.py:48 | `str(n)` is a non-empty digit string whose value is `n`, with no leading zero |
| Text.IntToString | User_bot_1/app/messages.py:48 | `str(i)` is non-empty, has no `:` and no edge whitespace, and starts with `-` exactly for negative numbers |
| Text.DigitsValueSnoc | User_bot_1/app/messages.py:60 | appending a digit multiplies the value by ten and adds the digit |
| Text.ParseNegativeDigits | User_bot_1/app/messages.py:64 | `int("-" + digits)` is the negated value of the digits |
| Text.ParseIntToString | User_bot_1/app/messages.py:48 | `int(str(i)) == i` for every integer |
| Text.IntToStringInjective | User_bot_1/app/messages.py:48 | distinct integers have distinct decimal strings |
| Messages.PrefixEnd | User_bot_1/app/messages.py:15 | `https?://t\.me/` matches at a position exactly when one of the two prefixes occurs there, with `https` taken first; gives where the prefix ends |
| Messages.TailAt | User_bot_1/app/messages.py:15 | `([\w_]+)/([0-9]+)`: a non-empty word run, a `/`, then a non-empty digit run |
| Messages.TailMatch | User_bot_1/app/messages.py:15 | a tail match exists exactly when `TailAt` succeeds; its groups are a non-empty word string and a non-empty digit string |
| Messages.MatchAt | User_bot_1/app/messages.py:15 | a match at a position has a non-empty word-string peer part and non-empty digits |
| Messages.Search | User_bot_1/app/messages.py:54 | `re.search`: the result is a match and no position before it matches; no result exactly when no position matches |
| Messages.ParseTelegramLink | User_bot_1/app/messages.py:51-68 | `None` exactly when the pattern matches nowhere; a public peer is a non-empty string of word characters |
| Messages.PublicLinkMatch | User_bot_1/app/messages.py:15 | the leftmost match of `http(s)://t.me/<handle>/<digits>` is the whole link, without the `c/` group |
| Messages.PublicLinkNotPrivate | User_bot_1/app/messages.py:15 | the optional `c/` group is not taken on a public link, not even for the handle `c` |
| Messages.PrivateLinkMatch | User_bot_1/app/messages.py:15 | the leftmost match of `http(s)://t.me/c/<part>/<digits>` is the whole link, with the `c/` group taken |
| Messages.PublicLinkParses | User_bot_1/app/messages.py:65-68 | a public link to message `id` parses to its handle, unchanged, and `id` |
| Messages.PrivateLinkResult | User_bot_1/app/messages.py:58-68 | a `c/` link parses to `int("-100" + part)` and the value of its digits, or to the error when that `int` raises |
| Messages.PublicNotPrivateBeforeSuffix | User_bot_1/app/messages.py:15 | the `c/` group is not taken on a public link followed by text that starts with neither a word character nor `/` |
| Messages.PublicLinkBeforeSuffixParses | User_bot_1/app/messages.py:54-66 | a public link with any digit string, leading zeros included, followed by text such as `?single` or a space, parses to its handle and the value of its digits |
| Messages.PrivateLinkBeforeSuffixResult | User_bot_1/app/messages.py:54-64 | a `c/` link followed by such text parses as its own groups say, as without the text |
| Messages.PrivateLinkParses | User_bot_1/app/messages.py:58-64 | a `c/<digits>/<id>` link parses to the integer `-100<digits>` and `id` |
| Messages.MinusHundredDigits | User_bot_1/app/messages.py:64 | `int(f"-100{digits}")` is minus the value of `100<digits>` |
| Messages.MinusHundredLetter | User_bot_1/app/messages.py:64 | `int(f"-100{part}")` raises when the part holds a letter |
| Messages.PrivateLinkWithLetterRaises | User_bot_1/app/messages.py:64 | a `c/` link whose peer part holds a letter raises instead of returning `None` |
| Messages.PrivateLinkExample | User_bot_1/app/messages.py:62-64 | `https://t.me/c/12345/42` parses to channel `-10012345`, message 42 |
| Messages.UnderscoreIntExample | User_bot_1/app/messages.py:64 | `int("-1001_2")` is `-10012` |
| Messages.PrivateLinkUnderscoreExample | User_bot_1/app/messages.py:64 | `https://t.me/c/1_2/5` parses to channel `-10012`, message 5: `int` accepts the underscore |
| Messages.MessageIdentity | User_bot_1/app/messages.py:28-41 | the message id, paired with `None` when there is no peer, else with the first set of `channel_id`, `chat_id`, `user_id` |
| Messages.OptionalIntText | User_bot_1/app/messages.py:48 | the text of an optional integer never contains `:` |
| Messages.IdentityTextRoundTrip | User_bot_1/app/messages.py:44-48 | splitting `"<peer>:<id>"` at its first `:` recovers the identity |
| Messages.IdentityStringInjective | User_bot_1/app/messages.py:44-48 | messages with equal identity strings have equal identities |
| Messages.FetchMessageByLink | User_bot_1/app/messages.py:71-90 | unparseable link gives `(None, False, None, None)`; a `c/` peer that is not an integer raises; otherwise the message id is set, the message is what the fetch returned, the pending peer is the peer exactly on a private or invalid channel error, and `leave_after` is always false |
| Run.LinkAt | User_bot_1/run.py:39 | a link found at a position ends after it, within the text |
| Run.LinkAtShape | User_bot_1/run.py:39 | a link is the prefix followed by one or more non-whitespace characters up to whitespace or the end; there is one exactly where the prefix is followed by non-whitespace |
| Run.Spans | User_bot_1/run.py:39 | the spans `findall` reports lie within the text and consecutive spans do not overlap |
| Run.SpansAreLinks | User_bot_1/run.py:39 | every reported span is a link that starts at its start |
| Run.NoLinksInEmptyText | User_bot_1/run.py:37-38 | empty text gives no links |
| Run.LinksWellFormed | User_bot_1/run.py:39 | every extracted link is the text of its span, starts with one of the two prefixes plus at least one character, holds no whitespace, and extends to the next whitespace or the end |
| Run.LinksOrderedAndComplete | User_bot_1/run.py:39 | links come in order of appearance without overlap, and every position where a link starts lies inside a reported link |
| Run.Enqueued | User_bot_1/run.py:99-107 | only extracted links are enqueued, no more of them than were extracted |
| Run.DisabledEnqueuesNothing | User_bot_1/run.py:104-107 | with forwarding disabled nothing is enqueued |
| Run.EnqueuedIffUnseen | User_bot_1/run.py:99-107 | with a readable store, a link is enqueued exactly when forwarding is on, it was extracted, and the store has not seen it |
| Run.EnqueuedInOrder | User_bot_1/run.py:99-107 | the enqueued links are a subsequence of the extracted links, in order |
| Run.Handle | User_bot_1/run.py:88-107 | nothing during shutdown and nothing for a message without text; otherwise the filtered links of `message.message or ""`, each of them a link of that text |
| Run.HandleIffUnseen | User_bot_1/run.py:88-107 | outside shutdown, with a readable store, a link is enqueued exactly when forwarding is on, the link is in the message text, and the store has not seen it |
| Dedup.Cutoff | User_bot_1/app/dedup.py:58 | the cutoff is not after now for a non-negative retention |
| Dedup.Insert | User_bot_1/app/dedup.py:120-123 | `INSERT OR IGNORE`: the digest is added, every existing row keeps its time, and a new digest gets the current time |
| Dedup.Sweep | User_bot_1/app/dedup.py:58-63 | exactly the rows at or after the cutoff remain, with their times |
| Dedup.InsertIdempotent | User_bot_1/app/dedup.py:120-123 | adding the same text twice equals adding it once |
| Dedup.ReinsertDoesNotRefresh | User_bot_1/app/dedup.py:120-123 | re-adding a text does not refresh its time: an old row is still swept |
| Dedup.FreshInsertSurvives | User_bot_1/app/dedup.py:55-63 | a row added at or after the cutoff survives the sweep |
| Dedup.SweepIdempotent | User_bot_1/app/dedup.py:55-63 | a second sweep with the same cutoff removes nothing more |
| Dedup.SweepCompose | User_bot_1/app/dedup.py:55-63 | a later sweep subsumes an earlier one |
| Dedup.SeenIffAdded | User_bot_1/app/dedup.py:93-101 | with an injective hash and no cleanup, a text reads as seen exactly when it was added |
| Dedup.DeduplicationStore.constructor | User_bot_1/app/dedup.py:14-32 | opening the store runs the retention cleanup over the persisted rows (or leaves them on a storage error) |
| Dedup.DeduplicationStore.CleanupOldEntries | User_bot_1/app/dedup.py:55-69 | the table becomes its sweep at `now - retention`, or stays as it was on a storage error |
| Dedup.DeduplicationStore.IsDuplicate | User_bot_1/app/dedup.py:83-104 | true exactly when the read succeeds and the text's digest is stored |
| Dedup.DeduplicationStore.AddMessage | User_bot_1/app/dedup.py:106-128 | returns true exactly without a write error; the table becomes `Insert` of the digest, or is unchanged on error |
| Dedup.DeduplicationStore.GetStats | User_bot_1/app/dedup.py:130-158 | `{}` exactly on a storage error; otherwise the row count and the retention period |
| Dedup.DeduplicationStore.Close | User_bot_1/app/dedup.py:160-166 | closing runs the retention cleanup once more |
| Dedup.AddThenDuplicate | User_bot_1/app/dedup.py:106-125 | after a successful `add_message`, `is_duplicate` of the same text is true |
| Subscriptions.OldestKey | User_bot_1/app/subscriptions.py:87-100 | `None` exactly on an empty table; otherwise a row with the least `requested_at` |
| Subscriptions.OldestUnique | User_bot_1/app/subscriptions.py:91-94 | the oldest row under the tie-break order is unique |
| Subscriptions.AutoRowId | User_bot_1/app/subscriptions.py:49 | the key SQLite gives a NULL `channel_id`: one more than the largest key, or 1; never an existing key |
| Subscriptions.PutRow | User_bot_1/app/subscriptions.py:62-71 | `INSERT OR REPLACE`: the key's row is replaced, every other row is unchanged, the table stays keyed by `channel_id` |
| Subscriptions.RemoveRow | User_bot_1/app/subscriptions.py:78-85 | `None` changes nothing; otherwise exactly that key's row is removed and all others are unchanged |
| Subscriptions.AttemptShape | User_bot_1/app/subscriptions.py:112-148 | no attempt is both joined and pending; its channel id is the resolved id; the username is set exactly when the peer is a handle, and is that handle |
| Subscriptions.AttemptFlags | User_bot_1/app/subscriptions.py:120-148 | joined exactly on a successful join or a successful retry after an eviction; pending exactly on a private channel or a too-many error that was not resolved |
| Subscriptions.JoinedDropsOwnRow | User_bot_1/app/subscriptions.py:120-124 | a successful join removes the channel's own row when its id is known, and nothing else |
| Subscriptions.OtherErrorUnchanged | User_bot_1/app/subscriptions.py:146-148 | any other error returns neither joined nor pending and leaves the table untouched |
| Subscriptions.PrivateQueuesRow | User_bot_1/app/subscriptions.py:142-145 | a private channel is reported pending and adds its row only when its id is known |
| Subscriptions.TooManyWithoutEviction | User_bot_1/app/subscriptions.py:125-141 | with no evictable oldest row, the too-many error changes nothing and reports pending |
| Subscriptions.TooManyEvictsOldest | User_bot_1/app/subscriptions.py:125-141 | with one, it leaves the oldest row's channel, deletes that row and no other (besides the joined channel's own), leaves every surviving row's values unchanged, and the retry decides whether it joined |
| Subscriptions.MembershipKeepsKeys | User_bot_1/app/subscriptions.py:48-49 | the table stays keyed by `channel_id`, and only the channel's own row can be added |
| Subscriptions.AfterLeave | User_bot_1/app/subscriptions.py:150-163 | no peer changes nothing; otherwise only the channel's row goes, when its id is known |
| Subscriptions.SubscriptionTracker.constructor | User_bot_1/app/subscriptions.py:40-42 | the tracker starts over the persisted rows |
| Subscriptions.SubscriptionTracker.NextRowId | User_bot_1/app/subscriptions.py:49 | the loop over the keys computes the key SQLite assigns to a NULL `channel_id` |
| Subscriptions.SubscriptionTracker.AddPending | User_bot_1/app/subscriptions.py:59-76 | the table becomes `PutRow` under the id, or under the auto key when the id is `None` |
| Subscriptions.SubscriptionTracker.RemovePending | User_bot_1/app/subscriptions.py:78-85 | the table becomes `RemoveRow` of the id |
| Subscriptions.SubscriptionTracker.GetOldestPending | User_bot_1/app/subscriptions.py:87-100 | the scan returns the oldest row, or `None` on an empty table |
| Subscriptions.SubscriptionTracker.EnsureMembership | User_bot_1/app/subscriptions.py:109-148 | the attempt, the channel left and the new table are those of `EnsureMembershipSpec` |
| Subscriptions.SubscriptionTracker.LeaveAfterForward | User_bot_1/app/subscriptions.py:150-165 | a leave is attempted exactly when the message has a peer; the table becomes `AfterLeave` |
| Forwarding.ClampDelay | User_bot_1/app/queue.py:26 | the delay is never negative and a non-negative delay is kept |
| Forwarding.MinInterval | User_bot_1/app/queue.py:27-29 | `0` when the rate is unset or zero; otherwise the reciprocal of the rate |
| Forwarding.Capacity | User_bot_1/app/queue.py:30-32 | the queue is bounded exactly when `maxsize` is set and positive, by `maxsize` |
| Forwarding.ClampRetry | User_bot_1/app/queue.py:36 | the retry period is at least 5 seconds and a larger one is kept |
| Forwarding.IntervalWait | User_bot_1/app/queue.py:81-86 | `max(0, min_interval - elapsed)`: zero before the first send and once the interval has elapsed, otherwise exactly what is left of the interval |
| Forwarding.SendSpacing | User_bot_1/app/queue.py:78-89 | a send comes at least the minimum interval plus the delay after the previous one |
| Forwarding.SendNotEarly | User_bot_1/app/queue.py:87-89 | a send never happens before the clock reading plus the delay |
| Forwarding.Sends | User_bot_1/app/queue.py:139-148 | one send per target, and the last send time is the time of the last send |
| Forwarding.SendsRecords | User_bot_1/app/queue.py:139-148 | the `j`-th send goes to the `j`-th target with the message identity and that target's outcome |
| Forwarding.SendsStep | User_bot_1/app/queue.py:139-148 | one more target adds one send, and success accumulates over the targets |
| Forwarding.SendsSpaced | User_bot_1/app/queue.py:139-141 | the sends of one item are spaced by at least the minimum interval plus the delay |
| Forwarding.Record | User_bot_1/app/queue.py:150-152 | the keys become the old keys plus the identity's and the link's digests, each unless its own write fails; existing rows keep their time and new rows get the current timestamp |
| Forwarding.ReportShape | User_bot_1/app/queue.py:106-136 | a run forwards or skips exactly when it reached a message; only forwarding touches the send log, the store and the send time; only a pending join schedules a requeue |
| Forwarding.DuplicateSkipped | User_bot_1/app/queue.py:132-136 | a message the store holds is forwarded to no target and nothing changes |
| Forwarding.NoStoreNoSkip | User_bot_1/app/queue.py:132-152 | without a store nothing is skipped as a duplicate and nothing is recorded |
| Forwarding.DeliverAttemptsAll | User_bot_1/app/queue.py:138-148 | the forwarding stage tries every target in order, and succeeds exactly when one target took the message |
| Forwarding.AllTargetsAttempted | User_bot_1/app/queue.py:138-148 | every run that forwards tries all targets in order, even after failures |
| Forwarding.RecordedIffSuccess | User_bot_1/app/queue.py:150-152 | the store records the identity and the link exactly when some target took the message, and is unchanged otherwise |
| Forwarding.LeaveOnlyAfterJoin | User_bot_1/app/queue.py:113-155 | `leave_after_forward` runs only after a successful forward of a message that the first fetch could not reach (it named a peer to join), the join returned joined, and the refetch found the message |
| Forwarding.PendingRequeues | User_bot_1/app/queue.py:118-126 | a pending join schedules the item again and leaves the send log and the store unchanged |
| Forwarding.BadPrivateLinkRaises | User_bot_1/app/queue.py:106-160 | a `c/` link whose peer is not an integer ends in the worker's exception handler with nothing changed |
| Forwarding.NoSecondForward | User_bot_1/app/queue.py:132-152 | once a run forwarded a message and recorded its identity, a later run that reaches the same message, by the first fetch or by the refetch after a join, skips it as a duplicate and touches neither the store, the send log nor the schedule |
| Forwarding.ForwardedIsReached | User_bot_1/app/queue.py:106-136 | a run that forwards forwards the message it reached, under that message's identity |
| Forwarding.ForwardingQueue.constructor | User_bot_1/app/queue.py:15-36 | the settings are clamped as above; the queue is empty, not running, with no worker and no send yet |
| Forwarding.ForwardingQueue.Start | User_bot_1/app/queue.py:54-62 | running afterwards; when already running nothing changes and no second worker is created |
| Forwarding.ForwardingQueue.Stop | User_bot_1/app/queue.py:64-76 | not running afterwards; the queue, the worker record, the send log and the schedule are unchanged |
| Forwarding.ForwardingQueue.AddLink | User_bot_1/app/queue.py:45-52 | on a full bounded queue nothing changes (the caller waits); otherwise the item goes to the back, the unfinished count grows by one, and the queue is running, with a new worker task when it was not |
| Forwarding.ForwardingQueue.GetQueueSize | User_bot_1/app/queue.py:164-167 | the number of queued items |
| Forwarding.ForwardingQueue.RespectRateLimits | User_bot_1/app/queue.py:78-89 | the wait is `IntervalWait`, and the last send time is set on every call |
| Forwarding.ForwardingQueue.FireRequeue | User_bot_1/app/queue.py:91-93 | the oldest scheduled item is added back at the end of the queue and counted as unfinished, as `add_link` does; when the queue is full nothing changes; the send time and the send log are untouched |
| Forwarding.ForwardingQueue.SendOne | User_bot_1/app/queue.py:140-144 | one rate-limited forward is logged at the time `NextSend` gives |
| Forwarding.ForwardingQueue.SendToTargets | User_bot_1/app/queue.py:138-148 | the loop logs exactly `Sends` over all targets; `forward_success` holds exactly when some target took the message |
| Forwarding.ForwardingQueue.DeliverItem | User_bot_1/app/queue.py:132-155 | the report and the new state are those of `Deliver` |
| Forwarding.ForwardingQueue.ForwardAndRecord | User_bot_1/app/queue.py:138-155 | the send log grows by `Sends` over all targets; on success the store records the identity and link, and the channel is left when asked |
| Forwarding.ForwardingQueue.ProcessItem | User_bot_1/app/queue.py:106-155 | the report and the new state are those of `Process` |
| Forwarding.ForwardingQueue.WorkerStep | User_bot_1/app/queue.py:95-162 | not running: exits; empty queue: idles; otherwise the head item is taken in FIFO order, processed as `Process` says, and the unfinished count drops by one; on exit and idle turns the unfinished count is kept, and the worker record is kept on every turn |
| Config.ToBool | User_bot_1/app/config.py:8-13 | an unset value gives the default; true only for a value that strips to four characters |
| Config.ToBoolPadded | User_bot_1/app/config.py:13 | a set value is true exactly when, without its whitespace padding, it reads `true` in any letter case |
| Config.ToBoolOnlyTrue | User_bot_1/app/config.py:13 | values such as `1` or `yes` are false |
| Config.SqlitePathFromUrl | User_bot_1/app/config.py:27-37 | unset or empty gives the fallback; a `sqlite...` value with `///` gives the text after the first `///`; anything else is returned as it is |
| Config.SqliteUrlRoundTrip | User_bot_1/app/config.py:33-35 | `sqlite<driver>:///<path>` gives back the path, even an absolute one |
| Config.NonEmptyStripped | User_bot_1/app/config.py:69-71 | the kept pieces are non-empty and have no whitespace at either edge |
| Config.ParseTargets | User_bot_1/app/config.py:68-71 | every target is non-empty, has no edge whitespace and no comma |
| Config.TargetsRoundTrip | User_bot_1/app/config.py:68-71 | joining clean channel names with commas and parsing gives the list back, in order |
| Config.BlankPiecesDropped | User_bot_1/app/config.py:70 | empty and all-whitespace pieces are dropped |
| Config.QueueMaxsize | User_bot_1/app/config.py:82-83 | an empty value gives `None`; otherwise the integer value, or the conversion error |
| Config.ReadSettings | User_bot_1/app/config.py:62-89 | reading fails only on the two `int` conversions; the session is stripped and the targets are clean |
| Config.LoadSettings | User_bot_1/app/config.py:59-98 | a conversion error is raised before any check; loaded settings are the ones read and pass every check; otherwise the error is the first check that fails |
| Config.Validate | User_bot_1/app/config.py:91-98 | passes exactly when the API id is non-zero, the hash, session and source are set, and there is a target or forwarding is off; the credential error comes exactly for a zero id or an empty hash |
| Config.LoadedWellFormed | User_bot_1/app/config.py:59-98 | loaded settings satisfy every validation rule |
| Config.LoadOkIff | User_bot_1/app/config.py:59-98 | loading succeeds exactly when every conversion and every check passes |
| Config.ConversionErrorsFirst | User_bot_1/app/config.py:62-83 | a bad API id is reported whatever else is wrong; a bad queue size is reported whenever the API id converts, before any missing value |
| Config.ForwardingOnByDefault | User_bot_1/app/config.py:73-75 | with `FORWARDING_ENABLED` unset, loaded settings forward and have a target |
| Forwarder.PatternFor | User_bot_1/app/forwarder.py:31-37 | one pattern per keyword: its literal text, ignoring case exactly when matching is not case-sensitive |
| Forwarder.FirstMatch | User_bot_1/app/forwarder.py:58 | the leftmost position where the keyword matches between word boundaries; none exactly when it matches nowhere |
| Forwarder.FoundIff | User_bot_1/app/forwarder.py:78 | `pattern.search` succeeds exactly when the pattern matches somewhere |
| Forwarder.WholeWordFound | User_bot_1/app/forwarder.py:35 | a word keyword standing alone between non-word characters is found |
| Forwarder.NoMatchInsideWord | User_bot_1/app/forwarder.py:35 | a keyword that starts with a word character does not match right after a word character |
| Forwarder.SymbolEndNeedsWordAfter | User_bot_1/app/forwarder.py:35-36 | with or without `IGNORECASE`, a keyword ending in a non-word character only matches before a word character |
| Forwarder.SensitiveImpliesInsensitive | User_bot_1/app/forwarder.py:36 | a case-sensitive match is also a case-insensitive one |
| Forwarder.InsensitiveSeesLowerCase | User_bot_1/app/forwarder.py:36 | ignoring case, whether a keyword matches depends only on the lower-cased text |
| Forwarder.Selected | User_bot_1/app/forwarder.py:76-81 | the matched list is no longer than the keyword list |
| Forwarder.FoundIndices | User_bot_1/app/forwarder.py:77-79 | the positions of the found patterns, strictly increasing |
| Forwarder.FoundIndicesComplete | User_bot_1/app/forwarder.py:77-79 | no found pattern is missing from them |
| Forwarder.SelectedAtFoundIndices | User_bot_1/app/forwarder.py:76-81 | the matched keywords are exactly the keywords at those positions, in keyword order |
| Forwarder.SelectedNonEmptyIff | User_bot_1/app/forwarder.py:76-81 | something is matched exactly when some pattern is found |
| Forwarder.SelectedMembership | User_bot_1/app/forwarder.py:76-81 | a keyword is in the result exactly when a keyword equal to it has its pattern found |
| Forwarder.AnyFound | User_bot_1/app/forwarder.py:57-61 | true exactly when some pattern in the list is found |
| Forwarder.KeywordForwarder.constructor | User_bot_1/app/forwarder.py:11-37 | the loop builds one pattern per keyword, in order |
| Forwarder.KeywordForwarder.ContainsKeywords | User_bot_1/app/forwarder.py:44-61 | false for empty text; otherwise true exactly when some pattern is found |
| Forwarder.KeywordForwarder.GetMatchedKeywords | User_bot_1/app/forwarder.py:63-81 | empty for empty text; otherwise the keywords whose pattern is found, in order; non-empty exactly when `contains_keywords` holds |
| Forwarder.ContainsIffMatched | User_bot_1/app/forwarder.py:54-81 | `contains_keywords(t)` holds exactly when `get_matched_keywords(t)` is non-empty |

## Left out

- SQLite itself: connections, schema creation, and errors in the tracker's statements. Tables are maps. Storage errors in the deduplication store are per-call flags.
- SHA-256 (`app/dedup.py:81`): the digest is a function given to the store.
- The "messages today" count of `get_stats`. It depends on SQLite's `DATE('now')`.
- Telethon calls (`get_entity`, `get_messages`, `get_input_entity`, joining, leaving, `forward_messages`): their outcomes are parameters. `leave_channel` swallows every error, so a leave is reported only as the peer that was left.
- asyncio: task creation, `wait_for` timeouts, sleeps and cancellation.
  - Interleaving is not modelled either. The worker is modelled one turn at a time, and a scheduled requeue fires as a separate step (`FireRequeue`).
  - Sleeps are taken as lasting exactly as long as asked.
  - The clock readings and `CURRENT_TIMESTAMP` are parameters.
- Forwarding.ForwardingQueue.Stop: cancelling and awaiting the worker task is not modelled. It only clears `running`, so an item in flight is not interrupted.
- Dedup.Cutoff: `processed_at` is SQLite's `CURRENT_TIMESTAMP`, in UTC, while the cutoff comes from `datetime.now()`, in local time with microseconds, and the two are compared as text (`app/dedup.py:43`, `app/dedup.py:58-62`). The model puts both on one integer clock. On a host whose clock is not UTC, cleanup is shifted by the UTC offset, and `Dedup.FreshInsertSurvives` and the sweep lemmas do not describe that.
- Forwarding.ForwardingQueue.AddLink: a `put` on a full queue suspends the caller. The model returns `Blocked` and changes nothing.
- `_to_float` and the two float settings. They depend on Python's `float()` parsing.
- `Path` normalisation in `config.py`: paths are kept as plain strings. The database path is `data_dir + "/db.sqlite3"`.
- Unicode: `\w`, `IGNORECASE` and `str.lower` are ASCII only, and `int()` accepts only ASCII digits.
- `run.py`: `main`, signal handling, session selection and logging. The handler reads the store once for its loop over the links. The `ForwardingQueue` construction at `run.py:65-70` is missing the `subscription_tracker` argument that `app/queue.py:15-23` requires, so the components are modelled and not that wiring.
- `create_session.py`: it is an interactive login script and is not part of this model.
- `app/__init__.py`: it only re-exports names.
- The eviction's leave is not logged, and the log messages in general are left out.
- Subscriptions.OldestKey: SQL leaves ties in `requested_at` open. The model breaks them by the smaller `channel_id`.
- Forwarder.KeywordForwarder.constructor: the forwarder keeps its own copy of the keyword list. A caller that mutates the list it passed in, and so changes `self.keywords` by aliasing, is not modelled.
- Config.ToBool: its own contract only bounds the stripped length of a true value. The full meaning (true exactly when the value reads `true` after stripping and lower-casing) is stated by `Config.ToBoolPadded`.
- Forwarder.Selected: its own contract bounds only the length. What it contains is stated by `Forwarder.SelectedAtFoundIndices` and `Forwarder.SelectedMembership`.
