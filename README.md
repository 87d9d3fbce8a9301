# heilkit/tg: a verified model of the throttling and batching core

This project is a Dafny model of the parts of the Go Telegram bot library
heilkit/tg that do real bookkeeping. It proves properties of that model.

- **The outgoing-call rate limiter** (`scheduler/`). It is a quota ledger with:
  - a global counter;
  - a per-chat counter map;
  - a queue of timed release events.

  `SyncFunc` waits until a call fits both quotas, runs the call, and records the reservation. `isPersonal` decides which chats are exempt from the per-chat quota.
- **The album aggregation managers** (`album.go`). Messages that belong to one media group reach the bot one by one, and these managers hand them to the user's handler as one batch:
  - the synced manager keeps one album buffered, and is eager and keyed;
  - the unsynced manager is a counting debounce, with one timer per arrival.

  `album.go` also holds the pure helpers around them:
  - the album key;
  - the `Contexts` list helpers;
  - `Album.WithCaption`;
  - the `message_ids` list of the bulk forward/copy/delete calls;
  - the option split of `HandleAlbum`.
- **Small pure logic of the media packages**:
  - file-type classification (`tgmedia.FromDisk`, `image.isTypeSupported`, `video.filetype`);
  - the `HH:MM:SS.mmm` duration rendering handed to ffmpeg;
  - exec-error wrapping;
  - option defaulting (`tgvideo.Opt.Defaults`, `tgimage.parseOpts`);
  - the ffmpeg scale filter and the thumbnail position;
  - reaction-type selection by rune count, and the `React` parameters.

## How the model is built

- **Time.** Time is an integer number of milliseconds passed in by the caller.
- **`SyncFunc`.** Its ticker loop is a finite sequence of clock readings. Each iteration done under the lock is one atomic step, `Scheduler.Poll`: sweep, test, then run and reserve, or wait. `Scheduler.Throttle` is the whole loop as a function.
- **The scheduler.** The scheduler is a class whose fields `global`, `perChat` and `events` its methods update in place. Each method's new state is tied to a value-level function:
  - `Reserve` for `add`;
  - `Sweep` for `handleEvents`;
  - `Tick` for one poll.

  The properties are proved about those functions.
- **The album managers.** Each album manager is a class.
  - Every goroutine or `time.AfterFunc` the source starts is an entry of a `pending` multiset of timer keys. The environment later fires that timer with `Fire`.
  - Holding the manager's mutex is the atomicity of each method.
  - The user's handler is `CallHandler`. It appends its batch to a ghost log `flushed` and returns success, an error or a panic, chosen nondeterministically.
  - The bot's error hook is a `reports` log.
- **Go semantics written out.** Go's integer `/` and `%` truncate toward zero (`Video.Quot`, `Video.Rem`). `time.Duration` arithmetic wraps around in int64 (`Video.Wrap64`).
- **Strings.** Go strings that may hold non-ASCII text are byte sequences: the reactions, and subprocess output. `unicode/utf8.RuneCountInString` is modelled by the decoder step of section 3 of RFC 3629 (`Utf8.Width`).

## Where the code and the design disagree

The model follows the code in every case below.

- **`global` is released twice for a group chat.** The design says `global` equals the sum of the unreleased events. But `add` queues two events for a group-chat admission, and `handleEvents` lowers `global` for both: the one-second global event and the one-minute per-chat event. Once both have expired, `global` has fallen by twice the count and is negative (`Scheduler.GroupAdmissionReleasedTwice`).
- **`""` is not personal.** The global event carries the chat key `""`, which is not personal. Releasing it therefore also touches and deletes a per-chat entry for `""`.
- **The per-chat limit is checked only for chats that already have an entry.** The design says no per-chat counter ever exceeds the per-chat limit. But a chat with no entry is never refused on it, even when the count alone is over the limit (`Scheduler.NoEntryNeverRefusedPerChat`).
- **The design names a third album policy.** It is a time-window policy that is not in the code modelled here.
- **The synced manager does not sort.** The design requires every policy to sort an album by message id before handing it over. The synced manager hands its buffer over in arrival order, both inline in `add` and from its timer (album.go:321-371). `TgAlbumManagers.SyncedArrivals` shows batches in arrival order whatever the ids.
- **A panic in the synced manager's inline flush is not caught.** The design says a handler panic during any flush is caught and reported. But the inline flush in `syncedManager.add` (album.go:362-364) has no `recover`, so the panic runs through `add` to its caller. `TgAlbumManagers.SyncedManager.Add` answers `Panicked` and reports nothing. Only the delayed flush (album.go:332-336) and the unsynced manager (album.go:428-434) recover.
- **The synced timer holds the lock across the handler.** The design allows the lock to be held across the user callback only on the eager inline path. The synced manager's timer also calls the handler under its mutex (album.go:325-342). The model's methods are atomic steps in both cases.

## Model

| member | source | states |
|---|---|---|
| Scheduler.ThrottleOutcome | scheduler/implementation.go:24-48 | Whatever the clock readings, the wait loop either is still waiting or has run the action exactly once and returned its result (an error included) unchanged. Once it has run, `global` is within the global limit and the limits are unchanged. An admission at the first reading is one sweep followed by one reservation at the time the action ended |
| Scheduler.SyncFunc | scheduler/implementation.go:24-48 | A nil scheduler runs the action at once. Otherwise the new ledger and the outcome are those of the poll loop over the clock readings |
| Scheduler.NilSyncFunc | scheduler/scheduler.go:56-62 | The nil scheduler runs the action and returns its result unchanged, keeping no books |
| Scheduler.AdmissionWithinLimits | scheduler/implementation.go:51-60 | After an admission, `global` is at most the global limit. The counter of a group chat that already had an entry is at most the per-chat limit |
| Scheduler.NoEntryNeverRefusedPerChat | scheduler/implementation.go:55 | A chat without an entry is admitted exactly when the global quota allows it, however large the count. A group chat then gets an entry equal to the count |
| Scheduler.PersonalChatOnlyGlobalLimit | scheduler/implementation.go:51-60 | On every reachable ledger, a personal chat is admitted exactly when the global quota allows it |
| Scheduler.PersonalIffNonNegative | scheduler/implementation.go:121-127 | The decimal rendering of an int64 chat id is personal exactly when the id is not negative, so group ids are not personal |
| Scheduler.EmptyChatNotPersonal | scheduler/implementation.go:121-127 | The empty chat key does not parse, so it is not personal |
| Scheduler.PersonalShape | scheduler/implementation.go:121-127 | A personal chat key is an optional sign followed by decimal digits |
| Scheduler.FreshGroupReserve | scheduler/implementation.go:74-94 | `add` for a group chat on an empty scheduler leaves: `global` equal to the count; one per-chat entry equal to the count; the global event at now+1s with chat "", then the per-chat event at now+1min |
| Scheduler.CustomInv | scheduler/scheduler.go:43-53 | A new scheduler satisfies the ledger invariant: the queue is sorted, and no queued event or per-chat entry belongs to a personal chat |
| Scheduler.ReserveKeepsInv | scheduler/implementation.go:68-94 | After `add`, the queue is sorted by release time again and the invariant still holds |
| Scheduler.SweepKeepsInv | scheduler/implementation.go:96-119 | `handleEvents` keeps the invariant. On a sorted queue, every event it leaves is later than `now`, so no reservation is given back early |
| Scheduler.ExpiredCount | scheduler/implementation.go:101-106 | The number of consumed events covers exactly the leading events due at `now`, stopping at the first later one |
| Scheduler.ExpiredCountUnique | scheduler/implementation.go:101-106 | No other count has that property |
| Scheduler.SweepIs | scheduler/implementation.go:96-119 | A sweep works as follows:<br>- `global` falls by the counts of all consumed events, per-chat events included;<br>- the per-chat map releases each consumed event in turn;<br>- the rest of the queue is kept in order |
| Scheduler.ReleaseAllKeys | scheduler/implementation.go:107-117 | Giving quota back never adds a personal chat to the per-chat map |
| Scheduler.ReleaseGroupAdmission | scheduler/implementation.go:107-117 | Releasing both events of a group admission deletes its per-chat entry, also when the chat key is "" |
| Scheduler.GroupAdmissionReleasedTwice | scheduler/implementation.go:107-117 | A group admission on a new scheduler, swept once its minute is over, leaves `global` at minus the count, with an empty per-chat map and an empty queue |
| Scheduler.Expire | scheduler/implementation.go:101-118 | The `handleEvents` loop consumes exactly the due prefix of the queue. It returns the counters obtained by releasing those events |
| Scheduler.Scheduler.Custom | scheduler/scheduler.go:43-53 | A new scheduler has the given limits and polling rate, nothing in use, no per-chat entry and no queued event |
| Scheduler.Scheduler.Order | scheduler/implementation.go:68-72 | The queue becomes its own sort by release time |
| Scheduler.Scheduler.Add | scheduler/implementation.go:74-94 | The new ledger is the reservation of the count globally and, for a group chat, per chat, with its release events queued in sorted order |
| Scheduler.Scheduler.HandleEvents | scheduler/implementation.go:96-119 | The new ledger is the old one swept at `now` |
| Scheduler.Scheduler.Poll | scheduler/implementation.go:32-46 | One locked iteration of the wait loop:<br>- it sweeps;<br>- if the call is admitted, it runs the action and reserves;<br>- otherwise it reports that the caller must wait |
| Scheduler.Default | scheduler/scheduler.go:27-29 | The limits are 30 calls per second and 20 per chat per minute, polled every 10 ms |
| Scheduler.Conservative | scheduler/scheduler.go:32-34 | The limits are 24 and 16 (integer 4/5), polled every 100 ms |
| Scheduler.ExtraConservative | scheduler/scheduler.go:38-40 | The limits are 15 and 10 (half), polled every 1000 ms |
| Scheduler.IsPersonal | scheduler/implementation.go:121-127 | `isPersonal`: the chat key parses as a base-10 int64 (`Text.ParseInt64`) and the value is not negative; a parse error means not personal |
| Scheduler.Ready | scheduler/implementation.go:51-60 | `isReadyFor`: refused when `global + count` exceeds the global limit, or when the chat has an entry and `entry + count` exceeds the per-chat limit; admitted otherwise |
| Scheduler.NewEvents | scheduler/implementation.go:78-90 | The release events `add` appends: the global one at now+1s with chat "", then, for a chat that is not personal, the per-chat one at now+1min |
| Scheduler.Reserve | scheduler/implementation.go:74-94 | `add` on the ledger: `global` plus the count, for a group chat the chat's entry (0 when missing) plus the count, and the queue with the new events appended, then sorted by release time |
| Scheduler.Release | scheduler/implementation.go:109-116 | Giving back one event: nothing for a personal chat; otherwise the entry (0 when missing) minus the count, deleted when it is at most 0 |
| Scheduler.ReleaseAll | scheduler/implementation.go:102-117 | Giving back a run of events, one after the other, in queue order |
| Scheduler.Sweep | scheduler/implementation.go:96-119 | `handleEvents` on the ledger: the due prefix of the queue is consumed, `global` falls by all its counts, the per-chat map releases each of its events, and the rest of the queue is kept |
| Scheduler.Tick | scheduler/implementation.go:32-46 | One iteration of the wait loop: sweep at the reading, then either reserve at the time the action ended and pass the action's result through, or wait |
| Scheduler.Throttle | scheduler/implementation.go:24-48 | The wait loop over a list of clock readings: tick at each until admitted; still waiting after the last reading is `Refused` |
| Sorting.SortBy | scheduler/implementation.go:68-72 | The specification of the library sorts (`slices.SortFunc` in `order`, `sort.Slice` at album.go:437): insertion sort by an integer key |
| Sorting.SortBySorted | scheduler/implementation.go:68-72 | The sort of the queue is sorted by key and is a permutation of its input |
| Sorting.SortByKeepsElements | album.go:436-437 | Sorting an album's contexts keeps their number and exactly their elements |
| Sorting.Sort | album.go:437 | The sort the code calls returns the specification sort of its input |
| Text.IsOneOf | tgmedia/tgmedia.go:10-17 | True exactly when some entry of the list is a suffix of the item |
| Text.ToLower | tgmedia/tgmedia.go:39 | Keeps the length and lower-cases each character on its own (ASCII letters) |
| Text.LowerIdempotent | tgmedia/tgmedia.go:39 | Lower-casing leaves no upper-case letter and is idempotent |
| Text.FormatInt | album.go:30 | `strconv.FormatInt(n, 10)` is one or more digits, after a '-' for a negative number |
| Text.ParseInt64 | scheduler/implementation.go:122 | A parsed value is within int64; overflow and malformed text give the error |
| Text.ParseFormatInt | scheduler/implementation.go:122 | Parsing the decimal rendering of an int64 gives it back |
| Text.FormatIntPrefix | album.go:454 | A decimal rendering followed by a non-digit (or nothing) determines both the number and the rest of the string |
| Text.SplitJoin | album.go:36 | Splitting on the separator undoes joining when no part contains it |
| Utf8.Width | reactions.go:40 | Each decoder step takes one to four bytes and never runs past the end |
| Utf8.RuneCount | reactions.go:40 | The rune count of a byte string is at most its length, and at least one when it is non-empty |
| Utf8.RuneCountLower | reactions.go:40 | The rune count is at least a quarter of the length, since a rune takes at most four bytes |
| Utf8.EncodeWidth | reactions.go:40 | The decoder steps over the encoding of one scalar value as a single rune |
| Utf8.RuneCountEncodeAll | reactions.go:40 | The rune count of an encoded text is its number of code points |
| Reactions.ReactionType | reactions.go:39-44 | The type is "emoji" exactly when the reaction has at most four runes, and "custom_emoji_id" exactly when it has more |
| Reactions.EncodedReactionType | reactions.go:39-44 | An encoded text of at most four code points is an emoji; a longer one is a custom emoji id |
| Reactions.ReactionTypeByLength | reactions.go:39-44 | At most four bytes is always an emoji; more than sixteen bytes never is |
| Reactions.PresetsAreEmoji | reactions.go:9-18 | Every preset reaction constant classifies as "emoji" |
| Reactions.PresetsOneRune | reactions.go:10-12 | The heart and the thumbs-up presets are one rune each |
| Reactions.ReactionJson | reactions.go:25 | The `reaction` parameter: `[{"type": "<type>", "emoji": "<reaction>"}]`, the type from `reactionType` and the reaction inserted as is |
| Reactions.ReactParams | reactions.go:22-29 | `is_big` is present, with value "true", exactly when the first optional flag is set. The other keys are `chat_id`, `message_id` and `reaction`, and `reaction` is the one-element JSON array of the type and the reaction |
| Reactions.ReactParamsIds | reactions.go:23-24 | Both the chat id and the message id parse back from the parameters |
| ExecError.WrapExecError | video/internal.go:134-139 | A nil error stays nil, and an error with empty output is returned unchanged |
| ExecError.WrapExecErrorParts | image/internal.go:8-13 | A wrapped error is exactly "err: ", the message, "\nout: " and the whole output, in that order |
| ExecError.WrapExecErrorInjective | video/internal.go:138 | Two outputs wrapped with the same error give the same text only if they are equal |
| Image.IsTypeSupported | image/internal.go:15-26 | True exactly when the lower-cased name ends with ".jpg", "jpeg" or ".png" |
| Image.IsTypeSupportedIgnoresCase | image/internal.go:19 | Names that differ only in the case of letters are treated alike |
| Image.JpegWithoutDotAccepted | image/internal.go:17 | Any name ending in "jpeg", with or without a dot, is accepted |
| Image.WebpRejected | image/internal.go:17 | A ".webp" name is rejected |
| TgMedia.Classify | tgmedia/tgmedia.go:39-59 | The kind is decided by the lower-cased name, with the lists tried in order: image, native video, copy-convertible video, convertible video. Each kind holds exactly when its list matches and no earlier list did |
| TgMedia.ClassifyIgnoresCase | tgmedia/tgmedia.go:39 | Names that differ only in the case of letters are classified alike |
| TgMedia.UpperCaseJpgIsPhoto | tgmedia/tgmedia.go:41-44 | A ".JPG" name is a photo |
| TgMedia.GifIsConvertedVideo | tgmedia/tgmedia.go:54-57 | A ".gif" name is a video to convert |
| TgMedia.Mp3IsDocument | tgmedia/tgmedia.go:59 | A ".mp3" name is a plain document |
| TgMedia.LastImageOpt | tgmedia/tgmedia.go:27-28 | The image option used is the last image option among the arguments, or none when there is none |
| TgMedia.LastVideoOpt | tgmedia/tgmedia.go:29-30 | The video option used is the last video option among the arguments, or none when there is none |
| TgMedia.ModsAppend | tgmedia/tgmedia.go:32-35 | Modifiers are collected in argument order, for each kind |
| TgMedia.ModsMembers | tgmedia/tgmedia.go:32-35 | Exactly the modifier arguments of each kind are collected |
| TgMedia.CollectOptions | tgmedia/tgmedia.go:21-37 | The argument loop yields the last option of each kind and the modifiers of each kind in order |
| TgMedia.FromDisk | tgmedia/tgmedia.go:20-60 | The upload for each kind of file:<br>- a photo gets `ConvertIfNeeded` with the image option, then the image modifiers;<br>- a native video gets only the video modifiers;<br>- the other video kinds get a copy-conversion or a conversion first;<br>- anything else is a document |
| TgVideo.WithDefaults | tgvideo/video.go:21-44 | The field values after `Defaults`: "convert", "ffmpeg", "ffprobe" and "fast" for empty names and preset, 5000 for a side at most 0, every other field and `TempDir` as they were |
| TgVideo.WithDefaultsComplete | tgvideo/video.go:21-44 | After `Defaults` no field is missing. Every field already set, and `TempDir`, is kept, so `Defaults` is idempotent |
| TgVideo.WithDefaultsFillsIn | tgvideo/video.go:25-42 | An empty program name or preset gets "convert", "ffmpeg", "ffprobe" or "fast", and a side at most 0 gets 5000 |
| TgVideo.ZeroDefaults | tgvideo/video.go:22-24 | A nil receiver gets every default |
| TgVideo.Defaults | tgvideo/video.go:21-44 | The receiver is filled in place and returned. A nil receiver is replaced by a new object filled with the defaults |
| TgImage.ParseOpts | tgimage/image.go:16-47 | With no argument the defaults are 5000, 5000, false, "convert", "" and 95. Otherwise only the first argument is read, and a nil first argument panics. A zero number or an empty string keeps the default, any other value overrides it, and `HardResize` is always copied |
| TgImage.ParseOptsFirstOnly | tgimage/image.go:28 | Arguments after the first never change the result |
| TgImage.ParseOptsIdempotent | tgimage/image.go:16-47 | Parsing already parsed options gives them back |
| TgImage.ParseDefaults | tgimage/image.go:17-27 | Passing the defaults explicitly is the same as passing nothing |
| Video.Trunc | video/internal.go:54 | Converting a float to a Duration drops the fraction toward zero |
| Video.Wrap64 | video/internal.go:54 | Duration multiplication stays within int64 and changes nothing within it |
| Video.Rem | video/internal.go:56-57 | Go's remainder takes the sign of the dividend |
| Video.PadZeros | video/internal.go:45-52 | Padding puts '0's in front up to the width and never cuts |
| Video.TrailingZeros | video/internal.go:45-52 | The loop left-pads the decimal rendering with '0's to at least the width |
| Video.Render | video/internal.go:55-57 | The `%s:%s:%s.%s` text of four fields, padded with '0's to widths 2, 2, 2 and 3 |
| Video.DurationText | video/internal.go:44-58 | What `formatDuration` returns: the whole seconds scaled to nanoseconds with int64 wrap-around; hours mod 24, minutes, seconds mod 60 and milliseconds mod 1000 by truncating division and remainder; then rendered |
| Video.FormatDuration | video/internal.go:44-58 | The rendering is the fields of the scaled duration, padded to widths 2, 2, 2 and 3 |
| Video.DurationDropsFraction | video/internal.go:54 | Only the whole seconds affect the text |
| Video.WholeSecondFields | video/internal.go:54-57 | For whole seconds that fit in nanoseconds, the fields are the hour of the day, the minute, the second and 0 ms |
| Video.DurationShape | video/internal.go:44-58 | A non-negative duration renders as twelve characters `HH:MM:SS.000`. Each field is two digits holding the hour mod 24, the minute mod 60 and the second mod 60 |
| Video.RenderWholeSeconds | video/internal.go:55-57 | Fields below 100 render as `HH:MM:SS.000` with each field read back from its two digits |
| Video.DurationTextTimeOfDay | video/internal.go:56-57 | Two durations render alike exactly when they fall at the same time of day |
| Video.SameTimeOfDaySameText | video/internal.go:56-57 | Durations at the same time of day render alike |
| Video.SameTextSameTimeOfDay | video/internal.go:56-57 | Durations that render alike are at the same time of day |
| Video.DurationWrapExample | video/internal.go:54 | Past the int64 range the duration wraps, and the millisecond field becomes -709 |
| Video.NegativeDurationExample | video/internal.go:44-58 | -1 second renders as `00:00:-1.000` |
| Video.LastIndex | video/internal.go:127 | The last index holding the byte, or -1 when the byte is absent |
| Video.Filetype | video/internal.go:126-132 | With a '.', the result is the suffix from the last '.' on. Without one, it is the base name |
| Video.FiletypeOfSuffix | video/internal.go:126-132 | A directory prefix does not change the file type of a name with a '.' |
| Video.ScaleRule | video/internal.go:175-177 | `makeScaleRule`: the fixed ffmpeg filter with the width written in decimal in the landscape branch and the height in the portrait branch |
| Video.ScaleRuleInjective | video/internal.go:175-177 | The scale filter determines both of its bounds |
| Video.ThumbnailPosition | video/internal.go:115-124 | A string position is returned unchanged, and a position of any other type gives "" |
| TgAlbum.SingleMessage | album.go:446-448 | A message belongs to no media group when its album id is empty |
| TgAlbum.MediaGroupToId | album.go:450-455 | The album key: the media group id, or the chat id and message id in decimal joined by `_` for a message outside any group |
| TgAlbum.MediaGroupToIdNonEmpty | album.go:450-455 | No message has the empty key, which the synced manager uses for "no album" |
| TgAlbum.SingleMessageKeys | album.go:446-455 | Two messages outside any group share a key exactly when they have the same chat id and message id |
| TgAlbum.ContextsText | album.go:566-573 | The result is the first non-empty text, and it is non-empty exactly when some context has a non-empty text |
| TgAlbum.IsAlbum | album.go:239-246 | True exactly when every message carries an input media, and so for no contexts |
| TgAlbum.ToFirst | album.go:598-603 | The forwarding methods give `ErrEmptyContexts` for no contexts, and otherwise exactly the first context's answer |
| TgAlbum.FirstFailure | album.go:745-749 | The contexts before it are all accepted, and the one at it fails |
| TgAlbum.All | album.go:741-751 | No contexts give `ErrEmptyContexts` without a call. Otherwise `what` is applied in order up to and including the first failure, whose error is returned, or nil after all of them |
| TgAlbum.FirstFailureAt | album.go:745-749 | It is the only index the loop can stop at |
| TgAlbum.FirstEditFailure | album.go:647-651 | The pairs before it are all edited, and the one at it fails |
| TgAlbum.EditAll | album.go:643-653 | Lists of different lengths give `ErrEmptyContexts` without a call. Otherwise each context is edited with its payload in order, stopping at the first error |
| TgAlbum.FirstEditFailureAt | album.go:647-651 | It is the only index the loop can stop at |
| TgAlbum.EmptyAllEditAll | album.go:643-653 | Called on no contexts, `EditAll` with no payloads makes no call and returns nil, while `All` makes no call and returns `ErrEmptyContexts` |
| TgAlbum.WithCaption | album.go:198-209 | The same album is returned. Every item after the first gets an empty caption, and the first, if it does not appear again, gets the text |
| TgAlbum.IdStrings | album.go:28-31 | One decimal id per message, in order |
| TgAlbum.MessageIds | album.go:28-31 | The loop collects the decimal ids in message order |
| TgAlbum.IdListRoundTrip | album.go:36 | The bracketed, comma-joined id list reads back as exactly the messages' ids, in order |
| TgAlbum.TransferParams | album.go:19-40 | A nil recipient gives `ErrBadRecipient` and no messages give `ErrEmptyMessage`; otherwise the request is accepted. Its keys are `chat_id`, `from_chat_id` and `message_ids` plus those the send options write. Every send-option entry is present with its value. The target chat and the first message's chat are kept unless a send option replaces them |
| TgAlbum.DeleteParams | album.go:155-172 | The request is refused exactly when there are no messages. Its keys are `chat_id` and `message_ids` plus those the send options write, every send-option entry present with its value. The first message's chat is kept unless a send option replaces it |
| TgAlbum.TransferIds | album.go:90-111 | An accepted transfer's id list names every message, in order, unless a send option replaces `message_ids` |
| TgAlbum.DeleteIds | album.go:155-172 | An accepted deletion's id list names every message, in order, unless a send option replaces `message_ids` |
| TgAlbum.OptionsPartition | album.go:267-274 | Every option lands in exactly one of the endpoint and middleware lists, in order |
| TgAlbum.SplitOptions | album.go:265-277 | The options are split by kind, with `OnMedia` used when no endpoint is given |
| TgAlbum.HandleAlbum | album.go:264-292 | A synchronous bot gets the synced manager and any other the unsynced one, both with a 500 ms delay. There is at least one endpoint, each with all the middlewares |
| TgAlbumManagers.CallHandler | album.go:363 | Each handler call adds its batch to the log of batches handled |
| TgAlbumManagers.SyncedManager.constructor | album.go:310-319 | A new synced manager has no current key, an empty buffer and no timer |
| TgAlbumManagers.SyncedManager.Add | album.go:351-371 | Same key: the context is appended, with no handler call, no timer and a nil error. New key: a non-empty buffer goes to the handler inline, and its error is returned or its panic passes through. Unless the handler panicked, the buffer becomes exactly the new context and one timer is armed for the new key |
| TgAlbumManagers.SyncedManager.Fire | album.go:321-349 | A timer consumes itself. It does nothing if the buffer is empty or its key is no longer current. Otherwise it calls the handler once and reports an error or a panic against the first context. The buffer is cleared unless the handler panicked |
| TgAlbumManagers.SyncedManager.FlushBuffer | album.go:332-347 | The delayed flush hands the buffer over once and reports against its first context. A panic leaves the buffer and key as they were |
| TgAlbumManagers.UnsyncedManager.constructor | album.go:385-392 | A new unsynced manager has no waiting album and no timer |
| TgAlbumManagers.UnsyncedManager.Add | album.go:394-414 | It creates the album with count 1, or appends the context and adds 1 to the count. It arms exactly one timer and always returns nil |
| TgAlbumManagers.UnsyncedManager.Fire | album.go:416-444 | An unknown album is ignored, and a timer that is not its album's last only counts the album down. The last one hands the album over once, sorted by message id, and deletes it however the handler ends |
| TgAlbumManagers.UnsyncedManager.CountDown | album.go:424-426 | A timer that is not the last lowers its album's count by one |
| TgAlbumManagers.UnsyncedManager.Handover | album.go:427-443 | The last timer hands over the sorted album, reports against its first context, and deletes it |
| TgAlbumManagers.NoTimerWaiting | album.go:420-423 | A timer for an album that is not waiting consumes nothing |
| TgAlbumManagers.CountDownWaiting | album.go:424-426 | Counting down keeps each album's count equal to its number of pending timers |
| TgAlbumManagers.FlushWaiting | album.go:427-443 | Handing over the last album keeps the invariant, and every batch handled is one album sorted by message id |
| TgAlbumManagers.ArriveWaiting | album.go:398-411 | An arrival keeps each album's count equal to its number of pending timers |
| TgAlbumManagers.SortedBatch | album.go:436-437 | A sorted album is still one non-empty album, and it is sorted by message id |
| TgAlbumManagers.SyncedArrivals | album.go:351-371 | Arrivals A, A, B, A flush {A, A} inline when B arrives and {B} when A returns. The last A stays buffered, with three timers armed |
| TgAlbumManagers.SyncedTimers | album.go:321-349 | Timers are matched by key only, so the first timer of A flushes the second A album early, and the later timers do nothing |
| TgAlbumManagers.SyncedRun | album.go:321-371 | The whole run hands over {A, A}, {B} and {A}, the last one at the first timer, and ends idle |
| TgAlbumManagers.DebounceArrivals | album.go:394-414 | Arrivals of one album make one waiting unit, holding them in arrival order, with one timer each |
| TgAlbumManagers.DebounceRun | album.go:394-444 | Nothing reaches the handler before the last timer. That timer hands over all the arrivals, sorted by message id, in one batch, and the manager is empty again |

## Left out

- Concurrency and real time: the goroutines, `time.Sleep`, `time.AfterFunc`, the ticker and the mutexes. They are replaced by a clock passed in, explicit pending timers fired by the caller, and methods that are atomic steps.
- The time-window album policy named by the design. It is not defined in the code modelled here.
- The network. `Bot.Raw` and the JSON decoding of replies in `ForwardMessages`, `CopyMessages`, `DeleteMessages` and `React` are left out; the model stops at the request parameters.
- The `Contexts` methods that only forward to the first context (`Chat`, `Send`, `Reply`, `Edit` and the others). Only their empty-list guard is modelled, by `TgAlbum.ToFirst`.
- The subprocess and filesystem code: the ffmpeg, ffprobe and ImageMagick wrappers and all modifiers. This includes `getFileMetadata`, `getSetMetadata`, `formatPreview` and the thumbnail makers. Also local.go (file copy and move) and log.go (logging).
- `getFunctionName`. It relies on runtime reflection.
- Scheduler.SyncFunc: the Go loop waits for ever. The model takes a finite list of clock readings and answers `Refused` when the call is still waiting after the last one.
- Scheduler.Scheduler.Add: `time.Now()` inside `add` is the parameter `now` (the poll passes the clock reading taken after the action returned). The polling rate is kept but not used to space the readings.
- Sorting.SortBy: Go's `slices.SortFunc` and `sort.Slice` are not stable; the model uses one stable insertion sort. Events or contexts with equal keys may be ordered differently by Go.
- Text.ToLower: `strings.ToLower` is modelled on ASCII letters only; Unicode case mapping is not modelled.
- Video.Filetype: `filepath.Base` is an abstract function passed in.
- Video.DurationText: a float64 is a real number. Float rounding in `duration * pos` and in the conversion to `time.Duration` is not modelled. A float outside the int64 range, whose conversion Go leaves implementation-defined, is excluded by the precondition.
- Video.ThumbnailPosition: states only the string and other-type branches. The float branch is computed through `DurationText` with the same float caveat.
- TgAlbum.TransferParams: `extractOptions` and `embedSendOptions` are not part of this model. The entries they add to the request are an abstract map passed in, and the model states only that it is written over the base keys.
- TgAlbum.DeleteParams: likewise, the send-option entries are an abstract map written over the base keys.
- TgMedia.FromDisk: the fresh `&image.Opt{}` and `&video.Opt{}` it starts from when no option is given are written `None`.
- TgAlbumManagers.CallHandler: the handler's work and its result are not modelled; only the batch it receives and whether it returned, failed or panicked are.
- The bot's error hook is a log of reports. Which bot receives a report (the manager's bot, or the context's bot in the unsynced manager) is not distinguished.
