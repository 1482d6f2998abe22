# Clique Lounge — a Dafny model of the client-side core

Clique Lounge is a social web app: a feed of posts with likes and comments,
24-hour stories, user profiles, a music player with a queue and YouTube search,
and a Pomodoro timer. Its behaviour lives in two Zustand stores (the music
player and the Pomodoro timer), a set of React Query hooks that shape backend
rows and patch the query cache, and the components that turn user gestures
into store actions.

This project models that core as pure Dafny functions over immutable records,
one module per source file:

- `MusicPlayerStore`: the queue, transport, `nextTrack`/`prevTrack` with repeat and shuffle, and the persisted slice.
- `PomodoroStore`: the countdown, session counting, long-break rule and per-identity settings in local storage. Storage is a map from key to a parsed record.
- `Posts`: page ranges, the next-page rule, viewer flags, the optimistic like and its rollback, the flattened list.
- `Comments`: the comment-list cache and the `comments_count` patch of the feed cache.
- `Stories`: grouping of stories per author in `Map` insertion order, and the split of the user's own group.
- `Playlists`: the recently-played list and the playlist row-to-track mapping.
- `Profile`: count defaulting, the follow flag, Pomodoro statistics, the avatar path.
- `FeedPost`, `StoryViewer`, `ExpandedPlayer`, `MiniPlayer`, `PomodoroTimer`, `YouTubeSearch`, `AvatarSettings`: the component logic. This covers clock displays, button routing, story navigation and timing, backend choice for playback, search outcomes and avatar validation.
- Shared modules: `Wrappers` (`Option`), `Seqs` (filter, take, flatten), `Text` (decimal strings, two-digit padding, a clock reader used to state that every clock display reads back, whitespace trimming, JavaScript's truncating `%`), and `Tracks` (the `MusicTrack` record and lookup by id).

The model keeps the code's behaviour as written, inconsistencies included.
Lemmas exhibit each inconsistency:

- `prevTrack` loses a current track that is not in the queue.
- `reset` and `tick` disagree on a long break for a negative count.
- A stored work duration of 0 is adopted while the countdown shows 25 minutes.
- The two players choose different backends for a track with both a YouTube id and an audio URL.
- The story viewer calls `onClose` right after `onNextUser`.
- The session dots assume a long break every 4 sessions.
- An unlike can drive a like count below 0, while the comment count is clamped at 0.
- The user id `"guest"` shares the guest storage key.
- Repeat "one" is ignored when a track ends.

JavaScript specifics are written out:

- Truthiness: an optional string is truthy when present and non-empty.
- `n % k === 0` is false for `k = 0`.
- `%` truncates.
- `Math.floor(Math.random() * n)` is an index computed from a roll in `[0, 1)`.
- `Date.now()` and backend results are parameters.

## Model

| member | source | states |
|---|---|---|
| MusicPlayerStore.Rehydrate | src/lib/stores/music-player-store.ts:127-134 | rehydrating a stored slice makes exactly volume, repeat and shuffle equal to it, leaves queue, track, progress, transport and expansion alone, and rehydrating the state's own slice changes nothing |
| MusicPlayerStore.Partialize | src/lib/stores/music-player-store.ts:127-134 | the stored slice is exactly the volume, the repeat mode and the shuffle flag |
| MusicPlayerStore.SetCurrentTrack | src/lib/stores/music-player-store.ts:48 | the new track always starts from progress 0 and nothing else but track and progress changes |
| MusicPlayerStore.AddToQueue | src/lib/stores/music-player-store.ts:50-51 | the old queue is a prefix of the new one, the track is the single new last entry, and nothing else changes |
| MusicPlayerStore.AddToQueueAllowsDuplicates | src/lib/stores/music-player-store.ts:50-51 | adding a track already queued raises the number of entries with its id by one: no deduplication |
| MusicPlayerStore.RemoveFromQueue | src/lib/stores/music-player-store.ts:53-56 | no entry with the id is left, every other track keeps its multiplicity, a queue without the id is returned unchanged, and nothing else changes |
| MusicPlayerStore.RemoveFromQueueKeepsOrder | src/lib/stores/music-player-store.ts:53-56 | removal acts on each part of a split queue independently, so the surviving entries keep their relative order |
| MusicPlayerStore.ClearQueue | src/lib/stores/music-player-store.ts:58 | the queue becomes empty; track, progress, transport and preferences stay |
| MusicPlayerStore.SetQueue | src/lib/stores/music-player-store.ts:60 | the queue is replaced as given, and the current track is kept even when the new queue lacks it |
| MusicPlayerStore.Play | src/lib/stores/music-player-store.ts:62 | playback is on; track, progress, queue and preferences stay |
| MusicPlayerStore.Pause | src/lib/stores/music-player-store.ts:64 | playback is off; track, progress, queue and preferences stay |
| MusicPlayerStore.Toggle | src/lib/stores/music-player-store.ts:66 | the playing flag is inverted and nothing else changes |
| MusicPlayerStore.ToggleIsPlayOrPause | src/lib/stores/music-player-store.ts:62-66 | `toggle` is `pause` while playing and `play` while paused, and two toggles restore the state |
| MusicPlayerStore.SetVolume | src/lib/stores/music-player-store.ts:68 | only the volume changes |
| MusicPlayerStore.SetProgress | src/lib/stores/music-player-store.ts:70 | only the progress changes |
| MusicPlayerStore.SetDuration | src/lib/stores/music-player-store.ts:72 | only the duration changes |
| MusicPlayerStore.SetExpanded | src/lib/stores/music-player-store.ts:125 | only the expanded flag changes, and the persisted slice is unaffected |
| MusicPlayerStore.CurrentIndex | src/lib/stores/music-player-store.ts:78-80 | the position is -1 exactly when there is no track or no queued entry has its id; otherwise the entry there has the current track's id |
| MusicPlayerStore.ShuffleIndex | src/lib/stores/music-player-store.ts:84 | the floored product of a roll in [0, 1) and the queue length is always a valid index |
| MusicPlayerStore.ShuffleIndexReaches | src/lib/stores/music-player-store.ts:84 | every index is produced by some roll in [0, 1) |
| MusicPlayerStore.NextIndex | src/lib/stores/music-player-store.ts:76-90 | on a non-empty queue the chosen position is always in range |
| MusicPlayerStore.NextTrack | src/lib/stores/music-player-store.ts:74-92 | an empty queue changes nothing; otherwise some queued entry becomes current from progress 0, and queue, transport and preferences are kept |
| MusicPlayerStore.NextTrackWraps | src/lib/stores/music-player-store.ts:85-86 | in order, at the last entry with repeat "all", the first entry comes next |
| MusicPlayerStore.NextTrackStaysAtEnd | src/lib/stores/music-player-store.ts:85-86 | in order, at the last entry without repeat "all", the last entry stays current and a further call changes nothing |
| MusicPlayerStore.NextTrackAdvances | src/lib/stores/music-player-store.ts:78-88 | in order, before the last entry the next entry follows, and with no queued current track the head is chosen |
| MusicPlayerStore.ShuffleCanPickAny | src/lib/stores/music-player-store.ts:83-84 | with shuffle on, any entry, the current one included, can come next |
| MusicPlayerStore.DuplicateIdCycles | src/lib/stores/music-player-store.ts:78-88 | lookup by id sends a queue [A, B, A] from A round B, A, B, ... and never reaches its end |
| MusicPlayerStore.PrevTrack | src/lib/stores/music-player-store.ts:94-110 | an empty queue changes nothing; past 3 seconds only the progress restarts; progress is always 0 afterwards and queue, transport and preferences stay |
| MusicPlayerStore.PrevTrackWraps | src/lib/stores/music-player-store.ts:104-109 | within 3 seconds, from the head or from no track, the last entry becomes current |
| MusicPlayerStore.PrevTrackSteps | src/lib/stores/music-player-store.ts:104-109 | within 3 seconds, entry i > 0 gives way to entry i - 1 |
| MusicPlayerStore.PrevTrackLosesUnqueuedTrack | src/lib/stores/music-player-store.ts:104-109 | a current track that is not queued reads index -2 and leaves no current track |
| MusicPlayerStore.PrevUndoesNext | src/lib/stores/music-player-store.ts:74-110 | with distinct ids and shuffle off, `prevTrack` right after `nextTrack` returns to the original entry, across the wrap as well |
| MusicPlayerStore.ToggleRepeat | src/lib/stores/music-player-store.ts:112-120 | the repeat mode always changes and nothing else does |
| MusicPlayerStore.ToggleRepeatCycle | src/lib/stores/music-player-store.ts:112-120 | the modes cycle off, all, one, and three presses return to the start |
| MusicPlayerStore.ToggleShuffle | src/lib/stores/music-player-store.ts:122-123 | the shuffle flag changes and the queue order is never touched |
| MusicPlayerStore.ToggleShuffleInvolution | src/lib/stores/music-player-store.ts:122-123 | two shuffle toggles restore the state |
| MusicPlayerStore.ThreeTrackWalk | src/lib/stores/music-player-store.ts:74-92 | a documented example of `NextTrackAdvances` and `NextTrackStaysAtEnd`: three distinct tracks in order without repeat, two skips reach the third, a third skip stays there |
| Tracks.FindIndex | src/lib/stores/music-player-store.ts:78-80 | `findIndex` by id: -1 exactly when no entry has the id, otherwise the first entry that has it |
| Tracks.FindIndexDistinct | src/lib/stores/music-player-store.ts:78-80 | with distinct ids, looking up an entry's id finds that entry |
| PomodoroStore.StorageKey | src/lib/stores/pomodoro-store.ts:36-37 | each key carries the prefix; a truthy id follows it verbatim, and a missing or empty id gets the guest key |
| PomodoroStore.StorageKeyScopes | src/lib/stores/pomodoro-store.ts:36-37 | distinct non-empty ids never share a key, but the id "guest" and the empty id share the guest key |
| PomodoroStore.Merge | src/lib/stores/pomodoro-store.ts:54-66 | for each of the seven stored fields, a value present in the patch wins and an absent one keeps the stored value |
| PomodoroStore.Load | src/lib/stores/pomodoro-store.ts:40-52 | a key with nothing stored, or with a value that does not parse to a state, reads as no record; otherwise the stored record is returned |
| PomodoroStore.MergeOverEmpty | src/lib/stores/pomodoro-store.ts:54-66 | the empty record is a unit of merging on both sides |
| PomodoroStore.Save | src/lib/stores/pomodoro-store.ts:54-66 | the identity's key afterwards holds the patch merged over what parsed there, with an unreadable value counting as empty; every other key reads as before |
| PomodoroStore.LoadUserData | src/lib/stores/pomodoro-store.ts:89-106 | with no readable record nothing changes; otherwise each setting is the stored value or its default, the mode is work, the timer is stopped, and the countdown is the stored work minutes unless they are missing or 0 |
| PomodoroStore.SetUserId | src/lib/stores/pomodoro-store.ts:83-87 | the identity is switched and the task kept; with no readable record nothing else changes, otherwise the record's settings and count are adopted with their defaults and the timer stops on a fresh work interval |
| PomodoroStore.ZeroWorkDurationMismatch | src/lib/stores/pomodoro-store.ts:94-101 | a stored work duration of 0 is adopted as the setting while the countdown shows 25 minutes |
| PomodoroStore.SaveThenSwitch | src/lib/stores/pomodoro-store.ts:54-106 | a work duration saved for an identity is read back on switching to it |
| PomodoroStore.Start | src/lib/stores/pomodoro-store.ts:108 | the timer runs; mode, countdown, count, settings, task and identity stay |
| PomodoroStore.Pause | src/lib/stores/pomodoro-store.ts:110 | the timer stops; mode, countdown, count, settings, task and identity stay |
| PomodoroStore.StartPauseRoundTrip | src/lib/stores/pomodoro-store.ts:108-110 | pausing a timer just started from stopped restores it, starting a timer just paused from running restores it, and each is idempotent |
| PomodoroStore.Reset | src/lib/stores/pomodoro-store.ts:112-121 | the timer stops and the current interval refills: work minutes in work mode, a long break only for a positive count divisible by the period, else a short break; settings are kept |
| PomodoroStore.ResetIdempotent | src/lib/stores/pomodoro-store.ts:112-121 | resetting twice is resetting once |
| PomodoroStore.Tick | src/lib/stores/pomodoro-store.ts:123-171 | idle ticks do nothing; above 1 second the countdown drops by one and nothing else changes; at 1 or below the mode flips, leaving work counts a session, the new interval fills, auto-start decides whether it runs, and the count is saved |
| PomodoroStore.TickKeepsValid | src/lib/stores/pomodoro-store.ts:123-171 | a non-negative countdown and durations stay non-negative after any tick |
| PomodoroStore.TickLongBreakRule | src/lib/stores/pomodoro-store.ts:127-153 | completing work gives a long break exactly when the new count is a multiple of the period, else a short one |
| PomodoroStore.LongAndShortBreakExamples | src/lib/stores/pomodoro-store.ts:127-153 | a documented example of `TickLongBreakRule`: with a period of 4, the 4th session earns a long break and the 2nd a short one |
| PomodoroStore.TickFromBreak | src/lib/stores/pomodoro-store.ts:127-153 | completing a break returns to full work minutes without counting, running as auto-start-work says |
| PomodoroStore.CountdownLength | src/lib/stores/pomodoro-store.ts:123-171 | from n + 1 seconds, n ticks reach 1 second without any other change or write, and the next tick completes the interval |
| PomodoroStore.ResetAgreesAfterWork | src/lib/stores/pomodoro-store.ts:112-153 | for a non-negative count, resetting the break that completing work started refills the same length |
| PomodoroStore.ResetDisagreesWithTick | src/lib/stores/pomodoro-store.ts:112-153 | from a count of -1, completing work starts a long break while resetting it gives a short one |
| PomodoroStore.SetTask | src/lib/stores/pomodoro-store.ts:173 | the task label is set; running flag, mode, countdown, count, every setting and the identity stay |
| PomodoroStore.TaskSurvives | src/lib/stores/pomodoro-store.ts:89-221 | the task label survives completing an interval, a reset, both skips and reloading the stored settings |
| PomodoroStore.SetWorkDuration | src/lib/stores/pomodoro-store.ts:175-181 | the minutes are stored and saved; the countdown refills only when idle in work mode; mode, running flag, count, the other settings, task and identity stay |
| PomodoroStore.SetBreakDuration | src/lib/stores/pomodoro-store.ts:183-189 | the minutes are stored and saved; the countdown refills only when idle in break mode; mode, running flag, count, the other settings, task and identity stay |
| PomodoroStore.SetLongBreakDuration | src/lib/stores/pomodoro-store.ts:191-194 | the minutes are stored and saved; the countdown is never touched, even during a long break; mode, running flag, count, the other settings, task and identity stay |
| PomodoroStore.SetSessionsUntilLongBreak | src/lib/stores/pomodoro-store.ts:196-199 | the period is stored and saved; the countdown is never touched; mode, running flag, count, the other settings, task and identity stay |
| PomodoroStore.DurationSettersAffectOnlyMatchingIdleMode | src/lib/stores/pomodoro-store.ts:175-189 | a duration change shows at once only when idle in the matching mode |
| PomodoroStore.SkipToBreak | src/lib/stores/pomodoro-store.ts:201-212 | from either mode a session is counted and saved, and the break it earns starts as auto-start-breaks says |
| PomodoroStore.SkipToBreakMatchesTick | src/lib/stores/pomodoro-store.ts:127-153 | skipping at the end of work gives the same break, count and storage as completing it |
| PomodoroStore.SkipToWork | src/lib/stores/pomodoro-store.ts:214-221 | full work minutes start without counting or saving, running as auto-start-work says |
| PomodoroStore.ToggleAutoStartBreaks | src/lib/stores/pomodoro-store.ts:223-227 | the flag flips and its new value is what storage holds for the identity; the save is the one-field patch; running flag, mode, countdown, count, the other settings, task and identity stay |
| PomodoroStore.ToggleAutoStartWork | src/lib/stores/pomodoro-store.ts:229-233 | the flag flips and its new value is what storage holds for the identity; the save is the one-field patch; running flag, mode, countdown, count, the other settings, task and identity stay |
| PomodoroTimer.FormatTimeShape | src/components/pomodoro/pomodoro-timer.tsx:52-58 | below 100 minutes the display is two digits, a colon and two digits |
| PomodoroTimer.FormatTime | src/components/pomodoro/pomodoro-timer.tsx:52-58 | floored minutes and the truncating `%` remainder, each padded to two characters; its shape and read-back are the two lemmas beside it |
| PomodoroTimer.FormatTimeReadsBack | src/components/pomodoro/pomodoro-timer.tsx:52-58 | the display of any non-negative time reads back as that number of seconds |
| PomodoroTimer.SecondsFieldBelow60 | src/components/pomodoro/pomodoro-timer.tsx:52-58 | the seconds field is two digits below 60 |
| PomodoroTimer.RingPercent | src/components/pomodoro/pomodoro-timer.tsx:60-63 | there is no number for a work duration of 0; otherwise, in both modes, the percentage times the work interval is 100 times the part of the work interval already elapsed; a work ring within its interval lies in [0, 100], is empty at the start and full at 0 seconds, as is a break ring at 0 seconds |
| PomodoroTimer.BreakRingUsesWorkDuration | src/components/pomodoro/pomodoro-timer.tsx:60-63 | a fresh break shows an empty ring exactly when it is as long as a work interval, and a longer break starts below 0 |
| PomodoroTimer.DotFilled | src/components/pomodoro/pomodoro-timer.tsx:204 | dot `i` is filled when `i` is below the completed count under JavaScript's truncating `% 4`; which dots that leaves empty is `DotsEmptyIff` |
| PomodoroTimer.DotsEmptyIff | src/components/pomodoro/pomodoro-timer.tsx:203-205 | all four dots are empty exactly when the count is negative or a multiple of 4 |
| PomodoroTimer.DotsIgnoreLongBreakSetting | src/components/pomodoro/pomodoro-timer.tsx:203-205 | with a long break every 2 sessions, the 2nd session earns a long break while two dots are still filled |
| PomodoroTimer.SessionLabel | src/components/pomodoro/pomodoro-timer.tsx:144 | the label reads "Session " and the JavaScript decimal of one more than the completed count: its digits from a count of -1 on, "Session 0" at -1, and a minus sign before the magnitude below that |
| PomodoroTimer.MainButton | src/components/pomodoro/pomodoro-timer.tsx:178 | the button is `pause` while running and `start` otherwise: it inverts the running flag and keeps mode, countdown, count, settings, task and identity |
| PomodoroTimer.MainButtonTwice | src/components/pomodoro/pomodoro-timer.tsx:178 | two presses return to the same state |
| PomodoroTimer.SkipButton | src/components/pomodoro/pomodoro-timer.tsx:191 | the skip button always changes the mode, through `skipToBreak` from work and `skipToWork` from a break |
| PomodoroTimer.SkipTwiceFromWork | src/components/pomodoro/pomodoro-timer.tsx:191 | two skips from work count one session and land on full work minutes |
| Posts.PageRange | src/lib/hooks/use-posts.ts:21-23 | page p requests an inclusive range of 10 rows starting at row 10p |
| Posts.PageRangesTile | src/lib/hooks/use-posts.ts:21-23 | consecutive pages request adjacent, non-overlapping ranges |
| Posts.NextPageParam | src/lib/hooks/use-posts.ts:78-81 | there is no next page exactly when the last page is short; otherwise the next page number is the count of loaded pages |
| Posts.NextPageContinues | src/lib/hooks/use-posts.ts:21-23 | while every loaded page is full, the next page starts right after the posts already shown |
| Posts.AnnotateOne | src/lib/hooks/use-posts.ts:63-76 | row fields carry over; a signed-in viewer gets the liked, following and own-post flags from the lookup sets and their id; an anonymous viewer gets all three false |
| Posts.Annotate | src/lib/hooks/use-posts.ts:63-76 | the page keeps the backend's order and length, each row annotated alone |
| Posts.MapPosts | src/lib/hooks/use-posts.ts:119-137 | an undefined cache stays undefined; otherwise the page params are kept and every page is mapped post by post |
| Posts.OptimisticLike | src/lib/hooks/use-posts.ts:119-137 | the page structure is kept; a post with the id is the same post with its like flipped and its count moved by one toward the new flag, and every other post is unchanged |
| Posts.LikeUpdate | src/lib/hooks/use-posts.ts:124-133 | the per-post step of the optimistic like; its effect is stated through `OptimisticLike` and its inverse through `LikeThenUnlikeRestores` |
| Posts.Rollback | src/lib/hooks/use-posts.ts:141-146 | a saved snapshot is written back and an absent one leaves the cache alone |
| Posts.FailedLikeRestores | src/lib/hooks/use-posts.ts:119-146 | a failed like leaves the cache as it was before the optimistic update |
| Posts.LikeThenUnlikeRestores | src/lib/hooks/use-posts.ts:119-137 | liking then unliking, when the flag passed matches the cached one, restores the cache |
| Posts.UnlikeCanGoNegative | src/lib/hooks/use-posts.ts:127-130 | unliking a post at 0 likes shows -1: there is no lower clamp |
| Posts.PostsList | src/lib/hooks/use-posts.ts:149 | the flattened pages, or an empty list while the cache is undefined |
| Posts.PostsListOfMap | src/lib/hooks/use-posts.ts:119-149 | the flattened list sees a cache update post by post, in the same order |
| Comments.Visible | src/lib/hooks/use-comments.ts:124 | the cached list, or an empty list while it is undefined |
| Comments.AddToCache | src/lib/hooks/use-comments.ts:63-68 | the new comment is appended after the loaded ones |
| Comments.DeleteFromCache | src/lib/hooks/use-comments.ts:99-104 | no comment with the id remains, every other loaded comment remains as often as it occurred, and nothing new appears |
| Comments.DeleteFromCacheKeepsOrder | src/lib/hooks/use-comments.ts:99-104 | deleting from a list split in two deletes from each part and keeps the parts in order |
| Comments.AddThenDelete | src/lib/hooks/use-comments.ts:63-104 | deleting a just-added comment is the same as deleting its id from the old list |
| Comments.AddThenDeleteRestores | src/lib/hooks/use-comments.ts:63-104 | when no loaded comment shares the id, add then delete gives back the loaded list |
| Comments.CountAfterAdd | src/lib/hooks/use-comments.ts:71-83 | an undefined cache stays undefined; the page parameters and page lengths are kept; in each page only the hook's post gains one comment, a missing count reading as 0 |
| Comments.CountAfterDelete | src/lib/hooks/use-comments.ts:107-119 | an undefined cache stays undefined; the page parameters and page lengths are kept; in each page only the hook's post loses one comment, and a count of 0 or a missing count becomes exactly 0 |
| Comments.Increment | src/lib/hooks/use-comments.ts:77 | applied to any post, the hook's post gains one comment with a missing count reading as 0, and every other post is returned unchanged |
| Comments.Decrement | src/lib/hooks/use-comments.ts:113 | applied to any post, the hook's post loses one comment, clamped to exactly 0, and every other post is returned unchanged |
| Comments.NoPostNoCountChange | src/lib/hooks/use-comments.ts:71-119 | a hook opened without a post changes no count |
| Comments.AddThenDeleteCount | src/lib/hooks/use-comments.ts:71-119 | adding then deleting gives back a present, non-negative count |
| Comments.DeleteAtZeroStaysZero | src/lib/hooks/use-comments.ts:107-119 | deleting at 0 (or at a missing count) leaves 0 |
| Stories.IndexOfUser | src/lib/hooks/use-stories.ts:69 | -1 exactly when no group has the key, otherwise the first group that has it |
| Stories.UsersDistinct | src/lib/hooks/use-stories.ts:62-86 | no author is listed twice |
| Stories.UsersMember | src/lib/hooks/use-stories.ts:62-86 | an author is listed exactly when some row is theirs |
| Stories.BucketsMeetSpec | src/lib/hooks/use-stories.ts:62-86 | after the loop there is one group per author in order of first appearance, holding that author's stories in fetch order with the viewed marks, the any-unviewed flag, and the profile from the first row |
| Stories.GroupStories | src/lib/hooks/use-stories.ts:62-86 | the grouping loop yields one group per author in order of first appearance, holding that author's marked stories in fetch order, with the any-unviewed flag and the first row's profile |
| Stories.SplitCurrentSpec | src/lib/hooks/use-stories.ts:89-97 | the user's own group is split off exactly when it exists, and no group of theirs stays in the list |
| Stories.SplitCurrent | src/lib/hooks/use-stories.ts:89-97 | without a group of the user the groups are returned unchanged; otherwise the first such group is handed out and the others keep their order, and no group is invented |
| Stories.FetchStories | src/lib/hooks/use-stories.ts:22-97 | signed out gives no groups; signed in, the user's own group is present exactly when they posted and holds their stories, unviewed flag and profile; the list holds the other authors in order of first appearance, each with exactly their stories, unviewed flag and profile |
| Stories.SplitKeys | src/lib/hooks/use-stories.ts:89-97 | after the split the remaining groups are the key list with the user removed, in order |
| Playlists.RecentKey | src/lib/hooks/use-playlists.ts:227 | a signed-in user has a key of their own under the prefix; anyone else shares the guest key |
| Playlists.LoadRecent | src/lib/hooks/use-playlists.ts:229-236 | missing or unparseable storage reads as the empty list |
| Playlists.AddToRecent | src/lib/hooks/use-playlists.ts:256-261 | the played track is first, at most 10 entries remain, and the rest are the older entries without its id, in order |
| Playlists.AddToRecentSingleCopy | src/lib/hooks/use-playlists.ts:256-261 | exactly one entry carries the played track's id |
| Playlists.AddToRecentKeepsOrder | src/lib/hooks/use-playlists.ts:256-261 | the other entries keep their relative order and the oldest fall off first |
| Playlists.AddToRecentIdempotent | src/lib/hooks/use-playlists.ts:256-261 | playing the same track twice in a row is playing it once |
| Playlists.AddToRecentlyPlayed | src/lib/hooks/use-playlists.ts:240-263 | the user's key afterwards holds the updated list, and every other key reads as before |
| Playlists.CorruptListRestarts | src/lib/hooks/use-playlists.ts:247-254 | an unparseable stored list is replaced by a one-entry list |
| Playlists.RowToTrack | src/lib/hooks/use-playlists.ts:147-155 | a null duration reads 0, a null URL reads "", album and cover are empty, and the row is never a video |
| Playlists.RowsToTracks | src/lib/hooks/use-playlists.ts:147-155 | the rows map one by one in query order |
| Profile.Counts | src/lib/hooks/use-profile.ts:109-111 | each missing count reads as 0 separately |
| Profile.CountOrZero | src/lib/hooks/use-profile.ts:109-111 | a present count is kept and a missing one reads as 0 |
| Profile.IsFollowing | src/lib/hooks/use-profile.ts:96-105 | only a signed-in viewer looking at someone else can be following, and then exactly when a follow row exists |
| Profile.TargetUser | src/lib/hooks/use-profile.ts:343-351 | a truthy explicit id wins, else the signed-in user |
| Profile.Stats | src/lib/hooks/use-profile.ts:352-363 | only completed sessions are counted and summed, and the hours are the minutes floored to whole hours |
| Profile.AvatarExtension | src/lib/hooks/use-profile.ts:199 | the extension holds no dot, and a name without a dot is its own extension |
| Profile.ExtensionAfterLastDot | src/lib/hooks/use-profile.ts:199 | the extension is the text after the last dot, whatever precedes it |
| Profile.AvatarPath | src/lib/hooks/use-profile.ts:199-201 | the path begins with the user's folder, the user id, a dash, the timestamp and a dot, and what follows is exactly as long as the file's extension |
| Profile.AvatarPathParts | src/lib/hooks/use-profile.ts:199-201 | the path lies in the user's own folder and keeps the file's extension |
| AvatarSettings.Validate | src/components/settings/avatar-settings.tsx:36-45 | a non-image is rejected first, then a file over 5 MiB; the file passes exactly when both checks pass |
| AvatarSettings.HandleFileSelect | src/components/settings/avatar-settings.tsx:31-49 | no file or a rejected one leaves the dialog alone; an accepted one is selected and previewed |
| AvatarSettings.SizeBoundary | src/components/settings/avatar-settings.tsx:42-45 | exactly 5 MiB passes and one byte more does not |
| AvatarSettings.TypeCheckedFirst | src/components/settings/avatar-settings.tsx:36-45 | an oversized non-image is reported as not an image |
| AvatarSettings.HandleClose | src/components/settings/avatar-settings.tsx:75-82 | closing drops the preview and the selection |
| AvatarSettings.OnOpenChange | src/components/settings/avatar-settings.tsx:85-88 | closing goes through the close handler, and opening keeps the selection |
| AvatarSettings.AfterUpload | src/components/settings/avatar-settings.tsx:51-61 | without a selection nothing happens; a success closes the dialog and a failure keeps it |
| AvatarSettings.AfterRemove | src/components/settings/avatar-settings.tsx:63-73 | a successful removal closes the dialog and a failure keeps it |
| AvatarSettings.RemoveNeedsNoSelection | src/components/settings/avatar-settings.tsx:51-73 | with no file selected, a removal closes the dialog while an upload does nothing |
| AvatarSettings.SelectedFilesAreValid | src/components/settings/avatar-settings.tsx:31-61 | a file gets selected exactly when the validator accepts it, and a successful upload then clears it |
| StoryViewer.Open | src/components/stories/story-viewer.tsx:35-38 | the viewer opens at the given story, unpaused, at progress 0, with an empty draft |
| StoryViewer.GoToNext | src/components/stories/story-viewer.tsx:50-57 | before the last story the index advances and the bar restarts; at the last, `onNextUser` is called when present and `onClose` is always the last call |
| StoryViewer.GoToPrev | src/components/stories/story-viewer.tsx:59-66 | after the first story the index steps back; at the first, only `onPrevUser` is called, when present |
| StoryViewer.Tick | src/components/stories/story-viewer.tsx:69-84 | paused does nothing; otherwise the bar grows by 2 and reaching 100 moves on as `goToNext` does |
| StoryViewer.SetPaused | src/components/stories/story-viewer.tsx:91-92 | only the pause flag changes |
| StoryViewer.NavigationKeepsIndexInRange | src/components/stories/story-viewer.tsx:50-84 | every transition keeps an index that is in range in range |
| StoryViewer.FiftyTicksPerStory | src/components/stories/story-viewer.tsx:24 | an unpaused story shows for exactly 50 ticks: after 49 the bar is at 98, and the 50th moves to the next story |
| StoryViewer.BarWidth | src/components/stories/story-viewer.tsx:121-126 | earlier bars are full, the current one shows the progress, later ones are empty |
| StoryViewer.BarsDescend | src/components/stories/story-viewer.tsx:121-126 | bar widths never grow from left to right |
| StoryViewer.HandleReply | src/components/stories/story-viewer.tsx:94-99 | a draft that trims to nothing does nothing; otherwise the draft is cleared and sent untrimmed for the current story when there is a handler |
| StoryViewer.ReplySentIff | src/components/stories/story-viewer.tsx:94-99 | a reply is sent exactly when the draft has a non-whitespace character |
| FeedPost.Init | src/components/feed/feed-post.tsx:26-29 | the card starts with the post's like flag and count, unsaved, with no heart |
| FeedPost.HandleLike | src/components/feed/feed-post.tsx:31-35 | the like flips, the count moves by one toward the new flag, and `onLike` is always called |
| FeedPost.HandleDoubleTap | src/components/feed/feed-post.tsx:37-45 | an unliked card becomes liked and calls `onLike`; a liked one is not unliked; the heart shows either way |
| FeedPost.ToggleSave | src/components/feed/feed-post.tsx:179 | only the saved flag flips |
| FeedPost.HideHeart | src/components/feed/feed-post.tsx:44 | the heart overlay hides and the like, count and saved flags stay |
| FeedPost.LikeTwiceRestores | src/components/feed/feed-post.tsx:31-35 | two likes restore the card |
| FeedPost.DoubleTapIdempotent | src/components/feed/feed-post.tsx:37-45 | a second double tap changes nothing and calls nothing |
| FeedPost.ToggleSaveInvolution | src/components/feed/feed-post.tsx:179 | two saves restore the card |
| FeedPost.FirstLikeAgreesWithCache | src/components/feed/feed-post.tsx:31-35 | a first like on a fresh card shows the same flag and count as the optimistic cache update it triggers |
| ExpandedPlayer.FormatTime | src/components/music/expanded-player.tsx:49-55 | more than a day shows "LIVE", anything else a clock with a colon |
| ExpandedPlayer.FormatTimeReadsBack | src/components/music/expanded-player.tsx:49-55 | up to a day the display of a non-negative time reads back as that number of seconds |
| ExpandedPlayer.ShowsLiveBadge | src/components/music/expanded-player.tsx:159 | the seek slider is replaced by the LIVE badge for a duration above one day; `LiveBadgeMatchesClock` ties it to the clock |
| ExpandedPlayer.LiveBadgeMatchesClock | src/components/music/expanded-player.tsx:159-163 | the LIVE badge replaces the seek slider exactly when the clock reads "LIVE" |
| ExpandedPlayer.HandleSeek | src/components/music/expanded-player.tsx:57-63 | a seek goes to YouTube for a YouTube track and to the audio element otherwise, when that player is mounted |
| ExpandedPlayer.IsYouTubeTrack | src/components/music/expanded-player.tsx:47 | the expanded player treats a track as YouTube when it has a non-empty YouTube id and no audio URL |
| ExpandedPlayer.HandleVolumeChange | src/components/music/expanded-player.tsx:65-72 | the store keeps the 0-1 value; YouTube receives it scaled to 0-100 and the audio element unscaled |
| ExpandedPlayer.SeekAndVolumeAgree | src/components/music/expanded-player.tsx:57-72 | for the current track, seeking and the volume slider both reach a backend or neither does, and always the same one |
| MiniPlayer.BackendRulesDisagree | src/components/music/mini-player.tsx:34 | the players disagree exactly on a track with both a YouTube id and an audio URL |
| MiniPlayer.IsYouTubeTrack | src/components/music/mini-player.tsx:34 | the mini player treats a track as YouTube whenever it has a non-empty YouTube id |
| MiniPlayer.FormatTime | src/components/music/mini-player.tsx:89-98 | no positive length shows "LIVE", anything else a clock with a colon |
| MiniPlayer.FormatTimeReadsBack | src/components/music/mini-player.tsx:89-98 | every positive time reads back from its display, with or without hours |
| MiniPlayer.ClocksAgreeUnderAnHour | src/components/music/mini-player.tsx:89-98 | below an hour both players write the same clock |
| MiniPlayer.ProgressPercent | src/components/music/mini-player.tsx:100 | the percentage times the duration is 100 times the progress; it is 0 without a positive duration and lies in [0, 100] within the track |
| MiniPlayer.ToggleMute | src/components/music/mini-player.tsx:112-115 | silence goes to full volume, any other volume to silence, and the backend command is the one a slider change to that volume sends |
| MiniPlayer.MuteTwice | src/components/music/mini-player.tsx:112-115 | muting twice restores only silence or full volume |
| MiniPlayer.HandleVolumeChange | src/components/music/mini-player.tsx:102-110 | the store keeps the 0-1 value; the mini player's own backend rule sends YouTube the value scaled to 0-100 |
| MiniPlayer.AudioEffect | src/components/music/mini-player.tsx:70-87 | the audio element acts only for a non-YouTube track with an audio URL, reloads only when the source differs, and plays or pauses as the store says |
| MiniPlayer.OnPlayRejected | src/components/music/mini-player.tsx:81-83 | a refused `play()` leaves the store paused and nothing else changed |
| MiniPlayer.RejectedPlayUndoesPlay | src/components/music/mini-player.tsx:81-83 | a refused `play()` right after playing undoes exactly that play |
| MiniPlayer.PlaylistRowsPlayAsAudio | src/components/music/mini-player.tsx:70-87 | a playlist row with a stored URL always drives the audio element, reloading only for a different source, and a row without one leaves it alone |
| MiniPlayer.OnEnded | src/components/music/mini-player.tsx:54-56 | a track ending on a non-empty queue makes some queued entry current from 0; an empty queue changes nothing |
| MiniPlayer.EndedIgnoresRepeatOne | src/components/music/mini-player.tsx:54-56 | in order (shuffle off) with distinct ids, a track ending with repeat "one" before the last entry gives way to the next entry instead of replaying |
| YouTubeSearch.HandleSearch | src/components/music/youtube-search.tsx:33-60 | a blank query does nothing; otherwise the search is marked done, a good body gives its results (missing as empty), and a failure clears them with the server's message, "Search failed" or the retry message |
| YouTubeSearch.BlankQueryIsIgnored | src/components/music/youtube-search.tsx:34 | a query of whitespace alone leaves the panel as it was, whatever the network says |
| YouTubeSearch.VideoTrack | src/components/music/youtube-search.tsx:62-75 | the chosen video becomes a track with a YouTube id, no audio and duration 0 |
| YouTubeSearch.HandlePlayVideo | src/components/music/youtube-search.tsx:62-75 | the track becomes current from 0 and plays; queue, volume, repeat, shuffle, expansion and the previous duration stay |
| YouTubeSearch.PlayersAgreeOnVideos | src/components/music/youtube-search.tsx:62-75 | both players send a search result to YouTube, unless its id is empty |
| YouTubeSearch.SearchResultDrivesYouTube | src/components/music/youtube-search.tsx:62-75 | once a search result plays, seeks and volume changes from either player go to the mounted YouTube player, and never for an empty id |
| YouTubeSearch.FreshIdPerSelection | src/components/music/youtube-search.tsx:62-75 | choosing a video at two different times gives two different track ids |

## Left out

- The Supabase queries and mutations (selects, inserts, deletes, counts, storage upload, `getUser`): their results are parameters of the modelled functions.
- The like and comment `mutationFn` backend calls, the notification inserts, and `invalidateQueries` refetches: backend side effects with no client-side logic.
- `setInterval`, `setTimeout` and React effect scheduling: the timer and story ticks are modelled as explicit `Tick` steps, and the heart overlay timeout as `FeedPost.HideHeart`.
- The audio element's `timeupdate` and `loadedmetadata` handlers: they copy floating-point times into the store, which `SetProgress` and `SetDuration` already model; times are whole seconds here.
- youtube-player.tsx: the iframe API wrapper is a foreign call, reduced to the commands in `ExpandedPlayer.Command`.
- Floating point: ratios and percentages are exact reals, without rounding, `NaN` or infinities.
- MiniPlayer.FormatTime: only whole seconds are modelled, so the floor of a fractional seconds field is not.
- PomodoroTimer.RingPercent: a work duration of 0 gives `None` in place of JavaScript's `NaN` or infinity.
- The browser `Notification` that `tick` raises after each completed interval: a foreign call with no effect on the state or the storage.
- Dates: `formatDistanceToNow`, story expiry (`expires_at`), and the week filter of the Pomodoro history are not modelled; time is a natural-number parameter.
- `decodeHtmlEntities` in the video search: it uses the browser's DOM parser, a foreign call.
- `usePlaylists`: the create and delete playlist mutations and the per-playlist track count are backend calls.
- `viewStory` and `createStory`: backend inserts with no client-side logic.
- The profile queries, `useFollowUser` and `useUpdateProfile`: backend calls; only their client-side arithmetic is modelled.
- `handleFollow` in feed-post.tsx: its `?? false` default never applies because the feed query always sets the flag.
- The layout, page, skeleton, navigation, settings-form and carousel components: rendering without state logic beyond what the modelled members cover.
- StoryViewer.HandleReply: requires the index to be in range, since the component reads `currentStory.id` and would throw on an empty or exhausted story list.
- JSON serialisation: storage maps keys to parsed values, so `JSON.parse` failure is the `None` value and `JSON.stringify` is the identity.
