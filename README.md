# tacobot music queue and command rules, in Dafny

tacobot is a Discord bot. This project models its music core and proves properties of the model.

The music core has two parts:
- the `SongQueue` of `Song`s: a 1-indexed list of tracks that the commands mutate in place, plus the plain-text format the bot uses to save named queues;
- the `MusicPlayer`'s position state machine: the track position `pos`, the flags `skipped`, `looped`, `queue_looped`, `shuffle_on_loop` and `should_be_paused`, the completion callback `increment_pos`, and the handlers that offset `pos` for that callback (`skip`, `back`, `jump`, `remove`, `removerange`, `clear`, `play`, `leave`).

Around the core sit the small decision and formatting rules of the cogs:
- the music cog's player registry, caller check and summon rules;
- the yes/no confirmation, hex colour codes and mentions of the helper module;
- the anagram finder, `print` redirection and currency refresh rule of the utilities cog;
- the `%annoy` game;
- Mudae's date-format list, claim-count parser and `%exchanges` arguments;
- `%cleandm` and `%updatenotes`.

Each module follows one source file:

| module | file | form |
|---|---|---|
| `Songs` | `songs.dfy` | `SongQueue` class over `seq<Song>`; `Song` formatting functions |
| `SavedQueues` | `savedqueues.dfy` | the saved-queue text format, its lookup, name listing and the save splice |
| `Paging` | `pages.dfy` | pages of the `%queue` message, arrows, navigation |
| `Player` | `player.dfy` | `MusicPlayer` class; position functions and their lemmas |
| `MusicCog` | `music.dfy` | `Music` class (player per guild); caller and summon rules |
| `Helper` | `helper.dfy` | pure helpers |
| `Utils` | `utils.dfy` | `UtilsCog` class; anagram grouping; currency rule |
| `Misc` | `misc.dfy` | `MiscCog` class; annoy transitions |
| `Mudae` | `mudae.dfy` | format-list methods; claim parser; date fix-up |
| `Basic` | `basic.dfy` | `%cleandm` loop, `%updatenotes` formatting |
| `Text`, `Wrappers` | `text.dfy`, `wrappers.dfy` | string helpers with Python's semantics; `Option`, `Result` |

Some conventions hold across the model:
- A Discord message, member or channel becomes the few fields the rule reads.
- The voice client becomes the flags `connected`, `playing` and `paused`.
- `vc.stop()` becomes "the callback `increment_pos` is due" (`advancePending`). `MusicPlayer.Finish` runs that callback.
- Files and other I/O become parameters, and so does the user's answer to a confirmation.
- Discord objects compare by id.
- A valid player (`Player.ValidState`): `shuffle_on_loop` implies `queue_looped`; the client is never both playing and paused; only a connected client plays, and then `pos` is a track of the queue; `pos` is never below -1. Every handler keeps a valid player valid; `removerange` does so when its bounds are track numbers.

## Model

| member | source | states |
|---|---|---|
| `Songs.DurationStrFields` | src/bot/cogs/classes/songs.py:68-83 | the duration string has three fields when an hour is left and two otherwise; every field is digits; seconds have two digits and are below 60; minutes*60+seconds gives back the duration modulo one day |
| `Songs.DurationStrExample` | src/bot/cogs/classes/songs.py:73-81 | 3700 seconds prints as `1:61:40`, because the minutes field counts total minutes |
| `Songs.TruncTitleCases` | src/bot/cogs/classes/songs.py:121-137 | for a title without brackets: the whole title when it fits; else the first `max_chars` characters plus `…`, at most `max_chars+1` long; a negative bound drops the last characters, as Python slicing does |
| `Songs.TruncStrFits` | src/bot/cogs/classes/songs.py:121-137 | a bound the title fits in gives the same link as `str(song)` |
| `Songs.QueueEqualsSpec` | src/bot/cogs/classes/songs.py:261-267 | queues are equal iff they have the same length and the same video at every position; the comparison raises exactly when the other queue is a proper prefix |
| `Songs.EqualsFromSpec` | src/bot/cogs/classes/songs.py:264-265 | the position-by-position comparison from position `i` holds iff every later position that both queues have is the same video |
| `Songs.Ids` | src/bot/cogs/classes/songs.py:247-249 | as many ids as songs, each the id of the song at that position |
| `Songs.SegmentOf` | src/bot/cogs/classes/songs.py:295-307 | the songs at positions `start..min(end, len)`, or none when `start` is out of range |
| `Songs.Swapped` | src/bot/cogs/classes/songs.py:375-378 | the two entries change places; every other entry stays |
| `Songs.SongQueue.constructor` | src/bot/cogs/classes/songs.py:220-226 | a new queue is empty and its name is the given name with its braces stripped |
| `Songs.SongQueue.SetName` | src/bot/cogs/classes/songs.py:232-235 | the name becomes the new name with every `{` and `}` removed; the songs are unchanged |
| `Songs.SongQueue.At` | src/bot/cogs/classes/songs.py:284-293 | the song at index `pos-1` when `1 <= pos <= len`, otherwise `IndexError(pos)` |
| `Songs.SongQueue.Segment` | src/bot/cogs/classes/songs.py:295-307 | returns a fresh unnamed queue holding `SegmentOf(start, end)`; this queue is unchanged |
| `Songs.SongQueue.AddSong` | src/bot/cogs/classes/songs.py:311-312 | the song is appended at the end |
| `Songs.SongQueue.GetSongPos` | src/bot/cogs/classes/songs.py:325-335 | the smallest position in `[1, len]` whose lower-cased title contains the lower-cased search; `None` iff no title does |
| `Songs.SongQueue.PopSong` | src/bot/cogs/classes/songs.py:337-342 | an out-of-range position raises and changes nothing; otherwise it returns that song and removes exactly it |
| `Songs.PopSongSpec` | src/bot/cogs/classes/songs.py:337-342 | after a pop the other songs keep their order, and the multiset loses exactly the popped song |
| `Songs.SongQueue.PopRange` | src/bot/cogs/classes/songs.py:344-352 | removes and returns Python's slice `[pos1-1:pos2]` |
| `Songs.PopRangeIsSegment` | src/bot/cogs/classes/songs.py:344-352 | for `pos1 >= 1` and `pos2 >= 0`, `pop_range` returns what `segment` would copy |
| `Songs.PopRangeNegativeEnd` | src/bot/cogs/classes/songs.py:349 | `pop_range(1, -1)` takes every song but the last |
| `Songs.PopRangeFromZero` | src/bot/cogs/classes/songs.py:349 | `pop_range(0, len)` starts the slice at index -1 and removes only the last song |
| `Songs.SongQueue.ClearQueue` | src/bot/cogs/classes/songs.py:364-368 | returns the old length and leaves the queue empty |
| `Songs.SongQueue.SwapPos` | src/bot/cogs/classes/songs.py:370-380 | either position out of range raises with the queue unchanged; otherwise it returns both songs and swaps them |
| `Songs.SwappedTwice` | src/bot/cogs/classes/songs.py:370-380 | swapping the same positions again restores the queue |
| `Songs.SwappedSameSongs` | src/bot/cogs/classes/songs.py:370-380 | a swap keeps the multiset of songs |
| `Songs.SongQueue.Shuffle` | src/bot/cogs/classes/songs.py:382-390 | the first `max(0, pos)` songs are unchanged and the rest are a permutation of what was there |
| `Songs.ShuffleSameSongs` | src/bot/cogs/classes/songs.py:382-390 | a shuffled queue holds the same multiset of songs |
| `Songs.ReprRoundTrip` | src/bot/cogs/classes/songs.py:237-250 | for a name without braces or line breaks, looking up the name in the text `__repr__` writes gives the name and exactly the ids, `[]` for an empty queue |
| `SavedQueues.VideoIdPlain` | src/bot/cogs/classes/songs.py:215 | a video id holds no brace, newline or other character that could break the format |
| `Text.RemoveTwo` | src/bot/cogs/classes/songs.py:232-235 | the queue-name setter (braces) and the title cleaning of `truncstr` (songs.py:135, square brackets) leave neither character, and change nothing in a string that has neither |
| `SavedQueues.MatchBlock` | src/bot/cogs/classes/songs.py:216 | matches `{name}{`, with the name compared case-insensitively, and then the ids |
| `SavedQueues.SearchLeftmost` | src/bot/cogs/classes/songs.py:446-453 | the search's span starts where the block pattern matches, with no match between `i` and that start |
| `SavedQueues.SearchNoneIff` | src/bot/cogs/classes/songs.py:446-453 | the search finds nothing iff the block pattern matches at no position from `i` on |
| `SavedQueues.GetReprSpanFirst` | src/bot/cogs/classes/songs.py:477-493 | the span found is a match of the block pattern with none before it in the file; `None` iff the pattern matches nowhere |
| `SavedQueues.ParseRepr` | src/bot/cogs/classes/songs.py:462-474 | parsing a block that `__repr__` wrote gives back its name and its ids |
| `SavedQueues.OneLineBlockRaises` | src/bot/cogs/classes/songs.py:462-472 | the one-line block `{q}{}` matches the pattern but makes the parser raise `IndexError` |
| `SavedQueues.MatchBlockRepr` | src/bot/cogs/classes/songs.py:216 | the pattern for a name matches a block saved under that name up to case, whatever follows it |
| `SavedQueues.NoMatchInside` | src/bot/cogs/classes/songs.py:216 | the pattern for a name never matches inside a block saved under another name |
| `SavedQueues.FirstNamed` | src/bot/cogs/classes/songs.py:438-443 | the index of the first block whose name equals the query up to case; `None` iff there is none |
| `SavedQueues.GetReprSpanSerialized` | src/bot/cogs/classes/songs.py:477-493 | in a file of well-formed blocks, the span found is exactly that of the first block saved under the name |
| `SavedQueues.GetSavedContentsSerialized` | src/bot/cogs/classes/songs.py:438-474 | in a file of well-formed blocks, the lookup yields the first block saved under the name (its name and ids), or `None` iff there is none |
| `SavedQueues.GetSavedContentsRepr` | src/bot/cogs/classes/songs.py:438-474 | looking up any case variant of the name in a single written block gives the saved name and the ids |
| `SavedQueues.BlockNames` | src/bot/cogs/classes/songs.py:429-435 | one written block contributes exactly its name to `get_names` |
| `SavedQueues.GetNamesSerialized` | src/bot/cogs/classes/songs.py:429-435 | `get_names` on a file of well-formed blocks lists the blocks' names in order |
| `SavedQueues.SaveFileText` | src/bot/cogs/classes/musicplayer.py:1058-1079 | for a name without braces or line breaks, the text `savequeue` writes is the file of the blocks after the save |
| `SavedQueues.SaveFileNew` | src/bot/cogs/classes/musicplayer.py:1060-1079 | for a name without braces or line breaks, saving under a name that is not saved yet appends the new block at the end of the file |
| `SavedQueues.SaveFileReplace` | src/bot/cogs/classes/musicplayer.py:1034-1079 | after a yes for a saved name, its first block is removed and the new block is appended at the end |
| `SavedQueues.SaveFileAt` | src/bot/cogs/classes/musicplayer.py:1058-1074 | a confirmed save cuts out the span found for the existing name and appends the new block |
| `SavedQueues.SpliceText` | src/bot/cogs/classes/musicplayer.py:1064-1073 | cutting block `k` out at its span and appending a block gives the file of the other blocks plus that block |
| `SavedQueues.SavedAfterShape` | src/bot/cogs/classes/musicplayer.py:1034-1074 | after a save no earlier block carries the name, and the blocks stay well-formed and distinct up to case |
| `SavedQueues.SaveSpanFound` | src/bot/cogs/classes/musicplayer.py:1058-1066 | in a file the bot wrote, the block a confirmed save replaces is found again under the name it was saved with |
| `SavedQueues.SaveSpanMissing` | src/bot/cogs/classes/musicplayer.py:1058-1066 | in a hand-edited file with a block named `a}b`, the lookup gives the name `a`, which finds no span, and nothing is written |
| `SavedQueues.SaveFileSerialized` | src/bot/cogs/classes/musicplayer.py:1034-1079 | for a name without braces or line breaks, a save keeps one block per name, and looking the name up afterwards gives the queue just saved |
| `SavedQueues.CleanNameBraces` | src/bot/cogs/classes/songs.py:232-235 | the setter turns `A{b}` into `Ab` |
| `SavedQueues.CleanNameValid` | src/bot/cogs/classes/songs.py:232-235 | a name without line breaks has no braces and no line breaks once the setter has cleaned it |
| `SavedQueues.SavedAbMissesBraceName` | src/bot/cogs/classes/songs.py:438-474 | the name `A{b}`, looked up as given, finds nothing in the file holding `ab` |
| `SavedQueues.SaveBraceNameDuplicates` | src/bot/cogs/classes/musicplayer.py:1034-1073 | saving `A{b}` to the file holding `ab` asks nothing and appends a block `Ab`, so the file holds two blocks that match the same name up to case |
| `SavedQueues.SaveFileFixedSerialized` | src/bot/cogs/classes/musicplayer.py:1034-1079 | looking up the cleaned name, a save of any name without line breaks keeps one block per name, and looking the cleaned name up afterwards gives the queue just saved |
| `SavedQueues.SaveBraceNameFixed` | src/bot/cogs/classes/musicplayer.py:1034-1079 | looking up the cleaned name, saving `A{b}` to the file holding `ab` replaces that block by `Ab` |
| `Paging.NumPages` | src/bot/cogs/classes/musicplayer.py:134 | `(n-1)//10 + 1` with floor division: zero tracks give 0, otherwise the number of ten-track pages |
| `Paging.PageCount` | src/bot/cogs/classes/musicplayer.py:143-171 | one page for up to ten tracks, even for an empty queue; otherwise `NumPages(n)` |
| `Paging.LineText` | src/bot/cogs/classes/musicplayer.py:126-129 | the line starts with `**` (bold) iff it is the current track |
| `Paging.LineBodyNumber` | src/bot/cogs/classes/musicplayer.py:126-129 | the digits before the first `)` of a line read back as the track position |
| `Paging.LineTextFrame` | src/bot/cogs/classes/musicplayer.py:126-129 | the current track's line is its plain text framed by `**` and `** 👈`, and the frame comes off again |
| `Paging.LineTextParts` | src/bot/cogs/classes/musicplayer.py:126-129 | the line is `pos) title | duration`, bold with the pointing hand when current; the number before `)` reads back as the position |
| `Paging.PageLines` | src/bot/cogs/classes/musicplayer.py:122-130 | one line per song, numbered from `start`, marked current exactly at the player's position |
| `Paging.QueuePages` | src/bot/cogs/classes/musicplayer.py:143-171 | `PageCount(n)` pages starting at tracks 1, 11, 21, … |
| `Paging.PagesNumbered` | src/bot/cogs/classes/musicplayer.py:133-139 | page `k` reads `k+1` of the page count, and only the last page says the queue ends |
| `Paging.PageSize` | src/bot/cogs/classes/musicplayer.py:113-114 | every page but the last holds ten tracks, and the last holds the rest |
| `Paging.TrackOnPage` | src/bot/cogs/classes/musicplayer.py:122-130 | track `p` is line `(p-1)%10` of page `(p-1)//10`, marked iff `p == pos` |
| `Paging.PyIndex` | src/bot/cogs/classes/musicplayer.py:666 | Python list indexing: a negative index counts from the end, and out of range is `None` |
| `Paging.InitIndexShown` | src/bot/cogs/classes/musicplayer.py:665-666 | for every position from -9 on, the opening index names a page: the current track's page inside the queue, the last page otherwise |
| `Paging.QueueArrows` | src/bot/cogs/classes/musicplayer.py:671-678 | exactly the arrows for the page count, each once: 🔄 always, ⬆⬇ from two pages, ⏫⏬ from three |
| `Paging.UpdateArrowsGrow` | src/bot/cogs/classes/musicplayer.py:188-205 | starting from the arrows of `c0` pages, the update leaves the arrows of the larger count |
| `Paging.ListenerStepValid` | src/bot/cogs/classes/musicplayer.py:232-254 | for every position from -9 on, every index the listener holds names a page, so `pages[current_index]` does not raise |
| `Paging.NavigateClamps` | src/bot/cogs/classes/musicplayer.py:238-247 | ⬆ and ⬇ move one page and stop at the ends; ⏫ goes to 0 and ⏬ to the last page |
| `Paging.NavigateFromLastAlias` | src/bot/cogs/classes/musicplayer.py:238-243 | from index -1 (the last page on screen) ⬆ and ⬇ both go to the first page |
| `Paging.NavigateShownClamps` | src/bot/cogs/classes/musicplayer.py:238-243 | with the index resolved as `pages[index]` resolves it, ⬆ and ⬇ move one page from the page on screen |
| `Player.NextPos` | src/bot/cogs/classes/musicplayer.py:407-434 | looping the track repeats it unless skipped; otherwise `pos+1`; a looped queue wraps past the end to 1 and from 0 to the last track |
| `Player.SkipLands` | src/bot/cogs/classes/musicplayer.py:683-688 | after `skip` the callback lands on the next track, or on track 1 when the queue loops at the end |
| `Player.JumpLands` | src/bot/cogs/classes/musicplayer.py:753-762 | after `jump`'s offset of `target-1` and the stop, the callback lands on the target in every loop setting |
| `Player.BackLands` | src/bot/cogs/classes/musicplayer.py:699-714 | after `back`'s offset of `pos-2` the callback lands on `pos-1`, except that a looped queue wraps to the last track |
| `Player.RemoveCurrentLands` | src/bot/cogs/classes/musicplayer.py:857-868 | after removing the playing track, the callback returns to the track that moved into its place |
| `Player.OffsetLandsEarlyWhenLooped` | src/bot/cogs/classes/musicplayer.py:413-418 | with the track looped, an offset by one without `skipped` comes back one track early |
| `Player.ResumeAfterOffsetExact` | src/bot/cogs/classes/musicplayer.py:413-418 | with `skipped` set, an offset by one comes back to `pos` in every loop setting |
| `Player.RangePosNegativeBounds` | src/bot/cogs/classes/musicplayer.py:880-895 | playing track 1 of 5, `removerange(-3, -1)` removes tracks 2-4, and `pos` becomes -2 while track 1 plays on |
| `Player.RangePosFixedKeepsTrack` | src/bot/cogs/classes/musicplayer.py:880-895 | with the adjustment taken from the removed slice, a surviving current track stays at the new position |
| `Player.RangePosAgrees` | src/bot/cogs/classes/musicplayer.py:880-895 | for `pos1 >= 1` and `pos2 >= 0` the source's adjustment equals the slice-based one |
| `Player.NamesUnique` | src/bot/cogs/classes/musicplayer.py:730-751 | a request names at most one track, and names one iff it is not rejected |
| `Player.RemoveKeepsCurrent` | src/bot/cogs/classes/musicplayer.py:857-868 | removing another track keeps the current track at the adjusted position |
| `Player.AfterRemove` | src/bot/cogs/classes/musicplayer.py:857-868 | `pos` drops by one when the removed track was before it, or was the current track while engaged (then with a stop); otherwise it is unchanged |
| `Player.AfterRemoveValid` | src/bot/cogs/classes/musicplayer.py:857-868 | removing a track of the queue keeps the player state valid |
| `Player.QueueOpensInValidState` | src/bot/cogs/classes/musicplayer.py:660-666 | in every valid state `%queue` finds the page it opens on |
| `Player.QueueRaisesAfterNegativeRange` | src/bot/cogs/classes/musicplayer.py:660-666 | as written, track 1 of 21 playing and `removerange(-19, -9)` leave `pos` at -10 with one page, and `%queue` indexes `pages[-2]` |
| `Player.RangePosFixedQueueShown` | src/bot/cogs/classes/musicplayer.py:880-895 | with the slice-based adjustment the position stays at -1 or above, and `%queue` finds its page |
| `Player.RangePosStays` | src/bot/cogs/classes/musicplayer.py:880-895 | with track numbers as bounds, the position stays at -1 or above, and a track that was not removed stays inside the shorter queue |
| `Player.AfterRemoveRangeValid` | src/bot/cogs/classes/musicplayer.py:880-895 | with track numbers as bounds, `removerange` keeps the player state valid |
| `Player.AfterRemoveRangeInvalid` | src/bot/cogs/classes/musicplayer.py:880-895 | with negative bounds the playing position can leave the queue |
| `Player.MusicPlayer.constructor` | src/bot/cogs/classes/musicplayer.py:49-94 | a new player: position 1, an empty queue named `<guild> Queue`, every flag off |
| `Player.MusicPlayer.Stop` | src/bot/cogs/classes/musicplayer.py:688 | a playing or paused track ends and its callback becomes due; a valid player stays valid |
| `Player.MusicPlayer.Pause` | src/bot/cogs/classes/musicplayer.py:600-605 | the voice client pauses a playing track, and `should_be_paused` is set; a valid player stays valid |
| `Player.MusicPlayer.Resume` | src/bot/cogs/classes/musicplayer.py:607-612 | a paused track resumes, and `should_be_paused` is cleared; a valid player stays valid |
| `Player.MusicPlayer.PlayNext` | src/bot/cogs/classes/musicplayer.py:445-498 | an idle, connected player plays the track at `pos` when it exists and humans listen, paused at once if `should_be_paused`; otherwise nothing changes; a valid player stays valid |
| `Player.MusicPlayer.IncrementPos` | src/bot/cogs/classes/musicplayer.py:407-434 | `pos` becomes `NextPos(...)`, `skipped` is cleared, and a wrap with `shuffle_on_loop` shuffles the whole queue; a valid player stays valid |
| `Player.MusicPlayer.Finish` | src/bot/cogs/classes/musicplayer.py:489-490 | the track ends and `increment_pos` runs; a valid player stays valid |
| `Player.MusicPlayer.Join` | src/bot/cogs/classes/musicplayer.py:528-538 | the client connects, and the position and queue are kept; a valid player stays valid |
| `Player.MusicPlayer.Play` | src/bot/cogs/classes/musicplayer.py:540-598 | no query or a failed download changes nothing; otherwise the song is appended, and an idle player moves to it; a valid player stays valid |
| `Player.MusicPlayer.Leave` | src/bot/cogs/classes/musicplayer.py:614-624 | an active track is stopped and `pos` offset by one; the client disconnects; a valid player stays valid |
| `Player.MusicPlayer.Skip` | src/bot/cogs/classes/musicplayer.py:683-697 | `skipped` is set and the track stopped; a valid player stays valid |
| `Player.MusicPlayer.Back` | src/bot/cogs/classes/musicplayer.py:699-724 | from `pos > 0`: `skipped`, and `pos-2` with a stop when active, else `pos-1`; at 0 nothing changes; a valid player stays valid |
| `Player.MusicPlayer.Resolve` | src/bot/cogs/classes/musicplayer.py:730-751 | a position in `[1, numtracks]`, or the first title match, otherwise an error |
| `Player.MusicPlayer.Jump` | src/bot/cogs/classes/musicplayer.py:726-770 | an unresolvable request changes nothing; otherwise `skipped`, and `target-1` with a stop when active, else `target`; a valid player stays valid |
| `Player.MusicPlayer.Clear` | src/bot/cogs/classes/musicplayer.py:774-821 | clears only after a yes, or not at all for an empty queue; then empties the queue, stops unless the client is disconnected, and resets `pos` to 1 and the default name; a valid player stays valid |
| `Player.MusicPlayer.Remove` | src/bot/cogs/classes/musicplayer.py:828-868 | the named track is removed and the state becomes `AfterRemove`; an unresolvable request changes nothing; a valid player stays valid |
| `Player.MusicPlayer.AdjustForRemoved` | src/bot/cogs/classes/musicplayer.py:857-868 | the state after a track went is `AfterRemove` of the old state |
| `Player.MusicPlayer.AdjustForRange` | src/bot/cogs/classes/musicplayer.py:880-895 | the state after a range went is `AfterRemoveRange` of the old state |
| `Player.MusicPlayer.RemoveRange` | src/bot/cogs/classes/musicplayer.py:875-895 | the slice is removed and the state becomes `AfterRemoveRange` for the number removed; with track numbers as bounds, a valid player stays valid |
| `Player.MusicPlayer.Shuffle` | src/bot/cogs/classes/musicplayer.py:903-906 | the songs after `pos` are permuted, and the rest of the state is unchanged; a valid player stays valid |
| `Player.MusicPlayer.Loop` | src/bot/cogs/classes/musicplayer.py:911-923 | `None` toggles `looped`, and a bool sets it; a valid player stays valid |
| `Player.MusicPlayer.LoopQueue` | src/bot/cogs/classes/musicplayer.py:936-956 | `None` toggles `queue_looped`, and a bool sets it; turning it off clears `shuffle_on_loop`; a valid player stays valid |
| `Player.MusicPlayer.ShuffleLoop` | src/bot/cogs/classes/musicplayer.py:963-982 | `None` toggles `shuffle_on_loop`, and a bool sets it; turning it on sets `queue_looped`; a valid player stays valid |
| `Player.MusicPlayer.NameQueue` | src/bot/cogs/classes/musicplayer.py:996-1003 | no name restores `<guild> Queue`; a name goes through the brace-stripping setter; a valid player stays valid |
| `Player.MusicPlayer.SaveQueue` | src/bot/cogs/classes/musicplayer.py:1008-1079 | the file written is `SaveFile` of the content, the name (default: the queue's own) and the ids; the queue's name is restored afterwards; a valid player stays valid |
| `Player.MusicPlayer.FormatQueuePage` | src/bot/cogs/classes/musicplayer.py:108-141 | the page starting at `start`: up to ten lines, its number and the page count |
| `Player.MusicPlayer.GetQueuePages` | src/bot/cogs/classes/musicplayer.py:143-171 | the pages are `QueuePages` of the queue and `pos` |
| `MusicCog.Music.constructor` | src/bot/cogs/music.py:17-21 | no players yet |
| `MusicCog.Music.GetPlayer` | src/bot/cogs/music.py:25-33 | returns the stored player when the guild has one; otherwise a fresh player, which is stored; afterwards the guild maps to the returned player |
| `MusicCog.CheckCaller` | src/bot/cogs/music.py:35-65 | allowed iff the caller is in voice, the bot is connected, and the caller is in the bot's channel or that channel has no humans; "not connected" iff the bot is not connected |
| `MusicCog.CheckCallerLocked` | src/bot/cogs/music.py:56-58 | with a human in the bot's channel, only callers in that channel are allowed |
| `MusicCog.CheckCallerAlone` | src/bot/cogs/music.py:53-61 | a connected bot with no humans beside it accepts callers from any voice channel |
| `MusicCog.JoinTarget` | src/bot/cogs/music.py:96-118 | `%join` goes to the given channel or else the caller's; it is refused iff there is neither, or the bot sits with humans elsewhere |
| `MusicCog.PlayTarget` | src/bot/cogs/music.py:142-171 | `%play` is refused iff the caller is not in voice, or humans listen to the bot in another channel; otherwise the bot connects, moves or stays |
| `MusicCog.SummonThenAllowed` | src/bot/cogs/music.py:142-163 | after a successful summon, the caller passes `check_caller` |
| `MusicCog.JoinAgreesWithPlay` | src/bot/cogs/music.py:96-163 | `%join` without a channel succeeds iff `%play`'s checks pass |
| `MusicCog.ParseOption` | src/bot/cogs/music.py:327-337 | `on` in any case gives true, `off` gives false, anything else or nothing gives `None` |
| `MusicCog.ParseOptionOther` | src/bot/cogs/music.py:333-337 | any other word acts like no word |
| `MusicCog.QueueCommandRoute` | src/bot/cogs/music.py:275-281 | `%clear`/`%namequeue` run unchecked iff the bot is disconnected, and run connected iff `check_caller` allows |
| `MusicCog.QueueCommandRouteRefusal` | src/bot/cogs/music.py:404-410 | a refusal is always about the caller, never about the connection |
| `Helper.HasHumans` | src/bot/helper.py:213-215 | true iff some member is not a bot |
| `Helper.HasHumansIgnoresBots` | src/bot/helper.py:213-215 | adding bots before or after the members does not change the answer |
| `Helper.ConfirmCheck` | src/bot/helper.py:145-157 | confirm iff same author and channel and the text is `y`/`yes` in any case; decline iff the same with `n`/`no`; otherwise keep waiting |
| `Helper.Confirmation` | src/bot/helper.py:159-180 | `Some` iff some reply decides; the answer is that of the first deciding reply |
| `Helper.ConfirmationFirstDecides` | src/bot/helper.py:165-180 | the first deciding reply fixes the answer, whatever comes after it |
| `Helper.FooterNamesAnswer` | src/bot/helper.py:182-189 | two footers for the same name are equal iff the answers are |
| `Helper.HexField` | src/bot/helper.py:245 | a value in 0..255 gives two lower-case hex digits |
| `Helper.HexFieldShort` | src/bot/helper.py:245 | a value below 16 has one hex digit and so gets padded; 16..255 have two |
| `Helper.HexFieldRoundTrip` | src/bot/helper.py:245 | the field parses back to the value |
| `Helper.ToHexcode` | src/bot/helper.py:243-246 | for values in 0..255: seven characters, `#`, then six hex digits |
| `Helper.HexCodeDigits` | src/bot/helper.py:243-246 | the characters after `#` are hex digits |
| `Helper.ToHexcodeRoundTrip` | src/bot/helper.py:243-246 | the three two-digit fields parse back to red, green and blue |
| `Helper.RealName` | src/bot/helper.py:223-227 | the listed name iff the id is listed |
| `Helper.FirstMention` | src/bot/helper.py:235-236 | the leftmost index where `<@!?digits>` matches; `None` iff it matches nowhere |
| `Helper.MentionedId` | src/bot/helper.py:235-239 | the id of a mention at some position with no mention before it, `None` without one |
| `Helper.GetMention` | src/bot/helper.py:230-240 | the user with the first mentioned id, `None` without a mention or with an unknown id |
| `Helper.MentionRoundTrip` | src/bot/helper.py:230-240 | the id written in `<@id>` or `<@!id>` is read back when no `<` precedes it |
| `Helper.ListenTime` | src/bot/helper.py:96-99 | positive; the default 180 for `None` or 0, `abs(timeout)` otherwise |
| `Helper.ListenTimeIdempotent` | src/bot/helper.py:96-99 | normalising a normalised timeout changes nothing |
| `Utils.LexIrreflexive` | src/bot/cogs/utils.py:163 | Python's string order is irreflexive |
| `Utils.LexTotal` | src/bot/cogs/utils.py:163 | any two different strings are ordered one way |
| `Utils.LexTransitive` | src/bot/cogs/utils.py:163 | the order is transitive |
| `Utils.SortedDistinct` | src/bot/cogs/utils.py:142-163 | a strictly sorted list has no duplicates |
| `Utils.InsertSortedKeeps` | src/bot/cogs/utils.py:154-163 | inserting into a sorted list keeps it sorted and adds exactly the word, once |
| `Utils.FitsIff` | src/bot/cogs/utils.py:146-151 | the set-and-counter test passes iff the word's letter multiset is included in the letters' |
| `Utils.InsertIntoGroup` | src/bot/cogs/utils.py:154-163 | adding a word to its group keeps the group sorted, of one length, and adds exactly that word |
| `Utils.InsertWordKeeps` | src/bot/cogs/utils.py:154-163 | filing a word keeps groups in ascending length order, each sorted, and adds exactly that word |
| `Utils.FileWord` | src/bot/cogs/utils.py:154-163 | one filing step keeps the grouping invariant of the loop |
| `Utils.ForceUpdateStale` | src/bot/cogs/utils.py:370-379 | without `latest`, cached data is used iff it is at most a day old, and once stale it stays stale |
| `Utils.CurrencyCodes` | src/bot/cogs/utils.py:367-368 | both codes are upper-cased character by character: same length, each character the upper case of the original one, no lower-case ASCII letter left |
| `Utils.CurrencyCodesCase` | src/bot/cogs/utils.py:367-368 | codes differing only in case give the same pair |
| `Utils.UpperIdempotent` | src/bot/cogs/utils.py:367-368 | upper-casing twice is upper-casing once |
| `Utils.UtilsCog.constructor` | src/bot/cogs/utils.py:46-59 | keeps the word list and nothing to print |
| `Utils.UtilsCog.Printer` | src/bot/cogs/utils.py:65-74 | stores the arguments joined by `sep`, followed by `end` |
| `Utils.PrinterSplits` | src/bot/cogs/utils.py:73 | with a one-character separator that no argument contains, the stored text minus `end` splits back into the arguments |
| `Utils.UtilsCog.GetAnagrams` | src/bot/cogs/utils.py:138-163 | groups ascend by length and are sorted; a word appears iff it is in the list and its lower-cased letters fit in the lower-cased letters |
| `Utils.UtilsCog.MatchingWords` | src/bot/cogs/utils.py:140-152 | exactly the listed words that are anagrams of the letters |
| `Misc.AnnoyStepSpec` | src/bot/cogs/misc.py:44-72 | no member clears the target; the bot changes nothing; otherwise the member becomes the target iff there was none or another one; other guilds are untouched and the bot is never a target |
| `Misc.AnnoyToggles` | src/bot/cogs/misc.py:61-72 | naming the same member twice from no target ends with no target |
| `Misc.AnnoyClearAnnouncesTarget` | src/bot/cogs/misc.py:66-74 | as written, naming the current target clears it but still says "Now annoying" |
| `Misc.AnnoyRepliesFixedTruthful` | src/bot/cogs/misc.py:66-74 | with the corrected replies, "Now annoying m" is said iff `m` became the target |
| `Misc.OnMessage` | src/bot/cogs/misc.py:25-39 | the bot answers iff the message comes from a guild with an entry whose target is the author; the name is the author's real name when one is known, "Bro" otherwise |
| `Misc.AnnoyThenReply` | src/bot/cogs/misc.py:25-64 | after a new target is set, the bot answers that member and no one else in the guild |
| `Misc.MiscCog.constructor` | src/bot/cogs/misc.py:16-20 | no targets |
| `Misc.MiscCog.Annoy` | src/bot/cogs/misc.py:44-74 | the targets become `AnnoyStep` of the old ones, the replies are those the source sends, and the bot stays out of the targets |
| `Mudae.Block` | src/bot/cogs/mudae.py:41-43 | one suffixed format per suffix, in order |
| `Mudae.SuffixedLength` | src/bot/cogs/mudae.py:40-45 | suffixing `k` formats with `m` suffixes gives `k*m` formats |
| `Mudae.SuffixedPrefix` | src/bot/cogs/mudae.py:40-45 | every suffixed format starts with one of the formats it was built from |
| `Mudae.ExtendedPrefix` | src/bot/cogs/mudae.py:40-45 | the original formats come first, and every format starts with one of them |
| `Mudae.DatetimeFormatsShape` | src/bot/cogs/mudae.py:36-46 | 252 formats: the 7 bases first, duplicates kept, and every format starts with a base |
| `Mudae.DatetimeFormats` | src/bot/cogs/mudae.py:36-46 | the list the two loops build: the bases, their year-suffixed forms, then the time-suffixed forms of all those |
| `Mudae.ExtendAll` | src/bot/cogs/mudae.py:40-45 | a loop over a copy appends each format's suffixed forms, format by format, after the original list |
| `Mudae.FirstClaimed` | src/bot/cogs/mudae.py:57 | the leftmost index where `claimed:** <digits>/` matches; `None` iff it matches nowhere |
| `Mudae.CharsClaimed` | src/bot/cogs/mudae.py:50-64 | `None` unless Mudae wrote the message and the pattern matches; otherwise the count at a match with no match before it |
| `Mudae.CharsClaimedRoundTrip` | src/bot/cogs/mudae.py:50-64 | Mudae's reply reports the count written in it |
| `Mudae.ClampMessages` | src/bot/cogs/mudae.py:205 | in `[1, 1000]`, and the identity there |
| `Mudae.ClampMessagesNearest` | src/bot/cogs/mudae.py:205 | clamping twice is clamping once, and the clamped value is at least as close to `n` as any allowed count |
| `Mudae.FixYear` | src/bot/cogs/mudae.py:211-214 | a date from 2015 on is kept; an earlier one gets the current year; the fix-up fails iff the date is before 2015, on 29 February, and the current year is not a leap year |
| `Mudae.ParseBefore` | src/bot/cogs/mudae.py:208-223 | the argument loop as written: its outcome is `ParseBeforeOutcome`, a date, `None`, or an exception |
| `Mudae.ParseBeforeRaisesIff` | src/bot/cogs/mudae.py:208-223 | as written, the command raises iff the first format that parses fails its fix-up and is not the last format |
| `Mudae.ParseBeforeLeapDayRaises` | src/bot/cogs/mudae.py:208-223 | as written, a 29 February before 2015 parsed by the first format in a non-leap year raises, where the intended loop would try the next format |
| `Mudae.ParseBeforeAgrees` | src/bot/cogs/mudae.py:208-223 | where no fix-up fails before the last format, the loop as written gives the intended first surviving parse, or `None` |
| `Mudae.FirstFixedYear` | src/bot/cogs/mudae.py:208-223 | with the current year from 2015 on, the accepted date is never before 2015 and is the fixed-up parse of some format |
| `Basic.CleanBudget` | src/bot/cogs/basic.py:50 | in `[1, 100]`, and the identity there |
| `Basic.Deletable` | src/bot/cogs/basic.py:60-72 | ascending indices of bot messages whose delete succeeds |
| `Basic.DeletablePrefix` | src/bot/cogs/basic.py:60-72 | what a prefix of the history offers is a prefix of what the whole history offers |
| `Basic.DeletableComplete` | src/bot/cogs/basic.py:64-72 | every bot message that can be deleted is listed |
| `Basic.Newest` | src/bot/cogs/basic.py:60 | `history()` yields at most the newest 100 messages, all of them when there are no more |
| `Basic.CleanDm` | src/bot/cogs/basic.py:46-72 | among the newest 100 messages, deletes the first `budget` deletable bot messages in history order, and the count never exceeds the budget |
| `Basic.CleanDmCount` | src/bot/cogs/basic.py:62-72 | the count is the smaller of the budget and what can be deleted; within budget, every deletable bot message among the newest 100 goes; nothing older than those is touched |
| `Basic.FormatLine` | src/bot/cogs/basic.py:97-106 | blank or whitespace lines become empty; a `[` header is kept; a tab becomes the arrow; any other line gets a bullet |
| `Basic.FormatLineRoundTrip` | src/bot/cogs/basic.py:97-106 | a non-blank line is recovered from its formatted form, and is kept as is iff it starts with `[` |
| `Basic.FormatNotes` | src/bot/cogs/basic.py:96-106 | one formatted line per note line, in order |
| `Basic.StripNewlines` | src/bot/cogs/basic.py:93 | the text less exactly its trailing newlines: a prefix that does not end with a newline, and everything removed is a newline |
| `Basic.UpdateNotes` | src/bot/cogs/basic.py:81-108 | no notes for the version give the not-found reply; otherwise the formatted lines joined by newlines, in a code block |
| `Basic.FormatNotesLines` | src/bot/cogs/basic.py:107 | the joined reply splits at newlines back into exactly the formatted lines |

## Left out

- Discord I/O is not modelled: sends, edits, reactions, `wait_for`, embeds and colours, and voice connect/move/play/disconnect. Replies are modelled only as far as they decide something.
- `player_loop` is not modelled as such. Its timeouts, sleeps and task scheduling are concurrency. What it does to the state is `MusicPlayer.PlayNext` plus the callback `MusicPlayer.Finish`.
- The `wf_*` guards against concurrent confirmations are not modelled, nor are `loaded_by`, `loadqueue`, `addqueue`, `showqueues`, `cancel_loading` and `queue_songs`. They are task racing and S3 downloads.
- `progress_msg` is left out: floating-point `round`. So are `nowplaying`, `set_embed_footer` and `queue_preview_embed`, which are display only.
- `SongQueue.get_song`, `remove_song`, `__str__`, `truncstr`, `as_dict`, `to_json` and `from_json` are not part of this model. The commands go through `get_song_pos` and `pop_song`, and the JSON functions are unused.
- `Song.from_query`, `reload`, `preview_str` and `audiosource` are left out: they are yt_dlp, urllib and FFmpeg calls. A song is its id, title, URL and duration.
- Songs.SongQueue.Shuffle: `random.shuffle` is modelled as an arbitrary permutation, not a particular one.
- Songs.ReprRoundTrip: stated for names without braces or line breaks. The setter keeps line breaks, so a queue can be named across lines and saved; its block then fails to parse (`first_line.index("}")` raises ValueError, songs.py:463-464), which the model gives as `SavedQueues.ParseBlock` returning `Raises`. Such a queue can be saved once but neither loaded nor saved again.
- SavedQueues.SaveFileSerialized, SavedQueues.SaveFileText and SavedQueues.SaveFileNew: stated for names without braces or line breaks. With braces, the save as written looks up one name and writes another; see the Findings row for musicplayer.py:1034-1073. Line breaks are the `Songs.ReprRoundTrip` line above.
- SavedQueues.MatchBlock: the name is matched as literal text, up to ASCII case. The source puts it into the regex unescaped, and its metacharacter effects are not modelled.
- MusicCog.ParseOption, Helper.ConfirmCheck, Songs.SongQueue.GetSongPos, Utils.UtilsCog.GetAnagrams and SavedQueues.MatchBlock: case mapping is ASCII only. Python's `lower`/`upper` and `re.IGNORECASE` on a str pattern are Unicode.
- Utils.CurrencyCodes: upper-cases ASCII letters only, so a code keeps its length. Python's `upper` is Unicode and can change the length (`ß` becomes `SS`).
- Mudae.CharsClaimed and Helper.MentionedId: `\d` matches ASCII digits only. Python's also matches other Unicode digits.
- Mudae.ParseBefore: `strptime` is not modelled. The parses of each format are given, and the fix-up is modelled. The TypeError a rebound `before` causes is the outcome `BeforeRaises`, not an exception.
- Basic.UpdateNotes: reading the release notes and the version-header regex search are not modelled. The matched text, or its absence, is a parameter.
- Helper.GetMention: `bot.get_user` is modelled as a lookup in a map of known users.
- Misc.OnMessage: the random choice in `get_annoy_message` is left out. The model gives the name the message is formatted with.
- Misc.MiscCog.Annoy: `member is target` is modelled as equal ids.
- Utils.UtilsCog.GetAnagrams: the dict of lists and the final `sorted()` calls are modelled as insertion into length groups kept sorted. The result is the same grouping, built as it goes. The filter loop is `MatchingWords`.
- Utils.ForceUpdateStale: datetimes are integers in microseconds. The `Exchanger` conversion itself is HTTP and floating point.
- Helper.ListenTime: the timeout is a `real`. The wait for the reaction and the delete are left out.
- `Text` holds Python's string primitives that the rules need: slices, `splitlines`, `isspace`, `rjust`, `hex` and `int`. They are modelled for the inputs the rules give them.

## Findings

| source | as written | input that shows it | evidently intended | confidence | as-written member | corrected member |
|---|---|---|---|---|---|---|
| src/bot/cogs/classes/musicplayer.py:880-895 | `removerange` adjusts `pos` as if `pos1`/`pos2` were track numbers, but `pop_range` removes Python's slice, so negative bounds remove other tracks | track 1 of 5 playing, `%removerange -3 -1`: tracks 2-4 are removed and `pos` becomes -2 while track 1 plays | adjust `pos` by the index range the slice actually removed | not executed | `Player.RangePosNegativeBounds` | `Player.RangePosFixedKeepsTrack` |
| src/bot/cogs/classes/musicplayer.py:620-622 | `leave`, `remove` and `removerange` offset `pos` by one before the stop without setting `skipped`; with the track looped, `increment_pos` does not add the one back | `%loop on`, track 3 playing, `%leave` then `%join`: the player resumes at track 2 | set `skipped` with the offset, as `jump` and `back` do | not executed | `Player.OffsetLandsEarlyWhenLooped` | `Player.ResumeAfterOffsetExact` |
| src/bot/cogs/classes/musicplayer.py:238-243 | the listener clamps the index `-1` (the last page, shown when `pos` is 0) as if it were before the first page | `%back` at track 1, then `%queue` on a 3-page queue and ⬆: it jumps from page 3 to page 1 | resolve the index to the page on screen before moving | not executed | `Paging.NavigateFromLastAlias` | `Paging.NavigateShownClamps` |
| src/bot/cogs/mudae.py:208-223 | the loop rebinds `before` to the parsed date before the fix-up; when the fix-up raises ValueError the next `strptime` gets a datetime and raises TypeError | `%exchanges 100 02/29/2012` in a year that is not a leap year: the command fails instead of trying the next format | bind the parse to a fresh name, so the loop gives the first parse that survives the fix-up, or `None` | not executed | `Mudae.ParseBeforeLeapDayRaises` | `Mudae.FirstFixedYear` |
| src/bot/cogs/classes/musicplayer.py:660-666 | a second effect of the `removerange` adjustment in the first row: the position can drop below -9, and the opening index of `%queue` then lies before the pages | track 1 of 21 playing, `%removerange -19 -9`, then `%queue`: `pages[-2]` of one page raises IndexError | adjust `pos` by the slice removed, which keeps it at -1 or above | not executed | `Player.QueueRaisesAfterNegativeRange` | `Player.RangePosFixedQueueShown` |
| src/bot/cogs/misc.py:66-74 | naming the current target clears it, but the else branch still sends "Now annoying" | `%annoy @m` twice: the second reply says "No longer annoying m" and then "Now annoying m", although nobody is annoyed | only "No longer annoying" when the target is cleared | not executed | `Misc.AnnoyClearAnnouncesTarget` | `Misc.AnnoyRepliesFixedTruthful` |
| src/bot/cogs/classes/musicplayer.py:1034-1073 | `savequeue` looks the name up as given, but the block is written under the name the setter strips of braces | the file holds a queue `ab`, then `%savequeue A{b}`: no confirmation is asked and a second block `Ab` is appended | look up the cleaned name, so the existing `ab` is offered for replacement | not executed | `SavedQueues.SaveBraceNameDuplicates` | `SavedQueues.SaveFileFixedSerialized` |

The command methods (`Player.MusicPlayer.Leave`, `Remove`, `RemoveRange`, `Misc.MiscCog.Annoy`, `Mudae.ParseBefore`, `Player.MusicPlayer.SaveQueue`) follow the code as written. The corrected definitions (`Player.RangePosFixed`, `Player.ResumeAfterOffset`, `Paging.NavigateShown`, `Misc.AnnoyRepliesFixed`, `Mudae.FirstFixed`, `SavedQueues.SaveFileFixed`) stand beside them, with the intended property proved.
