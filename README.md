# ClippedAI Telegram bot — verified model of its core logic

ClippedAI is a Telegram bot. A user sends it a YouTube link, optionally
followed by a clip count, and gets back vertical "shorts" with burned-in
subtitles and generated titles. Almost all of `telegram_bot.py` is glue around
yt-dlp, ffmpeg, the Groq chat API and Telegram. This project models the
deterministic decisions that glue makes, and proves what they guarantee.

- **Requests** (module `Request`): `handle_message` strips and splits the
  message, then reads the clip count (default 3, clamped to 1..10, with
  Python's `int()` rules for the token). It accepts any text that contains
  `youtube.com` or `youtu.be`, derives the video id and the download path,
  and rejects videos over 1800 seconds.
- **The gate** (module `State`): the `user_processes` table is a class with a
  set of chat ids. It admits an idle chat and refuses a busy one. It releases
  conditionally in the `finally` of the job and in the `except` of the
  handler, and unconditionally (`del`) on the too-long path. The files under
  `input/` and `output/` are a second class, a set of paths.
- **Subtitles** (modules `SrtTime`, `Subtitles`):
  - `format_srt_time` works on whole milliseconds. Each unit is truncated and
    the hours field is at least two digits wide.
  - The cue loop of `create_subtitled_video` selects the clip's words and
    groups them by five. It writes counter, time line, text and blank line
    for each group. The `.srt` file is a sequence of lines, and `ParseSrt`
    reads it back.
- **Titles and captions** (module `Title`):
  - The title is the stripped completion cut to 60 characters, or
    `🔥 Amazing Moment` when the call raises.
  - The title prompt takes the clip's first 40 words.
  - The caption is `🎬 Short {idx}/{total}` followed by a blank line and the
    title.
- **The job** (modules `Shorts`, `Bot`):
  - `process_video_task` sends its notices, keeps the first `num_clips`
    candidates, and runs the per-clip loop.
  - Each clip's failure is caught by its own `try`/`except`, which sends one
    warning and moves on.
  - A delivered clip removes its temporary videos. The `finally` removes the
    download and releases the chat.
  - `handle_message` is modelled twice: as a function of the request and the
    download outcome, and as the imperative method that changes the gate and
    the disk. Both take every reply to be delivered (see "Left out").

External calls are parameters that give their outcomes:
- the download (`Download`);
- the completion (`Completion`);
- each ffmpeg run and each upload of a short (`Step`, `burned`);
- model loading, transcription and the clip search (`TaskRun`).

Every other Telegram call, a `send_message` or a `reply_text`, is taken to
succeed.

Outgoing messages are a log of `Message` values. `Render` gives each one's exact text.

Files: `wrappers.dfy` (Option), `digits.dfy` (decimal rendering and reading), `pystr.dfy` (Python's `strip`, `split`, `join`, `replace`, `in`, `int()`), `srt_time.dfy`, `subtitles.dfy`, `request.dfy`, `title.dfy`, `state.dfy`, `shorts.dfy`, `bot.dfy`.

## Model

| member | source | states |
|---|---|---|
| Digits.NatStrRoundTrip | telegram_bot.py:115 | reading back the decimal text `str(n)` writes gives `n` |
| Digits.NatStrInjective | telegram_bot.py:115 | distinct counters are written as distinct texts |
| Digits.PadRoundTrip | telegram_bot.py:145 | zero-padding with the `02d`/`03d` format does not change the number a field denotes |
| Digits.PadExact | telegram_bot.py:145 | a number below 10^w padded to width w is exactly w characters |
| PyStr.ContainsIffOccurs | telegram_bot.py:317 | Python's `p in s` holds exactly when some position of `s` starts a copy of `p` |
| PyStr.Split | telegram_bot.py:60 | `s.split(sep)`: the pieces between the non-overlapping occurrences of `sep`, left to right; there is at least one, and the first is a prefix of `s`. JoinSplit to SplitAfterPlainPrefix state what the pieces are |
| PyStr.JoinSplit | telegram_bot.py:106 | joining the pieces of `s.split(sep)` with `sep` restores `s` |
| PyStr.SplitPiecesFree | telegram_bot.py:60 | no piece of a split contains the separator |
| PyStr.ContainsIffSplits | telegram_bot.py:60 | the split has more than one piece exactly when the separator occurs |
| PyStr.LastPiece | telegram_bot.py:60 | `split(sep)[-1]` is what follows the last occurrence of `sep`: the text is the earlier pieces, the separator, then that piece |
| PyStr.FirstPiece | telegram_bot.py:60 | `split(sep)[0]` is a prefix free of the separator, followed by the separator or the end |
| PyStr.SplitAfterPlainPrefix | telegram_bot.py:106 | a prefix in which the separator cannot start is glued to the first piece of the rest |
| PyStr.Tokens | telegram_bot.py:302 | `s.split()`: skips a leading blank, otherwise takes the maximal run of non-blanks as the next token. TokensPartition to TokensSkipBlanks state what the tokens are |
| PyStr.TokensPartition | telegram_bot.py:302 | `split()` gives non-empty blank-free tokens that spell the non-blank characters in order |
| PyStr.TokensEmptyIffBlank | telegram_bot.py:302-303 | `split()` is empty exactly when the text is all blanks |
| PyStr.LeadingWordStops | telegram_bot.py:302 | a token runs from a non-blank up to the first blank after it |
| PyStr.TokensOfWord | telegram_bot.py:302 | a non-empty text without blanks splits into itself alone |
| PyStr.TokensWordThenBlank | telegram_bot.py:302 | a word followed by a blank is the first token, and the rest is split on its own: tokens are maximal runs |
| PyStr.TokensSkipBlanks | telegram_bot.py:302 | blanks in front of a text add no token |
| PyStr.Strip | telegram_bot.py:296 | `s.strip()` is `rstrip` of `lstrip`. StripPiece, StripMargins, StripEnds and StripUnpadded state what it keeps |
| PyStr.LStrip | telegram_bot.py:296 | the result is a suffix, what was dropped is all blanks, and it starts with a non-blank |
| PyStr.RStrip | telegram_bot.py:296 | the result is a prefix, what was dropped is all blanks, and it ends with a non-blank |
| PyStr.StripPiece | telegram_bot.py:91 | `strip()` gives a contiguous piece of the text, starting where the leading blanks end |
| PyStr.StripMargins | telegram_bot.py:91 | everything `strip()` removes on either side is a blank |
| PyStr.StripEnds | telegram_bot.py:91 | a stripped text is empty or starts and ends with a non-blank |
| PyStr.StripUnpadded | telegram_bot.py:296 | a text that starts and ends with a non-blank is left unchanged |
| PyStr.ParseInt | telegram_bot.py:312 | `int(token)`: an optional `+` or `-`, then ASCII digits with single underscores between them; `None` for the `ValueError`. IntStrRoundTrip and Request.ClipCountExamples state what it reads |
| PyStr.IntStrNoSpace | telegram_bot.py:312 | the decimal text of any integer is non-empty and blank-free, so it is one token of a message |
| PyStr.IntStrRoundTrip | telegram_bot.py:312 | `int(str(n)) == n` for every integer, negative ones included |
| SrtTime.FormatSrtTime | telegram_bot.py:140-145 | `format_srt_time` on whole milliseconds. UnitsDecompose to FormatSrtTimeExample state its fields, shape, round trip and injectivity |
| SrtTime.UnitsDecompose | telegram_bot.py:141-144 | minutes and seconds are below 60, millis below 1000, and hours·3600000 + minutes·60000 + seconds·1000 + millis is the time |
| SrtTime.FormatSrtTimeFields | telegram_bot.py:140-145 | the hours field is at least two digits, minutes and seconds two, millis three, each the zero-padded truncated unit, with `:`, `:`, `,` between them |
| SrtTime.FormatSrtTimeShape | telegram_bot.py:140-145 | every formatted time matches `\d{2,}:\d{2}:\d{2},\d{3}` |
| SrtTime.FormatSrtTimeRoundTrip | telegram_bot.py:140-145 | reading a formatted time gives back the exact milliseconds |
| SrtTime.FormatSrtTimeInjective | telegram_bot.py:140-145 | distinct times are written as distinct timestamps |
| SrtTime.FormatSrtTimeHasNoSpace | telegram_bot.py:145 | a timestamp contains no space |
| SrtTime.FormatSrtTimeExample | telegram_bot.py:140-145 | 3661.25 s is written `01:01:01,250` |
| Subtitles.SelectWords | telegram_bot.py:99-100 | every selected word lies inside the clip, and the selection is no longer than the transcript |
| Subtitles.SelectWordsAppend | telegram_bot.py:99-100 | selection distributes over concatenation, so it keeps the original order |
| Subtitles.SelectWordsMembership | telegram_bot.py:99-100 | a word is selected exactly when it is in the transcript and inside the clip window |
| Subtitles.Groups | telegram_bot.py:109-110 | the groups number ceil(n/5); each has 1 to 5 words, and all but the last have exactly 5 |
| Subtitles.GroupsFlatten | telegram_bot.py:109-110 | the groups, concatenated in order, give back every selected word |
| Subtitles.Cues | telegram_bot.py:108-117 | the cue of each group of five selected words, numbered from 1, with times relative to the clip. CuesFacts states what they are |
| Subtitles.SrtLines | telegram_bot.py:113-117 | the file as lines: counter, time line, text and a blank line for each cue in order. SrtRoundTrip and CompileSrt state its meaning |
| Subtitles.CuesFacts | telegram_bot.py:108-118 | ceil(n/5) cues numbered 1..k without gaps; cue k spans words 5k..5k+4 (fewer in the last), starts at its first word's start and ends at its last word's end relative to the clip, ends within `end_time - start_time`, and its text is the words joined by single spaces |
| Subtitles.CuesOfNothing | telegram_bot.py:102-104 | an empty selection has no cue |
| Subtitles.TimeLineRead | telegram_bot.py:116 | the time line `fmt(start) --> fmt(end)` reads back as the pair of times |
| Subtitles.SrtRoundTrip | telegram_bot.py:115-117 | the file written for any cue list parses back to exactly those cues, in order, with counters, times and texts |
| Subtitles.CompileSrt | telegram_bot.py:106-118 | the loop over i = 0, 5, 10, … with its counter writes exactly the four lines of each cue of the selected words, in order |
| Request.Clamp | telegram_bot.py:313 | `max(1, min(n, 10))`. ClampFacts states its range and where it maps each count |
| Request.ClampFacts | telegram_bot.py:313 | `max(1, min(n, 10))` lies in 1..10, keeps counts in range, and maps others to the nearer bound |
| Request.ClipCount | telegram_bot.py:308-315 | the count is 3 without a second token or when `int()` refuses it, and otherwise the clamped integer; always 1..10 |
| Request.ClipCountOfWrittenNumber | telegram_bot.py:310-313 | any integer written after the link is honoured after clamping |
| Request.PartsOfTwoWords | telegram_bot.py:296-302 | a message of two blank-free words with one space between splits into exactly those two words |
| Request.ClipCountOfMessage | telegram_bot.py:296-313 | the message `<link> <k>` for a blank-free link and any integer k splits into the link and the written number, and asks for k clamped into 1..10 |
| Request.ClipCountExamples | telegram_bot.py:308-315 | 0 and -5 give 1, 15 gives 10, 5 gives 5, `five` or no token gives 3 |
| Request.IsYouTubeUrl | telegram_bot.py:317 | the link test is `youtube.com` or `youtu.be` occurring in the first token. IsYouTubeUrlIffOccurs, EmbeddedHostAccepted and NoYRefused state what it accepts |
| Request.IsYouTubeUrlIffOccurs | telegram_bot.py:317 | a link is accepted exactly when `youtube.com` or `youtu.be` occurs somewhere in it |
| Request.EmbeddedHostAccepted | telegram_bot.py:317 | any text with a host name inside it is accepted, wherever the name appears |
| Request.NoYRefused | telegram_bot.py:317 | a text without the letter `y` is refused |
| Request.VideoId | telegram_bot.py:60 | the id: the last piece after `v=` cut at the first `&`, or the last piece after `/`. VideoIdAfterMarker and VideoIdAfterSlash state where it starts and stops |
| Request.AfterLastOccurrence | telegram_bot.py:60 | `split(sep)[-1]` starts right after an occurrence of `sep` that has none after it |
| Request.UpToFirstAmpersand | telegram_bot.py:60 | `split('&')[0]` runs up to the first `&` or to the end |
| Request.VideoIdAfterMarker | telegram_bot.py:60 | with `v=` present, the id starts right after the last `v=` and stops at the first `&` after it, or at the end |
| Request.VideoIdAfterSlash | telegram_bot.py:60 | without `v=`, the id is the text after the last `/`, or the whole link when there is none |
| Request.VideoPath | telegram_bot.py:61 | the path is the text `input/`, then the id, then `.mp4`; the id can be read back from it |
| Request.VideoPathInjective | telegram_bot.py:61 | different ids get different paths |
| Request.TooLongBoundary | telegram_bot.py:327 | exactly 1800 s passes, 1801 s is refused, and so is everything above |
| Request.Take | telegram_bot.py:161 | `xs[:n]` is a prefix of length min(n, len), or len + n for a negative n |
| Request.TakeClipCount | telegram_bot.py:161 | with a parsed count, the first min(count, len) candidates are kept: at least one when there are any, at most 10 |
| Title.GenerateTitle | telegram_bot.py:91-95 | the title is at most 60 characters, and the fallback when the call raises |
| Title.GeneratedTitleShape | telegram_bot.py:91-92 | the title is a prefix of the stripped content: all of it when it fits, else 60 characters; it never starts with a blank |
| Title.GeneratedTitleOccurs | telegram_bot.py:91-92 | the title is a piece of the content as sent |
| Title.FallbackFits | telegram_bot.py:95 | the fallback is 16 characters and starts with 🔥 |
| Title.ClipTextWords | telegram_bot.py:168-170 | the prompt text is the first min(n, 40) selected words joined by spaces, chosen by the same window test as the subtitles |
| Title.Caption | telegram_bot.py:200 | `🎬 Short {idx}/{total}`, a blank line, then the title. CaptionRoundTrip and CaptionInjective state that nothing is lost |
| Title.CaptionRoundTrip | telegram_bot.py:200 | index, total and title can all be read back from the caption |
| Title.CaptionInjective | telegram_bot.py:200 | distinct index, total or title give distinct captions |
| State.RequesterGate.constructor | telegram_bot.py:43 | the table starts empty |
| State.RequesterGate.Admit | telegram_bot.py:321 | the chat is entered and no other chat changes |
| State.RequesterGate.TryAdmit | telegram_bot.py:298-300 | a chat already in the table is refused and nothing changes; any other chat is admitted and entered (the insert of line 321, with nothing awaited in between) |
| State.RequesterGate.Release | telegram_bot.py:223-224 | the chat is absent afterwards and nothing else changes; absent already means no change |
| State.RequesterGate.Remove | telegram_bot.py:329 | a bare `del`: it raises exactly when the chat is absent, and otherwise removes it alone |
| State.GateScenario | telegram_bot.py:298-300 | a chat is let in, refused while running, let in again once released, and other chats keep their places |
| State.Disk.constructor | telegram_bot.py:36-37 | the disk holds the given files |
| State.Disk.Write | telegram_bot.py:107 | writing adds exactly the path |
| State.Disk.RemoveIfExists | telegram_bot.py:132-133 | the path is absent afterwards and nothing else changes |
| State.Disk.Remove | telegram_bot.py:328 | a bare `os.remove`: it raises exactly when the file is absent, and otherwise removes it alone |
| Shorts.SubtitleOfShort | telegram_bot.py:106 | `.replace('.mp4', '.srt')` on `output/short_{idx}.mp4` gives `output/short_{idx}.srt` |
| Shorts.OwnPathsDiffer | telegram_bot.py:173-193 | a clip's cut, reframed, short and subtitle files are four distinct paths |
| Shorts.ClipPathsDisjoint | telegram_bot.py:173-193 | the files of two different clips never collide |
| Shorts.Render | telegram_bot.py:151-218 | the exact text of each message the job sends, the caption for a short |
| Shorts.RenderedTexts | telegram_bot.py:162-200 | the texts of the count notice, a progress line and a caption for concrete values |
| Shorts.RenderedErrors | telegram_bot.py:210-218 | a warning names the clip and carries the error text; the processing error carries it too |
| Shorts.ClipMessages | telegram_bot.py:164-212 | a clip's messages: its progress line, then the short with its title and final video, or one warning with the first error. ClipOutcome and LoopOutcomes state what they report |
| Shorts.ClipFiles | telegram_bot.py:173-208 | a clip's files: each step that ran adds its output, and only a delivered short removes its three videos. ClipFilesFrame and ClipFilesLeft state what it touches and leaves |
| Shorts.CreateSubtitledVideo | telegram_bot.py:97-138 | no words returns the input video and touches nothing; otherwise the .srt holds the cue lines; only a successful burn returns the output, creates it and removes the .srt |
| Shorts.ProcessClip | telegram_bot.py:164-212 | one clip sends its progress line, then the short with the generated title or one warning naming the first failing step; its files are what the steps that ran left, cleaned only when delivered |
| Shorts.ProcessClips | telegram_bot.py:164-212 | the loop attempts every clip numbered from 1 and its log and files are those of each clip in turn |
| Shorts.ClipOutcome | telegram_bot.py:165-212 | each clip adds exactly its own outcome, a short or a warning, to the log |
| Shorts.LoopOutcomes | telegram_bot.py:164-212 | the shorts sent name exactly the delivered clips, and the warnings exactly the failed ones, in clip order |
| Shorts.IndicesAscending | telegram_bot.py:164 | those index lists are strictly ascending and within 1..k |
| Shorts.IndicesMembers | telegram_bot.py:164-212 | an index is listed exactly when it names a clip of that kind |
| Shorts.LoopMessageCount | telegram_bot.py:164-166 | every clip contributes two messages, the 2j-th being clip j+1's progress line, so a failed step hides no other clip (the text messages themselves are taken to be delivered) |
| Shorts.SecondCutFails | telegram_bot.py:210-212 | of three clips where cutting the second fails, shorts 1 and 3 are sent and one warning names clip 2 |
| Shorts.ClipFilesFrame | telegram_bot.py:173-208 | a clip touches no file but its own |
| Shorts.ClipFilesLeft | telegram_bot.py:206-208 | a delivered clip leaves none of its three videos; a failed reframe leaves the cut; a delivered clip whose burn failed leaves its .srt, and one whose burn succeeded does not |
| Shorts.LoopFilesFrame | telegram_bot.py:164-208 | files of no attempted clip are untouched by the loop |
| Shorts.LoopFilesCleaned | telegram_bot.py:206-208 | after the loop, every delivered clip's videos are gone, whatever later clips did |
| Bot.TaskMessages | telegram_bot.py:148-218 | everything the job sends, by the first stage to fail: a processing error after the notices so far, the no-moments notice, or the count, the loop's messages and the closing notice. TaskOutcomes and TaskEnding state what it reports |
| Bot.RunTask | telegram_bot.py:148-218 | the `try` body of the job sends exactly TaskMessages and leaves exactly TaskFiles on the disk |
| Bot.ProcessVideoTask | telegram_bot.py:147-224 | the job's messages and files are those of its first failing stage or of the loop; the download is always removed and the chat always released |
| Bot.TaskOutcomes | telegram_bot.py:157-214 | a job reaching the loop keeps the first min(num_clips, len) candidates, announces that count, and sends shorts and warnings for exactly the delivered and failed clips, in order |
| Bot.TaskEnding | telegram_bot.py:157-218 | every job ends with one closing message: all sent exactly when the loop ran, no moments exactly when the search found none, else the processing error |
| Bot.NoticesHaveNoOutcome | telegram_bot.py:151-162 | notices are neither shorts nor warnings |
| Bot.DownloadedReply | telegram_bot.py:333-340 | the Markdown confirmation with the title, `duration // 60` whole minutes and the clip count |
| Bot.Fetch | telegram_bot.py:321-342 | after admission: the download notice, then the error, the too-long reply, or the confirmation with a job for the derived path and the count. Admitted and RespondReplies state what it replies |
| Bot.Refusal | telegram_bot.py:298-319 | a request is refused before admission exactly when the chat is busy, the message has no token, or the first token is not a YouTube link |
| Bot.Admitted | telegram_bot.py:321-348 | after admission: a raised download releases the chat and replies with the error; too long removes the file and the chat; otherwise a job with the stored path and count |
| Bot.HandleMessage | telegram_bot.py:294-348 | the replies, job, gate and files are those of the refusal checks followed by the admitted path |
| Bot.Respond | telegram_bot.py:294-348 | what `handle_message` replies and whether it starts a job. RespondCases, RespondStartsJob and RespondReplies state its cases |
| Bot.RespondCases | telegram_bot.py:298-342 | a request is turned away with exactly its refusal and no job, or handed to the download with the first token and the parsed count; a busy chat gets the wait reply |
| Bot.RespondStartsJob | telegram_bot.py:298-342 | a job starts exactly when the chat is idle, the first token is a YouTube link, the download succeeds and lasts at most 1800 s; it carries the parsed count and the derived path |
| Bot.RespondReplies | telegram_bot.py:298-348 | a busy chat gets the wait reply; a refused request gets one reply and no job; an accepted one gets the download notice and one outcome, the error when the download raised |
| Bot.Lifecycle | telegram_bot.py:221-224 | a request and its job from one chat: the chat is held exactly while its job exists, the gate ends as it started, and the video does not outlive the job |

## Left out

- Network, subprocess, ML and chat transport are not modelled: the yt-dlp download, every ffmpeg invocation, the Groq call, `init_models`, `Transcriber`, `ClipFinder` and the upload of each short (`send_video`, line 197). Each is a parameter giving its outcome: succeeded or raised with a message, or for the subtitle burn its return code.
- Every `send_message` and `reply_text` is taken to succeed; a failing one is not modelled. In the code such a failure raises, with these effects:
  - A progress line that fails (line 166) is caught by the clip's `except` (line 210), so that clip ends with a warning instead of a short.
  - A warning that fails (line 212) escapes the clip's `except` and reaches the job's `except` (lines 216-218): the remaining clips are not attempted. A failing notice of lines 151-162 or 214 also ends the job there. If the closing `Processing error` message fails as well, the error escapes `process_video_task`; the `finally` still runs.
  - In `handle_message`, a reply that fails after admission is caught by the handler's `except` (lines 344-348), which releases the chat; no job starts. A failure at line 324 happens before any download. A failure at lines 334-340 also leaves the download in `input/`. The Markdown confirmation is refused, for example, when the video title holds an unmatched `*` or `_`.
- Bot.Fetch: the download's duration is an integer. `info.get('duration', 0)` (line 73) can give `None` when yt-dlp reports no length; then `duration > 1800` (line 327) raises and the handler's `except` path above is taken. The model has no such outcome.
- Paths are compared as strings, and `State.Disk` is a set of path strings. `..` and other aliases are not resolved. The id is cut only at `&` (line 60), so a link such as `watch?v=x&v=../output/temp_cropped_1` gives the path `input/../output/temp_cropped_1.mp4`. That path names the same file as clip 1's cut video. Shorts.ClipPathsDisjoint, Shorts.LoopFilesFrame and Bot.Lifecycle hold for path strings, not for the files they name.
- The download is taken to be stored at exactly `input/{id}.mp4`. `outtmpl` (line 65) is a yt-dlp template, so a `%(...)s` field in the id would move the stored file, and `os.remove` at line 328 would then raise.
- Subtitles.SrtRoundTrip: the `.srt` file is modelled as its sequence of lines, and the round trip is proved over that sequence. A word containing a line break would split its cue's text line in the real file. The round trip over the joined text is not proved.
- Concurrency is not modelled. `asyncio.create_task` and the interleaving of several chats' jobs are out of scope. Admission is atomic because nothing is awaited between the check and the insert. `Bot.Lifecycle` runs a job right after its request.
- The `/start`, `/status` and `/help` handlers are out: they reply with fixed texts. Logging and `main` are out too.
- Times are whole milliseconds (`nat`/`int`), not floats. `format_srt_time`'s float `//` and `%` are modelled exactly on integers. Float rounding of `seconds % 1 * 1000` is not modelled. Neither is the `str(float)` text of the ffmpeg `-ss`/`-t` arguments, which only feed the cut step.
- PyStr.ParseInt: `int()` is modelled for ASCII digits with an optional sign and single underscores. Surrounding blanks do not arise because the token comes from `split()`. Other Unicode decimal digits are not accepted.
- Subtitles.CompileSrt, Shorts.CreateSubtitledVideo, Shorts.ProcessClip, Shorts.ProcessClips and Bot.ProcessVideoTask require transcript words not to end before they start (`WellTimed`). The transcriber guarantees this, and it makes cue times natural numbers.
- Bot.Lifecycle: the other chats' jobs are already admitted and do not progress during the scenario.
- What failing tools leave behind is not modelled. A step that raises is taken to create no file: a partial ffmpeg output or download is not tracked. Writing the `.srt` always succeeds in the model.
- The completion's content is a parameter (`Completion`). The prompt is not modelled beyond its 40-word excerpt. `transcript_text[:400]`, the model name and the sampling parameters are out.
- Bot.HandleMessage: the message text is split before the busy check in the model and after it in the code. Splitting has no effect, so the replies are the same.
- The code cleans up only on success paths, and the model follows the code:
  - A clip that fails after cutting leaves its temporary videos behind (lines 206-212).
  - The `.srt` stays when the subtitle burn fails (lines 128-133).
  - The download is removed only by the job's `finally` and on the too-long path. The handler's `except` (lines 344-348) does not remove it; the model has no path into that `except` after a successful download (see the send and duration lines above).
