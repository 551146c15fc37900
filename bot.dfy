/** The two handlers that use the gate: `handle_message`, which admits a
    chat, downloads its video and starts a job, and `process_video_task`,
    the job itself, which always releases the chat and removes the video. */
module Bot {
  import opened Wrappers
  import opened Digits
  import opened PyStr
  import opened Subtitles
  import opened Request
  import opened Title
  import opened State
  import opened Shorts

  /* ---------- the job ---------- */

  /** What the clip finder gave back. */
  datatype Found = FindRaised(error: string) | Found(clips: seq<Clip>)

  /** How the steps before the loop turn out: loading the models, the
      transcription and the clip search. */
  datatype TaskRun = TaskRun(init: Step, transcribe: Step, find: Found)

  /** Whether the job gets as far as the loop over clips. */
  predicate ReachesLoop(task: TaskRun) {
    task.init.Done? && task.transcribe.Done? && task.find.Found? && task.find.clips != []
  }

  /** `clips[:num_clips]` */
  function Chosen(task: TaskRun, numClips: int): seq<Clip>
    requires task.find.Found?
  {
    Take(task.find.clips, numClips)
  }

  /** Everything the job sends, in order. */
  function TaskMessages(numClips: int, words: seq<Word>, task: TaskRun, runs: nat -> ClipRun): seq<Message> {
    if task.init.Raised? then [ProcessingError(task.init.error)]
    else if task.transcribe.Raised? then [Notice(Transcribing), ProcessingError(task.transcribe.error)]
    else
      match task.find
      case FindRaised(e) => [Notice(Transcribing), Notice(Finding), ProcessingError(e)]
      case Found(clips) =>
        if clips == [] then [Notice(Transcribing), Notice(Finding), Notice(NoMoments)]
        else
          var chosen := Chosen(task, numClips);
          [Notice(Transcribing), Notice(Finding), Creating(|chosen|)]
            + RunMessages(words, chosen, runs, |chosen|) + [Notice(AllSent)]
  }

  /** The files after the job, before its `finally` removes the video. */
  function TaskFiles(files: set<string>, numClips: int, words: seq<Word>, task: TaskRun, runs: nat -> ClipRun): set<string> {
    if ReachesLoop(task) then
      var chosen := Chosen(task, numClips);
      RunFiles(files, words, chosen, runs, |chosen|)
    else files
  }

  /** The `try` block of `process_video_task` (lines 148-218): the stages
      before the loop, then the loop over the chosen clips. */
  method RunTask(disk: Disk, numClips: int, words: seq<Word>, task: TaskRun, runs: nat -> ClipRun)
      returns (sent: seq<Message>)
    requires WellTimed(words)
    modifies disk
    ensures sent == TaskMessages(numClips, words, task, runs)
    ensures disk.files == TaskFiles(old(disk.files), numClips, words, task, runs)
  {
    if task.init.Raised? {
      return [ProcessingError(task.init.error)];
    }
    sent := [Notice(Transcribing)];
    if task.transcribe.Raised? {
      return sent + [ProcessingError(task.transcribe.error)];
    }
    sent := sent + [Notice(Finding)];
    match task.find {
      case FindRaised(e) =>
        sent := sent + [ProcessingError(e)];
      case Found(clips) =>
        if clips == [] {
          sent := sent + [Notice(NoMoments)];
        } else {
          var chosen := Take(clips, numClips);
          sent := sent + [Creating(|chosen|)];
          var shorts := ProcessClips(disk, words, chosen, runs);
          sent := sent + shorts + [Notice(AllSent)];
        }
    }
  }

  /** `process_video_task`, lines 147-224: the `try` block, then the
      `finally` that removes the video and releases the chat. */
  method ProcessVideoTask(gate: RequesterGate, disk: Disk, chatId: int, videoPath: string, numClips: int,
                          words: seq<Word>, task: TaskRun, runs: nat -> ClipRun)
      returns (sent: seq<Message>)
    requires WellTimed(words)
    modifies gate, disk
    ensures sent == TaskMessages(numClips, words, task, runs)
    ensures disk.files == TaskFiles(old(disk.files), numClips, words, task, runs) - {videoPath}
    ensures gate.active == old(gate.active) - {chatId}
  {
    sent := RunTask(disk, numClips, words, task, runs);
    // finally
    disk.RemoveIfExists(videoPath);
    gate.Release(chatId);
  }

  /** Messages that are neither a short nor a warning. */
  lemma NoticesHaveNoOutcome(ms: seq<Message>, delivered: bool)
    requires forall j :: 0 <= j < |ms| ==> !ms[j].ShortVideo? && !ms[j].Warning?
    ensures Outcomes(ms, delivered) == []
    decreases |ms|
  {
    if ms != [] {
      NoticesHaveNoOutcome(ms[..|ms| - 1], delivered);
    }
  }

  /** A job that reaches the loop attempts exactly the first
      `min(num_clips, len(clips))` candidates, announces that number, and
      sends the shorts of the delivered clips and one warning per failed
      clip, in clip order, before its final message. */
  lemma TaskOutcomes(numClips: int, words: seq<Word>, task: TaskRun, runs: nat -> ClipRun, delivered: bool)
    requires ReachesLoop(task)
    ensures var chosen := Chosen(task, numClips); var ms := TaskMessages(numClips, words, task, runs);
      && chosen == task.find.clips[..|chosen|]
      && (numClips >= 0 ==> |chosen| == Min(numClips, |task.find.clips|))
      && ms[2] == Creating(|chosen|)
      && Outcomes(ms, delivered) == Indices(runs, |chosen|, delivered)
  {
    var chosen := Chosen(task, numClips);
    var head: seq<Message> := [Notice(Transcribing), Notice(Finding), Creating(|chosen|)];
    var loop := RunMessages(words, chosen, runs, |chosen|);
    var tail: seq<Message> := [Notice(AllSent)];
    assert TaskMessages(numClips, words, task, runs) == head + loop + tail;
    OutcomesAppend(head + loop, tail, delivered);
    OutcomesAppend(head, loop, delivered);
    NoticesHaveNoOutcome(head, delivered);
    NoticesHaveNoOutcome(tail, delivered);
    LoopOutcomes(words, chosen, runs, |chosen|, delivered);
  }

  /** Every job ends with exactly one closing message: all sent, no
      moments found, or the processing error. */
  lemma TaskEnding(numClips: int, words: seq<Word>, task: TaskRun, runs: nat -> ClipRun)
    ensures var ms := TaskMessages(numClips, words, task, runs);
      && ms != []
      && (ReachesLoop(task) <==> Last(ms) == Notice(AllSent))
      && ((task.init.Done? && task.transcribe.Done? && task.find.Found? && task.find.clips == [])
            <==> Last(ms) == Notice(NoMoments))
      && (!ReachesLoop(task) && Last(ms) != Notice(NoMoments) <==> Last(ms).ProcessingError?)
  {
  }

  /* ---------- the message handler ---------- */

  /** What the downloader gave back. */
  datatype Download = DownloadRaised(error: string) | Downloaded(title: string, duration: int)

  /** A job handed to the background task. */
  datatype Job = Job(chatId: int, videoPath: string, numClips: int)

  const BusyReply: string := "\U{23F3} Already processing your previous video. Please wait!"
  const NoLinkReply: string := "\U{274C} Send a YouTube video link"
  const InvalidLinkReply: string := "\U{274C} Invalid YouTube link. Send youtube.com or youtu.be format"
  const DownloadingReply: string := "\U{1F4E5} Downloading video from YouTube..."
  const TooLongReply: string := "\U{274C} Video too long! Maximum 30 minutes"

  function ErrorReply(error: string): string {
    "\U{274C} Error: " + error
  }

  /** The confirmation, with the length in whole minutes (`duration // 60`;
      Python's floor division agrees with Dafny's for a positive divisor). */
  function DownloadedReply(title: string, duration: int, numClips: int): string {
    "\U{2705} Downloaded: *" + title + "*\n"
      + "\U{23F1}\U{FE0F} Duration: " + IntStr(duration / 60) + " min\n"
      + "\U{1F3AC} Creating " + IntStr(numClips) + " shorts...\n\n"
      + "_This will take 5-20 minutes. I'll send clips when ready!_"
  }

  datatype Response = Response(replies: seq<string>, job: Option<Job>)

  /** Whether the request passes the checks before the download. */
  predicate Accepted(busy: bool, text: string) {
    !busy && Parts(text) != [] && IsYouTubeUrl(Parts(text)[0])
  }

  /** The replies and the job once the request is admitted (lines 321-348). */
  function Fetch(chatId: int, url: string, numClips: int, download: Download): Response {
    match download
    case DownloadRaised(e) => Response([DownloadingReply, ErrorReply(e)], None)
    case Downloaded(title, duration) =>
      if TooLong(duration) then Response([DownloadingReply, TooLongReply], None)
      else Response([DownloadingReply, DownloadedReply(title, duration, numClips)],
                    Some(Job(chatId, VideoPath(VideoId(url)), numClips)))
  }

  /** The files after the download: it is stored, and removed again when too long. */
  function FetchFiles(files: set<string>, url: string, download: Download): set<string> {
    if download.Downloaded? then
      var path := VideoPath(VideoId(url));
      if TooLong(download.duration) then files + {path} - {path} else files + {path}
    else files
  }

  /** The reply that turns a request away before anything is admitted
      (lines 298-319), if any. */
  function Refusal(busy: bool, parts: seq<string>): (r: Option<string>)
    ensures r.None? <==> !busy && parts != [] && IsYouTubeUrl(parts[0])
  {
    if busy then Some(BusyReply)
    else if parts == [] then Some(NoLinkReply)
    else if !IsYouTubeUrl(parts[0]) then Some(InvalidLinkReply)
    else None
  }

  /** What `handle_message` replies and whether it starts a job. */
  function Respond(chatId: int, busy: bool, text: string, download: Download): Response {
    var parts := Parts(text);
    match Refusal(busy, parts)
    case Some(reply) => Response([reply], None)
    case None => Fetch(chatId, parts[0], ClipCount(parts), download)
  }

  /** The files after `handle_message`. */
  function RequestFiles(files: set<string>, busy: bool, text: string, download: Download): set<string> {
    if Accepted(busy, text) then FetchFiles(files, Parts(text)[0], download) else files
  }

  /** Lines 321-348: admit the chat, download, apply the length limit. */
  method Admitted(gate: RequesterGate, disk: Disk, chatId: int, url: string, numClips: int, download: Download)
      returns (replies: seq<string>, job: Option<Job>)
    requires chatId !in gate.active
    modifies gate, disk
    ensures Response(replies, job) == Fetch(chatId, url, numClips, download)
    ensures gate.active == if job.Some? then old(gate.active) + {chatId} else old(gate.active)
    ensures disk.files == FetchFiles(old(disk.files), url, download)
  {
    gate.Admit(chatId);
    replies := [DownloadingReply];
    match download {
      case DownloadRaised(e) =>
        gate.Release(chatId);
        replies := replies + [ErrorReply(e)];
        job := None;
      case Downloaded(title, duration) =>
        var videoPath := VideoPath(VideoId(url));
        disk.Write(videoPath);
        if TooLong(duration) {
          var fileMissing := disk.Remove(videoPath);
          var notAdmitted := gate.Remove(chatId);
          // Neither unchecked removal can raise: both were just added.
          assert !fileMissing && !notAdmitted;
          replies := replies + [TooLongReply];
          job := None;
        } else {
          replies := replies + [DownloadedReply(title, duration, numClips)];
          job := Some(Job(chatId, videoPath, numClips));
        }
    }
  }

  /** `handle_message`, lines 294-348. */
  method HandleMessage(gate: RequesterGate, disk: Disk, chatId: int, text: string, download: Download)
      returns (replies: seq<string>, job: Option<Job>)
    modifies gate, disk
    ensures Response(replies, job) == Respond(chatId, chatId in old(gate.active), text, download)
    ensures gate.active == if job.Some? then old(gate.active) + {chatId} else old(gate.active)
    ensures disk.files == RequestFiles(old(disk.files), chatId in old(gate.active), text, download)
  {
    var parts := Parts(text);
    var refusal := Refusal(gate.Busy(chatId), parts);
    if refusal.Some? {
      return [refusal.value], None;
    }
    var url := parts[0];
    var numClips := ClipCount(parts);
    replies, job := Admitted(gate, disk, chatId, url, numClips, download);
  }

  /** A request is either turned away with its one refusal, or handed to
      the download with the first token and the parsed count. */
  lemma RespondCases(chatId: int, busy: bool, text: string, download: Download)
    ensures var parts := Parts(text);
      && (busy ==> Respond(chatId, busy, text, download) == Response([BusyReply], None))
      && (!Accepted(busy, text) ==>
            Refusal(busy, parts).Some? && Respond(chatId, busy, text, download) == Response([Refusal(busy, parts).value], None))
      && (Accepted(busy, text) ==>
            parts != [] && Respond(chatId, busy, text, download) == Fetch(chatId, parts[0], ClipCount(parts), download))
  {
  }

  /** A job starts exactly when the chat is idle, the first word is a
      YouTube link, the download succeeds and the video is at most 30
      minutes long; it carries the parsed clip count and the stored file. */
  lemma RespondStartsJob(chatId: int, busy: bool, text: string, download: Download)
    ensures var r := Respond(chatId, busy, text, download);
      && (r.job.Some? <==> Accepted(busy, text) && download.Downloaded? && !TooLong(download.duration))
      && (r.job.Some? ==>
            && r.job.value.chatId == chatId
            && r.job.value.numClips == ClipCount(Parts(text))
            && MinClips <= r.job.value.numClips <= MaxClips
            && r.job.value.videoPath == VideoPath(VideoId(Parts(text)[0])))
  {
    RespondCases(chatId, busy, text, download);
  }

  /** A refused request gets one reply and nothing else happens; an
      accepted one gets the download notice and then one outcome. */
  lemma RespondReplies(chatId: int, busy: bool, text: string, download: Download)
    ensures var r := Respond(chatId, busy, text, download);
      && (busy ==> r.replies == [BusyReply])
      && (!Accepted(busy, text) ==> |r.replies| == 1 && r.job.None?)
      && (Accepted(busy, text) ==> |r.replies| == 2 && r.replies[0] == DownloadingReply)
      && (Accepted(busy, text) && download.DownloadRaised? ==> r.replies[1] == ErrorReply(download.error))
  {
    RespondCases(chatId, busy, text, download);
  }

  /** A request followed by its job, from one chat while others may be
      busy: the chat is held for exactly the lifetime of its job, the gate
      ends as it started, and the downloaded video does not outlive the job. */
  method Lifecycle(others: set<int>, files: set<string>, chatId: int, text: string, download: Download,
                   words: seq<Word>, task: TaskRun, runs: nat -> ClipRun)
      returns (job: Option<Job>, during: set<int>, after: set<int>, left: set<string>)
    requires chatId !in others && WellTimed(words)
    ensures after == others
    ensures job.Some? ==> during == others + {chatId} && job.value.videoPath !in left
    ensures job.None? ==> during == others
  {
    var gate := new RequesterGate();
    gate.active := others;
    var disk := new Disk(files);
    var replies;
    replies, job := HandleMessage(gate, disk, chatId, text, download);
    during := gate.active;
    if job.Some? {
      var sent := ProcessVideoTask(gate, disk, chatId, job.value.videoPath, job.value.numClips, words, task, runs);
      assert gate.active == others + {chatId} - {chatId};
    }
    after := gate.active;
    left := disk.files;
  }
}
