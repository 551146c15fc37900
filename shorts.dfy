/** The loop of `process_video_task` that turns each chosen clip into a
    short: cut, reframe to 9:16, burn in subtitles, send, clean up. The
    external tools and the chat service are given as outcomes per clip;
    everything the loop decides from them is modelled: which message each
    clip produces, and which files are left behind. */
module Shorts {
  import opened Wrappers
  import opened Digits
  import opened PyStr
  import opened Subtitles
  import opened Title
  import opened State

  /* ---------- file names ---------- */

  /** `f"output/temp_cropped_{idx}.mp4"` */
  function CroppedPath(idx: nat): string { "output/temp_cropped_" + NatStr(idx) + ".mp4" }
  /** `f"output/temp_resized_{idx}.mp4"` */
  function ResizedPath(idx: nat): string { "output/temp_resized_" + NatStr(idx) + ".mp4" }
  /** `f"output/short_{idx}.mp4"` */
  function ShortPath(idx: nat): string { "output/short_" + NatStr(idx) + ".mp4" }
  /** The subtitle file written beside a short. */
  function SubtitlePath(idx: nat): string { "output/short_" + NatStr(idx) + ".srt" }

  /** Every file one clip can create. */
  function ClipPaths(idx: nat): set<string> {
    {CroppedPath(idx), ResizedPath(idx), ShortPath(idx), SubtitlePath(idx)}
  }

  /** `.replace('.mp4', '.srt')` on a short's name gives its subtitle file:
      the name has no other dot, so only the extension is replaced. */
  lemma SubtitleOfShort(idx: nat)
    ensures SrtPath(ShortPath(idx)) == SubtitlePath(idx)
  {
    var a := "output/short_" + NatStr(idx);
    assert forall i :: 0 <= i < |a| ==> a[i] != '.' by {
      assert forall i :: 0 <= i < |NatStr(idx)| ==> a[13 + i] == NatStr(idx)[i];
    }
    assert ShortPath(idx) == a + ".mp4";
    SplitAfterPlainPrefix(a, ".mp4", ".mp4");
    assert Split("", ".mp4") == [""];
    assert Split(".mp4", ".mp4") == [""] + Split("", ".mp4");
    assert Split(a + ".mp4", ".mp4") == [a, ""];
    assert Join([a, ""], ".srt") == a + ".srt" + Join([""], ".srt");
  }

  lemma FramedEqual(p: string, x: string, y: string, q: string)
    requires p + x + q == p + y + q
    ensures x == y
  {
    assert |x| == |y|;
    assert x == (p + x + q)[|p|..|p| + |x|];
    assert y == (p + y + q)[|p|..|p| + |y|];
  }

  /** The characters that tell the four kinds of file apart. */
  lemma PathMarks(idx: nat)
    ensures |CroppedPath(idx)| > 12 && CroppedPath(idx)[7] == 't' && CroppedPath(idx)[12] == 'c'
    ensures |ResizedPath(idx)| > 12 && ResizedPath(idx)[7] == 't' && ResizedPath(idx)[12] == 'r'
    ensures ShortPath(idx)[7] == 's' && ShortPath(idx)[|ShortPath(idx)| - 1] == '4'
    ensures SubtitlePath(idx)[7] == 's' && SubtitlePath(idx)[|SubtitlePath(idx)| - 1] == 't'
  {
  }

  /** Within one clip the four files are distinct, and the subtitle file
      is the one `.replace` derives from the short's name. */
  lemma OwnPathsDiffer(idx: nat)
    ensures SrtPath(ShortPath(idx)) == SubtitlePath(idx)
    ensures CroppedPath(idx) != ResizedPath(idx) && CroppedPath(idx) != ShortPath(idx)
    ensures CroppedPath(idx) != SubtitlePath(idx) && ResizedPath(idx) != ShortPath(idx)
    ensures ResizedPath(idx) != SubtitlePath(idx) && ShortPath(idx) != SubtitlePath(idx)
  {
    SubtitleOfShort(idx);
    PathMarks(idx);
  }

  /** The files of different clips never collide. */
  lemma ClipPathsDisjoint(i: nat, j: nat)
    requires i != j
    ensures ClipPaths(i) !! ClipPaths(j)
  {
    PathMarks(i);
    PathMarks(j);
    if CroppedPath(i) == CroppedPath(j) {
      FramedEqual("output/temp_cropped_", NatStr(i), NatStr(j), ".mp4");
      NatStrInjective(i, j);
    }
    if ResizedPath(i) == ResizedPath(j) {
      FramedEqual("output/temp_resized_", NatStr(i), NatStr(j), ".mp4");
      NatStrInjective(i, j);
    }
    if ShortPath(i) == ShortPath(j) {
      FramedEqual("output/short_", NatStr(i), NatStr(j), ".mp4");
      NatStrInjective(i, j);
    }
    if SubtitlePath(i) == SubtitlePath(j) {
      FramedEqual("output/short_", NatStr(i), NatStr(j), ".srt");
      NatStrInjective(i, j);
    }
  }

  /* ---------- what the outside world does ---------- */

  /** A step that either completes or raises with a message. */
  datatype Step = Done | Raised(error: string)

  /** How the external steps of one clip turn out: the title call, the
      cutting and the reframing ffmpeg runs (`check=True`, so a failure
      raises), the subtitle ffmpeg run (its return code is inspected, so a
      failure only means the subtitles are skipped), and the upload. */
  datatype ClipRun = ClipRun(completion: Completion, cut: Step, reframe: Step, burned: bool, upload: Step)

  /* ---------- what the bot sends ---------- */

  datatype Message =
    | Notice(text: string)
    | Creating(count: nat)
    | Progress(idx: nat, total: nat)
    | ShortVideo(idx: nat, total: nat, title: string, path: string)
    | Warning(idx: nat, error: string)
    | ProcessingError(error: string)

  const Transcribing: string := "\U{1F4DD} Transcribing video... (this may take a few minutes)"
  const Finding: string := "\U{1F3AF} AI is finding the best moments..."
  const NoMoments: string := "\U{274C} Failed to find suitable moments for clips"
  const AllSent: string := "\U{2705} Done! All shorts sent!"

  /** The text of each message; a short is a video whose caption is shown. */
  function Render(m: Message): string {
    match m
    case Notice(text) => text
    case Creating(count) => "\U{2702}\U{FE0F} Creating " + NatStr(count) + " shorts..."
    case Progress(idx, total) => "\U{2699}\U{FE0F} Processing short " + NatStr(idx) + "/" + NatStr(total) + "..."
    case ShortVideo(idx, total, title, _) => Caption(idx, total, title)
    case Warning(idx, error) => "\U{26A0}\U{FE0F} Error creating short " + NatStr(idx) + ": " + error
    case ProcessingError(error) => "\U{274C} Processing error: " + error
  }

  /** The texts of lines 162, 166 and 200 for concrete values. */
  lemma RenderedTexts(video: string)
    ensures Render(Creating(3)) == "\U{2702}\U{FE0F} Creating 3 shorts..."
    ensures Render(Progress(10, 10)) == "\U{2699}\U{FE0F} Processing short 10/10..."
    ensures Render(ShortVideo(2, 3, "Wow", video)) == "\U{1F3AC} Short 2/3\n\nWow"
  {
  }

  /** The texts of lines 212 and 218 carry the error as raised. */
  lemma RenderedErrors(error: string)
    ensures Render(Warning(2, error)) == "\U{26A0}\U{FE0F} Error creating short 2: " + error
    ensures Render(ProcessingError(error)) == "\U{274C} Processing error: " + error
  {
  }

  /* ---------- one clip ---------- */

  /** Which file `create_subtitled_video` hands back, and so which file is sent. */
  function FinalVideo(idx: nat, hasWords: bool, burned: bool): string {
    if hasWords && burned then ShortPath(idx) else ResizedPath(idx)
  }

  /** The error that ends a clip, if any: the first of cutting, reframing
      and uploading to raise. */
  function ClipFailure(run: ClipRun): Option<string> {
    if run.cut.Raised? then Some(run.cut.error)
    else if run.reframe.Raised? then Some(run.reframe.error)
    else if run.upload.Raised? then Some(run.upload.error)
    else None
  }

  predicate Delivered(run: ClipRun) {
    ClipFailure(run).None?
  }

  /** The messages of clip `idx`: its progress line, then either the short
      or one warning. */
  function ClipMessages(idx: nat, total: nat, words: seq<Word>, c: Clip, run: ClipRun): seq<Message> {
    [Progress(idx, total)] +
      match ClipFailure(run)
      case Some(e) => [Warning(idx, e)]
      case None => [ShortVideo(idx, total, GenerateTitle(run.completion), FinalVideo(idx, SelectWords(words, c) != [], run.burned))]
  }

  /** The files after `create_subtitled_video`: nothing happens without
      words; otherwise the .srt is written, and only a successful burn
      creates the output and removes the .srt. */
  function SubtitleFiles(files: set<string>, output: string, hasWords: bool, burned: bool): set<string> {
    if !hasWords then files
    else if burned then files + {SrtPath(output)} + {output} - {SrtPath(output)}
    else files + {SrtPath(output)}
  }

  /** The files after clip `idx`: each step that ran leaves its output, and
      only a delivered short removes the cut, the reframed and the subtitled video. */
  function ClipFiles(files: set<string>, idx: nat, hasWords: bool, run: ClipRun): set<string> {
    if run.cut.Raised? then files
    else if run.reframe.Raised? then files + {CroppedPath(idx)}
    else
      var made := SubtitleFiles(files + {CroppedPath(idx)} + {ResizedPath(idx)}, ShortPath(idx), hasWords, run.burned);
      if run.upload.Raised? then made
      else made - {CroppedPath(idx)} - {ResizedPath(idx)} - {ShortPath(idx)}
  }

  /** Lines 97-138: the selection, the .srt, the burn, and the path returned. */
  method CreateSubtitledVideo(disk: Disk, videoPath: string, words: seq<Word>, c: Clip, output: string, burned: bool)
      returns (result: string, srt: seq<string>)
    requires WellTimed(words)
    modifies disk
    ensures var sel := SelectWords(words, c);
      && srt == SrtLines(Cues(sel, c))
      && result == (if sel != [] && burned then output else videoPath)
      && disk.files == SubtitleFiles(old(disk.files), output, sel != [], burned)
  {
    var wordInfo := SelectWords(words, c);
    if wordInfo == [] {
      CuesOfNothing(c);
      return videoPath, [];
    }
    var srtFile := SrtPath(output);
    srt := CompileSrt(words, c);
    disk.Write(srtFile);
    if !burned {
      return videoPath, srt;
    }
    disk.Write(output);
    disk.RemoveIfExists(srtFile);
    result := output;
  }

  /** One pass of the loop body with its `try`/`except`. */
  method ProcessClip(disk: Disk, idx: nat, total: nat, words: seq<Word>, c: Clip, run: ClipRun)
      returns (sent: seq<Message>)
    requires WellTimed(words)
    modifies disk
    ensures sent == ClipMessages(idx, total, words, c, run)
    ensures disk.files == ClipFiles(old(disk.files), idx, SelectWords(words, c) != [], run)
  {
    sent := [Progress(idx, total)];
    var title := GenerateTitle(run.completion);
    var tempCropped := CroppedPath(idx);
    if run.cut.Raised? {
      sent := sent + [Warning(idx, run.cut.error)];
      return;
    }
    disk.Write(tempCropped);
    var tempResized := ResizedPath(idx);
    if run.reframe.Raised? {
      sent := sent + [Warning(idx, run.reframe.error)];
      return;
    }
    disk.Write(tempResized);
    var outputFile := ShortPath(idx);
    var finalVideo, _ := CreateSubtitledVideo(disk, tempResized, words, c, outputFile, run.burned);
    // The file opened for sending is always there.
    assert disk.Exists(finalVideo) by {
      OwnPathsDiffer(idx);
    }
    if run.upload.Raised? {
      sent := sent + [Warning(idx, run.upload.error)];
      return;
    }
    sent := sent + [ShortVideo(idx, total, title, finalVideo)];
    disk.RemoveIfExists(tempCropped);
    disk.RemoveIfExists(tempResized);
    disk.RemoveIfExists(outputFile);
  }

  /* ---------- the loop ---------- */

  /** The messages of the first `k` clips, in order. */
  function RunMessages(words: seq<Word>, clips: seq<Clip>, runs: nat -> ClipRun, k: nat): seq<Message>
    requires k <= |clips|
  {
    if k == 0 then []
    else RunMessages(words, clips, runs, k - 1) + ClipMessages(k, |clips|, words, clips[k - 1], runs(k))
  }

  /** The files after the first `k` clips. */
  function RunFiles(files: set<string>, words: seq<Word>, clips: seq<Clip>, runs: nat -> ClipRun, k: nat): set<string>
    requires k <= |clips|
  {
    if k == 0 then files
    else ClipFiles(RunFiles(files, words, clips, runs, k - 1), k, SelectWords(words, clips[k - 1]) != [], runs(k))
  }

  /** `for idx, clip in enumerate(clips, 1)`: every clip is attempted, numbered from 1. */
  method ProcessClips(disk: Disk, words: seq<Word>, clips: seq<Clip>, runs: nat -> ClipRun)
      returns (sent: seq<Message>)
    requires WellTimed(words)
    modifies disk
    ensures sent == RunMessages(words, clips, runs, |clips|)
    ensures disk.files == RunFiles(old(disk.files), words, clips, runs, |clips|)
  {
    sent := [];
    var idx := 1;
    while idx <= |clips|
      invariant 1 <= idx <= |clips| + 1
      invariant sent == RunMessages(words, clips, runs, idx - 1)
      invariant disk.files == RunFiles(old(disk.files), words, clips, runs, idx - 1)
    {
      var m := ProcessClip(disk, idx, |clips|, words, clips[idx - 1], runs(idx));
      sent := sent + m;
      idx := idx + 1;
    }
  }

  /* ---------- what the loop promises ---------- */

  /** The indices of the shorts sent (`delivered`) or of the warnings
      (`!delivered`) in a message log, in order. */
  function Outcomes(msgs: seq<Message>, delivered: bool): seq<nat>
    decreases |msgs|
  {
    if msgs == [] then []
    else
      var m := msgs[|msgs| - 1];
      Outcomes(msgs[..|msgs| - 1], delivered)
        + (if (delivered && m.ShortVideo?) || (!delivered && m.Warning?) then [m.idx] else [])
  }

  lemma {:induction false} OutcomesAppend(a: seq<Message>, b: seq<Message>, delivered: bool)
    ensures Outcomes(a + b, delivered) == Outcomes(a, delivered) + Outcomes(b, delivered)
    decreases |b|
  {
    if b == [] {
      assert a + b == a;
    } else {
      var b' := b[..|b| - 1];
      assert (a + b)[..|a + b| - 1] == a + b';
      OutcomesAppend(a, b', delivered);
    }
  }

  /** The clip numbers among `1..k` whose clip was (or was not) delivered, ascending. */
  function Indices(runs: nat -> ClipRun, k: nat, delivered: bool): seq<nat> {
    if k == 0 then []
    else Indices(runs, k - 1, delivered) + (if Delivered(runs(k)) == delivered then [k] else [])
  }

  /** Each clip adds exactly its own outcome to the log. */
  lemma ClipOutcome(idx: nat, total: nat, words: seq<Word>, c: Clip, run: ClipRun, delivered: bool)
    ensures Outcomes(ClipMessages(idx, total, words, c, run), delivered)
      == if Delivered(run) == delivered then [idx] else []
  {
    var ms := ClipMessages(idx, total, words, c, run);
    assert ms[..1] == [Progress(idx, total)];
    assert Outcomes(ms[..1], delivered) == [];
  }

  /** The shorts are sent for exactly the delivered clips and the warnings
      for exactly the failed ones, each in clip order. */
  lemma {:induction false} LoopOutcomes(words: seq<Word>, clips: seq<Clip>, runs: nat -> ClipRun, k: nat, delivered: bool)
    requires k <= |clips|
    ensures Outcomes(RunMessages(words, clips, runs, k), delivered) == Indices(runs, k, delivered)
  {
    if k > 0 {
      var prev := RunMessages(words, clips, runs, k - 1);
      var cur := ClipMessages(k, |clips|, words, clips[k - 1], runs(k));
      var step: seq<nat> := if Delivered(runs(k)) == delivered then [k] else [];
      assert RunMessages(words, clips, runs, k) == prev + cur;
      assert Indices(runs, k, delivered) == Indices(runs, k - 1, delivered) + step;
      LoopOutcomes(words, clips, runs, k - 1, delivered);
      ClipOutcome(k, |clips|, words, clips[k - 1], runs(k), delivered);
      OutcomesAppend(prev, cur, delivered);
    }
  }

  /** The index lists are strictly ascending ... */
  lemma {:induction false} IndicesAscending(runs: nat -> ClipRun, k: nat, delivered: bool)
    ensures forall a :: 0 <= a < |Indices(runs, k, delivered)| ==> 1 <= Indices(runs, k, delivered)[a] <= k
    ensures forall a, b :: 0 <= a < b < |Indices(runs, k, delivered)| ==>
      Indices(runs, k, delivered)[a] < Indices(runs, k, delivered)[b]
  {
    if k > 0 {
      var prev := Indices(runs, k - 1, delivered);
      var step: seq<nat> := if Delivered(runs(k)) == delivered then [k] else [];
      var s := Indices(runs, k, delivered);
      assert s == prev + step;
      IndicesAscending(runs, k - 1, delivered);
      forall a | 0 <= a < |s|
        ensures 1 <= s[a] <= k
      {
        if a < |prev| {
          assert s[a] == prev[a];
          assert 1 <= prev[a] <= k - 1;
        } else {
          assert step == [k] && s[a] == k;
        }
      }
      forall a, b | 0 <= a < b < |s|
        ensures s[a] < s[b]
      {
        assert s[a] == prev[a] && prev[a] <= k - 1;
        if b < |prev| {
          assert s[b] == prev[b];
        } else {
          assert step == [k] && s[b] == k;
        }
      }
    }
  }

  /** ... and name every clip of their kind, and no other; being ascending,
      they name each one once. */
  lemma {:induction false} IndicesMembers(runs: nat -> ClipRun, k: nat, delivered: bool, i: int)
    ensures i in Indices(runs, k, delivered) <==> 1 <= i <= k && Delivered(runs(i)) == delivered
  {
    if k > 0 {
      var prev := Indices(runs, k - 1, delivered);
      IndicesMembers(runs, k - 1, delivered, i);
      var same := Delivered(runs(k)) == delivered;
      if i == k {
        assert (Delivered(runs(i)) == delivered) == same;
      }
      if same {
        assert Indices(runs, k, delivered) == prev + [k];
      } else {
        assert Indices(runs, k, delivered) == prev;
      }
    }
  }

  /** Every clip produces two messages, so one clip's failure neither hides
      nor duplicates another clip's messages. */
  lemma {:induction false} LoopMessageCount(words: seq<Word>, clips: seq<Clip>, runs: nat -> ClipRun, k: nat)
    requires k <= |clips|
    ensures |RunMessages(words, clips, runs, k)| == 2 * k
    ensures forall j :: 0 <= j < k ==> RunMessages(words, clips, runs, k)[2 * j] == Progress(j + 1, |clips|)
  {
    if k > 0 {
      LoopMessageCount(words, clips, runs, k - 1);
      var prev := RunMessages(words, clips, runs, k - 1);
      assert forall j :: 0 <= j < k - 1 ==> RunMessages(words, clips, runs, k)[2 * j] == prev[2 * j];
    }
  }

  /** Three clips where cutting the second one fails: the first and third
      shorts are sent, and one warning names the second. */
  lemma SecondCutFails(words: seq<Word>, clips: seq<Clip>, ok: ClipRun, error: string)
    requires |clips| == 3 && Delivered(ok)
    ensures var runs := (i: nat) => if i == 2 then ok.(cut := Raised(error)) else ok;
      && Outcomes(RunMessages(words, clips, runs, 3), true) == [1, 3]
      && Outcomes(RunMessages(words, clips, runs, 3), false) == [2]
  {
    var runs := (i: nat) => if i == 2 then ok.(cut := Raised(error)) else ok;
    LoopOutcomes(words, clips, runs, 3, true);
    LoopOutcomes(words, clips, runs, 3, false);
    assert Indices(runs, 3, true) == [1, 3];
    assert Indices(runs, 3, false) == [2];
  }

  /** A clip touches no file but its own. */
  lemma ClipFilesFrame(files: set<string>, idx: nat, hasWords: bool, run: ClipRun, p: string)
    requires p !in ClipPaths(idx)
    ensures p in ClipFiles(files, idx, hasWords, run) <==> p in files
  {
    SubtitleOfShort(idx);
  }

  /** After clip `idx`: a delivered clip has left none of its videos behind;
      a failed reframe leaves the cut video; a delivered clip whose burn
      failed leaves its .srt. */
  lemma ClipFilesLeft(files: set<string>, idx: nat, hasWords: bool, run: ClipRun)
    ensures var after := ClipFiles(files, idx, hasWords, run);
      && (Delivered(run) ==> CroppedPath(idx) !in after && ResizedPath(idx) !in after && ShortPath(idx) !in after)
      && (run.cut.Done? && run.reframe.Raised? ==> CroppedPath(idx) in after)
      && (Delivered(run) && hasWords && !run.burned ==> SubtitlePath(idx) in after)
      && (Delivered(run) && hasWords && run.burned ==> SubtitlePath(idx) !in after)
  {
    OwnPathsDiffer(idx);
  }

  /** Over the whole loop, a file that belongs to no attempted clip is untouched. */
  lemma {:induction false} LoopFilesFrame(files: set<string>, words: seq<Word>, clips: seq<Clip>, runs: nat -> ClipRun, k: nat, p: string)
    requires k <= |clips|
    requires forall i :: 1 <= i <= k ==> p !in ClipPaths(i)
    ensures p in RunFiles(files, words, clips, runs, k) <==> p in files
  {
    if k > 0 {
      LoopFilesFrame(files, words, clips, runs, k - 1, p);
      var before := RunFiles(files, words, clips, runs, k - 1);
      ClipFilesFrame(before, k, SelectWords(words, clips[k - 1]) != [], runs(k), p);
    }
  }

  /** At the end of the loop every delivered clip's videos are gone, whatever
      the later clips did. */
  lemma {:induction false} LoopFilesCleaned(files: set<string>, words: seq<Word>, clips: seq<Clip>, runs: nat -> ClipRun, k: nat, i: nat)
    requires k <= |clips| && 1 <= i <= k && Delivered(runs(i))
    ensures var after := RunFiles(files, words, clips, runs, k);
      CroppedPath(i) !in after && ResizedPath(i) !in after && ShortPath(i) !in after
  {
    var before := RunFiles(files, words, clips, runs, k - 1);
    var hasWords := SelectWords(words, clips[k - 1]) != [];
    if i == k {
      ClipFilesLeft(before, k, hasWords, runs(k));
    } else {
      LoopFilesCleaned(files, words, clips, runs, k - 1, i);
      ClipPathsDisjoint(i, k);
      ClipFilesFrame(before, k, hasWords, runs(k), CroppedPath(i));
      ClipFilesFrame(before, k, hasWords, runs(k), ResizedPath(i));
      ClipFilesFrame(before, k, hasWords, runs(k), ShortPath(i));
    }
  }
}
