/** The subtitle half of `create_subtitled_video`: pick the transcript words
    that lie inside the clip, cut them into groups of five, and write one
    SubRip cue per group. The `.srt` file is a sequence of lines, four per
    cue; `ParseSrt` reads such a file back. */
module Subtitles {
  import opened Wrappers
  import opened Digits
  import opened PyStr
  import opened SrtTime

  /** A transcript word; times are milliseconds into the source video. */
  datatype Word = Word(text: string, start: int, end: int)

  /** A clip candidate; times are milliseconds into the source video. */
  datatype Clip = Clip(start: int, end: int)

  /** One SubRip cue: its counter, clip-relative start and end, and its text. */
  datatype Cue = Cue(number: nat, start: nat, end: nat, text: string)

  const GroupSize: nat := 5

  /** The filter `w.start >= clip.start_time and w.end <= clip.end_time`. */
  predicate InClip(w: Word, c: Clip) {
    w.start >= c.start && w.end <= c.end
  }

  predicate AllInClip(ws: seq<Word>, c: Clip) {
    forall k :: 0 <= k < |ws| ==> InClip(ws[k], c)
  }

  /** Transcript words do not end before they start. */
  predicate WellTimed(ws: seq<Word>) {
    forall k :: 0 <= k < |ws| ==> ws[k].start <= ws[k].end
  }

  /** The list comprehension over `transcription.words` with that filter. */
  function SelectWords(ws: seq<Word>, c: Clip): (r: seq<Word>)
    ensures AllInClip(r, c) && |r| <= |ws|
    ensures WellTimed(ws) ==> WellTimed(r)
    decreases |ws|
  {
    if ws == [] then [] else (if InClip(ws[0], c) then [ws[0]] else []) + SelectWords(ws[1..], c)
  }

  /** Selection distributes over concatenation: together with its effect on a
      single word this pins it down as the order-preserving filter. */
  lemma {:induction false} SelectWordsAppend(a: seq<Word>, b: seq<Word>, c: Clip)
    ensures SelectWords(a + b, c) == SelectWords(a, c) + SelectWords(b, c)
    decreases |a|
  {
    if a == [] {
      assert a + b == b;
    } else {
      assert (a + b)[1..] == a[1..] + b;
      SelectWordsAppend(a[1..], b, c);
    }
  }

  /** A word is selected exactly when it occurs in the transcript and lies inside the clip. */
  lemma {:induction false} SelectWordsMembership(ws: seq<Word>, c: Clip, w: Word)
    ensures w in SelectWords(ws, c) <==> w in ws && InClip(w, c)
    decreases |ws|
  {
    if ws != [] {
      SelectWordsMembership(ws[1..], c, w);
      assert ws == [ws[0]] + ws[1..];
    }
  }

  /** `[word_info[i:i+5] for i in range(0, len(word_info), 5)]` */
  function Groups(ws: seq<Word>): (g: seq<seq<Word>>)
    ensures |g| == (|ws| + GroupSize - 1) / GroupSize
    ensures forall k :: 0 <= k < |g| ==> 1 <= |g[k]| <= GroupSize
    ensures forall k :: 0 <= k < |g| - 1 ==> |g[k]| == GroupSize
  {
    seq((|ws| + 4) / 5, k requires 0 <= k < (|ws| + 4) / 5 => ws[5 * k..Min(5 * k + 5, |ws|)])
  }

  function Flatten(g: seq<seq<Word>>): seq<Word>
    decreases |g|
  {
    if g == [] then [] else g[0] + Flatten(g[1..])
  }

  lemma GroupsUnfold(ws: seq<Word>)
    requires |ws| > GroupSize
    ensures Groups(ws) == [ws[..5]] + Groups(ws[5..])
  {
    var g, h := Groups(ws), Groups(ws[5..]);
    assert |g| == |h| + 1;
    forall k | 1 <= k < |g| ensures g[k] == h[k - 1] {
      assert ws[5 * k..Min(5 * k + 5, |ws|)] == ws[5..][5 * (k - 1)..Min(5 * (k - 1) + 5, |ws| - 5)];
    }
  }

  /** The groups, concatenated in order, give back every selected word. */
  lemma {:induction false} GroupsFlatten(ws: seq<Word>)
    ensures Flatten(Groups(ws)) == ws
    decreases |ws|
  {
    if |ws| > GroupSize {
      GroupsUnfold(ws);
      GroupsFlatten(ws[5..]);
      assert Groups(ws)[1..] == Groups(ws[5..]);
      assert ws == ws[..5] + ws[5..];
    } else if ws != [] {
      assert |Groups(ws)| == 1 && Groups(ws)[0] == ws[0..|ws|];
      assert ws[0..|ws|] == ws;
      assert Groups(ws) == [ws];
      assert Flatten(Groups(ws)) == ws + Flatten([]);
    } else {
      assert Groups(ws) == [];
    }
  }

  function Texts(ws: seq<Word>): (r: seq<string>)
    ensures |r| == |ws| && forall k :: 0 <= k < |ws| ==> r[k] == ws[k].text
  {
    seq(|ws|, k requires 0 <= k < |ws| => ws[k].text)
  }

  /** The cue for one group: times relative to the clip start, words joined by single spaces. */
  function CueOf(number: nat, g: seq<Word>, c: Clip): Cue
    requires g != [] && AllInClip(g, c) && WellTimed(g)
  {
    Cue(number, g[0].start - c.start, g[|g| - 1].end - c.start, Join(Texts(g), " "))
  }

  /** The cues the loop of `create_subtitled_video` writes, numbered from 1. */
  function Cues(sel: seq<Word>, c: Clip): seq<Cue>
    requires AllInClip(sel, c) && WellTimed(sel)
  {
    var g := Groups(sel);
    seq(|g|, k requires 0 <= k < |g| => CueOf(k + 1, g[k], c))
  }

  /** What the cues are: `ceil(n/5)` of them, numbered 1, 2, ... without gaps;
      cue k spans words 5k .. 5k+4 of the selection (fewer in the last cue),
      starts at its first word's start and ends at its last word's end, both
      relative to the clip, and so lies inside `[0, end_time - start_time]`. */
  lemma CuesFacts(sel: seq<Word>, c: Clip)
    requires AllInClip(sel, c) && WellTimed(sel)
    ensures var q := Cues(sel, c);
      && |q| == (|sel| + GroupSize - 1) / GroupSize
      && forall k :: 0 <= k < |q| ==>
        var hi := Min(5 * k + 5, |sel|);
        && 5 * k < hi
        && q[k].number == k + 1
        && q[k].start == sel[5 * k].start - c.start
        && q[k].end == sel[hi - 1].end - c.start
        && q[k].end <= c.end - c.start
        && q[k].text == Join(Texts(sel[5 * k..hi]), " ")
  {
  }

  /** The k-th cue covers words 5k .. 5k+4 (fewer at the end) of the selection. */
  lemma CueAt(sel: seq<Word>, c: Clip, k: nat)
    requires AllInClip(sel, c) && WellTimed(sel) && 5 * k < |sel|
    ensures k < |Cues(sel, c)|
    ensures Cues(sel, c)[k] == CueOf(k + 1, sel[5 * k..Min(5 * k + 5, |sel|)], c)
  {
  }

  lemma GroupCount(n: nat, k: nat)
    ensures 5 * k < n <==> k < (n + GroupSize - 1) / GroupSize
  {
  }

  /** An empty selection writes no cue. */
  lemma CuesOfNothing(c: Clip)
    ensures Cues([], c) == []
  {
  }

  /** The four lines of one cue: counter, `start --> end`, text, blank. */
  function CueLines(q: Cue): seq<string> {
    [NatStr(q.number), TimeLine(q.start, q.end), q.text, ""]
  }

  /** `f"{format_srt_time(start)} --> {format_srt_time(end)}"` */
  function TimeLine(start: nat, end: nat): string {
    FormatSrtTime(start) + " --> " + FormatSrtTime(end)
  }

  function SrtLines(cues: seq<Cue>): seq<string>
    decreases |cues|
  {
    if cues == [] then [] else CueLines(cues[0]) + SrtLines(cues[1..])
  }

  lemma {:induction false} SrtLinesSnoc(cues: seq<Cue>, q: Cue)
    ensures SrtLines(cues + [q]) == SrtLines(cues) + CueLines(q)
    decreases |cues|
  {
    if cues == [] {
      assert SrtLines([q]) == CueLines(q) + SrtLines([]);
    } else {
      assert (cues + [q])[1..] == cues[1..] + [q];
      SrtLinesSnoc(cues[1..], q);
    }
  }

  /** Index of the first space, or the length when there is none. */
  function FirstSpace(s: string): (i: nat)
    ensures i <= |s|
    decreases |s|
  {
    if s == [] || s[0] == ' ' then 0 else 1 + FirstSpace(s[1..])
  }

  lemma {:induction false} FirstSpaceAfter(x: string, y: string)
    requires forall i :: 0 <= i < |x| ==> x[i] != ' '
    requires y != [] && y[0] == ' '
    ensures FirstSpace(x + y) == |x|
    decreases |x|
  {
    if x != [] {
      assert (x + y)[1..] == x[1..] + y;
      FirstSpaceAfter(x[1..], y);
    } else {
      assert x + y == y;
    }
  }

  /** Reads a time line `HH:MM:SS,mmm --> HH:MM:SS,mmm`. */
  function ParseTimeLine(line: string): Option<(nat, nat)> {
    var i := FirstSpace(line);
    if i + 5 <= |line| && line[i..i + 5] == " --> " then
      match (ParseSrtTime(line[..i]), ParseSrtTime(line[i + 5..]))
      case (Some(a), Some(b)) => Some((a, b))
      case _ => None
    else None
  }

  function ParseCounter(line: string): Option<nat> {
    if line != [] && AllDigits(line) then Some(DigitsValue(line)) else None
  }

  /** Reads a SubRip file, block by block, back into cues; None for any other text. */
  function ParseSrt(lines: seq<string>): Option<seq<Cue>>
    decreases |lines|
  {
    if lines == [] then Some([])
    else if |lines| < 4 || lines[3] != "" then None
    else
      match (ParseCounter(lines[0]), ParseTimeLine(lines[1]), ParseSrt(lines[4..]))
      case (Some(n), Some((a, b)), Some(rest)) => Some([Cue(n, a, b, lines[2])] + rest)
      case _ => None
  }

  /** Two times without blanks joined by the arrow read back as the pair. */
  lemma TimeLineOf(a: string, b: string, x: nat, y: nat)
    requires forall i :: 0 <= i < |a| ==> a[i] != ' '
    requires ParseSrtTime(a) == Some(x) && ParseSrtTime(b) == Some(y)
    ensures ParseTimeLine(a + " --> " + b) == Some((x, y))
  {
    var line := a + " --> " + b;
    FirstSpaceAfter(a, " --> " + b);
    assert line == a + (" --> " + b);
    var i := FirstSpace(line);
    assert line[i..i + 5] == " --> ";
    assert line[..i] == a;
    assert line[i + 5..] == b;
  }

  lemma TimeLineRead(start: nat, end: nat)
    ensures ParseTimeLine(TimeLine(start, end)) == Some((start, end))
  {
    FormatSrtTimeHasNoSpace(start);
    FormatSrtTimeRoundTrip(start);
    FormatSrtTimeRoundTrip(end);
    TimeLineOf(FormatSrtTime(start), FormatSrtTime(end), start, end);
  }

  /** A counter written by `str()` reads back. */
  lemma CounterRead(n: nat)
    ensures ParseCounter(NatStr(n)) == Some(n)
  {
    NatStrRoundTrip(n);
  }

  /** Four lines that read as a counter, a time line, any text and a blank,
      followed by a readable rest, read as one more cue in front. */
  lemma ParseBlock(l0: string, l1: string, l2: string, rest: seq<string>, n: nat, a: nat, b: nat, tail: seq<Cue>)
    requires ParseCounter(l0) == Some(n) && ParseTimeLine(l1) == Some((a, b))
    requires ParseSrt(rest) == Some(tail)
    ensures ParseSrt([l0, l1, l2, ""] + rest) == Some([Cue(n, a, b, l2)] + tail)
  {
    var lines := [l0, l1, l2, ""] + rest;
    assert lines[0] == l0 && lines[1] == l1 && lines[2] == l2 && lines[3] == "";
    assert lines[4..] == rest;
  }

  lemma ParseSrtBlock(q: Cue, rest: seq<string>, tail: seq<Cue>)
    requires ParseSrt(rest) == Some(tail)
    ensures ParseSrt(CueLines(q) + rest) == Some([q] + tail)
  {
    CounterRead(q.number);
    TimeLineRead(q.start, q.end);
    ParseBlock(NatStr(q.number), TimeLine(q.start, q.end), q.text, rest, q.number, q.start, q.end, tail);
  }

  /** The written file determines its cues: reading it back gives every cue,
      with its counter, times and text, in order. */
  lemma {:induction false} SrtRoundTrip(cues: seq<Cue>)
    ensures ParseSrt(SrtLines(cues)) == Some(cues)
    decreases |cues|
  {
    if cues != [] {
      SrtRoundTrip(cues[1..]);
      ParseSrtBlock(cues[0], SrtLines(cues[1..]), cues[1..]);
      assert cues == [cues[0]] + cues[1..];
    }
  }

  /** `srt_file = output_path.replace('.mp4', '.srt')` */
  function SrtPath(outputPath: string): string {
    Replace(outputPath, ".mp4", ".srt")
  }

  /** The group the loop body takes at offset `i = 5k` is nonempty, lies in
      the clip, and the cue built from it is the k-th cue. */
  lemma GroupAtOffset(sel: seq<Word>, c: Clip, k: nat, i: nat, g: seq<Word>)
    requires AllInClip(sel, c) && WellTimed(sel) && i == 5 * k && i < |sel|
    requires g == sel[i..Min(i + 5, |sel|)]
    ensures g != [] && g[0].start >= c.start && g[|g| - 1].end >= c.start && k < |Cues(sel, c)|
    ensures Cues(sel, c)[k] == Cue(k + 1, g[0].start - c.start, g[|g| - 1].end - c.start, Join(Texts(g), " "))
  {
    CueAt(sel, c, k);
  }

  lemma PrefixSnoc<T>(s: seq<T>, k: nat)
    requires k < |s|
    ensures s[..k + 1] == s[..k] + [s[k]]
  {
  }

  /** The cue-writing loop of `create_subtitled_video`: select the clip's
      words, then for i = 0, 5, 10, ... write the counter line, the time line,
      the text line and a blank line. */
  method CompileSrt(words: seq<Word>, c: Clip) returns (lines: seq<string>)
    requires WellTimed(words)
    ensures lines == SrtLines(Cues(SelectWords(words, c), c))
  {
    var info := SelectWords(words, c);
    ghost var cues := Cues(info, c);
    ghost var written: seq<Cue> := [];
    lines := [];
    var counter := 1;
    var i := 0;
    GroupCount(|info|, 0);
    while i < |info|
      invariant 1 <= counter <= |cues| + 1
      invariant i == 5 * (counter - 1)
      invariant i < |info| <==> counter <= |cues|
      invariant written == cues[..counter - 1]
      invariant lines == SrtLines(written)
    {
      var group := info[i..Min(i + 5, |info|)];
      GroupAtOffset(info, c, counter - 1, i, group);
      var start := group[0].start - c.start;
      var end := group[|group| - 1].end - c.start;
      var text := Join(Texts(group), " ");
      var cue := Cue(counter, start, end, text);
      SrtLinesSnoc(written, cue);
      PrefixSnoc(cues, counter - 1);
      assert cues[counter - 1] == cue;
      assert written + [cue] == cues[..counter - 1] + [cues[counter - 1]];
      lines := lines + CueLines(cue);
      written := written + [cue];
      GroupCount(|info|, counter);
      counter := counter + 1;
      i := i + 5;
    }
    assert cues[..counter - 1] == cues;
  }
}
