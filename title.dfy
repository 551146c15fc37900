/** The text that travels with each short: the transcript excerpt the
    title is generated from, the generated title (cut to 60 characters, or a
    fixed fallback when the completion call fails), and the caption
    `🎬 Short {idx}/{total}` followed by a blank line and the title. */
module Title {
  import opened Wrappers
  import opened Digits
  import opened PyStr
  import opened Subtitles
  import Request

  /** What the chat-completion call gave back: its message content, or an
      exception of any kind. */
  datatype Completion = Failed | Content(text: string)

  const MaxTitleLength: nat := 60
  const FallbackTitle: string := "\U{1F525} Amazing Moment"
  /** At most this many words of the clip go into the title prompt. */
  const PromptWords: nat := 40

  /** `content.strip()[:60]`, or the fallback when the call raises. */
  function GenerateTitle(response: Completion): (title: string)
    ensures |title| <= MaxTitleLength
    ensures response.Failed? ==> title == FallbackTitle
  {
    match response
    case Failed => FallbackTitle
    case Content(text) => Request.Take(Strip(text), MaxTitleLength)
  }

  /** A generated title is the stripped content when it fits, and otherwise
      its first 60 characters; either way it does not start with a blank. */
  lemma GeneratedTitleShape(text: string)
    ensures var title := GenerateTitle(Content(text)); var t := Strip(text);
      && StartsWith(t, title)
      && (|t| <= MaxTitleLength ==> title == t)
      && (|t| > MaxTitleLength ==> |title| == MaxTitleLength)
      && (title == [] || !IsPySpace(title[0]))
  {
    var t := Strip(text);
    StripEnds(text);
    assert t == [] || !IsPySpace(t[0]);
  }

  /** The title is a piece of the content as the service sent it. */
  lemma GeneratedTitleOccurs(text: string)
    ensures exists i :: OccursAt(text, GenerateTitle(Content(text)), i)
  {
    var i := StripPiece(text);
    PrefixOfPiece(text, Strip(text), GenerateTitle(Content(text)), i);
  }

  /** A prefix of the piece of `s` at `i` also occurs at `i`. */
  lemma PrefixOfPiece(s: string, piece: string, p: string, i: nat)
    requires i + |piece| <= |s| && piece == s[i..i + |piece|]
    requires |p| <= |piece| && p == piece[..|p|]
    ensures OccursAt(s, p, i)
  {
    assert s[i..i + |p|] == piece[..|p|];
  }

  /** The fallback is 16 characters, well inside the limit. */
  lemma FallbackFits()
    ensures |FallbackTitle| == 16 && FallbackTitle[0] == '\U{1F525}'
  {
  }

  /** `" ".join(clip_words[:40])`: the first 40 words of the clip, chosen by
      the same window test the subtitles use. */
  function ClipText(words: seq<Word>, c: Clip): string {
    Join(Request.Take(Texts(SelectWords(words, c)), PromptWords), " ")
  }

  /** The excerpt is the text of the clip's first words: when the clip has
      at most 40 words it is all of them, otherwise exactly 40. */
  lemma ClipTextWords(words: seq<Word>, c: Clip)
    ensures var sel := SelectWords(words, c); var n := Min(|sel|, PromptWords);
      ClipText(words, c) == Join(Texts(sel[..n]), " ")
  {
    var sel := SelectWords(words, c);
    var n := Min(|sel|, PromptWords);
    assert Request.Take(Texts(sel), PromptWords) == Texts(sel[..n]);
  }

  const CaptionHead: string := "\U{1F3AC} Short "

  /** `f"🎬 Short {idx}/{len(clips)}\n\n{viral_title}"` */
  function Caption(idx: nat, total: nat, title: string): string {
    CaptionHead + NatStr(idx) + "/" + NatStr(total) + "\n\n" + title
  }

  /** The length of the run of digits that starts `s`. */
  function DigitRun(s: string): (n: nat)
    ensures n <= |s| && AllDigits(s[..n]) && (n == |s| || !IsDigit(s[n]))
    decreases |s|
  {
    if s != [] && IsDigit(s[0]) then
      var n := 1 + DigitRun(s[1..]);
      assert s[..n] == [s[0]] + s[1..][..n - 1];
      n
    else 0
  }

  /** Reads a decimal number that is followed by `stop`, and returns it with
      the text after `stop`. */
  function ReadNumber(s: string, stop: string): Option<(nat, string)> {
    var i := DigitRun(s);
    if i == 0 || !StartsWith(s[i..], stop) then None
    else Some((DigitsValue(s[..i]), s[i + |stop|..]))
  }

  /** Reads a caption back into its index, total and title; None for any
      text not of the caption's shape. */
  function ParseCaption(s: string): Option<(nat, nat, string)> {
    if !StartsWith(s, CaptionHead) then None
    else
      match ReadNumber(s[|CaptionHead|..], "/")
      case None => None
      case Some((idx, rest)) =>
        match ReadNumber(rest, "\n\n")
        case None => None
        case Some((total, title)) => Some((idx, total, title))
  }

  lemma {:induction false} DigitRunOfDigits(d: string, rest: string)
    requires AllDigits(d) && (rest == [] || !IsDigit(rest[0]))
    ensures DigitRun(d + rest) == |d|
    decreases |d|
  {
    if d != [] {
      assert (d + rest)[1..] == d[1..] + rest;
      DigitRunOfDigits(d[1..], rest);
    } else {
      assert d + rest == rest;
    }
  }

  /** A number written by `str()` and followed by a non-digit stop reads back. */
  lemma ReadNumberOf(n: nat, stop: string, rest: string)
    requires stop != [] && !IsDigit(stop[0])
    ensures ReadNumber(NatStr(n) + stop + rest, stop) == Some((n, rest))
  {
    var d := NatStr(n);
    var s := d + stop + rest;
    assert s == d + (stop + rest);
    DigitRunOfDigits(d, stop + rest);
    assert s[..|d|] == d;
    assert s[|d|..] == stop + rest;
    assert s[|d| + |stop|..] == rest;
    NatStrRoundTrip(n);
  }

  /** The caption can be read back: index, total and title are all recoverable. */
  lemma CaptionRoundTrip(idx: nat, total: nat, title: string)
    ensures ParseCaption(Caption(idx, total, title)) == Some((idx, total, title))
  {
    var s := Caption(idx, total, title);
    var b := NatStr(total) + "\n\n" + title;
    var a := NatStr(idx) + "/" + b;
    assert s == CaptionHead + a;
    assert s[|CaptionHead|..] == a;
    ReadNumberOf(idx, "/", b);
    ReadNumberOf(total, "\n\n", title);
  }

  /** So two shorts with different indices, totals or titles never share a caption. */
  lemma CaptionInjective(i1: nat, t1: nat, s1: string, i2: nat, t2: nat, s2: string)
    requires Caption(i1, t1, s1) == Caption(i2, t2, s2)
    ensures i1 == i2 && t1 == t2 && s1 == s2
  {
    CaptionRoundTrip(i1, t1, s1);
    CaptionRoundTrip(i2, t2, s2);
  }
}
