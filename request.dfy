/** The request side of `handle_message` and the job: how a chat message
    becomes a link and a clip count, which links are accepted, where the
    download is stored, the length limit, and how many candidates the job
    keeps. */
module Request {
  import opened Wrappers
  import opened Digits
  import opened PyStr

  const DefaultClips: int := 3
  const MinClips: int := 1
  const MaxClips: int := 10
  /** Thirty minutes, in seconds. */
  const MaxDuration: int := 1800

  /** `message_text.strip().split()` */
  function Parts(text: string): seq<string> {
    Tokens(Strip(text))
  }

  /** `max(1, min(n, 10))` */
  function Clamp(n: int): int {
    if n > MaxClips then MaxClips else if n < MinClips then MinClips else n
  }

  /** The clamp keeps counts from 1 to 10 and maps everything else to the nearer bound. */
  lemma ClampFacts(n: int)
    ensures MinClips <= Clamp(n) <= MaxClips
    ensures MinClips <= n <= MaxClips ==> Clamp(n) == n
    ensures n < MinClips ==> Clamp(n) == MinClips
    ensures n > MaxClips ==> Clamp(n) == MaxClips
  {
  }

  /** The clip count: 3 unless a second token is an integer literal, which
      is then clamped into 1..10; a token `int()` refuses leaves 3. */
  function ClipCount(parts: seq<string>): (n: int)
    ensures MinClips <= n <= MaxClips
    ensures |parts| <= 1 ==> n == DefaultClips
    ensures |parts| > 1 && ParseInt(parts[1]).None? ==> n == DefaultClips
    ensures |parts| > 1 && ParseInt(parts[1]).Some? ==> n == Clamp(ParseInt(parts[1]).value)
  {
    if |parts| > 1 then
      match ParseInt(parts[1])
      case Some(k) => Clamp(k)
      case None => DefaultClips
    else DefaultClips
  }

  /** A count written after the link is honoured within 1..10, whatever follows it. */
  lemma ClipCountOfWrittenNumber(url: string, k: int, rest: seq<string>)
    ensures ClipCount([url, IntStr(k)] + rest) == Clamp(k)
  {
    IntStrRoundTrip(k);
    assert ([url, IntStr(k)] + rest)[1] == IntStr(k);
  }

  /** A message of two blank-free words with one blank between them is
      split into exactly those two tokens. */
  lemma PartsOfTwoWords(a: string, b: string)
    requires a != [] && NoSpace(a) && b != [] && NoSpace(b)
    ensures Parts(a + " " + b) == [a, b]
  {
    var text := a + " " + b;
    assert text[0] == a[0] && text[|text| - 1] == b[|b| - 1];
    StripUnpadded(text);
    assert text == a + [' '] + b;
    TokensWordThenBlank(a, ' ', b);
    TokensOfWord(b);
  }

  /** A message of a link, a blank and a written count is split into those
      two tokens, and the count is honoured within 1..10. */
  lemma ClipCountOfMessage(url: string, k: int)
    requires url != [] && NoSpace(url)
    ensures Parts(url + " " + IntStr(k)) == [url, IntStr(k)]
    ensures ClipCount(Parts(url + " " + IntStr(k))) == Clamp(k)
  {
    IntStrNoSpace(k);
    PartsOfTwoWords(url, IntStr(k));
    ClipCountOfWrittenNumber(url, k, []);
    assert [url, IntStr(k)] + [] == [url, IntStr(k)];
  }

  /** The documented cases: 0 and -5 give 1, 15 gives 10, 5 gives 5, a word gives 3. */
  lemma ClipCountExamples(url: string)
    ensures ClipCount([url, "0"]) == 1
    ensures ClipCount([url, "-5"]) == 1
    ensures ClipCount([url, "15"]) == 10
    ensures ClipCount([url, "5"]) == 5
    ensures ClipCount([url, "five"]) == 3
    ensures ClipCount([url]) == 3
  {
    ClipCountOfWrittenNumber(url, 0, []);
    ClipCountOfWrittenNumber(url, -5, []);
    ClipCountOfWrittenNumber(url, 15, []);
    ClipCountOfWrittenNumber(url, 5, []);
    assert IntStr(-5) == "-5";
    assert NatStr(15) == "15";
    assert !IsDecimalLiteral("five");
  }

  const LongHost: string := "youtube.com"
  const ShortHost: string := "youtu.be"

  /** `'youtube.com' in url or 'youtu.be' in url` */
  predicate IsYouTubeUrl(url: string) {
    Contains(url, LongHost) || Contains(url, ShortHost)
  }

  /** The test is a substring test anywhere in the text, not a check of the host. */
  lemma IsYouTubeUrlIffOccurs(url: string)
    ensures IsYouTubeUrl(url) <==>
      (exists i :: OccursAt(url, LongHost, i)) || (exists i :: OccursAt(url, ShortHost, i))
  {
    ContainsIffOccurs(url, LongHost);
    ContainsIffOccurs(url, ShortHost);
  }

  /** Any text that mentions a host name is accepted, wherever it appears. */
  lemma EmbeddedHostAccepted(a: string, b: string)
    ensures IsYouTubeUrl(a + ShortHost + b)
    ensures IsYouTubeUrl(a + LongHost + b)
  {
    var s, t := a + ShortHost + b, a + LongHost + b;
    assert OccursAt(s, ShortHost, |a|) by {
      assert s[|a|..|a| + |ShortHost|] == ShortHost;
    }
    assert OccursAt(t, LongHost, |a|) by {
      assert t[|a|..|a| + |LongHost|] == LongHost;
    }
    IsYouTubeUrlIffOccurs(s);
    IsYouTubeUrlIffOccurs(t);
  }

  /** A text without the letter `y` is refused. */
  lemma NoYRefused(url: string)
    requires forall i :: 0 <= i < |url| ==> url[i] != 'y'
    ensures !IsYouTubeUrl(url)
  {
    IsYouTubeUrlIffOccurs(url);
    forall i | 0 <= i < |url|
      ensures !OccursAt(url, LongHost, i) && !OccursAt(url, ShortHost, i)
    {
      assert url[i] != LongHost[0] && url[i] != ShortHost[0];
    }
  }

  /** `url.split('v=')[-1].split('&')[0] if 'v=' in url else url.split('/')[-1]` */
  function VideoId(url: string): string {
    if Contains(url, "v=") then Split(Last(Split(url, "v=")), "&")[0]
    else Last(Split(url, "/"))
  }

  /** What follows the last occurrence of a separator is the last piece of the split. */
  lemma AfterLastOccurrence(s: string, sep: string) returns (i: nat)
    requires sep != [] && Contains(s, sep)
    ensures OccursAt(s, sep, i) && s[i + |sep|..] == Last(Split(s, sep))
    ensures !Contains(s[i + |sep|..], sep)
  {
    var r := Split(s, sep);
    LastPiece(s, sep);
    i := |Join(r[..|r| - 1], sep)|;
    assert s[i..i + |sep|] == sep;
  }

  /** The first piece of a split on `&` stops at the first `&`, or runs to the end. */
  lemma UpToFirstAmpersand(s: string)
    ensures var id := Split(s, "&")[0];
      && StartsWith(s, id) && !Contains(id, "&")
      && (|id| == |s| || s[|id|] == '&')
  {
    var q := Split(s, "&");
    FirstPiece(s, "&");
    if |q| > 1 {
      assert s[|q[0]|..][..1] == "&";
    }
  }

  /** With a `v=` in the link, the id starts right after the last `v=` and
      runs up to the first `&` after it, or to the end. */
  lemma VideoIdAfterMarker(url: string) returns (i: nat)
    requires Contains(url, "v=")
    ensures OccursAt(url, "v=", i) && !Contains(url[i + 2..], "v=")
    ensures var id := VideoId(url);
      && StartsWith(url[i + 2..], id) && !Contains(id, "&")
      && (i + 2 + |id| == |url| || url[i + 2 + |id|] == '&')
  {
    i := AfterLastOccurrence(url, "v=");
    UpToFirstAmpersand(url[i + 2..]);
  }

  /** Without a `v=`, the id is the text after the last `/`, or the whole link
      when it has none. */
  lemma VideoIdAfterSlash(url: string)
    requires !Contains(url, "v=")
    ensures var id := VideoId(url);
      && |id| <= |url| && url[|url| - |id|..] == id && !Contains(id, "/")
      && (|id| < |url| ==> url[|url| - |id| - 1] == '/')
  {
    var r := Split(url, "/");
    if Contains(url, "/") {
      LastPiece(url, "/");
      var head := Join(r[..|r| - 1], "/");
      assert url == head + "/" + Last(r);
      assert url[|url| - |Last(r)|..] == Last(r);
    } else {
      ContainsIffSplits(url, "/");
      FirstPiece(url, "/");
      assert url[|url| - |r[0]|..] == url;
    }
  }

  /** `f"input/{video_id}.mp4"` */
  function VideoPath(id: string): (p: string)
    ensures |p| == |id| + 10 && p[..6] == "input/"
    ensures p[6..|p| - 4] == id && p[|p| - 4..] == ".mp4"
  {
    "input/" + id + ".mp4"
  }

  /** Different ids are stored under different paths. */
  lemma VideoPathInjective(a: string, b: string)
    requires VideoPath(a) == VideoPath(b)
    ensures a == b
  {
    assert |a| == |b|;
    assert a == VideoPath(a)[6..6 + |a|];
  }

  /** `duration > 1800` */
  predicate TooLong(duration: int) {
    duration > MaxDuration
  }

  /** Exactly thirty minutes passes; one second more is refused. */
  lemma TooLongBoundary()
    ensures !TooLong(1800) && TooLong(1801)
    ensures forall d :: TooLong(d) <==> d >= MaxDuration + 1
  {
  }

  /** `xs[:n]` with Python's slice rules: a negative bound counts from the end. */
  function Take<T>(xs: seq<T>, n: int): (r: seq<T>)
    ensures |r| <= |xs| && r == xs[..|r|]
    ensures n >= 0 ==> |r| == Min(n, |xs|)
    ensures n < 0 ==> |r| == Max(0, |xs| + n)
  {
    if n >= |xs| then xs
    else if n >= 0 then xs[..n]
    else if |xs| + n >= 0 then xs[..|xs| + n]
    else []
  }


  /** `clips[:num_clips]` with a count from the parser keeps the first
      `min(num_clips, len(clips))` candidates, and at least one when there are any. */
  lemma TakeClipCount<T>(xs: seq<T>, parts: seq<string>)
    ensures var r := Take(xs, ClipCount(parts));
      && r == xs[..|r|] && |r| == Min(ClipCount(parts), |xs|)
      && (xs != [] ==> 1 <= |r|) && |r| <= MaxClips
  {
  }
}
