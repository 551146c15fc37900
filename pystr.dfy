/** The Python `str` operations the bot applies to chat text, URLs, file
    paths and model output: `in`, `split(sep)`, `sep.join`, `replace`,
    `split()`, `strip()`, `int(...)` and `str(int)`. Characters are Unicode
    code points, as in Python 3. */
module PyStr {
  import opened Wrappers
  import opened Digits

  /** `c.isspace()`: the characters `split()` and `strip()` treat as blanks. */
  predicate IsPySpace(c: char) {
    c in SpaceChars
  }

  const SpaceChars: set<char> := {
    ' ', '\t', '\n', '\U{0B}', '\U{0C}', '\r', '\U{1C}', '\U{1D}', '\U{1E}', '\U{1F}',
    '\U{85}', '\U{A0}', '\U{1680}',
    '\U{2000}', '\U{2001}', '\U{2002}', '\U{2003}', '\U{2004}', '\U{2005}',
    '\U{2006}', '\U{2007}', '\U{2008}', '\U{2009}', '\U{200A}',
    '\U{2028}', '\U{2029}', '\U{202F}', '\U{205F}', '\U{3000}'
  }

  /** Every character of `s` is blank. */
  predicate AllSpace(s: string)
    decreases |s|
  {
    s == [] || (IsPySpace(s[0]) && AllSpace(s[1..]))
  }

  lemma {:induction false} AllSpaceSnoc(s: string, c: char)
    requires AllSpace(s) && IsPySpace(c)
    ensures AllSpace(s + [c])
    decreases |s|
  {
    if s != [] {
      assert (s + [c])[1..] == s[1..] + [c];
      AllSpaceSnoc(s[1..], c);
    } else {
      assert (s + [c])[1..] == [];
    }
  }

  predicate NoSpace(s: string) {
    forall i :: 0 <= i < |s| ==> !IsPySpace(s[i])
  }

  predicate StartsWith(s: string, p: string) {
    |p| <= |s| && s[..|p|] == p
  }

  /** `p in s` */
  predicate Contains(s: string, p: string)
    decreases |s|
  {
    StartsWith(s, p) || (s != [] && Contains(s[1..], p))
  }

  predicate OccursAt(s: string, p: string, i: int) {
    0 <= i && i + |p| <= |s| && s[i..i + |p|] == p
  }

  /** `Contains` is substring search: some position of `s` starts a copy of `p`. */
  lemma {:induction false} ContainsIffOccurs(s: string, p: string)
    ensures Contains(s, p) <==> exists i :: OccursAt(s, p, i)
    decreases |s|
  {
    if s != [] {
      ContainsIffOccurs(s[1..], p);
      if Contains(s[1..], p) {
        var i :| OccursAt(s[1..], p, i);
        assert s[i + 1..i + 1 + |p|] == s[1..][i..i + |p|];
        assert OccursAt(s, p, i + 1);
      }
      if StartsWith(s, p) {
        assert OccursAt(s, p, 0);
      }
      if i :| OccursAt(s, p, i) {
        if i > 0 {
          assert s[1..][i - 1..i - 1 + |p|] == s[i..i + |p|];
          assert OccursAt(s[1..], p, i - 1);
        } else {
          assert StartsWith(s, p);
        }
      }
    } else {
      if i :| OccursAt(s, p, i) {
        assert |p| == 0 && StartsWith(s, p);
      }
      if Contains(s, p) {
        assert OccursAt(s, p, 0);
      }
    }
  }

  lemma {:induction false} ShortNeverContains(s: string, p: string)
    requires |s| < |p|
    ensures !Contains(s, p)
    decreases |s|
  {
    if s != [] {
      ShortNeverContains(s[1..], p);
    }
  }

  /** `s.split(sep)` for a non-empty separator: the pieces between the
      occurrences of `sep`, found left to right without overlap. */
  function Split(s: string, sep: string): (r: seq<string>)
    requires sep != []
    ensures |r| >= 1 && StartsWith(s, r[0])
    decreases |s|
  {
    if |s| < |sep| then [s]
    else if s[..|sep|] == sep then [""] + Split(s[|sep|..], sep)
    else
      var rest := Split(s[1..], sep);
      [[s[0]] + rest[0]] + rest[1..]
  }

  /** `sep.join(parts)` */
  function Join(parts: seq<string>, sep: string): string
    decreases |parts|
  {
    if parts == [] then ""
    else if |parts| == 1 then parts[0]
    else parts[0] + sep + Join(parts[1..], sep)
  }

  /** `s.replace(old, new)`: every left-to-right occurrence of `old` replaced. */
  function Replace(s: string, pattern: string, replacement: string): string
    requires pattern != []
  {
    Join(Split(s, pattern), replacement)
  }

  function Last<T>(xs: seq<T>): T
    requires xs != []
  {
    xs[|xs| - 1]
  }

  lemma JoinCons(x: string, xs: seq<string>, sep: string)
    requires xs != []
    ensures Join([x] + xs, sep) == x + sep + Join(xs, sep)
  {
    assert ([x] + xs)[1..] == xs;
  }

  lemma {:induction false} JoinSnoc(xs: seq<string>, y: string, sep: string)
    requires xs != []
    ensures Join(xs + [y], sep) == Join(xs, sep) + sep + y
    decreases |xs|
  {
    if |xs| == 1 {
      assert xs + [y] == [xs[0]] + [y];
      JoinCons(xs[0], [y], sep);
    } else {
      assert xs + [y] == [xs[0]] + (xs[1..] + [y]);
      JoinCons(xs[0], xs[1..] + [y], sep);
      JoinSnoc(xs[1..], y, sep);
      JoinCons(xs[0], xs[1..], sep);
      assert xs == [xs[0]] + xs[1..];
    }
  }

  /** Joining the pieces of a split with the same separator restores the string. */
  lemma {:induction false} JoinSplit(s: string, sep: string)
    requires sep != []
    ensures Join(Split(s, sep), sep) == s
    decreases |s|
  {
    if |s| < |sep| {
      assert Split(s, sep) == [s];
    } else if s[..|sep|] == sep {
      var rest := Split(s[|sep|..], sep);
      assert Split(s, sep) == [""] + rest;
      JoinSplit(s[|sep|..], sep);
      JoinCons("", rest, sep);
      assert s == sep + s[|sep|..];
    } else {
      var rest := Split(s[1..], sep);
      assert Split(s, sep) == [[s[0]] + rest[0]] + rest[1..];
      JoinSplit(s[1..], sep);
      JoinGlue(s[0], rest, sep);
      assert s == [s[0]] + s[1..];
    }
  }

  /** Gluing a character to the first part glues it to the joined text. */
  lemma JoinGlue(c: char, parts: seq<string>, sep: string)
    requires parts != []
    ensures Join([[c] + parts[0]] + parts[1..], sep) == [c] + Join(parts, sep)
  {
    var glued := [[c] + parts[0]] + parts[1..];
    if |parts| > 1 {
      assert glued[1..] == parts[1..];
      assert Join(glued, sep) == [c] + parts[0] + sep + Join(parts[1..], sep);
    }
  }

  /** No piece of a split contains the separator. */
  lemma {:induction false} SplitPiecesFree(s: string, sep: string)
    requires sep != []
    ensures forall k :: 0 <= k < |Split(s, sep)| ==> !Contains(Split(s, sep)[k], sep)
    decreases |s|
  {
    var r := Split(s, sep);
    if |s| < |sep| {
      ShortNeverContains(s, sep);
    } else if s[..|sep|] == sep {
      SplitPiecesFree(s[|sep|..], sep);
      ShortNeverContains("", sep);
      assert forall k :: 1 <= k < |r| ==> r[k] == Split(s[|sep|..], sep)[k - 1];
    } else {
      var rest := Split(s[1..], sep);
      SplitPiecesFree(s[1..], sep);
      var first := [s[0]] + rest[0];
      assert first == s[..|first|];
      assert first[1..] == rest[0];
      assert !Contains(first, sep);
      assert forall k :: 1 <= k < |r| ==> r[k] == rest[k];
    }
  }

  /** A string contains the separator exactly when splitting it yields more than one piece. */
  lemma ContainsIffSplits(s: string, sep: string)
    requires sep != []
    ensures Contains(s, sep) <==> |Split(s, sep)| > 1
  {
    var r := Split(s, sep);
    JoinSplit(s, sep);
    SplitPiecesFree(s, sep);
    if |r| > 1 {
      JoinCons(r[0], r[1..], sep);
      assert r == [r[0]] + r[1..];
      assert s[|r[0]|..|r[0]| + |sep|] == sep;
      ContainsIffOccurs(s, sep);
      assert OccursAt(s, sep, |r[0]|);
    } else {
      assert s == r[0];
    }
  }

  /** The last piece of a split is what follows the last occurrence of the separator. */
  lemma LastPiece(s: string, sep: string)
    requires sep != [] && Contains(s, sep)
    ensures |Split(s, sep)| > 1
    ensures s == Join(Split(s, sep)[..|Split(s, sep)| - 1], sep) + sep + Last(Split(s, sep))
    ensures !Contains(Last(Split(s, sep)), sep)
  {
    var r := Split(s, sep);
    ContainsIffSplits(s, sep);
    JoinSplit(s, sep);
    JoinSnoc(r[..|r| - 1], Last(r), sep);
    assert r == r[..|r| - 1] + [Last(r)];
    SplitPiecesFree(s, sep);
    assert !Contains(r[|r| - 1], sep);
  }

  /** The first piece of a split runs up to the first occurrence of the separator. */
  lemma FirstPiece(s: string, sep: string)
    requires sep != []
    ensures var r := Split(s, sep);
      && s[..|r[0]|] == r[0]
      && !Contains(r[0], sep)
      && (|r| == 1 <==> |r[0]| == |s|)
      && (|r| > 1 ==> StartsWith(s[|r[0]|..], sep))
  {
    var r := Split(s, sep);
    JoinSplit(s, sep);
    SplitPiecesFree(s, sep);
    if |r| > 1 {
      JoinCons(r[0], r[1..], sep);
      assert r == [r[0]] + r[1..];
      assert s[|r[0]|..][..|sep|] == sep;
    }
  }

  /** Splitting `a + b` where `a` cannot start an occurrence of `sep`
      only glues `a` to the first piece of `b`. */
  lemma {:induction false} SplitAfterPlainPrefix(a: string, b: string, sep: string)
    requires sep != [] && forall i :: 0 <= i < |a| ==> a[i] != sep[0]
    ensures Split(a + b, sep) == [a + Split(b, sep)[0]] + Split(b, sep)[1..]
    decreases |a|
  {
    if a != [] {
      var s := a + b;
      assert s[0] == a[0];
      assert s[1..] == a[1..] + b;
      SplitPlainHead(s, sep);
      SplitAfterPlainPrefix(a[1..], b, sep);
      assert [a[0]] + (a[1..] + Split(b, sep)[0]) == a + Split(b, sep)[0];
    } else {
      assert a + b == b;
      assert a + Split(b, sep)[0] == Split(b, sep)[0];
      assert Split(b, sep) == [Split(b, sep)[0]] + Split(b, sep)[1..];
    }
  }

  /** A first character that cannot start the separator joins the first piece. */
  lemma SplitPlainHead(s: string, sep: string)
    requires sep != [] && s != [] && s[0] != sep[0]
    ensures Split(s, sep) == [[s[0]] + Split(s[1..], sep)[0]] + Split(s[1..], sep)[1..]
  {
    if |s| < |sep| {
      assert Split(s[1..], sep) == [s[1..]];
      assert [s[0]] + s[1..] == s;
    } else {
      assert s[..|sep|][0] != sep[0];
    }
  }

  /** `s.split()`: the maximal runs of non-blank characters, in order. */
  function Tokens(s: string): (r: seq<string>)
    decreases |s|
  {
    if s == [] then []
    else if IsPySpace(s[0]) then Tokens(s[1..])
    else
      var w := LeadingWord(s);
      [w] + Tokens(s[|w|..])
  }

  /** The run of non-blank characters at the start of `s`. */
  function LeadingWord(s: string): (w: string)
    ensures |w| <= |s| && w == s[..|w|] && NoSpace(w)
    ensures |w| == |s| || IsPySpace(s[|w|])
    decreases |s|
  {
    if s == [] || IsPySpace(s[0]) then [] else [s[0]] + LeadingWord(s[1..])
  }

  function Concat(xs: seq<string>): string
    decreases |xs|
  {
    if xs == [] then "" else xs[0] + Concat(xs[1..])
  }

  /** The non-blank characters of `s`, in order. */
  function NonBlank(s: string): string
    decreases |s|
  {
    if s == [] then "" else (if IsPySpace(s[0]) then "" else [s[0]]) + NonBlank(s[1..])
  }

  lemma {:induction false} NonBlankOfWord(w: string, rest: string)
    requires NoSpace(w)
    ensures NonBlank(w + rest) == w + NonBlank(rest)
    decreases |w|
  {
    if w != [] {
      assert (w + rest)[1..] == w[1..] + rest;
      NonBlankOfWord(w[1..], rest);
      assert w == [w[0]] + w[1..];
    } else {
      assert w + rest == rest;
    }
  }

  /** `split()` drops exactly the blanks: its tokens are non-empty, blank-free,
      and together spell the non-blank characters in order. */
  lemma {:induction false} TokensPartition(s: string)
    ensures forall k :: 0 <= k < |Tokens(s)| ==> Tokens(s)[k] != [] && NoSpace(Tokens(s)[k])
    ensures Concat(Tokens(s)) == NonBlank(s)
    decreases |s|
  {
    if s == [] {
    } else if IsPySpace(s[0]) {
      TokensPartition(s[1..]);
    } else {
      var w := LeadingWord(s);
      TokensPartition(s[|w|..]);
      assert s == w + s[|w|..];
      NonBlankOfWord(w, s[|w|..]);
      var r := Tokens(s);
      assert r[1..] == Tokens(s[|w|..]);
    }
  }

  /** `split()` finds nothing exactly in an all-blank string. */
  lemma {:induction false} TokensEmptyIffBlank(s: string)
    ensures Tokens(s) == [] <==> AllSpace(s)
    decreases |s|
  {
    if s != [] {
      TokensEmptyIffBlank(s[1..]);
    }
  }

  /** The leading word of a blank-free text is all of it. */
  lemma {:induction false} LeadingWordWhole(w: string)
    requires NoSpace(w)
    ensures LeadingWord(w) == w
    decreases |w|
  {
    if w != [] {
      LeadingWordWhole(w[1..]);
      assert w == [w[0]] + w[1..];
    }
  }

  /** The leading word stops at the first blank. */
  lemma {:induction false} LeadingWordStops(w: string, c: char, t: string)
    requires NoSpace(w) && IsPySpace(c)
    ensures LeadingWord(w + [c] + t) == w
    decreases |w|
  {
    var s := w + [c] + t;
    if w == [] {
      assert s[0] == c;
    } else {
      assert s[0] == w[0];
      assert s[1..] == w[1..] + [c] + t;
      LeadingWordStops(w[1..], c, t);
      assert w == [w[0]] + w[1..];
    }
  }

  /** `split()` is maximal: a blank-free text is one token, and a token runs
      up to the next blank. */
  lemma TokensOfWord(w: string)
    requires w != [] && NoSpace(w)
    ensures Tokens(w) == [w]
  {
    LeadingWordWhole(w);
    assert !IsPySpace(w[0]);
    assert w[|w|..] == [];
  }

  lemma TokensWordThenBlank(w: string, c: char, t: string)
    requires w != [] && NoSpace(w) && IsPySpace(c)
    ensures Tokens(w + [c] + t) == [w] + Tokens(t)
  {
    var s := w + [c] + t;
    LeadingWordStops(w, c, t);
    assert s[0] == w[0] && !IsPySpace(w[0]);
    assert s[|w|..] == [c] + t;
    assert ([c] + t)[1..] == t;
  }

  /** Blanks before the text give no token. */
  lemma {:induction false} TokensSkipBlanks(b: string, t: string)
    requires AllSpace(b)
    ensures Tokens(b + t) == Tokens(t)
    decreases |b|
  {
    if b != [] {
      assert (b + t)[0] == b[0];
      assert (b + t)[1..] == b[1..] + t;
      TokensSkipBlanks(b[1..], t);
    } else {
      assert b + t == t;
    }
  }

  /** The number of blanks that start `s`. */
  function LeadingBlanks(s: string): (n: nat)
    ensures n <= |s| && AllSpace(s[..n]) && (n == |s| || !IsPySpace(s[n]))
    decreases |s|
  {
    if s != [] && IsPySpace(s[0]) then
      var n := 1 + LeadingBlanks(s[1..]);
      assert s[..n][1..] == s[1..][..n - 1];
      n
    else 0
  }

  /** The number of blanks that end `s`. */
  function TrailingBlanks(s: string): (n: nat)
    ensures n <= |s| && AllSpace(s[|s| - n..]) && (n == |s| || !IsPySpace(s[|s| - n - 1]))
    decreases |s|
  {
    if s != [] && IsPySpace(s[|s| - 1]) then
      var init := s[..|s| - 1];
      var n := 1 + TrailingBlanks(init);
      assert s[|s| - n..] == init[|init| - (n - 1)..] + [s[|s| - 1]];
      AllSpaceSnoc(init[|init| - (n - 1)..], s[|s| - 1]);
      n
    else 0
  }

  /** `s.lstrip()` */
  function LStrip(s: string): (r: string)
    ensures |r| <= |s| && r == s[|s| - |r|..] && AllSpace(s[..|s| - |r|])
    ensures r == [] || !IsPySpace(r[0])
  {
    s[LeadingBlanks(s)..]
  }

  /** `s.rstrip()` */
  function RStrip(s: string): (r: string)
    ensures |r| <= |s| && r == s[..|r|] && AllSpace(s[|r|..])
    ensures r == [] || !IsPySpace(r[|r| - 1])
  {
    s[..|s| - TrailingBlanks(s)]
  }

  /** `s.strip()` */
  function Strip(s: string): string {
    RStrip(LStrip(s))
  }

  /** A text that starts and ends with a non-blank is left alone by `strip()`. */
  lemma StripUnpadded(s: string)
    requires s != [] && !IsPySpace(s[0]) && !IsPySpace(s[|s| - 1])
    ensures Strip(s) == s
  {
    var l := LStrip(s);
    assert l == s;
    var r := RStrip(s);
    assert r == s;
  }

  /** What `strip()` keeps is the contiguous piece of `s` that starts where
      `lstrip()` stopped. */
  lemma StripPiece(s: string) returns (i: nat)
    ensures i == |s| - |LStrip(s)| && i + |Strip(s)| <= |s|
    ensures Strip(s) == s[i..i + |Strip(s)|]
  {
    var l := LStrip(s);
    var t := RStrip(l);
    assert Strip(s) == t;
    i := |s| - |l|;
    PieceOfSuffix(s, l, t);
  }

  /** Everything `strip()` removes, on either side, is blank. */
  lemma StripMargins(s: string)
    ensures |s| - |LStrip(s)| + |Strip(s)| <= |s|
    ensures AllSpace(s[..|s| - |LStrip(s)|])
    ensures AllSpace(s[|s| - |LStrip(s)| + |Strip(s)|..])
  {
    var l := LStrip(s);
    var t := RStrip(l);
    BlankRest(s, |s| - |l|, l, |t|);
  }

  /** What `strip()` keeps neither starts nor ends with a blank. */
  lemma StripEnds(s: string)
    ensures Strip(s) == [] || (!IsPySpace(Strip(s)[0]) && !IsPySpace(Strip(s)[|Strip(s)| - 1]))
  {
    var l := LStrip(s);
    var t := RStrip(l);
    if t != [] {
      assert t[0] == l[0];
    }
  }

  /** A prefix `t` of a suffix `l` of `s` sits at `|s| - |l|`. */
  lemma PieceOfSuffix(s: string, l: string, t: string)
    requires |l| <= |s| && l == s[|s| - |l|..]
    requires |t| <= |l| && t == l[..|t|]
    ensures t == s[|s| - |l|..|s| - |l| + |t|]
  {
  }

  /** The blank rest of a suffix `l` of `s` that starts at `k`, after its
      first `n` characters, is the blank rest of `s` after `k + n`. */
  lemma BlankRest(s: string, k: nat, l: string, n: nat)
    requires k <= |s| && l == s[k..] && n <= |l| && AllSpace(l[n..])
    ensures AllSpace(s[k + n..])
  {
    assert s[k + n..] == l[n..];
  }

  /** A digit string with single underscores between digits: what Python's
      `int()` accepts after the sign (ASCII digits). */
  predicate IsDecimalLiteral(s: string) {
    && |s| >= 1 && IsDigit(s[0]) && IsDigit(s[|s| - 1])
    && (forall i :: 0 <= i < |s| ==> IsDigit(s[i]) || s[i] == '_')
    && (forall i :: 0 <= i < |s| - 1 ==> IsDigit(s[i]) || IsDigit(s[i + 1]))
  }

  function DropUnderscores(s: string): string
    decreases |s|
  {
    if s == [] then "" else (if s[0] == '_' then "" else [s[0]]) + DropUnderscores(s[1..])
  }

  lemma {:induction false} DropUnderscoresDigits(s: string)
    requires forall i :: 0 <= i < |s| ==> IsDigit(s[i]) || s[i] == '_'
    ensures AllDigits(DropUnderscores(s))
    decreases |s|
  {
    if s != [] {
      DropUnderscoresDigits(s[1..]);
    }
  }

  lemma {:induction false} DropUnderscoresNoop(s: string)
    requires AllDigits(s)
    ensures DropUnderscores(s) == s
    decreases |s|
  {
    if s != [] {
      DropUnderscoresNoop(s[1..]);
      assert s == [s[0]] + s[1..];
    }
  }

  /** The value of an unsigned decimal literal, or None when `int()` would raise. */
  function ParseUnsigned(s: string): Option<nat> {
    if IsDecimalLiteral(s) then
      DropUnderscoresDigits(s);
      Some(DigitsValue(DropUnderscores(s)))
    else None
  }

  /** `int(token)` for a token without blanks: an optional sign, then a
      decimal literal; None stands for the ValueError. */
  function ParseInt(s: string): Option<int> {
    if |s| > 0 && (s[0] == '+' || s[0] == '-') then
      match ParseUnsigned(s[1..])
      case Some(n) => Some(if s[0] == '-' then -(n as int) else n as int)
      case None => None
    else
      match ParseUnsigned(s)
      case Some(n) => Some(n)
      case None => None
  }

  /** `str(n)` for any int. */
  function IntStr(n: int): string {
    if n < 0 then "-" + NatStr(-n) else NatStr(n)
  }

  lemma ParseUnsignedOfNatStr(n: nat)
    ensures ParseUnsigned(NatStr(n)) == Some(n)
  {
    var d := NatStr(n);
    assert IsDecimalLiteral(d);
    DropUnderscoresNoop(d);
    NatStrRoundTrip(n);
  }

  /** `str(n)` is one non-empty token. */
  lemma IntStrNoSpace(n: int)
    ensures IntStr(n) != [] && NoSpace(IntStr(n))
  {
    var d := NatStr(if n < 0 then -n else n);
    assert forall i :: 0 <= i < |d| ==> !IsPySpace(d[i]) by {
      forall i | 0 <= i < |d| ensures !IsPySpace(d[i]) {
        assert IsDigit(d[i]);
      }
    }
    if n < 0 {
      assert IntStr(n) == ['-'] + d;
      assert forall i :: 0 <= i < |IntStr(n)| ==> !IsPySpace(IntStr(n)[i]) by {
        forall i | 0 <= i < |IntStr(n)| ensures !IsPySpace(IntStr(n)[i]) {
          if i > 0 { assert IntStr(n)[i] == d[i - 1]; }
        }
      }
    }
  }

  /** `int(str(n)) == n` */
  lemma IntStrRoundTrip(n: int)
    ensures ParseInt(IntStr(n)) == Some(n)
  {
    if n < 0 {
      ParseUnsignedOfNatStr(-n);
      assert IntStr(n)[0] == '-';
      assert IntStr(n)[1..] == NatStr(-n);
    } else {
      ParseUnsignedOfNatStr(n);
      assert IsDigit(NatStr(n)[0]);
      assert IntStr(n) == NatStr(n);
    }
  }
}
