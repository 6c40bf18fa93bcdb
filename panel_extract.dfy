/** `extractPanelText` of components/ResultDisplay.tsx. The source matches
    the case-insensitive regular expression
      Panel\s*N\s*:\s*([\s\S]*?)(?=(?:Panel\s*M\s*:|Lighting must|Technical Specifications|$))
    (M = N + 1) against the prompt text and trims the capture. Here that
    search is written out directly. It is deterministic: a `\s*` before a
    digit or a colon can never give back white space, so the only choices
    the regular expression makes are the leftmost marker, the greedy
    white space after it, and the earliest stop for the lazy capture. */
module PanelExtract {
  import opened Common
  import opened Text

  /** The words the regular expression is built from: the word that opens
      a marker and the phrases that also end a capture. */
  datatype Syntax = Syntax(word: string, stops: seq<string>)

  /** The words `extractPanelText` uses. */
  const PANEL_SYNTAX: Syntax := Syntax("Panel", ["Lighting must", "Technical Specifications"])

  /** If `word\s*numeral\s*:` starts at index i, the index just past its colon. */
  function LabelEnd(s: string, i: nat, word: string, numeral: string): (r: Option<nat>)
    ensures r.Some? ==> i < r.value <= |s| && s[r.value - 1] == ':'
  {
    if !MatchesAtIgnoreCase(s, i, word) then None
    else NumeralEnd(s, SkipSpace(s, i + |word|), numeral)
  }

  /** If `numeral\s*:` starts at index j, the index just past its colon. */
  function NumeralEnd(s: string, j: nat, numeral: string): (r: Option<nat>)
    ensures r.Some? ==> j < r.value <= |s| && s[r.value - 1] == ':'
  {
    if !MatchesAtIgnoreCase(s, j, numeral) then None
    else ColonEnd(s, SkipSpace(s, j + |numeral|))
  }

  /** If a colon is at index k, the index just past it. */
  function ColonEnd(s: string, k: nat): (r: Option<nat>)
    ensures r.Some? ==> k < r.value <= |s| && s[r.value - 1] == ':'
  {
    if k < |s| && s[k] == ':' then Some(k + 1) else None
  }

  /** If `Panel\s*n\s*:` starts at index i, the index just past its colon. */
  function MarkerEnd(syn: Syntax, s: string, i: nat, n: nat): (r: Option<nat>)
    ensures r.Some? ==> i < r.value <= |s| && s[r.value - 1] == ':'
  {
    LabelEnd(s, i, syn.word, DecimalString(n))
  }

  /** One of the listed phrases starts at index i. */
  predicate MatchesAny(s: string, i: nat, phrases: seq<string>) {
    exists k :: 0 <= k < |phrases| && MatchesAtIgnoreCase(s, i, phrases[k])
  }

  /** One of the lookahead's alternatives other than `$` matches at index i:
      the next panel's marker or one of the closing phrases. */
  predicate StopsAt(syn: Syntax, s: string, i: nat, n: nat) {
    MarkerEnd(syn, s, i, n + 1).Some? || MatchesAny(s, i, syn.stops)
  }

  /** The leftmost index at or after `from` where the marker of panel n starts. */
  function FindMarker(syn: Syntax, s: string, n: nat, from: nat): (r: Option<nat>)
    requires from <= |s|
    ensures r.Some? ==> from <= r.value < |s| && MarkerEnd(syn, s, r.value, n).Some?
    ensures forall i :: from <= i < |s| && (r.None? || i < r.value) ==> MarkerEnd(syn, s, i, n).None?
    decreases |s| - from
  {
    if from == |s| then None
    else if MarkerEnd(syn, s, from, n).Some? then Some(from)
    else FindMarker(syn, s, n, from + 1)
  }

  /** Where the lazy capture started at `from` ends: the earliest index at
      which the lookahead succeeds. */
  function StopFrom(syn: Syntax, s: string, n: nat, from: nat): (e: nat)
    requires from <= |s|
    ensures from <= e <= |s|
    ensures e == |s| || StopsAt(syn, s, e, n)
    ensures forall i :: from <= i < e ==> !StopsAt(syn, s, i, n)
    decreases |s| - from
  {
    if from == |s| || StopsAt(syn, s, from, n) then from
    else StopFrom(syn, s, n, from + 1)
  }

  /** The extractor for any choice of words. It never fails: an empty or
      missing text, a missing marker and an empty capture all give `None`;
      otherwise the capture, trimmed. */
  function Extract(syn: Syntax, result: Option<string>, n: nat): (r: Option<string>)
    ensures !Truthy(result) ==> r.None?
    ensures r.Some? ==> r.value != [] && IsTrimmed(r.value)
  {
    if !Truthy(result) then None
    else
      var s := result.value;
      match FindMarker(syn, s, n, 0)
      case None => None
      case Some(p) =>
        var q := SkipSpace(s, MarkerEnd(syn, s, p, n).value);
        var e := StopFrom(syn, s, n, q);
        if q == e then None
        else
          TrimKeepsFirst(s[q..e]);
          Some(Trim(s[q..e]))
  }

  /** `extractPanelText(n)` over the current `result`. */
  function ExtractPanelText(result: Option<string>, n: nat): (r: Option<string>)
    ensures !Truthy(result) ==> r.None?
    ensures r.Some? ==> r.value != [] && IsTrimmed(r.value)
  {
    Extract(PANEL_SYNTAX, result, n)
  }

  /** A text without the marker of panel n gives nothing for that panel. */
  lemma NoMarkerNoText(syn: Syntax, s: string, n: nat)
    requires forall i :: 0 <= i < |s| ==> MarkerEnd(syn, s, i, n).None?
    ensures Extract(syn, Some(s), n).None?
  {
    assert FindMarker(syn, s, n, 0).None?;
  }

  /** Where the extracted text comes from: p is the leftmost marker of
      panel n, the capture starts at q after the marker and the white space
      that follows it, and ends at e, the first place after q where the next
      panel's marker, a closing phrase or the end of the text begins. */
  lemma ExtractedSpan(syn: Syntax, s: string, n: nat) returns (p: nat, q: nat, e: nat)
    requires Extract(syn, Some(s), n).Some?
    ensures MarkerEnd(syn, s, p, n).Some? && forall i :: 0 <= i < p ==> MarkerEnd(syn, s, i, n).None?
    ensures MarkerEnd(syn, s, p, n).value <= q < e <= |s|
    ensures forall i :: MarkerEnd(syn, s, p, n).value <= i < q ==> IsSpace(s[i])
    ensures !IsSpace(s[q])
    ensures forall i :: q <= i < e ==> !StopsAt(syn, s, i, n)
    ensures e == |s| || StopsAt(syn, s, e, n)
    ensures Extract(syn, Some(s), n) == Some(Trim(s[q..e]))
  {
    p := FindMarker(syn, s, n, 0).value;
    q := SkipSpace(s, MarkerEnd(syn, s, p, n).value);
    e := StopFrom(syn, s, n, q);
    SkipSpaceSkipsSpace(s, MarkerEnd(syn, s, p, n).value);
  }

  /** The extractor's answer, once the marker, the start and the end of the
      capture are known. */
  lemma ExtractAt(syn: Syntax, s: string, n: nat, p: nat, q: nat, e: nat, capture: string)
    requires FindMarker(syn, s, n, 0) == Some(p)
    requires q == SkipSpace(s, MarkerEnd(syn, s, p, n).value)
    requires e == StopFrom(syn, s, n, q) && q < e
    requires capture == s[q..e]
    ensures Extract(syn, Some(s), n) == Some(Trim(capture))
  {
  }

  // ---------------------------------------------------------------------
  // Matching inside a part of the text

  /** Looking at a suffix of the text, the search steps see the same
      characters shifted by the offset. */
  lemma MatchesInSuffix(s: string, lo: nat, t: string, i: nat, lit: string)
    requires lo <= |s| && t == s[lo..]
    ensures MatchesAtIgnoreCase(t, i, lit) <==> MatchesAtIgnoreCase(s, lo + i, lit)
  {
    if i + |lit| <= |t| {
      assert forall j :: i <= j < i + |lit| ==> t[j] == s[lo + j];
    }
  }

  lemma MatchesAnyInSuffix(s: string, lo: nat, t: string, i: nat, phrases: seq<string>)
    requires lo <= |s| && t == s[lo..]
    ensures MatchesAny(t, i, phrases) <==> MatchesAny(s, lo + i, phrases)
  {
    forall k | 0 <= k < |phrases|
      ensures MatchesAtIgnoreCase(t, i, phrases[k]) <==> MatchesAtIgnoreCase(s, lo + i, phrases[k])
    {
      MatchesInSuffix(s, lo, t, i, phrases[k]);
    }
  }

  lemma {:induction false} SkipSpaceInSuffix(s: string, lo: nat, t: string, i: nat)
    requires lo + i <= |s| && t == s[lo..]
    ensures SkipSpace(t, i) + lo == SkipSpace(s, lo + i)
    decreases |s| - lo - i
  {
    if lo + i < |s| {
      assert t[i] == s[lo + i];
      if IsSpace(s[lo + i]) {
        SkipSpaceInSuffix(s, lo, t, i + 1);
      }
    }
  }

  lemma ColonEndInSuffix(s: string, lo: nat, t: string, k: nat)
    requires lo <= |s| && t == s[lo..]
    ensures ColonEnd(t, k).Some? <==> ColonEnd(s, lo + k).Some?
  {
    if k < |s| - lo {
      assert t[k] == s[lo + k];
    }
  }

  lemma NumeralEndInSuffix(s: string, lo: nat, t: string, j: nat, numeral: string)
    requires lo <= |s| && t == s[lo..]
    ensures NumeralEnd(t, j, numeral).Some? <==> NumeralEnd(s, lo + j, numeral).Some?
  {
    MatchesInSuffix(s, lo, t, j, numeral);
    if MatchesAtIgnoreCase(s, lo + j, numeral) {
      SkipSpaceInSuffix(s, lo, t, j + |numeral|);
      ColonEndInSuffix(s, lo, t, SkipSpace(t, j + |numeral|));
    }
  }

  lemma LabelEndInSuffix(s: string, lo: nat, t: string, i: nat, word: string, numeral: string)
    requires lo <= |s| && t == s[lo..]
    ensures LabelEnd(t, i, word, numeral).Some? <==> LabelEnd(s, lo + i, word, numeral).Some?
  {
    MatchesInSuffix(s, lo, t, i, word);
    if MatchesAtIgnoreCase(s, lo + i, word) {
      var k := SkipSpace(t, i + |word|);
      SkipSpaceInSuffix(s, lo, t, i + |word|);
      NumeralEndInSuffix(s, lo, t, k, numeral);
      assert LabelEnd(t, i, word, numeral) == NumeralEnd(t, k, numeral);
      assert LabelEnd(s, lo + i, word, numeral) == NumeralEnd(s, lo + k, numeral);
    }
  }

  /** A stop seen in a suffix of the text is a stop in the text, and back. */
  lemma StopsInSuffix(syn: Syntax, s: string, lo: nat, t: string, i: nat, n: nat)
    requires lo <= |s| && t == s[lo..]
    ensures StopsAt(syn, t, i, n) <==> StopsAt(syn, s, lo + i, n)
  {
    LabelEndInSuffix(s, lo, t, i, syn.word, DecimalString(n + 1));
    MatchesAnyInSuffix(s, lo, t, i, syn.stops);
  }

  lemma MatchesInLonger(t: string, u: string, i: nat, lit: string)
    requires |t| <= |u| && t == u[..|t|] && MatchesAtIgnoreCase(t, i, lit)
    ensures MatchesAtIgnoreCase(u, i, lit)
  {
    assert forall j :: i <= j < i + |lit| ==> t[j] == u[j];
  }

  lemma {:induction false} SkipSpaceInLonger(t: string, u: string, i: nat)
    requires |t| <= |u| && t == u[..|t|] && i <= |t| && SkipSpace(t, i) < |t|
    ensures SkipSpace(u, i) == SkipSpace(t, i)
    decreases |t| - i
  {
    assert t[i] == u[i];
    if IsSpace(t[i]) {
      SkipSpaceInLonger(t, u, i + 1);
    }
  }

  lemma NumeralEndInLonger(t: string, u: string, j: nat, numeral: string)
    requires |t| <= |u| && t == u[..|t|] && NumeralEnd(t, j, numeral).Some?
    ensures NumeralEnd(u, j, numeral) == NumeralEnd(t, j, numeral)
  {
    MatchesInLonger(t, u, j, numeral);
    var k := SkipSpace(t, j + |numeral|);
    SkipSpaceInLonger(t, u, j + |numeral|);
    assert t[k] == u[k];
  }

  lemma LabelEndInLonger(t: string, u: string, i: nat, word: string, numeral: string)
    requires |t| <= |u| && t == u[..|t|] && LabelEnd(t, i, word, numeral).Some?
    ensures LabelEnd(u, i, word, numeral) == LabelEnd(t, i, word, numeral)
  {
    MatchesInLonger(t, u, i, word);
    SkipSpaceInLonger(t, u, i + |word|);
    NumeralEndInLonger(t, u, SkipSpace(t, i + |word|), numeral);
  }

  /** A stop seen in a prefix of the text is a stop in the text. */
  lemma StopsInLonger(syn: Syntax, t: string, u: string, i: nat, n: nat)
    requires |t| <= |u| && t == u[..|t|] && StopsAt(syn, t, i, n)
    ensures StopsAt(syn, u, i, n)
  {
    if MarkerEnd(syn, t, i, n + 1).Some? {
      LabelEndInLonger(t, u, i, syn.word, DecimalString(n + 1));
    } else {
      var k :| 0 <= k < |syn.stops| && MatchesAtIgnoreCase(t, i, syn.stops[k]);
      MatchesInLonger(t, u, i, syn.stops[k]);
    }
  }

  // ---------------------------------------------------------------------
  // What the extractor promises

  /** A part of the text free of stops has no stops of its own. */
  lemma NoStopInPart(syn: Syntax, s: string, lo: nat, hi: nat, n: nat, t: string)
    requires lo <= hi <= |s| && t == s[lo..hi]
    requires forall i :: lo <= i < hi ==> !StopsAt(syn, s, i, n)
    ensures forall i :: 0 <= i < |t| ==> !StopsAt(syn, t, i, n)
  {
    var u := s[lo..];
    assert t == u[..|t|];
    forall i | 0 <= i < hi - lo
      ensures !StopsAt(syn, t, i, n)
    {
      if StopsAt(syn, t, i, n) {
        StopsInLonger(syn, t, u, i, n);
        StopsInSuffix(syn, s, lo, u, i, n);
      }
    }
  }

  /** Trimming a capture free of stops leaves a text free of stops. */
  lemma TrimmedCaptureHasNoStop(syn: Syntax, s: string, q: nat, e: nat, n: nat)
    requires q <= e <= |s|
    requires forall i :: q <= i < e ==> !StopsAt(syn, s, i, n)
    ensures forall i :: 0 <= i < |Trim(s[q..e])| ==> !StopsAt(syn, Trim(s[q..e]), i, n)
  {
    var capture := s[q..e];
    var t := Trim(capture);
    var k, m := TrimOffset(capture), TrimLimit(capture);
    SliceOfSlice(s, q, e, k, m);
    NoStopInPart(syn, s, q + k, q + m, n, t);
  }

  /** The extracted text never contains the next panel's marker or a
      closing phrase: it cannot leak into the following panel. */
  lemma ExtractedTextHasNoStop(syn: Syntax, s: string, n: nat)
    requires Extract(syn, Some(s), n).Some?
    ensures var t := Extract(syn, Some(s), n).value;
      forall i :: 0 <= i < |t| ==> !StopsAt(syn, t, i, n)
  {
    var p, q, e := ExtractedSpan(syn, s, n);
    TrimmedCaptureHasNoStop(syn, s, q, e, n);
  }

  /** The capture that starts at `lo` ends after `len` characters when
      no stop occurs before that and a stop or the end of the text follows. */
  lemma StopFromAt(syn: Syntax, s: string, lo: nat, rest: string, len: nat, n: nat)
    requires lo <= |s| && s[lo..] == rest && len <= |rest|
    requires forall i :: 0 <= i < len ==> !StopsAt(syn, rest, i, n)
    requires len == |rest| || StopsAt(syn, rest, len, n)
    ensures StopFrom(syn, s, n, lo) == lo + len
  {
    NoStopShifted(syn, s, lo, rest, len, n);
    if len < |rest| {
      StopsInSuffix(syn, s, lo, rest, len, n);
    }
    StopFromIs(syn, s, n, lo, lo + len);
  }

  /** No stop in the first `len` characters of the suffix from `lo` means
      no stop in that part of the text. */
  lemma NoStopShifted(syn: Syntax, s: string, lo: nat, rest: string, len: nat, n: nat)
    requires lo <= |s| && s[lo..] == rest && len <= |rest|
    requires forall i :: 0 <= i < len ==> !StopsAt(syn, rest, i, n)
    ensures forall j :: lo <= j < lo + len ==> !StopsAt(syn, s, j, n)
  {
    forall j | lo <= j < lo + len
      ensures !StopsAt(syn, s, j, n)
    {
      StopsInSuffix(syn, s, lo, rest, j - lo, n);
    }
  }

  /** The end of the capture is the only index with no stop before it and
      a stop or the end of the text at it. */
  lemma StopFromIs(syn: Syntax, s: string, n: nat, lo: nat, e: nat)
    requires lo <= e <= |s|
    requires forall j :: lo <= j < e ==> !StopsAt(syn, s, j, n)
    requires e == |s| || StopsAt(syn, s, e, n)
    ensures StopFrom(syn, s, n, lo) == e
  {
  }

  /** A well-formed panel: for a text in which `Panel n: ` follows a part
      holding no marker of panel n (the summary and the earlier panels), and
      a description that begins with a visible character and runs up to the
      next panel's marker, a closing phrase or the end, the extractor returns
      exactly that description, trimmed. */
  lemma ExtractWellFormed(syn: Syntax, n: nat, prefix: string, body: string, tail: string)
    requires body != [] && !IsSpace(body[0])
    requires forall i :: 0 <= i < |prefix| ==>
      MarkerEnd(syn, prefix + syn.word + " " + DecimalString(n) + ": " + body + tail, i, n).None?
    requires forall i :: 0 <= i < |body| ==> !StopsAt(syn, body + tail, i, n)
    requires tail == [] || StopsAt(syn, body + tail, |body|, n)
    ensures Extract(syn, Some(prefix + syn.word + " " + DecimalString(n) + ": " + body + tail), n)
      == Some(Trim(body))
  {
    var head := syn.word + " " + DecimalString(n) + ": ";
    var s := prefix + syn.word + " " + DecimalString(n) + ": " + body + tail;
    assert s == prefix + (head + (body + tail));
    assert (body + tail)[..|body|] == body;
    ExtractAfterHead(syn, n, s, prefix, body + tail, |body|, body);
  }

  /** The same, for the text after the marker taken as a whole: `len` is
      the length of the description within it. */
  lemma ExtractAfterHead(syn: Syntax, n: nat, s: string, prefix: string, rest: string, len: nat, capture: string)
    requires s == prefix + (syn.word + " " + DecimalString(n) + ": " + rest)
    requires 0 < len <= |rest| && !IsSpace(rest[0]) && capture == rest[..len]
    requires forall i :: 0 <= i < |prefix| ==> MarkerEnd(syn, s, i, n).None?
    requires forall i :: 0 <= i < len ==> !StopsAt(syn, rest, i, n)
    requires len == |rest| || StopsAt(syn, rest, len, n)
    ensures Extract(syn, Some(s), n) == Some(Trim(capture))
  {
    var head := syn.word + " " + DecimalString(n) + ": ";
    ConcatParts(prefix, head, rest);
    CaptureStart(syn, n, rest);
    CaptureAfter(syn, n, s, |prefix|, head + rest, |head|);
    ExtractCapture(syn, s, n, |prefix|, |prefix| + |head|, rest, len, capture);
  }

  /** Where the second and third part of a concatenation begin. */
  lemma ConcatParts(a: string, b: string, c: string)
    ensures (a + (b + c))[|a|..] == b + c
    ensures (a + (b + c))[|a| + |b|..] == c
  {
  }

  /** With the marker found at `p` and the capture beginning at `lo`, a
      capture of `len` characters that no stop interrupts, followed by a
      stop or the end, is what the extractor returns, trimmed. */
  lemma ExtractCapture(syn: Syntax, s: string, n: nat, p: nat, lo: nat, rest: string, len: nat, capture: string)
    requires FindMarker(syn, s, n, 0) == Some(p)
    requires SkipSpace(s, MarkerEnd(syn, s, p, n).value) == lo
    requires lo <= |s| && s[lo..] == rest && 0 < len <= |rest| && capture == rest[..len]
    requires forall i :: 0 <= i < len ==> !StopsAt(syn, rest, i, n)
    requires len == |rest| || StopsAt(syn, rest, len, n)
    ensures Extract(syn, Some(s), n) == Some(Trim(capture))
  {
    StopFromAt(syn, s, lo, rest, len, n);
    PrefixOfSuffix(s, lo, rest, len);
    ExtractAt(syn, s, n, p, lo, lo + len, capture);
  }

  /** A marker at the start of the suffix from `p`, with no marker before
      `p`, is the one the search finds in the whole text, and the capture
      starts at the same place, shifted by `p`. */
  lemma CaptureAfter(syn: Syntax, n: nat, s: string, p: nat, t: string, c: nat)
    requires p <= |s| && t == s[p..]
    requires forall i :: 0 <= i < p ==> MarkerEnd(syn, s, i, n).None?
    requires MarkerEnd(syn, t, 0, n).Some? && SkipSpace(t, MarkerEnd(syn, t, 0, n).value) == c
    ensures FindMarker(syn, s, n, 0) == Some(p)
    ensures SkipSpace(s, MarkerEnd(syn, s, p, n).value) == p + c
  {
    CaptureShift(syn, n, s, p, t, c);
    FindMarkerIs(syn, s, n, 0, p);
  }

  /** The marker at the start of the suffix from `p` is a marker of the
      text at `p`, and the capture after it starts `p` further on. */
  lemma CaptureShift(syn: Syntax, n: nat, s: string, p: nat, t: string, c: nat)
    requires p <= |s| && t == s[p..]
    requires MarkerEnd(syn, t, 0, n).Some? && SkipSpace(t, MarkerEnd(syn, t, 0, n).value) == c
    ensures MarkerEnd(syn, s, p, n).Some?
    ensures SkipSpace(s, MarkerEnd(syn, s, p, n).value) == p + c
  {
    var m := MarkerEnd(syn, t, 0, n).value;
    MarkerEndShift(syn, s, p, t, n);
    SkipSpaceInSuffix(s, p, t, m);
  }

  /** A marker at the start of a suffix is a marker of the text at the
      suffix's offset, ending at the shifted place. */
  lemma MarkerEndShift(syn: Syntax, s: string, p: nat, t: string, n: nat)
    requires p <= |s| && t == s[p..] && MarkerEnd(syn, t, 0, n).Some?
    ensures MarkerEnd(syn, s, p, n) == Some(p + MarkerEnd(syn, t, 0, n).value)
  {
    LabelEndShift(s, p, t, 0, syn.word, DecimalString(n));
  }

  /** The search finds the first marker: the one at `p` when none starts
      between `from` and `p`. */
  lemma {:induction false} FindMarkerIs(syn: Syntax, s: string, n: nat, from: nat, p: nat)
    requires from <= p < |s|
    requires forall i :: from <= i < p ==> MarkerEnd(syn, s, i, n).None?
    requires MarkerEnd(syn, s, p, n).Some?
    ensures FindMarker(syn, s, n, from) == Some(p)
    decreases p - from
  {
    if from < p {
      FindMarkerIs(syn, s, n, from + 1, p);
    }
  }

  /** A label matched in a suffix ends at the same place in the text,
      shifted by the offset. */
  lemma LabelEndShift(s: string, lo: nat, t: string, i: nat, word: string, numeral: string)
    requires lo <= |s| && t == s[lo..] && LabelEnd(t, i, word, numeral).Some?
    ensures LabelEnd(s, lo + i, word, numeral) == Some(lo + LabelEnd(t, i, word, numeral).value)
  {
    MatchesInSuffix(s, lo, t, i, word);
    var k := SkipSpace(t, i + |word|);
    SkipSpaceInSuffix(s, lo, t, i + |word|);
    NumeralEndShift(s, lo, t, k, numeral);
    assert LabelEnd(t, i, word, numeral) == NumeralEnd(t, k, numeral);
    assert LabelEnd(s, lo + i, word, numeral) == NumeralEnd(s, lo + k, numeral);
  }

  lemma NumeralEndShift(s: string, lo: nat, t: string, j: nat, numeral: string)
    requires lo <= |s| && t == s[lo..] && NumeralEnd(t, j, numeral).Some?
    ensures NumeralEnd(s, lo + j, numeral) == Some(lo + NumeralEnd(t, j, numeral).value)
  {
    MatchesInSuffix(s, lo, t, j, numeral);
    var k := SkipSpace(t, j + |numeral|);
    SkipSpaceInSuffix(s, lo, t, j + |numeral|);
    assert t[k] == s[lo + k];
  }

  /** With a visible character right after `Panel n: `, the marker is found
      at the start and the capture begins at that character. */
  lemma CaptureStart(syn: Syntax, n: nat, rest: string)
    requires rest != [] && !IsSpace(rest[0])
    ensures var t := syn.word + " " + DecimalString(n) + ": " + rest;
      && MarkerEnd(syn, t, 0, n).Some?
      && SkipSpace(t, MarkerEnd(syn, t, 0, n).value) == |t| - |rest|
  {
    var t := syn.word + " " + DecimalString(n) + ": " + rest;
    MarkerAtStart(syn, n, rest);
    var m := MarkerEnd(syn, t, 0, n).value;
    assert t[m] == ' ' && t[m + 1] == rest[0];
  }

  /** The marker `Panel n:` written out at the start of a text is found there. */
  lemma MarkerAtStart(syn: Syntax, n: nat, rest: string)
    ensures var s := syn.word + " " + DecimalString(n) + ": " + rest;
      MarkerEnd(syn, s, 0, n) == Some(|syn.word| + |DecimalString(n)| + 2)
  {
    NumeralStartsVisible(n);
    LabelAtStart(syn.word, DecimalString(n), rest);
  }

  /** A decimal numeral begins with a digit, not with white space. */
  lemma NumeralStartsVisible(n: nat)
    ensures !IsSpace(DecimalString(n)[0])
  {
    assert '0' <= DecimalString(n)[0] <= '9';
  }

  /** `word numeral: ` at the start of a text ends just past its colon. */
  lemma LabelAtStart(word: string, numeral: string, rest: string)
    requires numeral != [] && !IsSpace(numeral[0])
    ensures LabelEnd(word + " " + numeral + ": " + rest, 0, word, numeral) == Some(|word| + |numeral| + 2)
  {
    WordThenSpace(word, numeral, rest);
    NumeralThenColon(word, numeral, rest);
  }

  /** After the word and one space the numeral starts right away. */
  lemma WordThenSpace(word: string, numeral: string, rest: string)
    requires numeral != [] && !IsSpace(numeral[0])
    ensures var s := word + " " + numeral + ": " + rest;
      LabelEnd(s, 0, word, numeral) == NumeralEnd(s, |word| + 1, numeral)
  {
    var s := word + " " + numeral + ": " + rest;
    assert forall k :: 0 <= k < |word| ==> s[0 + k] == word[k];
    assert s[|word|] == ' ' && s[|word| + 1] == numeral[0];
    assert SkipSpace(s, |word| + 1) == |word| + 1;
  }

  /** A numeral followed right away by a colon ends just past the colon. */
  lemma NumeralThenColon(word: string, numeral: string, rest: string)
    ensures NumeralEnd(word + " " + numeral + ": " + rest, |word| + 1, numeral) == Some(|word| + |numeral| + 2)
  {
    var s := word + " " + numeral + ": " + rest;
    assert forall k :: 0 <= k < |numeral| ==> s[|word| + 1 + k] == numeral[k];
    assert s[|word| + 1 + |numeral|] == ':';
  }
}
