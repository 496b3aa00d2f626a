/**
 * Metadata prober: recovers a file's duration in whole seconds and the codec
 * of one language's audio track from the text the media engine printed while
 * inspecting the file (the text of the completed-process record).
 *
 * The two patterns of the script are modelled by what Python's `re.search`
 * returns for them:
 *   - `\s+Duration: (\d{2}):(\d{2}):(\d{2})\.(\d{2})`: the leftmost match is
 *     the one whose "Duration: " token starts at the smallest position p that
 *     follows a whitespace character (the `\s+` run must end right before 'D');
 *   - `\s+Stream.*\(<lang>\): Audio: (\w+)`: the leftmost "Stream" q that
 *     follows whitespace and is followed, on the same line, by the marker
 *     "(<lang>): Audio: " and a word character; greedy `.*` then picks the
 *     LAST such marker k on that line, and `\w+` takes the longest run of
 *     word characters after it.
 */
module Prober {
  import opened Wrappers
  import opened Text

  /** Length of "Duration: HH:MM:SS.ff". */
  const DurationTokenLength: nat := 21

  /** Codec reported when no audio stream of the language is found. */
  const DefaultCodec: string := "aac"

  /** Largest duration the two-digit fields can express: 99:99:99. */
  const MaxDuration: nat := 99 * 3600 + 99 * 60 + 99

  // ---------------------------------------------------------------------------
  // Duration
  // ---------------------------------------------------------------------------

  /** "Duration: HH:MM:SS.ff" starts at position p, each field exactly two digits. */
  predicate DurationAt(s: string, p: nat) {
    && p + DurationTokenLength <= |s|
    && s[p..p + 10] == "Duration: "
    && IsDigit(s[p + 10]) && IsDigit(s[p + 11]) && s[p + 12] == ':'
    && IsDigit(s[p + 13]) && IsDigit(s[p + 14]) && s[p + 15] == ':'
    && IsDigit(s[p + 16]) && IsDigit(s[p + 17]) && s[p + 18] == '.'
    && IsDigit(s[p + 19]) && IsDigit(s[p + 20])
  }

  /** The duration pattern matches with its token at p: whitespace precedes it. */
  predicate DurationMatch(s: string, p: nat) {
    1 <= p && DurationAt(s, p) && IsSpace(s[p - 1])
  }

  /** `int()` of the two digits at i and i + 1. */
  function TwoDigits(s: string, i: nat): (v: nat)
    requires i + 2 <= |s| && IsDigit(s[i]) && IsDigit(s[i + 1])
    ensures v <= 99
  {
    DigitValue(s[i]) * 10 + DigitValue(s[i + 1])
  }

  function Hours(s: string, p: nat): nat
    requires DurationAt(s, p)
  {
    TwoDigits(s, p + 10)
  }

  function Minutes(s: string, p: nat): nat
    requires DurationAt(s, p)
  {
    TwoDigits(s, p + 13)
  }

  function Seconds(s: string, p: nat): nat
    requires DurationAt(s, p)
  {
    TwoDigits(s, p + 16)
  }

  /** The two fractional digits, which the script matches but never reads. */
  function Hundredths(s: string, p: nat): nat
    requires DurationAt(s, p)
  {
    TwoDigits(s, p + 19)
  }

  /** The exact duration the token denotes, in hundredths of a second. */
  function ExactHundredths(s: string, p: nat): nat
    requires DurationAt(s, p)
  {
    (Hours(s, p) * 3600 + Minutes(s, p) * 60 + Seconds(s, p)) * 100 + Hundredths(s, p)
  }

  /** The position of the first duration match at or after `from`. */
  function FindDuration(s: string, from: nat): (r: Option<nat>)
    decreases |s| - from
    ensures r.Some? ==> from <= r.value && DurationMatch(s, r.value)
    ensures r.Some? ==> forall p :: from <= p < r.value ==> !DurationMatch(s, p)
    ensures r.None? ==> forall p :: from <= p ==> !DurationMatch(s, p)
  {
    if from + DurationTokenLength > |s| then None
    else if DurationMatch(s, from) then Some(from)
    else FindDuration(s, from + 1)
  }

  /** The probed duration in whole seconds: H*3600 + M*60 + S of the first
      match, or 0 when the pattern does not match. */
  function DurationSeconds(s: string): (d: nat)
    ensures d <= MaxDuration
  {
    match FindDuration(s, 0)
    case None => 0
    case Some(p) => Hours(s, p) * 3600 + Minutes(s, p) * 60 + Seconds(s, p)
  }

  /** The first match (and only it) decides the duration. */
  lemma DurationOfFirstMatch(s: string, p: nat)
    requires DurationMatch(s, p)
    requires forall p' :: 0 <= p' < p ==> !DurationMatch(s, p')
    ensures DurationSeconds(s) == Hours(s, p) * 3600 + Minutes(s, p) * 60 + Seconds(s, p)
  {
    assert FindDuration(s, 0) == Some(p);
  }

  /** The fractional part is truncated, not rounded. */
  lemma DurationTruncates(s: string, p: nat)
    requires DurationMatch(s, p)
    requires forall p' :: 0 <= p' < p ==> !DurationMatch(s, p')
    ensures DurationSeconds(s) == ExactHundredths(s, p) / 100
  {
    DurationOfFirstMatch(s, p);
  }

  /** Without any match the duration defaults to 0. */
  lemma DurationDefault(s: string)
    requires forall p :: 0 <= p ==> !DurationMatch(s, p)
    ensures DurationSeconds(s) == 0
  {
    assert FindDuration(s, 0).None?;
  }

  // ---------------------------------------------------------------------------
  // Codec
  // ---------------------------------------------------------------------------

  /** The literal text that precedes the codec name on an audio stream line. */
  function AudioMarker(lang: string): string {
    "(" + lang + "): Audio: "
  }

  /** "Stream" starts at q and a whitespace character precedes it. */
  predicate StreamAt(s: string, q: nat) {
    1 <= q && q + 6 <= |s| && IsSpace(s[q - 1]) && s[q..q + 6] == "Stream"
  }

  /** The audio marker of `lang` starts at k and a word character follows it. */
  predicate AudioAt(s: string, lang: string, k: nat) {
    var m := AudioMarker(lang);
    k + |m| < |s| && s[k..k + |m|] == m && IsWordChar(s[k + |m|])
  }

  /** The codec pattern matches with "Stream" at q and the marker at k:
      the `.*` between them, s[q + 6..k], holds no line feed. */
  predicate CodecMatch(s: string, lang: string, q: nat, k: nat) {
    StreamAt(s, q) && q + 6 <= k && AudioAt(s, lang, k) && '\n' !in s[q + 6..k]
  }

  /** The first line feed at or after i, or the end of the text. */
  function LineEnd(s: string, i: nat): (e: nat)
    requires i <= |s|
    decreases |s| - i
    ensures i <= e <= |s| && '\n' !in s[i..e]
    ensures e < |s| ==> s[e] == '\n'
  {
    if i == |s| || s[i] == '\n' then i
    else
      var e := LineEnd(s, i + 1);
      assert s[i..e] == [s[i]] + s[i + 1..e];
      e
  }

  /** The last marker position in [lo, hi). */
  function LastAudio(s: string, lang: string, lo: nat, hi: nat): (r: Option<nat>)
    requires lo <= hi
    decreases hi - lo
    ensures r.Some? ==> lo <= r.value < hi && AudioAt(s, lang, r.value)
    ensures r.Some? ==> forall k :: r.value < k < hi ==> !AudioAt(s, lang, k)
    ensures r.None? ==> forall k :: lo <= k < hi ==> !AudioAt(s, lang, k)
  {
    if lo == hi then None
    else if AudioAt(s, lang, hi - 1) then Some(hi - 1)
    else LastAudio(s, lang, lo, hi - 1)
  }

  /** For the "Stream" at q, the marker greedy `.*` settles on, if any. */
  function CodecAfter(s: string, lang: string, q: nat): (r: Option<nat>)
    requires StreamAt(s, q)
    ensures r.Some? ==> CodecMatch(s, lang, q, r.value)
    ensures r.Some? ==> forall k :: r.value < k ==> !CodecMatch(s, lang, q, k)
    ensures r.None? ==> forall k :: !CodecMatch(s, lang, q, k)
  {
    var e := LineEnd(s, q + 6);
    var r := LastAudio(s, lang, q + 6, e);
    LastAudioOnLine(s, lang, q, e, r);
    r
  }

  /** The markers greedy `.*` can reach from the "Stream" at q are exactly
      those in [q + 6, e), e being the end of that line. */
  lemma LastAudioOnLine(s: string, lang: string, q: nat, e: nat, r: Option<nat>)
    requires StreamAt(s, q) && e == LineEnd(s, q + 6) && r == LastAudio(s, lang, q + 6, e)
    ensures r.Some? ==> CodecMatch(s, lang, q, r.value)
    ensures r.Some? ==> forall k :: r.value < k ==> !CodecMatch(s, lang, q, k)
    ensures r.None? ==> forall k :: !CodecMatch(s, lang, q, k)
  {
    forall k: nat | CodecMatch(s, lang, q, k)
      ensures q + 6 <= k < e
    {
      MatchWithinLine(s, lang, q, k, e);
    }
    if r.Some? {
      assert s[q + 6..r.value] == s[q + 6..e][..r.value - (q + 6)];
    }
  }

  /** A marker the `.*` reaches lies before the end of the line. */
  lemma MatchWithinLine(s: string, lang: string, q: nat, k: nat, e: nat)
    requires CodecMatch(s, lang, q, k)
    requires q + 6 <= e <= |s| && (e < |s| ==> s[e] == '\n')
    ensures k < e
  {
    assert s[k] == s[k..k + |AudioMarker(lang)|][0] == '(';
    assert forall t :: q + 6 <= t < k ==> s[t] == s[q + 6..k][t - (q + 6)];
  }

  /** The leftmost match at or after `from`: its "Stream" and its marker. */
  function FindCodec(s: string, lang: string, from: nat): (r: Option<(nat, nat)>)
    decreases |s| - from
    ensures r.Some? ==> from <= r.value.0 && CodecMatch(s, lang, r.value.0, r.value.1)
    ensures r.Some? ==> forall k :: r.value.1 < k ==> !CodecMatch(s, lang, r.value.0, k)
    ensures r.Some? ==> forall q, k :: from <= q < r.value.0 ==> !CodecMatch(s, lang, q, k)
    ensures r.None? ==> forall q, k :: from <= q ==> !CodecMatch(s, lang, q, k)
  {
    if from + 6 > |s| then None
    else if StreamAt(s, from) && CodecAfter(s, lang, from).Some? then
      Some((from, CodecAfter(s, lang, from).value))
    else
      FindCodec(s, lang, from + 1)
  }

  /** The longest run of word characters starting at i. */
  function WordRun(s: string, i: nat): (w: string)
    requires i <= |s|
    decreases |s| - i
    ensures i + |w| <= |s| && w == s[i..i + |w|]
    ensures forall j :: 0 <= j < |w| ==> IsWordChar(w[j])
    ensures i + |w| == |s| || !IsWordChar(s[i + |w|])
  {
    if i < |s| && IsWordChar(s[i]) then [s[i]] + WordRun(s, i + 1) else []
  }

  /** The probed codec: the `\w+` group of the codec match, or "aac". */
  function Codec(s: string, lang: string): (c: string)
    ensures |c| > 0 && forall j :: 0 <= j < |c| ==> IsWordChar(c[j])
  {
    match FindCodec(s, lang, 0)
    case None => DefaultCodec
    case Some((_, k)) => WordRun(s, k + |AudioMarker(lang)|)
  }

  /** The leftmost "Stream" with a reachable marker and, on it, the last
      reachable marker decide the codec. */
  lemma CodecOfFirstMatch(s: string, lang: string, q: nat, k: nat)
    requires CodecMatch(s, lang, q, k)
    requires forall k' :: k < k' ==> !CodecMatch(s, lang, q, k')
    requires forall q', k' :: 0 <= q' < q ==> !CodecMatch(s, lang, q', k')
    ensures Codec(s, lang) == WordRun(s, k + |AudioMarker(lang)|)
  {
    assert FindCodec(s, lang, 0) == Some((q, k));
  }

  /** Without any match the codec defaults to "aac". */
  lemma CodecDefault(s: string, lang: string)
    requires forall q, k :: !CodecMatch(s, lang, q, k)
    ensures Codec(s, lang) == DefaultCodec
  {
    assert FindCodec(s, lang, 0).None?;
  }

  /** The codec names a file extension: it never holds a dot. */
  lemma CodecHasNoDot(s: string, lang: string)
    ensures '.' !in Codec(s, lang)
  {
    var c := Codec(s, lang);
    assert forall j :: 0 <= j < |c| ==> c[j] != '.';
  }

  // ---------------------------------------------------------------------------
  // The probe itself
  // ---------------------------------------------------------------------------

  /** Both lookups of one probe, starting from the defaults and accumulating
      the duration field by field. */
  method ProbeOutput(text: string, lang: string) returns (audioLen: nat, audioFormat: string)
    ensures audioLen == DurationSeconds(text) && audioLen <= MaxDuration
    ensures audioFormat == Codec(text, lang)
    ensures (forall p :: 0 <= p ==> !DurationMatch(text, p)) ==> audioLen == 0
    ensures (forall q, k :: !CodecMatch(text, lang, q, k)) ==> audioFormat == DefaultCodec
  {
    audioLen := 0;
    audioFormat := DefaultCodec;
    var d := FindDuration(text, 0);
    if d.Some? {
      var p := d.value;
      audioLen := audioLen + Hours(text, p) * 3600;
      audioLen := audioLen + Minutes(text, p) * 60;
      audioLen := audioLen + Seconds(text, p);
    }
    var f := FindCodec(text, lang, 0);
    if f.Some? {
      audioFormat := WordRun(text, f.value.1 + |AudioMarker(lang)|);
    }
    if forall p :: 0 <= p ==> !DurationMatch(text, p) {
      DurationDefault(text);
    }
    if forall q, k :: !CodecMatch(text, lang, q, k) {
      CodecDefault(text, lang);
    }
  }

  // ---------------------------------------------------------------------------
  // Examples
  // ---------------------------------------------------------------------------

  /** The text of the duration-only example: " Duration: 01:02:03.99". */
  function DurationOnlyText(): string {
    " " + "Duration: " + "01:02:03.99"
  }

  /** A duration line without an audio stream of the language: the duration is
      read (01:02:03.99 gives 3723 seconds, not 3724) and the codec defaults. */
  lemma ExampleDurationOnly()
    ensures DurationSeconds(DurationOnlyText()) == 3723
    ensures Codec(DurationOnlyText(), "jpn") == DefaultCodec
  {
    var s := DurationOnlyText();
    assert |s| == 22;
    assert s[1..11] == "Duration: ";
    assert DurationMatch(s, 1);
    DurationOfFirstMatch(s, 1);
    forall q: nat, k: nat ensures !CodecMatch(s, "jpn", q, k) {
      if 1 <= q && q + 6 <= |s| {
        assert s[q] != 'S';
      }
    }
    CodecDefault(s, "jpn");
  }

  /** The text of the codec-only example: " Stream #0:1(jpn): Audio: opus". */
  function CodecOnlyText(): string {
    " " + "Stream" + " #0:1" + AudioMarker("jpn") + "opus"
  }

  lemma CodecOnlyMatch()
    ensures CodecMatch(CodecOnlyText(), "jpn", 1, 12)
    ensures forall k: nat :: 12 < k ==> !AudioAt(CodecOnlyText(), "jpn", k)
  {
    var m := AudioMarker("jpn");
    var s := CodecOnlyText();
    assert |m| == 14 && m[0] == '(' && |s| == 30;
    assert s[1..7] == "Stream";
    assert s[12..26] == m;
    forall k: nat | 12 < k ensures !AudioAt(s, "jpn", k) {
      if k + 14 < |s| {
        assert s[k] != '(';
      }
    }
  }

  /** An audio stream line without a duration: the codec is read and the
      duration defaults to 0. */
  lemma ExampleCodecOnly()
    ensures Codec(CodecOnlyText(), "jpn") == "opus"
    ensures DurationSeconds(CodecOnlyText()) == 0
  {
    var s := CodecOnlyText();
    CodecOnlyMatch();
    CodecOfFirstMatch(s, "jpn", 1, 12);
    CodecOnlyWord();
    CodecOnlyNoDuration();
  }

  lemma CodecOnlyWord()
    ensures WordRun(CodecOnlyText(), 26) == "opus"
  {
    var s := CodecOnlyText();
    assert s[26..] == "opus";
    assert WordRun(s, 30) == [];
    assert WordRun(s, 29) == "s";
    assert WordRun(s, 28) == "us";
    assert WordRun(s, 27) == "pus";
  }

  lemma CodecOnlyNoDuration()
    ensures DurationSeconds(CodecOnlyText()) == 0
  {
    var s := CodecOnlyText();
    forall p: nat ensures !DurationAt(s, p) {
      if p + DurationTokenLength <= |s| {
        assert s[p] != 'D';
      }
    }
    DurationDefault(s);
  }
}
