/**
 * Clip extractor: the name of the clip file written for one source file and
 * window, `file[:-4] + "_s<start>_e<end>." + codec`. Running the media engine
 * is not modelled; whether it succeeded is decided by the batch loop's oracle.
 */
module Extractor {
  import opened Wrappers
  import opened Text
  import opened Selector

  /** Python's `file[:-4]`: the name without its last four characters
      (the dot and a three-letter extension), empty for shorter names. */
  function Stem(file: string): (stem: string)
    ensures |file| >= 4 ==> |stem| == |file| - 4 && file == stem + file[|file| - 4..]
    ensures |file| < 4 ==> stem == []
  {
    if |file| >= 4 then file[..|file| - 4] else []
  }

  /** `"s{start}_e{end}"`. */
  function ClipRange(w: Window): string {
    "s" + IntToString(w.start) + "_e" + IntToString(w.end)
  }

  /** The clip file name `"{stem}_{range}.{codec}"`. */
  function OutputName(file: string, w: Window, codec: string): (name: string)
    ensures |name| > |Stem(file)| + |codec| + 5
    ensures name[..|Stem(file)|] == Stem(file)
    ensures name[|name| - |codec| - 1..] == "." + codec
  {
    Stem(file) + "_" + ClipRange(w) + "." + codec
  }

  /** What a clip file name records. */
  datatype NameParts = NameParts(stem: string, window: Window, codec: string)

  /** Splits at the last `c`: what precedes it and what follows it. */
  function SplitLast(s: string, c: char): Option<(string, string)> {
    match LastIndexOf(s, c)
    case None => None
    case Some(i) => Some((s[..i], s[i + 1..]))
  }

  lemma SplitLastOf(a: string, c: char, b: string)
    requires c !in b
    ensures SplitLast(a + [c] + b, c) == Some((a, b))
  {
    LastIndexOfSplit(a, c, b);
    assert (a + [c] + b)[..|a|] == a;
    assert (a + [c] + b)[|a| + 1..] == b;
  }

  /** Reads `"<tag><int>"`. */
  function ParseTagged(t: string, tag: char): Option<int> {
    if |t| > 0 && t[0] == tag then ParseInt(t[1..]) else None
  }

  lemma ParseTaggedOf(tag: char, i: int)
    ensures ParseTagged([tag] + IntToString(i), tag) == Some(i)
  {
    assert ([tag] + IntToString(i))[1..] == IntToString(i);
    IntToStringRoundTrip(i);
  }

  /** Reads a clip file name from the right: the codec after the last dot,
      the end offset after the last underscore before it, the start offset
      after the underscore before that. */
  function ParseName(name: string): Option<NameParts> {
    match SplitLast(name, '.')
    case None => None
    case Some((rest, codec)) =>
      match SplitLast(rest, '_')
      case None => None
      case Some((front, endText)) =>
        match SplitLast(front, '_')
        case None => None
        case Some((stem, startText)) =>
          match (ParseTagged(startText, 's'), ParseTagged(endText, 'e'))
          case (Some(start), Some(end)) => Some(NameParts(stem, Window(start, end), codec))
          case _ => None
  }

  /** The name records its stem, window and codec, as long as the codec,
      which becomes the extension, holds no dot. */
  lemma NameRoundTrip(file: string, w: Window, codec: string)
    requires '.' !in codec
    ensures ParseName(OutputName(file, w, codec)) == Some(NameParts(Stem(file), w, codec))
  {
    var a, b := "s" + IntToString(w.start), "e" + IntToString(w.end);
    var stem := Stem(file);
    var front := stem + ['_'] + a;
    var rest := front + ['_'] + b;
    assert OutputName(file, w, codec) == rest + ['.'] + codec;
    SplitLastOf(rest, '.', codec);
    assert '_' !in b;
    SplitLastOf(front, '_', b);
    assert '_' !in a;
    SplitLastOf(stem, '_', a);
    ParseTaggedOf('s', w.start);
    ParseTaggedOf('e', w.end);
  }

  /** Different stems, windows or codecs give different names. */
  lemma OutputNameInjective(f1: string, w1: Window, c1: string, f2: string, w2: Window, c2: string)
    requires '.' !in c1 && '.' !in c2
    requires OutputName(f1, w1, c1) == OutputName(f2, w2, c2)
    ensures Stem(f1) == Stem(f2) && w1 == w2 && c1 == c2
  {
    NameRoundTrip(f1, w1, c1);
    NameRoundTrip(f2, w2, c2);
  }

  /** A negative start is written with its minus sign. */
  lemma ExampleShortFileName()
    ensures OutputName("b.mkv", Window(-30, 30), "aac") == "b_s-30_e30.aac"
  {
    assert NatToString(30) == "30";
    assert IntToString(-30) == "-30";
    assert Stem("b.mkv") == "b";
  }
}
