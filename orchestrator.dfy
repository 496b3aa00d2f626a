/**
 * Batch orchestrator: keeps the directory entries with a known media
 * extension, then probes, picks a window for and extracts a clip from each of
 * them in order.
 *
 * The directory listing is an input. The media engine is an oracle: for the
 * i-th valid file `texts[i]` is what its probe printed and `extracted[i]`
 * whether its extraction exited with status 0. The random generator is the
 * stream `draws`, one value per `randrange` call.
 */
module Orchestrator {
  import opened Wrappers
  import opened Text
  import opened Prober
  import opened Selector
  import opened Extractor

  /** The extensions a file must end with to be processed. */
  const PriorFormats: seq<string> := ["mp4", "mkv", "mp3", "aac"]

  // ---------------------------------------------------------------------------
  // Extension filter
  // ---------------------------------------------------------------------------

  /** Python's `file[-3:]`: the last three characters, or the whole name. */
  function LastThree(file: string): (t: string)
    ensures |file| >= 3 ==> |t| == 3 && file == file[..|file| - 3] + t
    ensures |file| < 3 ==> t == file
  {
    if |file| >= 3 then file[|file| - 3..] else file
  }

  /** `file[-3:] in prior_format`. */
  predicate IsMediaFile(file: string) {
    LastThree(file) in PriorFormats
  }

  /** A name is kept exactly when it is at least three characters long and
      its last three are one of the four extensions. */
  lemma MediaFileIff(file: string)
    ensures IsMediaFile(file) <==>
      |file| >= 3 && (file[|file| - 3..] == "mp4" || file[|file| - 3..] == "mkv" ||
                      file[|file| - 3..] == "mp3" || file[|file| - 3..] == "aac")
  {
    if |file| < 3 {
      assert forall f :: f in PriorFormats ==> |f| == 3;
    }
  }

  /** The entries of `listing` that are kept, in listing order. */
  function ValidFiles(listing: seq<string>): (valid: seq<string>)
    ensures |valid| <= |listing|
    ensures forall j :: 0 <= j < |valid| ==> IsMediaFile(valid[j]) && valid[j] in listing
  {
    if listing == [] then []
    else
      var init := listing[..|listing| - 1];
      var last := listing[|listing| - 1];
      assert forall f :: f in init ==> f in listing;
      ValidFiles(init) + (if IsMediaFile(last) then [last] else [])
  }

  /** Every kept entry is valid and every valid entry is kept. */
  lemma {:induction false} ValidFilesMembership(listing: seq<string>, f: string)
    ensures f in ValidFiles(listing) <==> f in listing && IsMediaFile(f)
  {
    if listing != [] {
      var init := listing[..|listing| - 1];
      assert listing == init + [listing[|listing| - 1]];
      ValidFilesMembership(init, f);
    }
  }

  /** Filtering a concatenation filters each part: the order is preserved. */
  lemma {:induction false} ValidFilesAppend(a: seq<string>, b: seq<string>)
    ensures ValidFiles(a + b) == ValidFiles(a) + ValidFiles(b)
  {
    if b == [] {
      assert a + b == a;
    } else {
      var init := b[..|b| - 1];
      assert (a + b)[..|a + b| - 1] == a + init;
      ValidFilesAppend(a, init);
    }
  }

  /** Filtering a second time changes nothing. */
  lemma {:induction false} ValidFilesIdempotent(listing: seq<string>)
    ensures ValidFiles(ValidFiles(listing)) == ValidFiles(listing)
  {
    if listing != [] {
      var init := listing[..|listing| - 1];
      var last := listing[|listing| - 1];
      var tail := if IsMediaFile(last) then [last] else [];
      ValidFilesAppend(ValidFiles(init), tail);
      ValidFilesIdempotent(init);
    }
  }

  /** Builds the list of valid files by appending, as the script does. */
  method FilterValid(listing: seq<string>) returns (valid: seq<string>)
    ensures valid == ValidFiles(listing)
    ensures forall f :: f in valid <==> f in listing && IsMediaFile(f)
  {
    valid := [];
    for i := 0 to |listing|
      invariant valid == ValidFiles(listing[..i])
    {
      assert listing[..i + 1][..i] == listing[..i];
      if IsMediaFile(listing[i]) {
        valid := valid + [listing[i]];
      }
    }
    assert listing[..|listing|] == listing;
    forall f ensures f in valid <==> f in listing && IsMediaFile(f) {
      ValidFilesMembership(listing, f);
    }
  }

  // ---------------------------------------------------------------------------
  // Per-file pipeline
  // ---------------------------------------------------------------------------

  /** The run configuration: `-t` minutes, `-l` language tag, start mode. */
  datatype Config = Config(clipLenMins: int, lang: string, mode: Mode)

  /** What became of one valid file. */
  datatype ClipResult =
    | Produced(file: string, window: Window, name: string)
    | Failed(file: string, window: Window)

  /** The random draw for a file with this probe output is one that
      `randrange` can return. */
  predicate DrawFits(cfg: Config, text: string, draw: int) {
    cfg.mode.Random? && DurationSeconds(text) > 0 ==> DrawInRange(DurationSeconds(text), draw)
  }

  /** `randrange(0)` raises for this file: random mode and no duration. */
  predicate Aborts(cfg: Config, text: string) {
    cfg.mode.Random? && DurationSeconds(text) == 0
  }

  /** Probe, window selection and extraction of one file; None when the
      random draw raises. */
  function ProcessFile(cfg: Config, file: string, text: string, draw: int, extracted: bool): (r: Option<ClipResult>)
    requires DrawFits(cfg, text, draw)
    ensures r.None? <==> Aborts(cfg, text)
    ensures r.Some? ==> r.value.file == file
    ensures r.Some? ==> (r.value.Produced? <==> extracted)
    ensures r.Some? ==>
      (Some(r.value.window) == SelectWindow(DurationSeconds(text), ClipLengthSeconds(cfg.clipLenMins), cfg.mode, draw))
    ensures r.Some? && r.value.Produced? ==>
      r.value.name == OutputName(file, r.value.window, Codec(text, cfg.lang))
  {
    var audioLen := DurationSeconds(text);
    var codec := Codec(text, cfg.lang);
    match SelectWindow(audioLen, ClipLengthSeconds(cfg.clipLenMins), cfg.mode, draw)
    case None => None
    case Some(w) =>
      Some(if extracted then Produced(file, w, OutputName(file, w, codec)) else Failed(file, w))
  }

  /** The start the script computes for a file that does not abort. */
  function StartOf(cfg: Config, text: string, draw: int): int {
    match cfg.mode
    case Fixed(mins) => mins * 60
    case Random => Min(draw, DurationSeconds(text) - ClipLengthSeconds(cfg.clipLenMins))
  }

  /** The result of a file that does not abort, spelled out. */
  lemma ProcessFileResult(cfg: Config, file: string, text: string, draw: int, extracted: bool)
    requires DrawFits(cfg, text, draw) && !Aborts(cfg, text)
    ensures var start := StartOf(cfg, text, draw);
      var w := Window(start, start + ClipLengthSeconds(cfg.clipLenMins));
      ProcessFile(cfg, file, text, draw, extracted) ==
        Some(if extracted then Produced(file, w, OutputName(file, w, Codec(text, cfg.lang))) else Failed(file, w))
  {
  }

  /** In fixed mode the draw plays no part. */
  lemma ProcessFileDrawIgnored(cfg: Config, file: string, text: string, draw: int, extracted: bool)
    requires cfg.mode.Fixed?
    ensures ProcessFile(cfg, file, text, draw, extracted) == ProcessFile(cfg, file, text, 0, extracted)
  {
  }

  // ---------------------------------------------------------------------------
  // Batch loop
  // ---------------------------------------------------------------------------

  /** The oracles cover every valid file and the draws are in range. */
  predicate Oracles(cfg: Config, files: seq<string>, texts: seq<string>, draws: seq<int>, extracted: seq<bool>) {
    && |texts| == |files| && |extracted| == |files| && |draws| >= |files|
    && forall i :: 0 <= i < |files| ==> DrawFits(cfg, texts[i], draws[i])
  }

  /** The per-file results and whether the run was aborted by an exception. */
  datatype Outcome = Outcome(results: seq<ClipResult>, aborted: bool)

  /** The outcome of the loop over the first n valid files. */
  function Batch(cfg: Config, files: seq<string>, texts: seq<string>, draws: seq<int>, extracted: seq<bool>, n: nat): (o: Outcome)
    requires Oracles(cfg, files, texts, draws, extracted) && n <= |files|
    ensures |o.results| <= n
    ensures !o.aborted ==> |o.results| == n
    ensures o.aborted ==> |o.results| < n && Aborts(cfg, texts[|o.results|])
  {
    if n == 0 then Outcome([], false)
    else
      var prev := Batch(cfg, files, texts, draws, extracted, n - 1);
      if prev.aborted then prev
      else
        match ProcessFile(cfg, files[n - 1], texts[n - 1], draws[n - 1], extracted[n - 1])
        case None => Outcome(prev.results, true)
        case Some(r) => Outcome(prev.results + [r], false)
  }

  /** The loop visits the valid files once each, in order: the i-th result is
      the i-th file's, computed from the i-th probe output, draw and
      extraction outcome. */
  lemma {:induction false} BatchInOrder(cfg: Config, files: seq<string>, texts: seq<string>, draws: seq<int>, extracted: seq<bool>, n: nat)
    requires Oracles(cfg, files, texts, draws, extracted) && n <= |files|
    ensures var o := Batch(cfg, files, texts, draws, extracted, n);
      forall i :: 0 <= i < |o.results| ==>
        ProcessFile(cfg, files[i], texts[i], draws[i], extracted[i]) == Some(o.results[i])
  {
    if n > 0 {
      BatchInOrder(cfg, files, texts, draws, extracted, n - 1);
    }
  }

  /** Once aborted, the outcome stays what it was: later files are never reached. */
  lemma {:induction false} BatchAbortStable(cfg: Config, files: seq<string>, texts: seq<string>, draws: seq<int>, extracted: seq<bool>, n: nat, m: nat)
    requires Oracles(cfg, files, texts, draws, extracted) && n <= m <= |files|
    requires Batch(cfg, files, texts, draws, extracted, n).aborted
    ensures Batch(cfg, files, texts, draws, extracted, m) == Batch(cfg, files, texts, draws, extracted, n)
  {
    if m > n {
      BatchAbortStable(cfg, files, texts, draws, extracted, n, m - 1);
    }
  }

  /** A run aborts exactly when some file yields no duration in random mode,
      and then it stops at the first such file. */
  lemma BatchAbortsIff(cfg: Config, files: seq<string>, texts: seq<string>, draws: seq<int>, extracted: seq<bool>)
    requires Oracles(cfg, files, texts, draws, extracted)
    ensures var o := Batch(cfg, files, texts, draws, extracted, |files|);
      (o.aborted <==> exists i :: 0 <= i < |files| && Aborts(cfg, texts[i])) &&
      (forall i :: 0 <= i < |o.results| ==> !Aborts(cfg, texts[i]))
  {
    var o := Batch(cfg, files, texts, draws, extracted, |files|);
    BatchInOrder(cfg, files, texts, draws, extracted, |files|);
    forall i | 0 <= i < |o.results| ensures !Aborts(cfg, texts[i]) {
      assert ProcessFile(cfg, files[i], texts[i], draws[i], extracted[i]).Some?;
    }
  }

  /** Extraction failures never stop the loop: with any other extraction
      outcomes the same files are reached, with the same windows. */
  lemma {:induction false} ExtractionFailureIsolated(cfg: Config, files: seq<string>, texts: seq<string>, draws: seq<int>, ok1: seq<bool>, ok2: seq<bool>, n: nat)
    requires Oracles(cfg, files, texts, draws, ok1) && Oracles(cfg, files, texts, draws, ok2) && n <= |files|
    ensures var o1, o2 := Batch(cfg, files, texts, draws, ok1, n), Batch(cfg, files, texts, draws, ok2, n);
      o1.aborted == o2.aborted && |o1.results| == |o2.results| &&
      forall i :: 0 <= i < |o1.results| ==>
        o1.results[i].file == o2.results[i].file && o1.results[i].window == o2.results[i].window
  {
    if n > 0 {
      ExtractionFailureIsolated(cfg, files, texts, draws, ok1, ok2, n - 1);
    }
  }

  /** The names of the produced clips, in result order. */
  function ProducedNames(results: seq<ClipResult>): (names: seq<string>)
    ensures |names| <= |results|
  {
    if results == [] then []
    else
      var last := results[|results| - 1];
      ProducedNames(results[..|results| - 1]) + (if last.Produced? then [last.name] else [])
  }

  /** The produced names of a concatenation: the order of results is kept. */
  lemma {:induction false} ProducedNamesAppend(a: seq<ClipResult>, b: seq<ClipResult>)
    ensures ProducedNames(a + b) == ProducedNames(a) + ProducedNames(b)
  {
    if b == [] {
      assert a + b == a;
    } else {
      var init := b[..|b| - 1];
      assert (a + b)[..|a + b| - 1] == a + init;
      ProducedNamesAppend(a, init);
    }
  }

  lemma ProducedNamesSnoc(results: seq<ClipResult>, r: ClipResult)
    ensures ProducedNames(results + [r]) == ProducedNames(results) + (if r.Produced? then [r.name] else [])
  {
    assert (results + [r])[..|results|] == results;
  }

  /** One more file: the outcome grows by that file's result, or aborts. */
  lemma BatchStep(cfg: Config, files: seq<string>, texts: seq<string>, draws: seq<int>, extracted: seq<bool>, i: nat)
    requires Oracles(cfg, files, texts, draws, extracted) && i < |files|
    requires !Batch(cfg, files, texts, draws, extracted, i).aborted
    ensures var prev := Batch(cfg, files, texts, draws, extracted, i);
      Batch(cfg, files, texts, draws, extracted, i + 1) ==
        match ProcessFile(cfg, files[i], texts[i], draws[i], extracted[i])
        case None => Outcome(prev.results, true)
        case Some(r) => Outcome(prev.results + [r], false)
  {
  }

  /** What the loop body computed for file i extends the outcome of the
      first i files to that of the first i + 1. */
  lemma BatchAdvance(cfg: Config, files: seq<string>, texts: seq<string>, draws: seq<int>, extracted: seq<bool>,
                     i: nat, results: seq<ClipResult>, res: Option<ClipResult>)
    requires Oracles(cfg, files, texts, draws, extracted) && i < |files|
    requires Batch(cfg, files, texts, draws, extracted, i) == Outcome(results, false)
    requires cfg.mode.Random? ==> res == ProcessFile(cfg, files[i], texts[i], draws[i], extracted[i])
    requires cfg.mode.Fixed? ==> res == ProcessFile(cfg, files[i], texts[i], 0, extracted[i])
    ensures res.None? ==> Batch(cfg, files, texts, draws, extracted, i + 1) == Outcome(results, true)
    ensures res.Some? ==> Batch(cfg, files, texts, draws, extracted, i + 1) == Outcome(results + [res.value], false)
  {
    BatchStep(cfg, files, texts, draws, extracted, i);
    if cfg.mode.Fixed? {
      ProcessFileDrawIgnored(cfg, files[i], texts[i], draws[i], extracted[i]);
    }
  }

  /** A name is listed exactly when some result produced it. */
  lemma {:induction false} ProducedNamesMembership(results: seq<ClipResult>, x: string)
    ensures x in ProducedNames(results) <==>
      exists i :: 0 <= i < |results| && results[i].Produced? && results[i].name == x
  {
    if results != [] {
      var init := results[..|results| - 1];
      ProducedNamesMembership(init, x);
      if x in ProducedNames(init) {
        var i :| 0 <= i < |init| && init[i].Produced? && init[i].name == x;
        assert results[i] == init[i];
      }
      if exists i :: 0 <= i < |results| && results[i].Produced? && results[i].name == x {
        var i :| 0 <= i < |results| && results[i].Produced? && results[i].name == x;
        if i < |init| {
          assert init[i] == results[i];
        }
      }
    }
  }

  /** Every produced clip name can be read back into the file's stem, the
      window and the probed codec. */
  lemma ProducedNameRecordsWindow(cfg: Config, files: seq<string>, texts: seq<string>, draws: seq<int>, extracted: seq<bool>, i: nat)
    requires Oracles(cfg, files, texts, draws, extracted)
    requires i < |Batch(cfg, files, texts, draws, extracted, |files|).results|
    ensures var r := Batch(cfg, files, texts, draws, extracted, |files|).results[i];
      r.Produced? <==> extracted[i]
    ensures var r := Batch(cfg, files, texts, draws, extracted, |files|).results[i];
      r.Produced? ==> ParseName(r.name) == Some(NameParts(Stem(files[i]), r.window, Codec(texts[i], cfg.lang)))
  {
    var r := Batch(cfg, files, texts, draws, extracted, |files|).results[i];
    BatchInOrder(cfg, files, texts, draws, extracted, |files|);
    assert ProcessFile(cfg, files[i], texts[i], draws[i], extracted[i]) == Some(r);
    CodecHasNoDot(texts[i], cfg.lang);
    NameRoundTrip(files[i], r.window, Codec(texts[i], cfg.lang));
  }

  /** The body of the script's loop for one file: probe it, choose the start
      (reading the next draw only in random mode, after `randrange` has
      checked the duration), name the clip and extract it. `None` when
      `randrange(0)` raises. */
  method ClipFile(cfg: Config, file: string, text: string, draws: seq<int>, next: nat, extracted: bool)
    returns (res: Option<ClipResult>, nextAfter: nat)
    requires cfg.mode.Random? ==> next < |draws| && DrawFits(cfg, text, draws[next])
    ensures nextAfter == if cfg.mode.Random? && res.Some? then next + 1 else next
    ensures cfg.mode.Random? ==> res == ProcessFile(cfg, file, text, draws[next], extracted)
    ensures cfg.mode.Fixed? ==> res == ProcessFile(cfg, file, text, 0, extracted)
  {
    nextAfter := next;
    var clipLenSec := ClipLengthSeconds(cfg.clipLenMins);
    var clipStartMins := if cfg.mode.Fixed? then cfg.mode.startMins else 0;
    var audioLen, audioFormat := ProbeOutput(text, cfg.lang);
    var clipStartSec := clipStartMins * 60;
    ghost var draw := 0;
    if cfg.mode.Random? {
      draw := draws[next];
      if audioLen == 0 {
        assert Aborts(cfg, text);
        return None, nextAfter;
      }
      var r := draws[nextAfter];
      nextAfter := nextAfter + 1;
      clipStartSec := Min(r, audioLen - clipLenSec);
    }
    assert clipStartSec == StartOf(cfg, text, draw);
    var w := Window(clipStartSec, clipStartSec + clipLenSec);
    var name := OutputName(file, w, audioFormat);
    res := Some(if extracted then Produced(file, w, name) else Failed(file, w));
    ProcessFileResult(cfg, file, text, draw, extracted);
  }

  /** The loop of the script over the valid files: a failed extraction only
      marks that file, a `randrange(0)` aborts the whole run. */
  method RunBatch(cfg: Config, files: seq<string>, texts: seq<string>, draws: seq<int>, extracted: seq<bool>)
    returns (results: seq<ClipResult>, outputs: seq<string>, aborted: bool, drawsUsed: nat)
    requires Oracles(cfg, files, texts, draws, extracted)
    ensures Outcome(results, aborted) == Batch(cfg, files, texts, draws, extracted, |files|)
    ensures outputs == ProducedNames(results)
    ensures drawsUsed == if cfg.mode.Random? then |results| else 0
  {
    results, outputs, aborted, drawsUsed := [], [], false, 0;
    var i := 0;
    while i < |files| && !aborted
      invariant 0 <= i <= |files|
      invariant !aborted ==> Outcome(results, false) == Batch(cfg, files, texts, draws, extracted, i)
      invariant aborted ==> i < |files| && Outcome(results, true) == Batch(cfg, files, texts, draws, extracted, i + 1)
      invariant outputs == ProducedNames(results)
      invariant drawsUsed == if cfg.mode.Random? then |results| else 0
      invariant !aborted ==> |results| == i
      decreases |files| - i, !aborted
    {
      var res;
      res, drawsUsed := ClipFile(cfg, files[i], texts[i], draws, drawsUsed, extracted[i]);
      BatchAdvance(cfg, files, texts, draws, extracted, i, results, res);
      match res
      case None =>
        aborted := true;
      case Some(r) =>
        ProducedNamesSnoc(results, r);
        results := results + [r];
        if r.Produced? {
          outputs := outputs + [r.name];
        }
        i := i + 1;
    }
    if aborted {
      BatchAbortStable(cfg, files, texts, draws, extracted, i + 1, |files|);
    }
  }

  /** A batch of a 600-second file and a
      30-second file, one-minute clips, random starts. The first window lies
      inside its file; the second starts 30 seconds before the file does. */
  lemma ExampleMixedDurations(texts: seq<string>, draws: seq<int>)
    requires |texts| == 2 && |draws| == 2
    requires DurationSeconds(texts[0]) == 600 && DurationSeconds(texts[1]) == 30
    requires DrawInRange(600, draws[0]) && DrawInRange(30, draws[1])
    ensures var cfg := Config(1, "jpn", Random);
      Oracles(cfg, ["a.mp4", "b.mkv"], texts, draws, [true, true])
    ensures var o := Batch(Config(1, "jpn", Random), ["a.mp4", "b.mkv"], texts, draws, [true, true], 2);
      !o.aborted && |o.results| == 2 &&
      0 <= o.results[0].window.start && o.results[0].window.end <= 600 &&
      o.results[1].window == Window(-30, 30)
  {
    var cfg := Config(1, "jpn", Random);
    var files := ["a.mp4", "b.mkv"];
    assert Oracles(cfg, files, texts, draws, [true, true]);
    var o := Batch(cfg, files, texts, draws, [true, true], 2);
    BatchInOrder(cfg, files, texts, draws, [true, true], 2);
    assert ProcessFile(cfg, files[0], texts[0], draws[0], true) == Some(o.results[0]);
    assert ProcessFile(cfg, files[1], texts[1], draws[1], true) == Some(o.results[1]);
  }
}
