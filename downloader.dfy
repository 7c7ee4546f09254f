/**
  The yt-dlp wrapper of internal/downloader/youtube.go, after the JSON has been
  decoded: listing the downloadable formats of a video (filter, one format per
  height, fallback pass, ascending order) and the bookkeeping around a download
  (the `-f` selector, the size gate, the widest-format dimensions).
  The yt-dlp process is a parameter: its outcome is given as a `YtdlpRun`, and
  the temporary directory as yt-dlp left it is a map from path to file size.
 */
module Downloader {
  import opened Wrappers
  import opened Bytes

  const MiB: int := 1024 * 1024
  /** Largest file the local Bot API server accepts (2000 MiB); the downloader's default ceiling. */
  const MaxLocalAPIServer: int := 2000 * MiB
  const MinInt64: int := -0x8000_0000_0000_0000
  const MaxInt64: int := 0x7fff_ffff_ffff_ffff

  const QualityLow: Str := [51, 54, 48, 112]            // "360p"
  const QualityMedium: Str := [52, 56, 48, 112]         // "480p"
  const QualityHigh: Str := [55, 50, 48, 112]           // "720p"
  const QualityFull: Str := [49, 48, 56, 48, 112]       // "1080p"

  const Mp4: Str := [109, 112, 52]                      // "mp4"
  const Webm: Str := [119, 101, 98, 109]                // "webm"
  const NoCodec: Str := [110, 111, 110, 101]            // "none"
  const OpenApprox: Str := [32, 40, 126]                // " (~"
  const MBClose: Str := [77, 66, 41]                    // "MB)"
  const KBClose: Str := [75, 66, 41]                    // "KB)"
  const LetterP: byte := 112                            // 'p'

  /** One quality offered to the user. */
  datatype VideoFormat = VideoFormat(
    quality: Str, qualityNum: int, size: int, description: Str, width: int, height: int)

  /** What a successful download hands back to the caller. */
  datatype VideoInfo = VideoInfo(
    filePath: Str, width: int, height: int, duration: int,
    title: Str, description: Str, compressed: bool)

  /** One entry of the `formats` array printed by `yt-dlp -j`. */
  datatype YtdlpFormat = YtdlpFormat(
    formatId: Str, ext: Str, width: int, height: int, filesize: int, filesizeApprox: int,
    vcodec: Str, acodec: Str, formatNote: Str)

  /** The decoded JSON printed by yt-dlp (`duration` already truncated to whole seconds). */
  datatype YtdlpVideoInfo = YtdlpVideoInfo(
    id: Str, title: Str, description: Str, duration: int, formats: seq<YtdlpFormat>)

  /** How a yt-dlp invocation ended: non-zero exit, failure to start, or its stdout (None when it is not valid JSON). */
  datatype YtdlpRun = ExitError(stderr: Str) | StartError | Output(json: Option<YtdlpVideoInfo>)

  datatype Error =
    | ListExitError(stderr: Str)      // "yt-dlp error: ..."
    | ListRunFailed                   // "failed to run yt-dlp: ..."
    | ListParseFailed                 // "failed to parse yt-dlp output: ..."
    | NoSuitableFormats               // "no suitable formats found"
    | DownloadExitError(stderr: Str)  // "yt-dlp download error: ..."
    | DownloadRunFailed               // "failed to download video: ..."
    | FileNotFound                    // "download failed: file not found"
    | StatFailed                      // "failed to stat downloaded file: ..."
    | TooLarge(size: int, max: int)   // "видео слишком большое ..."

  /** The downloader's configuration: the yt-dlp executable and the size ceiling. */
  datatype YouTubeDownloader = YouTubeDownloader(ytdlpPath: Str, maxSize: int)

  /** `NewYouTubeDownloader()`: yt-dlp from PATH, 2000 MiB ceiling. */
  const Default: YouTubeDownloader := YouTubeDownloader([121, 116, 45, 100, 108, 112], MaxLocalAPIServer)

  /** The temporary directory: path to file size. */
  type Disk = map<Str, int>

  // ---------------------------------------------------------------------------
  // Labels, descriptions and parseQualityNum

  /** `fmt.Sprintf("%dp", h)`. */
  function QualityLabel(h: int): Str
  {
    Itoa(h) + [LetterP]
  }

  /** The size suffix of the first pass: whole MiB when at least one, else whole KiB, nothing for unknown size. */
  function SizeDesc(size: int): Str
  {
    if size <= 0 then []
    else if size / MiB > 0 then OpenApprox + Itoa(size / MiB) + MBClose
    else OpenApprox + Itoa(size / 1024) + KBClose
  }

  /** The size suffix of the fallback pass: whole MiB only. */
  function FallbackSizeDesc(size: int): Str
  {
    if size > 0 && size / MiB > 0 then OpenApprox + Itoa(size / MiB) + MBClose else []
  }

  /** Bytes `fmt` scanning skips before a number (ASCII white space except newline). */
  predicate IsScanSpace(b: byte) { b == 32 || (9 <= b <= 13 && b != 10) }

  function SkipSpaces(s: Str, i: nat): (j: nat)
    requires i <= |s|
    ensures i <= j <= |s|
    ensures j < |s| ==> !IsScanSpace(s[j])
    decreases |s| - i
  {
    if i < |s| && IsScanSpace(s[i]) then SkipSpaces(s, i + 1) else i
  }

  /**
    `fmt.Sscanf(quality, "%dp", &num)` with `num` starting at 0: leading white
    space, an optional sign and at least one digit are read into `num` when the
    value fits in 64 bits; the literal `p` after the number is matched only
    after `num` has been stored, so it does not affect the result.
   */
  function ParseQualityNum(quality: Str): int
  {
    var i := SkipSpaces(quality, 0);
    var signed := i < |quality| && (quality[i] == Plus || quality[i] == Minus);
    var start := if signed then i + 1 else i;
    var k := DigitRun(quality, start);
    if k == 0 then 0
    else
      var v: int := DecimalValue(quality[start..start + k]);
      var x := if signed && quality[i] == Minus then -v else v;
      if MinInt64 <= x <= MaxInt64 then x else 0
  }

  lemma {:induction false} DigitRunAfter(pre: Str, d: Str, rest: Str)
    requires forall i | 0 <= i < |d| :: IsDigit(d[i])
    requires rest == [] || !IsDigit(rest[0])
    ensures DigitRun(pre + d + rest, |pre|) == |d|
  {
    var s := pre + d + rest;
    var j := |pre| + |d|;
    assert DigitRun(s, j) == 0;
    while j > |pre|
      invariant |pre| <= j <= |pre| + |d|
      invariant DigitRun(s, j) == |pre| + |d| - j
    {
      j := j - 1;
      assert s[j] == d[j - |pre|];
    }
  }

  /** Every label the lister produces reads back, through parseQualityNum, as its own height. */
  lemma ParseQualityLabel(h: int)
    requires MinInt64 <= h <= MaxInt64
    ensures ParseQualityNum(QualityLabel(h)) == h
  {
    if h < 0 {
      ParseNegativeLabel(h);
    } else {
      ParseNonNegativeLabel(h);
    }
  }

  lemma ParseNonNegativeLabel(h: nat)
    requires h <= MaxInt64
    ensures ParseQualityNum(QualityLabel(h)) == h
  {
    DecimalValueOfDigits(h);
    ParseDigitsThenP([], Digits(h));
    assert QualityLabel(h) == [] + Digits(h) + [LetterP];
  }

  lemma ParseNegativeLabel(h: int)
    requires MinInt64 <= h < 0
    ensures ParseQualityNum(QualityLabel(h)) == h
  {
    DecimalValueOfDigits(-h);
    ParseDigitsThenP([Minus], Digits(-h));
    assert QualityLabel(h) == [Minus] + Digits(-h) + [LetterP];
  }

  /** An optional minus, a digit run and a 'p' read as the signed value of the run, when it fits. */
  lemma ParseDigitsThenP(sign: Str, d: Str)
    requires sign == [] || sign == [Minus]
    requires |d| >= 1 && forall i | 0 <= i < |d| :: IsDigit(d[i])
    requires MinInt64 <= (if sign == [] then DecimalValue(d) as int else -(DecimalValue(d) as int)) <= MaxInt64
    ensures ParseQualityNum(sign + d + [LetterP]) == if sign == [] then DecimalValue(d) as int else -(DecimalValue(d) as int)
  {
    var s := sign + d + [LetterP];
    assert s[0] == if sign == [] then d[0] else Minus;
    assert SkipSpaces(s, 0) == 0;
    DigitRunAfter(sign, d, [LetterP]);
    assert s[|sign|..|sign| + |d|] == d;
  }

  /** Text that does not start with a number reads as 0, as for "invalid" and "". */
  lemma ParseQualityNumRejects(quality: Str)
    requires quality == [] || (quality[0] != Plus && quality[0] != Minus && !IsDigit(quality[0]) && !IsScanSpace(quality[0]))
    ensures ParseQualityNum(quality) == 0
  {
  }

  // ---------------------------------------------------------------------------
  // GetAvailableFormats, stated as two folds over the decoded formats

  function EffectiveSize(f: YtdlpFormat): int
  {
    if f.filesize == 0 then f.filesizeApprox else f.filesize
  }

  predicate HasVideo(f: YtdlpFormat) { f.vcodec != NoCodec && f.vcodec != [] }
  predicate HasAudio(f: YtdlpFormat) { f.acodec != NoCodec && f.acodec != [] }

  /** A format the first pass considers: mp4 with both video and audio, a known height, within the ceiling. */
  predicate IsPrimaryCandidate(f: YtdlpFormat, maxSize: int)
  {
    f.ext == Mp4 && HasVideo(f) && HasAudio(f) && f.height != 0 && EffectiveSize(f) <= maxSize
  }

  /** A format the fallback pass considers: mp4 or webm with video (audio not required). */
  predicate IsFallbackCandidate(f: YtdlpFormat, maxSize: int)
  {
    (f.ext == Mp4 || f.ext == Webm) && HasVideo(f) && f.height != 0 && EffectiveSize(f) <= maxSize
  }

  function PrimaryEntry(f: YtdlpFormat): VideoFormat
  {
    var size := EffectiveSize(f);
    VideoFormat(QualityLabel(f.height), f.height, size, QualityLabel(f.height) + SizeDesc(size), f.width, f.height)
  }

  function FallbackEntry(f: YtdlpFormat): VideoFormat
  {
    var size := EffectiveSize(f);
    VideoFormat(QualityLabel(f.height), f.height, size, QualityLabel(f.height) + FallbackSizeDesc(size), f.width, f.height)
  }

  /** One iteration of the first loop over `qualityMap`. */
  function PrimaryStep(m: map<int, VideoFormat>, f: YtdlpFormat, maxSize: int): map<int, VideoFormat>
  {
    if !IsPrimaryCandidate(f, maxSize) then m
    else if f.height in m then
      if EffectiveSize(f) > 0 && EffectiveSize(f) < m[f.height].size then m[f.height := PrimaryEntry(f)] else m
    else m[f.height := PrimaryEntry(f)]
  }

  /** `qualityMap` after the first loop has seen `fs`. */
  function PrimaryPass(fs: seq<YtdlpFormat>, maxSize: int): map<int, VideoFormat>
  {
    if fs == [] then map[] else PrimaryStep(PrimaryPass(fs[..|fs| - 1], maxSize), fs[|fs| - 1], maxSize)
  }

  /** One iteration of the fallback loop. */
  function FallbackStep(m: map<int, VideoFormat>, f: YtdlpFormat, maxSize: int): map<int, VideoFormat>
  {
    if IsFallbackCandidate(f, maxSize) && f.height !in m then m[f.height := FallbackEntry(f)] else m
  }

  /** `qualityMap` after the fallback loop, started from the empty map, has seen `fs`. */
  function FallbackPass(fs: seq<YtdlpFormat>, maxSize: int): map<int, VideoFormat>
  {
    if fs == [] then map[] else FallbackStep(FallbackPass(fs[..|fs| - 1], maxSize), fs[|fs| - 1], maxSize)
  }

  /** The map the result is read from: the first pass, or the fallback pass when the first produced nothing. */
  function Selected(fs: seq<YtdlpFormat>, maxSize: int): map<int, VideoFormat>
  {
    var m := PrimaryPass(fs, maxSize);
    if |m| == 0 then FallbackPass(fs, maxSize) else m
  }

  predicate StrictlyAscending(s: seq<VideoFormat>)
  {
    forall i, j | 0 <= i < j < |s| :: s[i].qualityNum < s[j].qualityNum
  }

  predicate AscendingByQuality(s: seq<VideoFormat>)
  {
    forall i, j | 0 <= i < j < |s| :: s[i].qualityNum <= s[j].qualityNum
  }

  /** Every entry of a pass is stored under its own height and labelled by it. */
  ghost predicate WellKeyed(m: map<int, VideoFormat>, maxSize: int)
  {
    forall h | h in m ::
      m[h].qualityNum == h && m[h].height == h && h != 0 &&
      m[h].quality == QualityLabel(h) && m[h].size <= maxSize
  }

  /** `v` is the entry the first pass builds from some candidate of `fs` at height `h`. */
  ghost predicate FromPrimary(fs: seq<YtdlpFormat>, maxSize: int, h: int, v: VideoFormat)
  {
    exists i | 0 <= i < |fs| :: IsPrimaryCandidate(fs[i], maxSize) && fs[i].height == h && v == PrimaryEntry(fs[i])
  }

  /** `v` is the entry the fallback pass builds from some candidate of `fs` at height `h`. */
  ghost predicate FromFallback(fs: seq<YtdlpFormat>, maxSize: int, h: int, v: VideoFormat)
  {
    exists i | 0 <= i < |fs| :: IsFallbackCandidate(fs[i], maxSize) && fs[i].height == h && v == FallbackEntry(fs[i])
  }

  lemma {:induction false} PrimaryPassShape(fs: seq<YtdlpFormat>, maxSize: int)
    ensures forall h | h in PrimaryPass(fs, maxSize) :: FromPrimary(fs, maxSize, h, PrimaryPass(fs, maxSize)[h])
    ensures forall i | 0 <= i < |fs| && IsPrimaryCandidate(fs[i], maxSize) :: fs[i].height in PrimaryPass(fs, maxSize)
  {
    if fs != [] {
      var pre := fs[..|fs| - 1];
      var f := fs[|fs| - 1];
      var m := PrimaryPass(pre, maxSize);
      var m' := PrimaryPass(fs, maxSize);
      assert m' == PrimaryStep(m, f, maxSize);
      PrimaryPassShape(pre, maxSize);
      forall h | h in m'
        ensures FromPrimary(fs, maxSize, h, m'[h])
      {
        if h in m && m'[h] == m[h] {
          var i :| 0 <= i < |pre| && IsPrimaryCandidate(pre[i], maxSize) && pre[i].height == h && m[h] == PrimaryEntry(pre[i]);
          assert fs[i] == pre[i];
        } else {
          assert IsPrimaryCandidate(fs[|fs| - 1], maxSize) && f.height == h && m'[h] == PrimaryEntry(f);
        }
      }
      forall i | 0 <= i < |fs| && IsPrimaryCandidate(fs[i], maxSize)
        ensures fs[i].height in m'
      {
        if i < |pre| {
          assert fs[i] == pre[i];
        }
      }
    }
  }

  lemma {:induction false} FallbackPassShape(fs: seq<YtdlpFormat>, maxSize: int)
    ensures forall h | h in FallbackPass(fs, maxSize) :: FromFallback(fs, maxSize, h, FallbackPass(fs, maxSize)[h])
    ensures forall i | 0 <= i < |fs| && IsFallbackCandidate(fs[i], maxSize) :: fs[i].height in FallbackPass(fs, maxSize)
  {
    if fs != [] {
      var pre := fs[..|fs| - 1];
      var f := fs[|fs| - 1];
      var m := FallbackPass(pre, maxSize);
      var m' := FallbackPass(fs, maxSize);
      assert m' == FallbackStep(m, f, maxSize);
      FallbackPassShape(pre, maxSize);
      forall h | h in m'
        ensures FromFallback(fs, maxSize, h, m'[h])
      {
        if h in m {
          var i :| 0 <= i < |pre| && IsFallbackCandidate(pre[i], maxSize) && pre[i].height == h && m[h] == FallbackEntry(pre[i]);
          assert fs[i] == pre[i];
        } else {
          assert IsFallbackCandidate(fs[|fs| - 1], maxSize) && f.height == h && m'[h] == FallbackEntry(f);
        }
      }
      forall i | 0 <= i < |fs| && IsFallbackCandidate(fs[i], maxSize)
        ensures fs[i].height in m'
      {
        if i < |pre| {
          assert fs[i] == pre[i];
        }
      }
    }
  }

  /**
    What the lister keeps: the first pass when some format has mp4 video with
    audio within the ceiling, otherwise the fallback pass; every entry is
    built from a candidate of the pass it came from, under that candidate's
    height, labelled "<height>p", and within the ceiling. It is empty exactly
    when no format qualifies even for the fallback pass.
   */
  lemma SelectedShape(fs: seq<YtdlpFormat>, maxSize: int)
    ensures WellKeyed(Selected(fs, maxSize), maxSize)
    ensures (exists i | 0 <= i < |fs| :: IsPrimaryCandidate(fs[i], maxSize)) ==>
      Selected(fs, maxSize) == PrimaryPass(fs, maxSize)
    ensures (forall i | 0 <= i < |fs| :: !IsPrimaryCandidate(fs[i], maxSize)) ==>
      Selected(fs, maxSize) == FallbackPass(fs, maxSize)
    ensures Selected(fs, maxSize) == map[] <==> forall i | 0 <= i < |fs| :: !IsFallbackCandidate(fs[i], maxSize)
  {
    PrimaryPassShape(fs, maxSize);
    FallbackPassShape(fs, maxSize);
    var p := PrimaryPass(fs, maxSize);
    if exists i | 0 <= i < |fs| :: IsPrimaryCandidate(fs[i], maxSize) {
      var i :| 0 <= i < |fs| && IsPrimaryCandidate(fs[i], maxSize);
      assert fs[i].height in p;
      assert IsFallbackCandidate(fs[i], maxSize);
    } else {
      assert forall h | h in p :: FromPrimary(fs, maxSize, h, p[h]);
      assert p.Keys == {};
    }
  }

  // ---------------------------------------------------------------------------
  // The tie rules, stated without the folds

  /** A first-pass candidate of height `h`. */
  predicate PrimaryAt(f: YtdlpFormat, maxSize: int, h: int)
  {
    IsPrimaryCandidate(f, maxSize) && f.height == h
  }

  /** `fs[j]` is the first first-pass candidate of height `h`. */
  ghost predicate FirstPrimaryAt(fs: seq<YtdlpFormat>, maxSize: int, h: int, j: int)
  {
    0 <= j < |fs| && PrimaryAt(fs[j], maxSize, h) && forall k | 0 <= k < j :: !PrimaryAt(fs[k], maxSize, h)
  }

  /**
    The candidate of height `h` the first pass keeps: when the first candidate
    seen has no positive size it is never replaced; otherwise the kept one has
    the least positive size, and is the earliest of those with that size.
   */
  ghost predicate PrimaryKeeps(fs: seq<YtdlpFormat>, maxSize: int, h: int, i: int)
  {
    0 <= i < |fs| && PrimaryAt(fs[i], maxSize, h) &&
    if exists j :: FirstPrimaryAt(fs, maxSize, h, j) && EffectiveSize(fs[j]) <= 0 then
      FirstPrimaryAt(fs, maxSize, h, i)
    else
      EffectiveSize(fs[i]) > 0 &&
      (forall k | 0 <= k < |fs| && PrimaryAt(fs[k], maxSize, h) && EffectiveSize(fs[k]) > 0 ::
        EffectiveSize(fs[i]) <= EffectiveSize(fs[k])) &&
      (forall k | 0 <= k < i && PrimaryAt(fs[k], maxSize, h) && EffectiveSize(fs[k]) > 0 ::
        EffectiveSize(fs[i]) < EffectiveSize(fs[k]))
  }

  lemma FirstPrimaryUnique(fs: seq<YtdlpFormat>, maxSize: int, h: int, j1: int, j2: int)
    requires FirstPrimaryAt(fs, maxSize, h, j1) && FirstPrimaryAt(fs, maxSize, h, j2)
    ensures j1 == j2
  {
  }

  lemma FirstPrimaryExtend(pre: seq<YtdlpFormat>, f: YtdlpFormat, maxSize: int, h: int, j: int)
    requires 0 <= j < |pre|
    ensures FirstPrimaryAt(pre + [f], maxSize, h, j) <==> FirstPrimaryAt(pre, maxSize, h, j)
  {
    var fs := pre + [f];
    assert forall k | 0 <= k <= j :: fs[k] == pre[k];
  }

  /** A candidate of a height nothing earlier had is kept. */
  lemma PrimaryKeepsNew(pre: seq<YtdlpFormat>, f: YtdlpFormat, maxSize: int)
    requires PrimaryAt(f, maxSize, f.height)
    requires forall k | 0 <= k < |pre| :: !PrimaryAt(pre[k], maxSize, f.height)
    ensures PrimaryKeeps(pre + [f], maxSize, f.height, |pre|)
  {
    var fs := pre + [f];
    var h := f.height;
    assert forall k | 0 <= k < |pre| :: fs[k] == pre[k];
    assert FirstPrimaryAt(fs, maxSize, h, |pre|);
    forall j | FirstPrimaryAt(fs, maxSize, h, j)
      ensures j == |pre|
    {
      FirstPrimaryUnique(fs, maxSize, h, j, |pre|);
    }
  }

  /** A candidate of another height leaves the kept candidate of `h` kept. */
  lemma PrimaryKeepsOther(pre: seq<YtdlpFormat>, f: YtdlpFormat, maxSize: int, h: int, i: int)
    requires PrimaryKeeps(pre, maxSize, h, i)
    requires !PrimaryAt(f, maxSize, h)
    ensures PrimaryKeeps(pre + [f], maxSize, h, i)
  {
    var fs := pre + [f];
    assert forall k | 0 <= k < |pre| :: fs[k] == pre[k];
    forall j | 0 <= j < |pre|
      ensures FirstPrimaryAt(fs, maxSize, h, j) <==> FirstPrimaryAt(pre, maxSize, h, j)
    {
      FirstPrimaryExtend(pre, f, maxSize, h, j);
    }
    assert !FirstPrimaryAt(fs, maxSize, h, |pre|);
  }

  /** A further candidate of `h` replaces the kept one exactly when its size is positive and strictly smaller. */
  lemma PrimaryKeepsSame(pre: seq<YtdlpFormat>, f: YtdlpFormat, maxSize: int, h: int, i: int)
    requires PrimaryKeeps(pre, maxSize, h, i)
    requires PrimaryAt(f, maxSize, h)
    ensures
      var replaced := EffectiveSize(f) > 0 && EffectiveSize(f) < EffectiveSize(pre[i]);
      PrimaryKeeps(pre + [f], maxSize, h, if replaced then |pre| else i)
  {
    var fs := pre + [f];
    assert forall k | 0 <= k < |pre| :: fs[k] == pre[k];
    forall j | 0 <= j < |pre|
      ensures FirstPrimaryAt(fs, maxSize, h, j) <==> FirstPrimaryAt(pre, maxSize, h, j)
    {
      FirstPrimaryExtend(pre, f, maxSize, h, j);
    }
    assert !FirstPrimaryAt(fs, maxSize, h, |pre|) by {
      assert PrimaryAt(fs[i], maxSize, h);
    }
    if exists j :: FirstPrimaryAt(pre, maxSize, h, j) && EffectiveSize(pre[j]) <= 0 {
      var j :| FirstPrimaryAt(pre, maxSize, h, j) && EffectiveSize(pre[j]) <= 0;
      FirstPrimaryUnique(pre, maxSize, h, i, j);
      assert FirstPrimaryAt(fs, maxSize, h, j);
    } else {
      assert !exists j :: FirstPrimaryAt(fs, maxSize, h, j) && EffectiveSize(fs[j]) <= 0;
    }
  }

  /** The first pass keeps, for each height, the candidate `PrimaryKeeps` describes. */
  lemma {:induction false} PrimaryTieRule(fs: seq<YtdlpFormat>, maxSize: int)
    ensures forall h | h in PrimaryPass(fs, maxSize) ::
      exists i :: PrimaryKeeps(fs, maxSize, h, i) && PrimaryPass(fs, maxSize)[h] == PrimaryEntry(fs[i])
  {
    if fs != [] {
      var pre := fs[..|fs| - 1];
      var f := fs[|fs| - 1];
      assert fs == pre + [f];
      assert PrimaryPass(fs, maxSize) == PrimaryStep(PrimaryPass(pre, maxSize), f, maxSize);
      PrimaryTieRule(pre, maxSize);
      forall h | h in PrimaryPass(fs, maxSize)
        ensures exists i :: PrimaryKeeps(fs, maxSize, h, i) && PrimaryPass(fs, maxSize)[h] == PrimaryEntry(fs[i])
      {
        PrimaryTieStep(pre, f, maxSize, h);
      }
    }
  }

  /** One more format keeps the tie rule for height `h`. */
  lemma PrimaryTieStep(pre: seq<YtdlpFormat>, f: YtdlpFormat, maxSize: int, h: int)
    requires forall h' | h' in PrimaryPass(pre, maxSize) ::
      exists i :: PrimaryKeeps(pre, maxSize, h', i) && PrimaryPass(pre, maxSize)[h'] == PrimaryEntry(pre[i])
    requires h in PrimaryStep(PrimaryPass(pre, maxSize), f, maxSize)
    ensures exists i ::
      PrimaryKeeps(pre + [f], maxSize, h, i) && PrimaryStep(PrimaryPass(pre, maxSize), f, maxSize)[h] == PrimaryEntry((pre + [f])[i])
  {
    var fs := pre + [f];
    var m := PrimaryPass(pre, maxSize);
    var m' := PrimaryStep(m, f, maxSize);
    if h in m {
      var i :| PrimaryKeeps(pre, maxSize, h, i) && m[h] == PrimaryEntry(pre[i]);
      assert fs[i] == pre[i];
      if PrimaryAt(f, maxSize, h) {
        PrimaryKeepsSame(pre, f, maxSize, h, i);
        assert fs[|pre|] == f;
      } else {
        PrimaryKeepsOther(pre, f, maxSize, h, i);
      }
    } else {
      PrimaryPassShape(pre, maxSize);
      assert PrimaryAt(f, maxSize, h);
      PrimaryKeepsNew(pre, f, maxSize);
      assert fs[|pre|] == f;
    }
  }

  /** `fs[i]` is the first fallback candidate of height `h`. */
  ghost predicate FirstFallbackAt(fs: seq<YtdlpFormat>, maxSize: int, h: int, i: int)
  {
    0 <= i < |fs| && IsFallbackCandidate(fs[i], maxSize) && fs[i].height == h &&
    forall k | 0 <= k < i :: !(IsFallbackCandidate(fs[k], maxSize) && fs[k].height == h)
  }

  /** In the fallback pass the first candidate seen for each height wins. */
  lemma {:induction false} FallbackFirstWins(fs: seq<YtdlpFormat>, maxSize: int)
    ensures forall h | h in FallbackPass(fs, maxSize) ::
      exists i :: FirstFallbackAt(fs, maxSize, h, i) && FallbackPass(fs, maxSize)[h] == FallbackEntry(fs[i])
  {
    if fs != [] {
      var pre := fs[..|fs| - 1];
      var f := fs[|fs| - 1];
      assert fs == pre + [f];
      var m := FallbackPass(pre, maxSize);
      var m' := FallbackPass(fs, maxSize);
      assert m' == FallbackStep(m, f, maxSize);
      FallbackFirstWins(pre, maxSize);
      FallbackPassShape(pre, maxSize);
      assert forall k | 0 <= k < |pre| :: fs[k] == pre[k];
      forall h | h in m'
        ensures exists i :: FirstFallbackAt(fs, maxSize, h, i) && m'[h] == FallbackEntry(fs[i])
      {
        if h in m {
          var i :| FirstFallbackAt(pre, maxSize, h, i) && m[h] == FallbackEntry(pre[i]);
          assert FirstFallbackAt(fs, maxSize, h, i);
        } else {
          assert FirstFallbackAt(fs, maxSize, h, |pre|);
        }
      }
    }
  }

  // ---------------------------------------------------------------------------
  // GetAvailableFormats

  predicate DistinctQuality(s: seq<VideoFormat>)
  {
    forall i, j | 0 <= i < j < |s| :: s[i].qualityNum != s[j].qualityNum
  }

  /** `s` with the neighbours at `j - 1` and `j` exchanged. */
  function SwapAdjacent(s: seq<VideoFormat>, j: int): seq<VideoFormat>
    requires 0 < j < |s|
  {
    s[j - 1 := s[j]][j := s[j - 1]]
  }

  lemma SwapAdjacentFacts(s: seq<VideoFormat>, j: int)
    requires 0 < j < |s|
    ensures multiset(SwapAdjacent(s, j)) == multiset(s)
    ensures DistinctQuality(s) ==> DistinctQuality(SwapAdjacent(s, j))
  {
    var t := SwapAdjacent(s, j);
    if DistinctQuality(s) {
      forall p, q | 0 <= p < q < |t|
        ensures t[p].qualityNum != t[q].qualityNum
      {
        var p' := if p == j - 1 then j else if p == j then j - 1 else p;
        var q' := if q == j - 1 then j else if q == j then j - 1 else q;
        assert t[p] == s[p'] && t[q] == s[q'];
        if p' < q' {
          assert s[p'].qualityNum != s[q'].qualityNum;
        } else {
          assert s[q'].qualityNum != s[p'].qualityNum;
        }
      }
    }
  }

  /** `s[..i + 1]` is ascending except around position `j`, and `s[j]` is below everything after it. */
  ghost predicate Inserting(s: seq<VideoFormat>, i: int, j: int)
  {
    0 <= j <= i < |s| &&
    (forall p, q | 0 <= p < q <= i && p != j && q != j :: s[p].qualityNum <= s[q].qualityNum) &&
    (forall q | j < q <= i :: s[j].qualityNum < s[q].qualityNum)
  }

  /** Swapping `s[j]` with a larger left neighbour moves the hole one place left. */
  lemma InsertingStep(s: seq<VideoFormat>, i: int, j: int)
    requires Inserting(s, i, j) && 0 < j && s[j - 1].qualityNum > s[j].qualityNum
    ensures Inserting(SwapAdjacent(s, j), i, j - 1)
  {
  }

  /** Once `s[j]` is not below its left neighbour, `s[..i + 1]` is ascending. */
  lemma InsertingDone(s: seq<VideoFormat>, i: int, j: int)
    requires Inserting(s, i, j) && (j == 0 || s[j - 1].qualityNum <= s[j].qualityNum)
    ensures forall p, q | 0 <= p < q <= i :: s[p].qualityNum <= s[q].qualityNum
  {
    forall p, q | 0 <= p < q <= i
      ensures s[p].qualityNum <= s[q].qualityNum
    {
      if q == j && p < j - 1 {
        assert s[p].qualityNum <= s[j - 1].qualityNum;
      }
    }
  }

  /** One round of insertion: moves `a[i]` left past every larger neighbour. */
  method InsertAt(a: array<VideoFormat>, i: int)
    requires 0 <= i < a.Length
    requires forall p, q | 0 <= p < q < i :: a[p].qualityNum <= a[q].qualityNum
    modifies a
    ensures forall p, q | 0 <= p < q <= i :: a[p].qualityNum <= a[q].qualityNum
    ensures multiset(a[..]) == multiset(old(a[..]))
    ensures DistinctQuality(old(a[..])) ==> DistinctQuality(a[..])
  {
    var j := i;
    while j > 0 && a[j - 1].qualityNum > a[j].qualityNum
      invariant Inserting(a[..], i, j)
      invariant multiset(a[..]) == multiset(old(a[..]))
      invariant DistinctQuality(old(a[..])) ==> DistinctQuality(a[..])
    {
      ghost var s := a[..];
      a[j - 1], a[j] := a[j], a[j - 1];
      assert a[..] == SwapAdjacent(s, j);
      SwapAdjacentFacts(s, j);
      InsertingStep(s, i, j);
      j := j - 1;
    }
    InsertingDone(a[..], i, j);
  }

  /** `sort.Slice(result, less by QualityNum)`, as an insertion sort. */
  method SortByQuality(a: array<VideoFormat>)
    modifies a
    ensures AscendingByQuality(a[..])
    ensures multiset(a[..]) == multiset(old(a[..]))
    ensures DistinctQuality(old(a[..])) ==> DistinctQuality(a[..])
  {
    for i := 0 to a.Length
      invariant forall p, q | 0 <= p < q < i :: a[p].qualityNum <= a[q].qualityNum
      invariant multiset(a[..]) == multiset(old(a[..]))
      invariant DistinctQuality(old(a[..])) ==> DistinctQuality(a[..])
    {
      InsertAt(a, i);
    }
  }

  lemma NonEmptyKeys(keys: set<int>)
    ensures keys == {} || exists h :: h in keys
  {
    if !exists h :: h in keys {
      assert keys == {};
    }
  }

  /** The values of a well-keyed map, one per key, in no particular order (Go's map iteration). */
  method MapValues(m: map<int, VideoFormat>, ghost maxSize: int) returns (result: seq<VideoFormat>)
    requires WellKeyed(m, maxSize)
    ensures |result| == |m|
    ensures DistinctQuality(result)
    ensures forall h | h in m :: m[h] in result
    ensures forall v | v in result :: v.qualityNum in m && m[v.qualityNum] == v
  {
    var keys := m.Keys;
    result := [];
    while keys != {}
      invariant keys <= m.Keys
      invariant |result| + |keys| == |m|
      invariant forall j | 0 <= j < |result| ::
        result[j].qualityNum in m && result[j].qualityNum !in keys && result[j] == m[result[j].qualityNum]
      invariant forall h | h in m && h !in keys :: m[h] in result
      invariant DistinctQuality(result)
      decreases |keys|
    {
      NonEmptyKeys(keys);
      var h :| h in keys;
      ghost var before := result;
      result := result + [m[h]];
      keys := keys - {h};
      assert forall j | 0 <= j < |before| :: result[j] == before[j];
      assert result[|before|] == m[h] && m[h].qualityNum == h;
    }
  }

  /**
    `GetAvailableFormats` from the decoded yt-dlp output: the entries of the
    selected pass, strictly ascending by height, or "no suitable formats found"
    when nothing qualifies.
   */
  method GetAvailableFormats(d: YouTubeDownloader, probe: YtdlpRun) returns (r: Result<seq<VideoFormat>, Error>)
    ensures probe.ExitError? ==> r == Failure(ListExitError(probe.stderr))
    ensures probe.StartError? ==> r == Failure(ListRunFailed)
    ensures probe == Output(None) ==> r == Failure(ListParseFailed)
    ensures probe.Output? && probe.json.Some? ==>
      var m := Selected(probe.json.value.formats, d.maxSize);
      (r.Failure? <==> m == map[]) &&
      (r.Failure? ==> r.error == NoSuitableFormats) &&
      (r.Success? ==>
        StrictlyAscending(r.value) && |r.value| == |m| &&
        (forall h | h in m :: m[h] in r.value) &&
        (forall v | v in r.value :: v.qualityNum in m && m[v.qualityNum] == v))
  {
    match probe
    case ExitError(stderr) =>
      return Failure(ListExitError(stderr));
    case StartError =>
      return Failure(ListRunFailed);
    case Output(None) =>
      return Failure(ListParseFailed);
    case Output(Some(info)) =>
      var qualityMap := FirstPassLoop(info.formats, d.maxSize);
      if |qualityMap| == 0 {
        qualityMap := FallbackPassLoop(info.formats, d.maxSize);
      }
      assert qualityMap == Selected(info.formats, d.maxSize);
      if |qualityMap| == 0 {
        assert qualityMap.Keys == {};
        return Failure(NoSuitableFormats);
      }
      SelectedShape(info.formats, d.maxSize);
      var sorted := SortedValues(qualityMap, d.maxSize);
      return Success(sorted);
  }

  /** The first loop of `GetAvailableFormats`, filling `qualityMap` in place. */
  method FirstPassLoop(formats: seq<YtdlpFormat>, maxSize: int) returns (qualityMap: map<int, VideoFormat>)
    ensures qualityMap == PrimaryPass(formats, maxSize)
  {
    qualityMap := map[];
    for i := 0 to |formats|
      invariant qualityMap == PrimaryPass(formats[..i], maxSize)
    {
      assert formats[..i + 1][..i] == formats[..i];
      var f := formats[i];
      if f.ext != Mp4 || f.vcodec == NoCodec || f.vcodec == [] || f.acodec == NoCodec || f.acodec == [] || f.height == 0 {
        continue;
      }
      var filesize := f.filesize;
      if filesize == 0 {
        filesize := f.filesizeApprox;
      }
      if filesize > maxSize {
        continue;
      }
      var entry := VideoFormat(QualityLabel(f.height), f.height, filesize,
        QualityLabel(f.height) + SizeDesc(filesize), f.width, f.height);
      if f.height in qualityMap {
        if filesize > 0 && filesize < qualityMap[f.height].size {
          qualityMap := qualityMap[f.height := entry];
        }
      } else {
        qualityMap := qualityMap[f.height := entry];
      }
    }
    assert formats[..|formats|] == formats;
  }

  /** The fallback loop of `GetAvailableFormats`, run on the empty `qualityMap`. */
  method FallbackPassLoop(formats: seq<YtdlpFormat>, maxSize: int) returns (qualityMap: map<int, VideoFormat>)
    ensures qualityMap == FallbackPass(formats, maxSize)
  {
    qualityMap := map[];
    for i := 0 to |formats|
      invariant qualityMap == FallbackPass(formats[..i], maxSize)
    {
      assert formats[..i + 1][..i] == formats[..i];
      var f := formats[i];
      if (f.ext != Mp4 && f.ext != Webm) || f.vcodec == NoCodec || f.vcodec == [] || f.height == 0 {
        continue;
      }
      var filesize := f.filesize;
      if filesize == 0 {
        filesize := f.filesizeApprox;
      }
      if filesize > maxSize {
        continue;
      }
      if f.height !in qualityMap {
        qualityMap := qualityMap[f.height := VideoFormat(QualityLabel(f.height), f.height, filesize,
          QualityLabel(f.height) + FallbackSizeDesc(filesize), f.width, f.height)];
      }
    }
    assert formats[..|formats|] == formats;
  }

  /** The map's values collected into a slice and sorted by `QualityNum`. */
  method SortedValues(m: map<int, VideoFormat>, ghost maxSize: int) returns (sorted: seq<VideoFormat>)
    requires WellKeyed(m, maxSize)
    ensures StrictlyAscending(sorted) && |sorted| == |m|
    ensures forall h | h in m :: m[h] in sorted
    ensures forall v | v in sorted :: v.qualityNum in m && m[v.qualityNum] == v
  {
    var result := MapValues(m, maxSize);
    var a := new VideoFormat[|result|](i requires 0 <= i < |result| => result[i]);
    assert a[..] == result;
    SortByQuality(a);
    sorted := a[..];
    assert forall v :: v in sorted <==> v in multiset(sorted);
  }

  // ---------------------------------------------------------------------------
  // DownloadWithQualityInfo

  const NoPlaylist: Str := [45, 45, 110, 111, 45, 112, 108, 97, 121, 108, 105, 115, 116]   // "--no-playlist"
  const DashO: Str := [45, 111]                                                            // "-o"
  const DashF: Str := [45, 102]                                                            // "-f"
  const PrintJson: Str := [45, 45, 112, 114, 105, 110, 116, 45, 106, 115, 111, 110]        // "--print-json"
  /** "https://www.youtube.com/watch?v=" */
  const WatchPrefix: Str := [104, 116, 116, 112, 115, 58, 47, 47, 119, 119, 119, 46, 121, 111, 117, 116,
    117, 98, 101, 46, 99, 111, 109, 47, 119, 97, 116, 99, 104, 63, 118, 61]
  const Slash: byte := 47
  const TempPrefix: Str := [121, 116, 45]                                                  // "yt-"
  const Mp4Suffix: Str := [46, 109, 112, 52]                                               // ".mp4"

  /** "best[height<=" */
  const BestHead: Str := [98, 101, 115, 116, 91, 104, 101, 105, 103, 104, 116, 60, 61]
  /** "][ext=mp4][acodec!=none][vcodec!=none]/best[height<=" */
  const BestMiddle: Str := [93, 91, 101, 120, 116, 61, 109, 112, 52, 93, 91, 97, 99, 111, 100, 101, 99, 33,
    61, 110, 111, 110, 101, 93, 91, 118, 99, 111, 100, 101, 99, 33, 61, 110, 111, 110, 101, 93, 47, 98, 101,
    115, 116, 91, 104, 101, 105, 103, 104, 116, 60, 61]
  /** "][acodec!=none][vcodec!=none]/best[ext=mp4][acodec!=none][vcodec!=none]" */
  const BestTail: Str := [93, 91, 97, 99, 111, 100, 101, 99, 33, 61, 110, 111, 110, 101, 93, 91, 118, 99,
    111, 100, 101, 99, 33, 61, 110, 111, 110, 101, 93, 47, 98, 101, 115, 116, 91, 101, 120, 116, 61, 109,
    112, 52, 93, 91, 97, 99, 111, 100, 101, 99, 33, 61, 110, 111, 110, 101, 93, 91, 118, 99, 111, 100, 101,
    99, 33, 61, 110, 111, 110, 101, 93]
  /** "worst[ext=mp4][acodec!=none][vcodec!=none]/worst[acodec!=none][vcodec!=none]" */
  const WorstSpec: Str := [119, 111, 114, 115, 116, 91, 101, 120, 116, 61, 109, 112, 52, 93, 91, 97, 99, 111,
    100, 101, 99, 33, 61, 110, 111, 110, 101, 93, 91, 118, 99, 111, 100, 101, 99, 33, 61, 110, 111, 110, 101,
    93, 47, 119, 111, 114, 115, 116, 91, 97, 99, 111, 100, 101, 99, 33, 61, 110, 111, 110, 101, 93, 91, 118,
    99, 111, 100, 101, 99, 33, 61, 110, 111, 110, 101, 93]

  /** The combined-stream selector capped at height `h`, with two looser alternatives. */
  function BestSpec(h: int): Str
  {
    BestHead + Itoa(h) + BestMiddle + Itoa(h) + BestTail
  }

  /** The `-f` arguments for a requested quality: none when it names no positive height. */
  function FormatSelector(quality: Str): seq<Str>
  {
    if quality == [] then [DashF, WorstSpec]
    else if ParseQualityNum(quality) > 0 then [DashF, BestSpec(ParseQualityNum(quality))]
    else []
  }

  function OutputPath(tmpDir: Str, videoID: Str): Str
  {
    tmpDir + [Slash] + TempPrefix + videoID + Mp4Suffix
  }

  /** A label the lister produced asks yt-dlp for the best combined stream at most that tall. */
  lemma LabelSelectsItsHeight(h: int)
    requires 0 < h <= MaxInt64
    ensures FormatSelector(QualityLabel(h)) == [DashF, BestSpec(h)]
  {
    ParseQualityLabel(h);
  }

  /** The yt-dlp argument list, built by appending as the source does. */
  method BuildArgs(outputPath: Str, quality: Str, url: Str) returns (args: seq<Str>)
    ensures args == [NoPlaylist, DashO, outputPath] + FormatSelector(quality) + [PrintJson, url]
    ensures quality == [] ==> args[3..5] == [DashF, WorstSpec]
    ensures |args| == 5 <==> (quality != [] && ParseQualityNum(quality) <= 0)
  {
    args := [NoPlaylist, DashO, outputPath];
    if quality != [] {
      var height := ParseQualityNum(quality);
      if height > 0 {
        args := args + [DashF, BestSpec(height)];
      }
    } else {
      args := args + [DashF, WorstSpec];
    }
    args := args + [PrintJson, url];
  }

  /** The (width, height) the dimension loop holds after seeing `formats`, starting from (0, 0). */
  function Widest(formats: seq<YtdlpFormat>): (int, int)
  {
    if formats == [] then (0, 0)
    else
      var (w, h) := Widest(formats[..|formats| - 1]);
      var f := formats[|formats| - 1];
      if f.width > w then (f.width, f.height) else (w, h)
  }

  /**
    The reported dimensions: the largest width of any format (0 when none is
    positive) and the height of the first format having it.
   */
  method WidestDimensions(formats: seq<YtdlpFormat>) returns (width: int, height: int)
    ensures (width, height) == Widest(formats)
    ensures width >= 0
    ensures forall i | 0 <= i < |formats| :: formats[i].width <= width
    ensures width == 0 ==> height == 0
    ensures width > 0 ==> exists i | 0 <= i < |formats| ::
      formats[i].width == width && formats[i].height == height &&
      forall k | 0 <= k < i :: formats[k].width < width
  {
    width, height := 0, 0;
    for i := 0 to |formats|
      invariant (width, height) == Widest(formats[..i])
      invariant width >= 0
      invariant forall k | 0 <= k < i :: formats[k].width <= width
      invariant width == 0 ==> height == 0
      invariant width > 0 ==> exists j | 0 <= j < i ::
        formats[j].width == width && formats[j].height == height &&
        forall k | 0 <= k < j :: formats[k].width < width
    {
      assert formats[..i + 1][..i] == formats[..i];
      if formats[i].width > width {
        width := formats[i].width;
        height := formats[i].height;
      }
    }
    assert formats[..|formats|] == formats;
  }

  /** A JSON document with every field at its zero value. */
  const EmptyInfo: YtdlpVideoInfo := YtdlpVideoInfo([], [], [], 0, [])

  /**
    `DownloadWithQualityInfo`: `run` is how yt-dlp ended and `disk` the
    temporary directory as it left it; `disk'` is the directory afterwards.
    The output file is removed when yt-dlp failed and when it is over the
    ceiling; a success leaves it in place, within the ceiling, uncompressed.
   */
  method DownloadWithQualityInfo(d: YouTubeDownloader, videoID: Str, quality: Str, tmpDir: Str,
                                 run: YtdlpRun, disk: Disk)
    returns (r: Result<VideoInfo, Error>, args: seq<Str>, disk': Disk)
    ensures args == [NoPlaylist, DashO, OutputPath(tmpDir, videoID)] + FormatSelector(quality) +
                    [PrintJson, WatchPrefix + videoID]
    ensures run.ExitError? ==> r == Failure(DownloadExitError(run.stderr))
    ensures run.StartError? ==> r == Failure(DownloadRunFailed)
    ensures run == Output(None) && OutputPath(tmpDir, videoID) !in disk ==> r == Failure(FileNotFound)
    ensures run.Output? && run.json.Some? && OutputPath(tmpDir, videoID) !in disk ==> r == Failure(StatFailed)
    ensures run.Output? && OutputPath(tmpDir, videoID) in disk && disk[OutputPath(tmpDir, videoID)] > d.maxSize ==>
      r == Failure(TooLarge(disk[OutputPath(tmpDir, videoID)], d.maxSize))
    ensures r.Success? <==>
      run.Output? && OutputPath(tmpDir, videoID) in disk && disk[OutputPath(tmpDir, videoID)] <= d.maxSize
    ensures r.Failure? ==> OutputPath(tmpDir, videoID) !in disk' && disk' == disk - {OutputPath(tmpDir, videoID)}
    ensures r.Success? ==> disk' == disk
    ensures r.Success? ==>
      var info := if run.json.Some? then run.json.value else EmptyInfo;
      r.value.filePath == OutputPath(tmpDir, videoID) && !r.value.compressed &&
      disk'[r.value.filePath] <= d.maxSize &&
      r.value.title == info.title && r.value.description == info.description &&
      r.value.duration == info.duration &&
      (r.value.width, r.value.height) == Widest(info.formats) &&
      forall i | 0 <= i < |info.formats| :: info.formats[i].width <= r.value.width
  {
    var url := WatchPrefix + videoID;
    var outputPath := OutputPath(tmpDir, videoID);
    args := BuildArgs(outputPath, quality, url);
    disk' := disk;
    match run
    case ExitError(stderr) =>
      disk' := disk - {outputPath};
      return Failure(DownloadExitError(stderr)), args, disk';
    case StartError =>
      disk' := disk - {outputPath};
      return Failure(DownloadRunFailed), args, disk';
    case Output(json) =>
      var info := if json.Some? then json.value else EmptyInfo;
      if json.None? && outputPath !in disk {
        return Failure(FileNotFound), args, disk';
      }
      if outputPath !in disk {
        return Failure(StatFailed), args, disk';
      }
      var size := disk[outputPath];
      if size > d.maxSize {
        disk' := disk - {outputPath};
        return Failure(TooLarge(size, d.maxSize)), args, disk';
      }
      var width, height := WidestDimensions(info.formats);
      r := Success(VideoInfo(outputPath, width, height, info.duration, info.title, info.description, false));
  }
}
