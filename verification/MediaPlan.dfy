/** Measuring a source against a target, and choosing what to do with it. */
module MediaPlan {
  import opened Bytes
  import opened Text
  import opened MediaName

  const MAX_SOURCE_BYTES := 8 * 1024 * 1024 * 1024
  const U32_MAX := 0xFFFF_FFFF

  const IMAGE_CONTAINERS: set<string> :=
    {"image2", "png_pipe", "jpeg_pipe", "webp_pipe", "bmp_pipe", "tiff_pipe", "gif", "apng"}

  /** Fine as it is, fixed without asking, decided by a default that a flag changes, or unusable. */
  datatype Severity = Fine | Auto | Decide | Fatal

  datatype Finding = Finding(code: string, severity: Severity)

  datatype Requirements = Requirements(reEncode: bool, remux: bool, tonemap: bool)

  /** One stream as ffprobe describes it, its numbers already read. */
  datatype Stream = Stream(
    isVideo: bool, isAudio: bool, isAttachedPicture: bool,
    codec: string, profile: Option<string>, level: Option<nat>,
    width: nat, height: nat, pixFmt: Option<string>,
    frameRate: Option<real>, averageRate: Option<real>, frames: Option<nat>, duration: Option<real>,
    hasBFrames: bool, sampleAspect: Option<real>, rotation: nat, isHdr: bool)

  datatype Probe = Probe(container: string, duration: Option<real>, streams: seq<Stream>)

  datatype Format = Mp4 | RawH264 | MxhdBlob

  datatype Target = Target(width: nat, height: nat, fps: nat, format: Format)

  const LEGACY_PANORAMA := Target(1920, 960, 30, Mp4)

  datatype Trim = Trim(start: real, end: Option<real>)

  datatype Options = Options(
    transformExplicit: bool, transformIsDefault: bool, tonemap: bool, name: Option<string>, trim: Option<Trim>)

  /** The measured facts a plan needs. */
  datatype Source = Source(
    width: nat, height: nat, displayWidth: nat, displayHeight: nat, rotation: nat,
    duration: Option<real>, size: nat, hasAudio: bool, container: string)

  datatype Report = Report(
    target: Target, kind: Option<Kind>, source: Source, findings: seq<Finding>, requirements: Requirements, name: string)

  datatype Action = Passthrough | Remux | Encode

  datatype Plan = Plan(action: Action, kind: Kind, name: string, duration: Option<real>)

  // ----- Reading the probe.

  function VideoOf(streams: seq<Stream>): Option<Stream> {
    if streams == [] then None
    else if streams[0].isVideo && !streams[0].isAttachedPicture then Some(streams[0])
    else VideoOf(streams[1..])
  }

  predicate HasAudio(streams: seq<Stream>) {
    exists i :: 0 <= i < |streams| && streams[i].isAudio
  }

  predicate IsContainer(container: string, name: string) {
    name in SplitAll(container, ",")
  }

  function Classify(probe: Probe): Option<Kind> {
    var video := VideoOf(probe.streams);
    if video.None? then None
    else if !(exists name :: name in IMAGE_CONTAINERS && IsContainer(probe.container, name)) then Some(Video)
    else
      var v := video.value;
      var animated :=
        || (v.frames.Some? && v.frames.value > 1)
        || (v.codec in {"gif", "apng", "webp"} && probe.duration.Some? && probe.duration.value > 0.15);
      Some(if animated then AnimatedImage else Image)
  }

  /** Rounding half away from zero, then clamping to 32 bits. */
  function RoundU32(x: real): nat
    requires x >= 0.0
  {
    var n := (x + 0.5).Floor;
    if n > U32_MAX then U32_MAX else n
  }

  function Measure(probe: Probe, video: Stream, size: nat): Source {
    var turned := video.rotation in {90, 270};
    var width, height := if turned then video.height else video.width, if turned then video.width else video.height;
    var aspect := if video.sampleAspect.Some? then video.sampleAspect.value else 1.0;
    var displayed := width as real * aspect;
    Source(
      video.width, video.height, if displayed >= 0.0 then RoundU32(displayed) else 0, height, video.rotation,
      if probe.duration.Some? then probe.duration else video.duration, size, HasAudio(probe.streams), probe.container)
  }

  // ----- What the target asks for.

  function Abs(x: real): real { if x < 0.0 then -x else x }

  predicate VideoCodecMeets(video: Stream) {
    && video.codec == "h264"
    && video.profile in {Some("Baseline"), Some("Constrained Baseline"), Some("Main"), Some("High")}
    && (video.level.Some? ==> video.level.value <= 41)
  }

  predicate StillCodec(video: Stream) {
    video.codec == "png" || video.codec == "mjpeg"
  }

  function PixFmt(video: Stream): string {
    if video.pixFmt.Some? then video.pixFmt.value else "unknown"
  }

  predicate HasAlpha(pixFmt: string) {
    ('a' in pixFmt && pixFmt != "yuv420p" && !("gray" <= pixFmt)) || pixFmt == "pal8"
  }

  predicate PixelsMeet(video: Stream) {
    !HasAlpha(PixFmt(video)) && (StillCodec(video) || PixFmt(video) == "yuv420p") && !video.isHdr
  }

  predicate HasSize(source: Source) {
    source.displayWidth > 0 && source.displayHeight > 0
  }

  predicate StoredUpright(source: Source) {
    source.rotation == 0 && source.displayWidth == source.width
  }

  predicate GeometryMeets(source: Source, target: Target) {
    StoredUpright(source) && source.displayWidth == target.width && source.displayHeight == target.height
  }

  predicate FrameRateMeets(video: Stream, target: Target) {
    && video.frameRate.Some?
    && Abs(video.frameRate.value - target.fps as real) < 0.05
    && (video.averageRate.Some? ==> Abs(video.averageRate.value - video.frameRate.value) <= 0.5)
  }

  /** The video stream meets the target in every checked respect. */
  predicate StreamMeets(video: Stream, source: Source, target: Target) {
    && VideoCodecMeets(video) && PixelsMeet(video) && GeometryMeets(source, target)
    && FrameRateMeets(video, target) && !video.hasBFrames
  }

  predicate WrapperMeets(source: Source) {
    IsContainer(source.container, "mp4") && !source.hasAudio
  }

  predicate StillMeets(video: Stream, source: Source, target: Target) {
    StillCodec(video) && PixelsMeet(video) && GeometryMeets(source, target)
  }

  predicate TransformRequested(options: Options) {
    options.transformExplicit || !options.transformIsDefault
  }

  predicate TrimOutside(trim: Trim, source: Source) {
    source.duration.Some?
    && (trim.start >= source.duration.value || (trim.end.Some? && trim.end.value > source.duration.value + 0.5))
  }

  // ----- The checks, each adding findings and requirements to a draft.

  datatype Draft = Draft(findings: seq<Finding>, requirements: Requirements)
  {
    function Note(code: string, severity: Severity): Draft {
      this.(findings := findings + [Finding(code, severity)])
    }

    function ReEncode(): Draft {
      this.(requirements := requirements.(reEncode := true))
    }

    function RemuxOnly(): Draft {
      this.(requirements := requirements.(remux := true))
    }

    predicate HasFatal() {
      exists i :: 0 <= i < |findings| && findings[i].severity == Fatal
    }

    predicate Quiet() {
      forall i :: 0 <= i < |findings| ==> findings[i].severity == Fine
    }

    /** What is for the user to decide. */
    ghost function Asks(): set<string> {
      set i | 0 <= i < |findings| && findings[i].severity == Decide :: findings[i].code
    }
  }

  /**
   * A check raised the re-encode and remux flags under exactly these conditions and found something
   * fatal under exactly that one; and, unless `silent`, all it found is fine exactly when it did neither.
   */
  ghost predicate Checked(before: Draft, after: Draft, reEncode: bool, remux: bool, fatal: bool, silent: bool) {
    && after.requirements.reEncode == (before.requirements.reEncode || reEncode)
    && after.requirements.remux == (before.requirements.remux || remux)
    && (after.HasFatal() <==> before.HasFatal() || fatal)
    && (silent || (after.Quiet() <==> before.Quiet() && !reEncode && !remux && !fatal))
  }

  lemma NoteChecks(before: Draft, code: string, severity: Severity)
    ensures Checked(before, before.Note(code, severity), false, false, severity == Fatal, true)
    ensures before.Note(code, severity).Quiet() <==> before.Quiet() && severity == Fine
    ensures before.Note(code, severity).Asks() == before.Asks() + if severity == Decide then {code} else {}
  {
    NoteAsks(before, code, severity);
    var after := before.Note(code, severity);
    assert after.findings[|before.findings|].severity == severity;
    assert forall i :: 0 <= i < |before.findings| ==> after.findings[i] == before.findings[i];
    if before.HasFatal() {
      var i :| 0 <= i < |before.findings| && before.findings[i].severity == Fatal;
      assert after.findings[i].severity == Fatal;
    }
  }

  lemma SameFindings(d: Draft, requirements: Requirements)
    ensures var changed := d.(requirements := requirements);
      changed.Asks() == d.Asks() && changed.HasFatal() == d.HasFatal() && changed.Quiet() == d.Quiet()
  {
    assert d.(requirements := requirements).findings == d.findings;
  }

  lemma NoteAsks(before: Draft, code: string, severity: Severity)
    ensures before.Note(code, severity).Asks() == before.Asks() + if severity == Decide then {code} else {}
  {
    var after := before.Note(code, severity);
    assert after.findings[|before.findings|] == Finding(code, severity);
    assert forall i :: 0 <= i < |before.findings| ==> after.findings[i] == before.findings[i];
    forall asked | asked in before.Asks() ensures asked in after.Asks() {
      var i :| 0 <= i < |before.findings| && before.findings[i].severity == Decide && before.findings[i].code == asked;
      assert after.findings[i].code == asked;
    }
  }

  /** A raised flag with its finding. */
  method Raise(before: Draft, code: string, severity: Severity) returns (d: Draft)
    requires severity != Fine && severity != Fatal
    ensures Checked(before, d, true, false, false, false) && d.requirements.tonemap == before.requirements.tonemap
    ensures d.Asks() == before.Asks() + if severity == Decide then {code} else {}
  {
    NoteChecks(before.ReEncode(), code, severity);
    d := before.ReEncode().Note(code, severity);
  }

  method Pass(before: Draft, code: string) returns (d: Draft)
    ensures Checked(before, d, false, false, false, false) && d.requirements == before.requirements
    ensures d.Asks() == before.Asks()
  {
    NoteChecks(before, code, Fine);
    d := before.Note(code, Fine);
  }

  method Refuse(before: Draft, code: string) returns (d: Draft)
    ensures Checked(before, d, false, false, true, false) && d.requirements == before.requirements
    ensures d.Asks() == before.Asks()
  {
    NoteChecks(before, code, Fatal);
    d := before.Note(code, Fatal);
  }

  /** Flattening a transparent picture and mapping HDR down are the user's decisions. */
  function PixelQuestions(video: Stream, tonemap: bool): set<string> {
    (if HasAlpha(PixFmt(video)) then {"TRYX-M-ALPHA"} else {}) + if video.isHdr && tonemap then {"TRYX-M-HDR"} else {}
  }

  /** Transparency, pixel format and dynamic range. */
  method CheckPixels(before: Draft, video: Stream, tonemap: bool) returns (d: Draft)
    ensures Checked(before, d, !PixelsMeet(video), false, video.isHdr && !tonemap, false)
    ensures d.requirements.tonemap == (before.requirements.tonemap || (video.isHdr && tonemap))
    ensures d.Asks() == before.Asks() + PixelQuestions(video, tonemap)
  {
    hide HasAlpha, Draft.Asks, Draft.HasFatal, Draft.Quiet;
    var pixFmt := PixFmt(video);
    if HasAlpha(pixFmt) {
      d := Raise(before, "TRYX-M-ALPHA", Decide);
    } else if video.codec == "png" || video.codec == "mjpeg" {
      d := Pass(before, "TRYX-M-PIXFMT");
    } else if pixFmt == "yuv420p" {
      d := Pass(before, "TRYX-M-PIXFMT");
    } else {
      d := Raise(before, "TRYX-M-PIXFMT", Auto);
    }
    if video.isHdr {
      if tonemap {
        d := Raise(d, "TRYX-M-HDR", Decide);
        SameFindings(d, d.requirements.(tonemap := true));
        d := d.(requirements := d.requirements.(tonemap := true));
      } else {
        SameFindings(d, d.ReEncode().requirements);
        d := Refuse(d.ReEncode(), "TRYX-M-HDR");
      }
    }
  }

  /** How far an aspect ratio may be off and still count as the target's: one part in a hundred. */
  predicate AspectMatches(source: Source, target: Target)
    requires HasSize(source) && target.width > 0 && target.height > 0
  {
    var aspect := source.displayWidth as real / source.displayHeight as real;
    var wanted := target.width as real / target.height as real;
    Abs((aspect - wanted) / wanted) <= 0.01
  }

  /** Whether the geometry check asks for a re-encode; without a size it stops early. */
  predicate GeometryReEncodes(source: Source, target: Target) {
    !StoredUpright(source)
    || (HasSize(source) && (source.displayWidth != target.width || source.displayHeight != target.height))
  }

  /** So is cutting or padding a picture of another shape, unless the user said how. */
  function ShapeQuestions(source: Source, target: Target, options: Options): set<string>
    requires target.width > 0 && target.height > 0
  {
    if HasSize(source) && !options.transformExplicit && !AspectMatches(source, target)
       && !(source.displayWidth == target.width && source.displayHeight == target.height)
    then {"TRYX-M-ASPECT"} else {}
  }

  /** Rotation, pixel shape and resolution; an aspect the user chose is not a decision. */
  method CheckGeometry(before: Draft, source: Source, target: Target, options: Options) returns (d: Draft)
    requires target.width > 0 && target.height > 0
    ensures Checked(before, d, GeometryReEncodes(source, target), false, !HasSize(source), options.transformExplicit)
    ensures d.requirements.tonemap == before.requirements.tonemap
    ensures d.Asks() == before.Asks() + ShapeQuestions(source, target, options)
  {
    hide AspectMatches, Draft.Asks, Draft.HasFatal, Draft.Quiet;
    d := before;
    if source.rotation != 0 {
      d := Raise(d, "TRYX-M-ROTATION", Auto);
    }
    if source.displayWidth != source.width && source.rotation == 0 {
      d := Raise(d, "TRYX-M-SAR", Auto);
    }
    if source.displayWidth == 0 || source.displayHeight == 0 {
      d := Refuse(d, "TRYX-M-GEOMETRY");
      return;
    }
    if source.displayWidth == target.width && source.displayHeight == target.height {
      d := Pass(d, "TRYX-M-RESOLUTION");
    } else if AspectMatches(source, target) {
      d := Raise(d, "TRYX-M-RESOLUTION", Auto);
    } else if options.transformExplicit {
      SameFindings(d, d.ReEncode().requirements);
      d := Pass(d.ReEncode(), "TRYX-M-ASPECT");
    } else {
      d := Raise(d, "TRYX-M-ASPECT", Decide);
    }
  }

  function Questions(video: Stream, source: Source, target: Target, options: Options): set<string>
    requires target.width > 0 && target.height > 0
  {
    PixelQuestions(video, options.tonemap) + ShapeQuestions(source, target, options)
  }

  /** What is asked of a video's picture and a still's alike. */
  method CheckPicture(before: Draft, video: Stream, source: Source, target: Target, options: Options) returns (d: Draft)
    requires target.width > 0 && target.height > 0
    ensures Checked(before, d,
      !PixelsMeet(video) || GeometryReEncodes(source, target), false,
      (video.isHdr && !options.tonemap) || !HasSize(source), options.transformExplicit)
    ensures d.requirements.tonemap == (before.requirements.tonemap || (video.isHdr && options.tonemap))
    ensures d.Asks() == before.Asks() + Questions(video, source, target, options)
  {
    hide PixelsMeet, GeometryReEncodes, PixelQuestions, ShapeQuestions, Draft.Asks, Draft.HasFatal, Draft.Quiet;
    d := CheckPixels(before, video, options.tonemap);
    d := CheckGeometry(d, source, target, options);
  }

  method CheckFrameRate(before: Draft, video: Stream, target: Target) returns (d: Draft)
    ensures Checked(before, d, !FrameRateMeets(video, target), false, false, false)
    ensures d.requirements.tonemap == before.requirements.tonemap && d.Asks() == before.Asks()
  {
    if video.frameRate.Some? && Abs(video.frameRate.value - target.fps as real) < 0.05 {
      if video.averageRate.Some? && Abs(video.averageRate.value - video.frameRate.value) > 0.5 {
        d := Raise(before, "TRYX-M-FPS", Auto);
      } else {
        d := Pass(before, "TRYX-M-FPS");
      }
    } else {
      d := Raise(before, "TRYX-M-FPS", Auto);
    }
  }

  method CheckWrapper(before: Draft, source: Source) returns (d: Draft)
    ensures Checked(before, d, false, !WrapperMeets(source), false, false)
    ensures d.requirements.tonemap == before.requirements.tonemap && d.Asks() == before.Asks()
  {
    hide IsContainer;
    if IsContainer(source.container, "mp4") {
      d := Pass(before, "TRYX-M-CONTAINER");
    } else {
      NoteChecks(before.RemuxOnly(), "TRYX-M-CONTAINER", Auto);
      d := before.RemuxOnly().Note("TRYX-M-CONTAINER", Auto);
    }
    if source.hasAudio {
      NoteChecks(d.RemuxOnly(), "TRYX-M-AUDIO", Auto);
      d := d.RemuxOnly().Note("TRYX-M-AUDIO", Auto);
    }
  }

  /** The checks of a video stream; only an MP4 target looks at the container and the audio. */
  method CheckVideo(before: Draft, video: Stream, source: Source, target: Target, options: Options) returns (d: Draft)
    requires target.width > 0 && target.height > 0
    ensures Checked(before, d,
      !VideoCodecMeets(video) || !PixelsMeet(video) || GeometryReEncodes(source, target)
        || !FrameRateMeets(video, target) || video.hasBFrames,
      target.format.Mp4? && !WrapperMeets(source),
      (video.isHdr && !options.tonemap) || !HasSize(source),
      options.transformExplicit)
    ensures d.requirements.tonemap == (before.requirements.tonemap || (video.isHdr && options.tonemap))
    ensures d.Asks() == before.Asks() + Questions(video, source, target, options)
  {
    hide VideoCodecMeets, PixelsMeet, GeometryReEncodes, FrameRateMeets, WrapperMeets, Questions, Draft.Asks,
      Draft.HasFatal, Draft.Quiet;
    if VideoCodecMeets(video) {
      d := Pass(before, "TRYX-M-CODEC");
    } else {
      d := Raise(before, "TRYX-M-CODEC", Auto);
    }
    d := CheckPicture(d, video, source, target, options);
    d := CheckFrameRate(d, video, target);
    if video.hasBFrames {
      d := Raise(d, "TRYX-M-BFRAMES", Auto);
    }
    if target.format.Mp4? {
      d := CheckWrapper(d, source);
    }
  }

  method CheckImage(before: Draft, video: Stream, source: Source, target: Target, options: Options) returns (d: Draft)
    requires target.width > 0 && target.height > 0
    ensures Checked(before, d,
      !StillCodec(video) || !PixelsMeet(video) || GeometryReEncodes(source, target), false,
      (video.isHdr && !options.tonemap) || !HasSize(source), options.transformExplicit)
    ensures d.requirements.tonemap == (before.requirements.tonemap || (video.isHdr && options.tonemap))
    ensures d.Asks() == before.Asks() + Questions(video, source, target, options)
  {
    hide PixelsMeet, GeometryReEncodes, Questions, Draft.Asks, Draft.HasFatal, Draft.Quiet;
    if StillCodec(video) {
      d := Pass(before, "TRYX-M-CODEC");
    } else {
      d := Raise(before, "TRYX-M-CODEC", Auto);
    }
    d := CheckPicture(d, video, source, target, options);
  }

  predicate TrimApplies(trim: Trim, kind: Kind, source: Source) {
    kind != Image && !TrimOutside(trim, source)
  }

  /** A trim re-encodes the part kept, and applies to videos only. */
  method CheckTrim(before: Draft, kind: Kind, source: Source, trim: Trim) returns (d: Draft)
    ensures var applies := TrimApplies(trim, kind, source);
      && d.requirements.reEncode == (before.requirements.reEncode || applies)
      && d.requirements.remux == (before.requirements.remux && !applies)
      && (d.HasFatal() <==> before.HasFatal() || !applies)
      && !d.Quiet()
    ensures d.requirements.tonemap == before.requirements.tonemap && d.Asks() == before.Asks()
  {
    if kind == Image || TrimOutside(trim, source) {
      d := Refuse(before, "TRYX-M-TRIM");
    } else {
      var raised := before.(requirements := before.requirements.(reEncode := true, remux := false));
      NoteChecks(raised, "TRYX-M-TRIM", Auto);
      d := raised.Note("TRYX-M-TRIM", Auto);
    }
  }

  // ----- The whole check, and the report it leaves.

  predicate SizeUsable(size: nat) {
    0 < size <= MAX_SOURCE_BYTES
  }

  /** What the checks of the video stream itself ask a re-encode for. */
  predicate ContentReEncodes(video: Stream, kind: Kind, source: Source, target: Target) {
    || !PixelsMeet(video) || GeometryReEncodes(source, target)
    || (if kind == Image then !StillCodec(video)
        else !VideoCodecMeets(video) || !FrameRateMeets(video, target) || video.hasBFrames)
  }

  predicate ContentRemuxes(kind: Kind, source: Source, target: Target) {
    kind != Image && target.format.Mp4? && !WrapperMeets(source)
  }

  predicate Unusable(size: nat, video: Stream, kind: Kind, source: Source, options: Options) {
    || !SizeUsable(size) || !HasSize(source) || (video.isHdr && !options.tonemap)
    || (options.trim.Some? && !TrimApplies(options.trim.value, kind, source))
  }

  predicate Trims(options: Options, kind: Kind, source: Source) {
    options.trim.Some? && TrimApplies(options.trim.value, kind, source)
  }

  function Noted(report: Report): Draft {
    Draft(report.findings, report.requirements)
  }

  /** Nothing was asked for beyond the file itself. */
  predicate AsItIs(options: Options) {
    !TransformRequested(options) && options.trim.None?
  }

  /** Which flags and findings the checks of this video stream leave. */
  ghost predicate IsDraftOf(
      d: Draft, video: Stream, kind: Kind, size: nat, source: Source, target: Target, options: Options, renamed: bool)
  {
    && d.requirements.reEncode ==
      (TransformRequested(options) || ContentReEncodes(video, kind, source, target) || Trims(options, kind, source)
        || !target.format.Mp4?)
    && d.requirements.remux == (ContentRemuxes(kind, source, target) && !Trims(options, kind, source))
    && d.requirements.tonemap == (video.isHdr && options.tonemap)
    && (d.HasFatal() <==> Unusable(size, video, kind, source, options))
    && (AsItIs(options) ==>
      (d.Quiet() <==>
        && !d.requirements.reEncode && !d.requirements.remux
        && !Unusable(size, video, kind, source, options) && !renamed))
  }

  ghost predicate IsReportOf(report: Report, video: Stream, size: nat, target: Target, options: Options, renamed: bool) {
    && report.target == target && report.kind.Some?
    && IsDraftOf(Noted(report), video, report.kind.value, size, report.source, target, options, renamed)
  }

  method CheckContent(before: Draft, video: Stream, kind: Kind, source: Source, target: Target, options: Options)
    returns (d: Draft)
    requires target.width > 0 && target.height > 0
    ensures Checked(before, d, ContentReEncodes(video, kind, source, target), ContentRemuxes(kind, source, target),
      (video.isHdr && !options.tonemap) || !HasSize(source), options.transformExplicit)
    ensures d.requirements.tonemap == (before.requirements.tonemap || (video.isHdr && options.tonemap))
    ensures d.Asks() == before.Asks() + Questions(video, source, target, options)
  {
    hide PixelsMeet, GeometryReEncodes, StillCodec, VideoCodecMeets, FrameRateMeets, WrapperMeets, HasSize;
    if kind == Image {
      d := CheckImage(before, video, source, target, options);
    } else {
      d := CheckVideo(before, video, source, target, options);
    }
  }

  method CheckSize(size: nat) returns (d: Draft)
    ensures Checked(Draft([], Requirements(false, false, false)), d, false, false, !SizeUsable(size), false)
    ensures d.requirements == Requirements(false, false, false) && d.Asks() == {}
  {
    d := Draft([], Requirements(false, false, false));
    if size == 0 {
      d := Refuse(d, "TRYX-M-EMPTY");
    } else if size > MAX_SOURCE_BYTES {
      d := Refuse(d, "TRYX-M-SIZE");
    }
  }

  /** A display that plays raw streams makes everything be encoded. */
  method CheckFormat(before: Draft, target: Target) returns (d: Draft)
    ensures d.requirements.reEncode == (before.requirements.reEncode || !target.format.Mp4?)
    ensures d.requirements.remux == (before.requirements.remux && target.format.Mp4?)
    ensures d.requirements.tonemap == before.requirements.tonemap
    ensures d.HasFatal() <==> before.HasFatal()
    ensures d.Quiet() <==> before.Quiet() && target.format.Mp4?
    ensures d.Asks() == before.Asks()
  {
    d := before;
    if target.format != Mp4 {
      var raised := before.(requirements := before.requirements.(reEncode := true, remux := false));
      NoteChecks(raised, "TRYX-M-FORMAT", Auto);
      d := raised.Note("TRYX-M-FORMAT", Auto);
    }
  }

  method CheckTransform(before: Draft, options: Options) returns (d: Draft)
    ensures Checked(before, d, TransformRequested(options), false, false, TransformRequested(options))
    ensures d.requirements.tonemap == before.requirements.tonemap && d.Asks() == before.Asks()
  {
    d := before;
    if options.transformExplicit || !options.transformIsDefault {
      d := Pass(d.ReEncode(), "TRYX-M-TRANSFORM");
    }
  }

  /** Every check of a file with a video stream, its name aside. */
  method CheckUsable(size: nat, video: Stream, kind: Kind, source: Source, target: Target, options: Options) returns (d: Draft)
    requires target.width > 0 && target.height > 0
    ensures IsDraftOf(d, video, kind, size, source, target, options, false)
    ensures d.Asks() == Questions(video, source, target, options)
  {
    hide ContentReEncodes, ContentRemuxes, HasSize, TrimApplies, SizeUsable, TransformRequested, Questions, Draft.Asks;
    d := CheckSize(size);
    d := CheckTransform(d, options);
    d := CheckContent(d, video, kind, source, target, options);
    TransformQuiet(options);
    if options.trim.Some? {
      d := CheckTrim(d, kind, source, options.trim.value);
    }
    d := CheckFormat(d, target);
    ContentRemuxesMp4(kind, source, target);
  }

  /** Measures a source against a target; a file with no video stream is refused. */
  method Check(size: nat, probe: Probe, target: Target, options: Options, sourceStem: string, sourceExtension: string)
    returns (report: Report)
    requires target.width > 0 && target.height > 0
    ensures report.kind == Classify(probe)
    ensures var video := VideoOf(probe.streams);
      if video.None? then
        && report.kind.None? && Noted(report).HasFatal()
        && report.source == Source(0, 0, 0, 0, 0, None, size, HasAudio(probe.streams), probe.container)
      else
        && report.source == Measure(probe, video.value, size)
        && var sent := !report.requirements.reEncode && !report.requirements.remux;
           var named := DeriveName(sourceStem, sourceExtension, options.name, report.kind, sent);
           report.name == named.0 && IsReportOf(report, video.value, size, target, options, named.1)
           && Noted(report).Asks() == Questions(video.value, report.source, target, options)
  {
    hide Classify, Measure, DeriveName, IsDraftOf;
    var kind := Classify(probe);
    var found := VideoOf(probe.streams);
    KindOfVideo(probe);
    if found.None? {
      var d := CheckSize(size);
      d := Refuse(d, "TRYX-M-STREAM");
      var source := Source(0, 0, 0, 0, 0, None, size, HasAudio(probe.streams), probe.container);
      var named := DeriveName(sourceStem, sourceExtension, options.name, kind, false);
      return Report(target, kind, source, d.findings, d.requirements, named.0);
    }
    var video := found.value;
    var source := Measure(probe, video, size);
    var d := CheckUsable(size, video, kind.value, source, target, options);
    var passthrough := !d.requirements.reEncode && !d.requirements.remux;
    var named := DeriveName(sourceStem, sourceExtension, options.name, kind, passthrough);
    if named.1 {
      Renamed(d, video, kind.value, size, source, target, options);
      d := d.Note("TRYX-M-NAME", Auto);
    }
    report := Report(target, kind, source, d.findings, d.requirements, named.0);
    assert Noted(report) == d;
  }

  lemma Renamed(d: Draft, video: Stream, kind: Kind, size: nat, source: Source, target: Target, options: Options)
    requires IsDraftOf(d, video, kind, size, source, target, options, false)
    ensures IsDraftOf(d.Note("TRYX-M-NAME", Auto), video, kind, size, source, target, options, true)
    ensures d.Note("TRYX-M-NAME", Auto).Asks() == d.Asks()
  {
    hide ContentReEncodes, ContentRemuxes, Unusable, Trims, TransformRequested;
    NoteChecks(d, "TRYX-M-NAME", Auto);
  }

  lemma KindOfVideo(probe: Probe)
    ensures Classify(probe).Some? <==> VideoOf(probe.streams).Some?
  {
  }

  lemma TransformQuiet(options: Options)
    ensures !TransformRequested(options) ==> !options.transformExplicit
  {
  }

  lemma ContentRemuxesMp4(kind: Kind, source: Source, target: Target)
    ensures ContentRemuxes(kind, source, target) ==> target.format.Mp4?
  {
  }

  // ----- From the report to the plan.

  function Rank(severity: Severity): nat {
    match severity
    case Fine => 0
    case Auto => 1
    case Decide => 2
    case Fatal => 3
  }

  function Worst(findings: seq<Finding>): Severity {
    if findings == [] then Fine
    else
      var rest := Worst(findings[1..]);
      if Rank(rest) < Rank(findings[0].severity) then findings[0].severity else rest
  }

  lemma {:induction false} WorstMeans(d: Draft)
    ensures Worst(d.findings) == Fatal <==> d.HasFatal()
    ensures Worst(d.findings) == Fine <==> d.Quiet()
    decreases |d.findings|
  {
    if d.findings != [] {
      var rest := d.(findings := d.findings[1..]);
      WorstMeans(rest);
      assert forall i :: 0 <= i < |rest.findings| ==> rest.findings[i] == d.findings[i + 1];
      assert forall i :: 0 < i < |d.findings| ==> d.findings[i] == rest.findings[i - 1];
    }
  }

  predicate Acceptable(report: Report, strict: bool) {
    match Worst(report.findings)
    case Fatal => false
    case Fine => true
    case _ => !strict
  }

  function Length(trim: Trim, duration: Option<real>): Option<real> {
    if trim.end.Some? then Some(trim.end.value - trim.start)
    else if duration.None? then None
    else Some(if duration.value < trim.start then 0.0 else duration.value - trim.start)
  }

  /** The plan a report leads to; the encoder's arguments are left out. */
  function PlanFrom(report: Report, options: Options): Option<Plan> {
    if report.kind.None? then None
    else
      var kind := report.kind.value;
      var duration :=
        if options.trim.Some? && kind != Image then Length(options.trim.value, report.source.duration)
        else report.source.duration;
      var action :=
        if kind == Image && !report.requirements.reEncode then Passthrough
        else if kind == Image && report.target.format.Mp4? then Encode
        else if report.requirements.reEncode then Encode
        else if kind != Image && report.requirements.remux then Remux
        else Passthrough;
      Some(Plan(action, kind, report.name, duration))
  }

  /** The source meets the target in every respect checked, container and sound aside. */
  predicate ContentMeets(video: Stream, kind: Kind, source: Source, target: Target) {
    && target.format.Mp4?
    && if kind == Image then StillMeets(video, source, target) else StreamMeets(video, source, target)
  }

  lemma ContentMeetsIff(video: Stream, kind: Kind, source: Source, target: Target)
    requires HasSize(source) && target.format.Mp4?
    ensures ContentReEncodes(video, kind, source, target) <==> !ContentMeets(video, kind, source, target)
  {
  }

  /**
   * Planning is sound: an acceptable report always has a plan; that plan sends the file as it is
   * exactly when the file meets the target in every respect and nothing was asked for, and only
   * rewraps it exactly when its stream does and the container or a sound track is all that is wrong.
   */
  lemma PlanSound(report: Report, video: Stream, size: nat, target: Target, options: Options, renamed: bool, strict: bool)
    requires IsReportOf(report, video, size, target, options, renamed) && Acceptable(report, strict)
    ensures var kind, source, plan := report.kind.value, report.source, PlanFrom(report, options);
      var fits := AsItIs(options) && ContentMeets(video, kind, source, target);
      && plan.Some?
      && (plan.value.action == Passthrough <==> fits && (kind == Image || WrapperMeets(source)))
      && (plan.value.action == Remux <==> fits && kind != Image && !WrapperMeets(source))
  {
    hide HasSize, PixelsMeet, StreamMeets, StillMeets, ContentReEncodes, WrapperMeets, TrimApplies, SizeUsable,
      TransformRequested;
    WorstMeans(Noted(report));
    if target.format.Mp4? {
      ContentMeetsIff(video, report.kind.value, report.source, target);
    }
  }

  /**
   * With nothing asked for, strict acceptance is the same as being usable, sent as it is and
   * under its own name.
   */
  lemma StrictIff(report: Report, video: Stream, size: nat, target: Target, options: Options, renamed: bool)
    requires IsReportOf(report, video, size, target, options, renamed) && AsItIs(options)
    ensures Acceptable(report, true) <==>
      Acceptable(report, false) && PlanFrom(report, options).value.action == Passthrough && !renamed
  {
    hide ContentReEncodes, Unusable, TransformRequested;
    WorstMeans(Noted(report));
  }

  /**
   * For every report, acceptable or not: a file sent as it is meets the target in every respect, and
   * one only rewrapped does so in its stream, exactly when the source has a size. The size is what
   * the geometry check stops at before it compares anything.
   */
  lemma PlanTrueIff(report: Report, video: Stream, size: nat, target: Target, options: Options, renamed: bool)
    requires IsReportOf(report, video, size, target, options, renamed) && target.width > 0 && target.height > 0
    ensures var kind, source, action := report.kind.value, report.source, PlanFrom(report, options).value.action;
      && (action == Passthrough ==>
            (ContentMeets(video, kind, source, target) && (kind == Image || WrapperMeets(source)) <==> HasSize(source)))
      && (action == Remux ==>
            kind != Image && !WrapperMeets(source) && (ContentMeets(video, kind, source, target) <==> HasSize(source)))
  {
    hide PixelsMeet, VideoCodecMeets, FrameRateMeets, StillCodec, WrapperMeets, TrimApplies, Unusable;
  }

  /** What is left of meeting the target once the size is out of account. */
  predicate MeetsButSize(video: Stream, kind: Kind, source: Source, target: Target) {
    && target.format.Mp4? && StoredUpright(source) && PixelsMeet(video)
    && if kind == Image then StillCodec(video)
       else VideoCodecMeets(video) && FrameRateMeets(video, target) && !video.hasBFrames && WrapperMeets(source)
  }

  /**
   * A source without dimensions is never acceptable and never meets the target; yet it is planned to
   * be sent as it is exactly when it meets the target in all else and no change was asked for.
   */
  lemma SizelessPassesThrough(report: Report, video: Stream, size: nat, target: Target, options: Options, renamed: bool)
    requires IsReportOf(report, video, size, target, options, renamed)
    requires !HasSize(report.source) && target.width > 0 && target.height > 0
    ensures var kind, source := report.kind.value, report.source;
      && !Acceptable(report, false) && !GeometryMeets(source, target)
      && (PlanFrom(report, options).value.action == Passthrough <==>
            MeetsButSize(video, kind, source, target) && !TransformRequested(options) && !Trims(options, kind, source))
  {
    hide PixelsMeet, VideoCodecMeets, FrameRateMeets, StillCodec, WrapperMeets, TrimApplies, TransformRequested;
    WorstMeans(Noted(report));
  }

  /** A still PNG of which the probe gives no dimensions. */
  const SIZELESS_PNG := Probe("png_pipe", None, [
    Stream(true, false, false, "png", None, None, 0, 0, Some("rgb24"), None, None, None, None, false, None, 0, false)])

  const PLAIN_OPTIONS := Options(false, true, true, None, None)

  lemma SizelessKind()
    ensures Classify(SIZELESS_PNG) == Some(Image) && VideoOf(SIZELESS_PNG.streams) == Some(SIZELESS_PNG.streams[0])
  {
    NoSeparator("png_pipe", ",");
    assert IsContainer(SIZELESS_PNG.container, "png_pipe");
  }

  lemma SizelessMeasure()
    ensures var video, source := SIZELESS_PNG.streams[0], Measure(SIZELESS_PNG, SIZELESS_PNG.streams[0], 1);
      !HasSize(source) && StoredUpright(source) && StillCodec(video)
  {
    hide HasAudio;
  }

  lemma SizelessPixels()
    ensures PixelsMeet(SIZELESS_PNG.streams[0])
  {
  }

  /** Checked for the legacy display it gives a report that is not acceptable, and the plan to send it as it is. */
  method CheckSizeless(sourceStem: string) returns (report: Report)
    ensures !Acceptable(report, false)
    ensures PlanFrom(report, PLAIN_OPTIONS).Some? && PlanFrom(report, PLAIN_OPTIONS).value.action == Passthrough
  {
    hide Classify, Measure, VideoOf, HasSize, StoredUpright, StillCodec, PixelsMeet, DeriveName, IsReportOf, Acceptable,
      PlanFrom, GeometryMeets;
    SizelessKind();
    SizelessMeasure();
    SizelessPixels();
    report := Check(1, SIZELESS_PNG, LEGACY_PANORAMA, PLAIN_OPTIONS, sourceStem, "png");
    ghost var sent := !report.requirements.reEncode && !report.requirements.remux;
    SizelessPassesThrough(report, SIZELESS_PNG.streams[0], 1, LEGACY_PANORAMA, PLAIN_OPTIONS,
      DeriveName(sourceStem, "png", PLAIN_OPTIONS.name, report.kind, sent).1);
    PlanMade(report, PLAIN_OPTIONS);
  }

  lemma PlanMade(report: Report, options: Options)
    ensures PlanFrom(report, options).Some? <==> report.kind.Some?
  {
  }

  // ----- What the probe's fields come to.

  /** The width as displayed is the stored one, or the height of a quarter turn, times the sample aspect, to within half a pixel. */
  lemma MeasureMeans(probe: Probe, video: Stream, size: nat)
    ensures var source := Measure(probe, video, size);
      var turned := video.rotation == 90 || video.rotation == 270;
      var across, down := if turned then video.height else video.width, if turned then video.width else video.height;
      var shown := across as real * match video.sampleAspect { case Some(aspect) => aspect case None => 1.0 };
      && source.width == video.width && source.height == video.height && source.displayHeight == down
      && (0.0 <= shown <= 4_294_967_295.0 ==>
            source.displayWidth as real - 0.5 <= shown <= source.displayWidth as real + 0.5)
      && (shown < 0.0 ==> source.displayWidth == 0)
      && (shown > 4_294_967_295.0 ==> source.displayWidth == 4_294_967_295)
      && source.rotation == video.rotation && source.size == size && source.container == probe.container
      && source.duration == (match probe.duration { case Some(seconds) => Some(seconds) case None => video.duration })
      && (source.hasAudio <==> exists i :: 0 <= i < |probe.streams| && probe.streams[i].isAudio)
  {
  }

  /** A stream that is stored turned, or whose pixels are off square by more than half a pixel's width, is always encoded anew. */
  lemma DistortedIsEncoded(
      report: Report, probe: Probe, video: Stream, size: nat, target: Target, options: Options, renamed: bool)
    requires IsReportOf(report, video, size, target, options, renamed) && report.source == Measure(probe, video, size)
    requires video.rotation != 0
             || (video.sampleAspect.Some?
                 && var shown := video.width as real * video.sampleAspect.value;
                    0.0 <= shown <= 4_294_967_295.0 && Abs(shown - video.width as real) > 0.5)
    ensures PlanFrom(report, options).value.action == Encode
  {
    hide PixelsMeet, VideoCodecMeets, FrameRateMeets, StillCodec, WrapperMeets, TrimApplies, Unusable, Measure, RoundU32;
    MeasureMeans(probe, video, size);
  }

  /** Stored upright at the target's size, with pixels too square to change the width. */
  predicate Fills(video: Stream, target: Target) {
    && video.rotation == 0 && video.width == target.width && video.height == target.height
    && (video.sampleAspect.Some? ==>
          -0.5 <= video.width as real * video.sampleAspect.value - video.width as real < 0.5)
  }

  /** A silent H.264 MP4 of one of four profiles up to level 4.1, without B-frames, in plain 4:2:0, at the target's steady rate. */
  predicate PlaysAsIs(probe: Probe, video: Stream, target: Target) {
    && Fills(video, target)
    && video.codec == "h264" && (video.level.None? || video.level.value <= 41) && !video.hasBFrames
    && (video.profile == Some("High") || video.profile == Some("Main") || video.profile == Some("Baseline")
        || video.profile == Some("Constrained Baseline"))
    && video.pixFmt == Some("yuv420p") && !video.isHdr
    && video.frameRate.Some? && -0.05 < video.frameRate.value - target.fps as real < 0.05
    && (video.averageRate.None? || -0.5 <= video.averageRate.value - video.frameRate.value <= 0.5)
    && "mp4" in SplitAll(probe.container, ",")
    && forall i :: 0 <= i < |probe.streams| ==> !probe.streams[i].isAudio
  }

  /** An MP4 display's file with nothing asked for is sent as it is exactly when the probe says it plays as it is. */
  lemma SentAsIsIff(report: Report, probe: Probe, video: Stream, size: nat, target: Target, options: Options, renamed: bool)
    requires IsReportOf(report, video, size, target, options, renamed) && report.source == Measure(probe, video, size)
    requires target.format.Mp4? && 0 < target.width < U32_MAX && 0 < target.height
    requires report.kind != Some(Image) && AsItIs(options)
    ensures (Acceptable(report, false) && PlanFrom(report, options).value.action == Passthrough)
            <==> 0 < size <= 8_589_934_592 && PlaysAsIs(probe, video, target)
  {
    hide StreamMeets, WrapperMeets, PlaysAsIs, Measure, HasSize, ContentReEncodes, ContentRemuxes;
    MeetsIfPlays(probe, video, size, target);
    WorstMeans(Noted(report));
    if Acceptable(report, false) {
      PlanSound(report, video, size, target, options, renamed, false);
    } else {
      assert Noted(report).HasFatal();
    }
  }

  lemma MeetsIfPlays(probe: Probe, video: Stream, size: nat, target: Target)
    requires 0 < target.width < U32_MAX && 0 < target.height
    ensures var source := Measure(probe, video, size);
      && (StreamMeets(video, source, target) && WrapperMeets(source) <==> PlaysAsIs(probe, video, target))
      && (PlaysAsIs(probe, video, target) ==> HasSize(source) && !video.isHdr)
  {
    hide Measure, GeometryMeets, Fills, HasAlpha;
    MeetsIfFills(probe, video, size, target);
    AlphaFormats("yuv420p");
  }

  lemma MeetsIfFills(probe: Probe, video: Stream, size: nat, target: Target)
    requires 0 < target.width < U32_MAX && 0 < target.height
    ensures var source := Measure(probe, video, size);
      && source.container == probe.container && (source.hasAudio <==> HasAudio(probe.streams))
      && (GeometryMeets(source, target) <==> Fills(video, target))
      && (Fills(video, target) ==> HasSize(source))
  {
    hide HasAudio;
    if video.rotation == 0 && video.width == target.width {
      var shown := video.width as real * if video.sampleAspect.Some? then video.sampleAspect.value else 1.0;
      assert video.rotation !in {90, 270};
      assert Measure(probe, video, size).displayWidth == if shown >= 0.0 then RoundU32(shown) else 0;
      RoundsTo(shown, video.width);
      assert Fills(video, target) <==> video.height == target.height && -0.5 <= shown - video.width as real < 0.5;
    }
  }

  lemma RoundsTo(x: real, n: nat)
    requires 0 < n < U32_MAX
    ensures x >= 0.0 && RoundU32(x) == n <==> -0.5 <= x - n as real < 0.5
  {
  }

  /** A shape counts as the target's when it is off by one part in a hundred at most. */
  lemma ShapeMatches(source: Source, target: Target)
    requires HasSize(source) && target.width > 0 && target.height > 0
    ensures var across, wanted := source.displayWidth * target.height, target.width * source.displayHeight;
      AspectMatches(source, target) <==> -wanted <= 100 * (across - wanted) <= wanted
  {
    var w, h := source.displayWidth as real, source.displayHeight as real;
    var tw, th := target.width as real, target.height as real;
    Ratio(w, h, tw, th);
    Products(source, target);
    var off := (w / h - tw / th) / (tw / th);
    Scaled(off, tw * h, w * th - tw * h);
  }

  lemma Products(source: Source, target: Target)
    ensures source.displayWidth as real * target.height as real == (source.displayWidth * target.height) as real
    ensures target.width as real * source.displayHeight as real == (target.width * source.displayHeight) as real
    ensures source.displayHeight > 0 && target.width > 0 ==> target.width * source.displayHeight > 0
  {
  }

  lemma Ratio(w: real, h: real, tw: real, th: real)
    requires h > 0.0 && tw > 0.0 && th > 0.0
    ensures tw / th > 0.0 && (w / h - tw / th) / (tw / th) * (tw * h) == w * th - tw * h
  {
    var x, y := w / h, tw / th;
    assert x * h == w && y * th == tw;
    assert y > 0.0;
    var off := (x - y) / y;
    assert off * y == x - y;
    calc {
      off * (tw * h);
      off * (y * th * h);
      (off * y) * (th * h);
      (x - y) * (th * h);
      (x * h) * th - (y * th) * h;
      w * th - tw * h;
    }
  }

  lemma Scaled(off: real, scale: real, product: real)
    requires scale > 0.0 && off * scale == product
    ensures Abs(off) <= 0.01 <==> -scale <= 100.0 * product <= scale
  {
    Compare(off, 0.01, scale, product);
    Compare(-off, 0.01, scale, -product);
  }

  lemma Sign(x: real, scale: real)
    requires scale > 0.0
    ensures x >= 0.0 <==> x * scale >= 0.0
  {
  }

  lemma Compare(off: real, bound: real, scale: real, product: real)
    requires scale > 0.0 && off * scale == product
    ensures off <= bound <==> product <= bound * scale
  {
    Sign(bound - off, scale);
    assert (bound - off) * scale == bound * scale - product;
  }

  /** The stream looked at is the first video stream that is not an attached picture. */
  lemma {:induction false} VideoIsFirst(streams: seq<Stream>)
    ensures match VideoOf(streams)
      case None => forall i :: 0 <= i < |streams| ==> !streams[i].isVideo || streams[i].isAttachedPicture
      case Some(v) =>
        exists k :: 0 <= k < |streams| && streams[k] == v && v.isVideo && !v.isAttachedPicture
          && forall i :: 0 <= i < k ==> !streams[i].isVideo || streams[i].isAttachedPicture
  {
    if streams != [] && (!streams[0].isVideo || streams[0].isAttachedPicture) {
      VideoIsFirst(streams[1..]);
      assert forall i :: 0 < i < |streams| ==> streams[i] == streams[1..][i - 1];
      if VideoOf(streams[1..]).Some? {
        var k :| 0 <= k < |streams| - 1 && streams[1..][k] == VideoOf(streams).value
                 && forall i :: 0 <= i < k ==> !streams[1..][i].isVideo || streams[1..][i].isAttachedPicture;
        assert streams[k + 1] == VideoOf(streams).value;
      }
    }
  }

  /** Stills and animations come in image containers; more than one frame, or a loop longer than a moment, is an animation. */
  lemma ClassifyMeans(probe: Probe)
    requires VideoOf(probe.streams).Some?
    ensures var v := VideoOf(probe.streams).value;
      && (Classify(probe) == Some(Video) <==> forall name :: name in SplitAll(probe.container, ",") ==> name !in IMAGE_CONTAINERS)
      && (Classify(probe) == Some(Image) ==> (v.frames.Some? ==> v.frames.value <= 1))
      && (Classify(probe) == Some(AnimatedImage) ==>
            (v.frames.Some? && v.frames.value > 1) || (probe.duration.Some? && probe.duration.value > 0.15))
      && (Classify(probe) == Some(Image) && v.codec in {"gif", "apng", "webp"} ==>
            (probe.duration.Some? ==> probe.duration.value <= 0.15))
  {
  }

  /** Of a length that is known a trim may leave out as much as it likes and overrun the end by half a second; any other is taken as it is. */
  lemma TrimFits(source: Source, start: real, end: real, kind: Kind)
    ensures var length, whole, part := source.duration, Trim(start, None), Trim(start, Some(end));
      && (TrimApplies(whole, kind, source) <==> kind != Image && (length.Some? ==> start < length.value))
      && (TrimApplies(part, kind, source) <==> TrimApplies(whole, kind, source) && (length.Some? ==> end - length.value <= 0.5))
  {
  }

  /** The pixel formats a picture with transparency comes in, against common ones without. */
  lemma AlphaFormats(pixFmt: string)
    ensures pixFmt in {"rgba", "bgra", "argb", "abgr", "ya8", "gbrap", "yuva420p", "yuva444p", "pal8"} ==> HasAlpha(pixFmt)
    ensures pixFmt in {"yuv420p", "yuv422p", "yuv444p", "yuvj420p", "nv12", "rgb24", "bgr24", "gray", "gray10le", "unknown"} ==> !HasAlpha(pixFmt)
  {
    assert "rgba"[3] == "bgra"[3] == "argb"[0] == "abgr"[0] == "ya8"[1] == "gbrap"[3] == "yuva420p"[3] == "yuva444p"[3] == 'a';
    assert "gbrap"[1] == 'b';
  }

  /** A plan keeps kind and name, and lasts as long as the source or the part kept of it. */
  lemma PlanKeeps(report: Report, video: Stream, size: nat, target: Target, options: Options, renamed: bool, strict: bool)
    requires IsReportOf(report, video, size, target, options, renamed) && Acceptable(report, strict)
    requires options.trim.Some? && options.trim.value.end.Some? ==> options.trim.value.start < options.trim.value.end.value
    ensures var plan, length := PlanFrom(report, options).value, report.source.duration;
      && plan.kind == report.kind.value && plan.name == report.name
      && (options.trim.None? ==> plan.duration == length)
      && (options.trim.Some? && length.Some? ==>
            var start := options.trim.value.start;
            && plan.duration.Some? && 0.0 < plan.duration.value <= length.value - start + 0.5
            && start + plan.duration.value
               == match options.trim.value.end { case Some(end) => end case None => length.value })
  {
    hide ContentReEncodes, ContentRemuxes, HasSize, SizeUsable, TransformRequested;
    WorstMeans(Noted(report));
  }
}
