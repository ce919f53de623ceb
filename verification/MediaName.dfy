/** Names for files on the display: sanitised stems and the extensions put behind them. */
module MediaName {
  import opened Bytes
  import opened Text

  const MAX_STEM := 100

  datatype Kind = Image | AnimatedImage | Video

  predicate Kept(c: char) {
    IsAsciiAlphanumeric(c) || c == '.' || c == '_'
  }

  predicate Trimmed(c: char) {
    c == '-' || c == '.'
  }

  /** The stem with every run of other characters turned into one dash, none of them leading. */
  function Dashed(stem: string): string {
    if stem == "" then ""
    else
      var out := Dashed(stem[..|stem| - 1]);
      var c := stem[|stem| - 1];
      if Kept(c) then out + [c]
      else if out != "" && out[|out| - 1] != '-' then out + "-"
      else out
  }

  function TrimFront(s: string): string {
    if s != "" && Trimmed(s[0]) then TrimFront(s[1..]) else s
  }

  function TrimBack(s: string): string {
    if s != "" && Trimmed(s[|s| - 1]) then TrimBack(s[..|s| - 1]) else s
  }

  function Shortened(s: string): string {
    if |s| <= MAX_STEM then s else s[..MAX_STEM]
  }

  function Sanitized(stem: string): string {
    var trimmed := TrimFront(TrimBack(Shortened(Dashed(stem))));
    if trimmed == "" then "media" else trimmed
  }

  /** The loop: one pass that never writes two dashes in a row, then shortening and trimming. */
  method SanitizeStem(stem: string) returns (safe: string)
    ensures safe == Sanitized(stem)
  {
    var out := "";
    var lastDash := false;
    var i := 0;
    while i < |stem|
      invariant i <= |stem| && out == Dashed(stem[..i])
      invariant lastDash <==> out != "" && out[|out| - 1] == '-'
    {
      var c := stem[i];
      assert stem[..i + 1][..i] == stem[..i];
      if Kept(c) {
        out := out + [c];
        lastDash := false;
      } else if !lastDash && out != "" {
        out := out + "-";
        lastDash := true;
      }
      i := i + 1;
    }
    assert stem[..i] == stem;
    var trimmed := TrimFront(TrimBack(Shortened(out)));
    safe := if trimmed == "" then "media" else trimmed;
  }

  /** Device-safe characters, and no two dashes side by side. */
  predicate Tidy(s: string) {
    && (forall i :: 0 <= i < |s| ==> Kept(s[i]) || s[i] == '-')
    && (forall i :: 0 < i < |s| ==> s[i] != '-' || s[i - 1] != '-')
  }

  /** A stem that is safe as it stands. */
  predicate Clean(s: string) {
    s != "" && |s| <= MAX_STEM && Tidy(s) && !Trimmed(s[0]) && !Trimmed(s[|s| - 1])
  }

  lemma {:induction false} DashedTidy(stem: string)
    ensures Tidy(Dashed(stem)) && (Dashed(stem) != "" ==> Dashed(stem)[0] != '-')
  {
    if stem != "" {
      DashedTidy(stem[..|stem| - 1]);
    }
  }

  lemma {:induction false} TrimFrontTidy(s: string)
    requires Tidy(s) && (s != "" ==> !Trimmed(s[|s| - 1]))
    ensures var t := TrimFront(s);
            Tidy(t) && |t| <= |s| && (t != "" ==> !Trimmed(t[0]) && !Trimmed(t[|t| - 1]))
  {
    if s != "" && Trimmed(s[0]) {
      TrimFrontTidy(s[1..]);
    }
  }

  lemma {:induction false} TrimBackTidy(s: string)
    requires Tidy(s)
    ensures var t := TrimBack(s); Tidy(t) && |t| <= |s| && (t != "" ==> !Trimmed(t[|t| - 1]))
  {
    if s != "" && Trimmed(s[|s| - 1]) {
      TrimBackTidy(s[..|s| - 1]);
    }
  }

  lemma SanitizedClean(stem: string)
    ensures Clean(Sanitized(stem))
  {
    DashedTidy(stem);
    var s := Shortened(Dashed(stem));
    TrimBackTidy(s);
    TrimFrontTidy(TrimBack(s));
  }

  lemma {:induction false} TidyIsDashed(s: string)
    requires Tidy(s) && (s != "" ==> s[0] != '-')
    ensures Dashed(s) == s
  {
    if s != "" {
      TidyIsDashed(s[..|s| - 1]);
    }
  }

  /** A stem is left alone exactly when it is clean; so sanitising twice is sanitising once. */
  lemma SanitizedIff(stem: string)
    ensures Sanitized(stem) == stem <==> Clean(stem)
    ensures Sanitized(Sanitized(stem)) == Sanitized(stem)
  {
    SanitizedClean(stem);
    CleanStays(Sanitized(stem));
    if Clean(stem) {
      CleanStays(stem);
    }
  }

  lemma CleanStays(stem: string)
    requires Clean(stem)
    ensures Sanitized(stem) == stem
  {
    TidyIsDashed(stem);
  }

  // ----- The name a prepared file gets.

  function LowerAll(s: string): string {
    seq(|s|, i requires 0 <= i < |s| => ToLower(s[i]))
  }

  function Extension(sourceExtension: string, kind: Option<Kind>, passthrough: bool): (extension: string)
    ensures extension in {"png", "jpg", "jpeg", "mp4"}
  {
    var lower := LowerAll(sourceExtension);
    match kind
    case Some(Image) => if passthrough && lower in {"png", "jpg", "jpeg"} then lower else "png"
    case _ => "mp4"
  }

  function StripSuffix(s: string, suffix: string): string {
    if |suffix| <= |s| && s[|s| - |suffix|..] == suffix then s[..|s| - |suffix|] else s
  }

  /** The name on the display, and whether it had to be changed to be safe. */
  function DeriveName(
      sourceStem: string, sourceExtension: string, requested: Option<string>, kind: Option<Kind>, passthrough: bool)
    : (string, bool)
  {
    var suffix := "." + Extension(sourceExtension, kind, passthrough);
    var stem := if requested.Some? then StripSuffix(requested.value, suffix) else sourceStem;
    (Sanitized(stem) + suffix, Sanitized(stem) != stem)
  }

  function TemporaryName(name: string, pid: nat): string {
    name + ".replacing-" + Decimal(pid)
  }

  /** A derived name is accepted by the display, and so is the temporary name a replacement gives it. */
  lemma DerivedNamesSafe(
      sourceStem: string, sourceExtension: string, requested: Option<string>, kind: Option<Kind>, passthrough: bool, pid: nat)
    requires pid < 0x1_0000_0000
    ensures var name := DeriveName(sourceStem, sourceExtension, requested, kind, passthrough).0;
            IsSafeName(name) && IsSafeName(TemporaryName(name, pid)) && |name| <= MAX_STEM + 5
  {
    hide Sanitized;
    var suffix := "." + Extension(sourceExtension, kind, passthrough);
    var stem := if requested.Some? then StripSuffix(requested.value, suffix) else sourceStem;
    SanitizedClean(stem);
    DecimalLength(pid);
    var name := Sanitized(stem) + suffix;
    SuffixSafe(Extension(sourceExtension, kind, passthrough));
    SafeAppend(Sanitized(stem), suffix);
    SafeAppend(name, ".replacing-" + Decimal(pid));
  }

  predicate SafeChars(s: string) {
    forall i :: 0 <= i < |s| ==> IsAsciiAlphanumeric(s[i]) || s[i] in "._-"
  }

  lemma SuffixSafe(extension: string)
    requires extension in {"png", "jpg", "jpeg", "mp4"}
    ensures SafeChars("." + extension) && |extension| <= 4
  {
  }

  lemma SafeAppend(front: string, back: string)
    requires SafeChars(front) && SafeChars(back) && front != "" && front[0] != '.' && |front| + |back| <= 128
    ensures IsSafeName(front + back) && SafeChars(front + back)
  {
  }

  // ----- What sanitising leaves of a stem.

  /** The stem with every character that is not kept replaced by a dash, and of a run of dashes only the first, none leading. */
  function Picked(stem: string, from: nat): string
    requires from <= |stem|
    decreases |stem| - from
  {
    if from == |stem| then ""
    else
      (if Kept(stem[from]) then [stem[from]]
       else if from > 0 && Kept(stem[from - 1]) then "-"
       else "")
      + Picked(stem, from + 1)
  }

  lemma {:induction false} PickedShorter(stem: string, from: nat)
    requires stem != "" && from < |stem|
    ensures var last := |stem| - 1;
      Picked(stem, from) == Picked(stem[..last], from) + Picked(stem, last)
    decreases |stem| - from
  {
    var last := |stem| - 1;
    if from < last {
      PickedShorter(stem, from + 1);
    } else {
      assert Picked(stem[..last], from) == "";
    }
  }

  /** The loop's dashes are those: one behind each run of kept characters that others follow. */
  lemma {:induction false} DashedIsPicked(stem: string)
    ensures Dashed(stem) == Picked(stem, 0)
    ensures Dashed(stem) != "" && stem != "" ==> (Dashed(stem)[|Dashed(stem)| - 1] == '-' <==> !Kept(stem[|stem| - 1]))
    ensures Dashed(stem) == "" ==> forall i :: 0 <= i < |stem| ==> !Kept(stem[i])
  {
    if stem != "" {
      var last := |stem| - 1;
      DashedIsPicked(stem[..last]);
      PickedShorter(stem, 0);
      assert Picked(stem, last) == (if Kept(stem[last]) then [stem[last]]
        else if last > 0 && Kept(stem[last - 1]) then "-" else "") + "";
    }
  }

  lemma {:induction false} TrimFrontCuts(s: string) returns (k: nat)
    ensures k <= |s| && TrimFront(s) == s[k..] && (forall i :: 0 <= i < k ==> Trimmed(s[i])) && (k < |s| ==> !Trimmed(s[k]))
  {
    k := 0;
    if s != "" && Trimmed(s[0]) {
      k := TrimFrontCuts(s[1..]);
      k := k + 1;
    }
  }

  lemma {:induction false} TrimBackCuts(s: string) returns (k: nat)
    ensures k <= |s| && TrimBack(s) == s[..k] && (forall i :: k <= i < |s| ==> Trimmed(s[i])) && (k > 0 ==> !Trimmed(s[k - 1]))
  {
    k := |s|;
    if s != "" && Trimmed(s[|s| - 1]) {
      k := TrimBackCuts(s[..|s| - 1]);
    }
  }

  lemma TrimCuts(s: string) returns (first: nat, end: nat)
    ensures first <= end <= |s| && TrimFront(TrimBack(s)) == s[first..end]
    ensures forall i :: 0 <= i < first || end <= i < |s| ==> Trimmed(s[i])
    ensures first < end ==> !Trimmed(s[first]) && !Trimmed(s[end - 1])
  {
    hide TrimFront, TrimBack, Trimmed;
    end := TrimBackCuts(s);
    first := TrimFrontCuts(s[..end]);
    assert s[..end][first..] == s[first..end];
    assert forall i :: 0 <= i < end ==> s[..end][i] == s[i];
  }

  /**
   * A sanitised stem is the first hundred of those characters without the dashes and dots at either
   * end; "media" only stands in when nothing else is among them.
   */
  lemma SanitizedMeans(stem: string) returns (first: nat, end: nat)
    ensures var picked := Picked(stem, 0);
      var s := picked[..if |picked| <= 100 then |picked| else 100];
      && first <= end <= |s|
      && (forall i :: 0 <= i < first || end <= i < |s| ==> s[i] == '-' || s[i] == '.')
      && (first < end ==> s[first] !in "-." && s[end - 1] !in "-." && Sanitized(stem) == s[first..end])
      && (first == end ==> Sanitized(stem) == "media")
  {
    hide Dashed, Picked, TrimFront, TrimBack;
    DashedIsPicked(stem);
    var s, picked := Shortened(Dashed(stem)), Picked(stem, 0);
    assert s == picked[..if |picked| <= 100 then |picked| else 100];
    first, end := TrimCuts(s);
    var trimmed := s[first..end];
    assert |trimmed| == end - first;
    assert Sanitized(stem) == if trimmed == "" then "media" else trimmed;
  }

  /** A name may be asked for with its extension or without. */
  lemma RequestedEitherWay(sourceStem: string, sourceExtension: string, stem: string, kind: Option<Kind>, passthrough: bool)
    requires var suffix := "." + Extension(sourceExtension, kind, passthrough);
             |stem| < |suffix| || stem[|stem| - |suffix|..] != suffix
    ensures var suffix := "." + Extension(sourceExtension, kind, passthrough);
      DeriveName(sourceStem, sourceExtension, Some(stem + suffix), kind, passthrough)
      == DeriveName(sourceStem, sourceExtension, Some(stem), kind, passthrough)
  {
    hide Sanitized;
    var suffix := "." + Extension(sourceExtension, kind, passthrough);
    assert (stem + suffix)[|stem|..] == suffix && (stem + suffix)[..|stem|] == stem;
  }

  /** A clean name asked for is the name given, under the extension of what will be sent. */
  lemma RequestedIsGiven(sourceStem: string, sourceExtension: string, stem: string, kind: Option<Kind>, passthrough: bool)
    requires Clean(stem)
    requires var suffix := "." + Extension(sourceExtension, kind, passthrough);
             |stem| < |suffix| || stem[|stem| - |suffix|..] != suffix
    ensures var extension := Extension(sourceExtension, kind, passthrough);
      && DeriveName(sourceStem, sourceExtension, Some(stem), kind, passthrough) == (stem + "." + extension, false)
      && (kind != Some(Image) ==> extension == "mp4")
      && (kind == Some(Image) && !passthrough ==> extension == "png")
      && (kind == Some(Image) && passthrough && sourceExtension in {"png", "jpg", "jpeg"} ==> extension == sourceExtension)
  {
    hide Sanitized, Clean;
    CleanStays(stem);
    assert stem + ("." + Extension(sourceExtension, kind, passthrough)) == stem + "." + Extension(sourceExtension, kind, passthrough);
    if sourceExtension in {"png", "jpg", "jpeg"} {
      assert LowerAll(sourceExtension) == sourceExtension;
    }
  }
}
