/** The overlay: label groups placed on the 2240 by 1080 canvas, and the batches that update them. */
module Overlay {
  import opened Bytes
  import opened Text

  datatype Metric = Metric(
    name: string, title: string, unit: string,
    group: nat, titleId: nat, valueId: nat, unitId: nat, dateTime: bool)

  /** What can be shown, and under which ids the firmware knows each group and its labels. */
  const METRICS: seq<Metric> := [
    Metric("CPU Temperature", "CPU TEMP", "°C", 100, 101, 102, 103, false),
    Metric("CPU Frequency", "CPU Frequency", "MHZ", 101, 104, 105, 106, false),
    Metric("CPU Usage", "CPU Usage", "%", 102, 107, 108, 109, false),
    Metric("CPU Power", "CPU Power", "W", 103, 110, 111, 112, false),
    Metric("GPU Temperature", "GPU TEMP", "°C", 104, 113, 114, 115, false),
    Metric("GPU Frequency", "GPU Frequency", "MHZ", 105, 116, 117, 118, false),
    Metric("GPU Usage", "GPU Usage", "%", 106, 119, 120, 121, false),
    Metric("GPU Power", "GPU Power", "W", 107, 122, 123, 124, false),
    Metric("Memory Frequency", "Memory Frequency", "MHZ", 108, 125, 126, 127, false),
    Metric("Memory Usage", "Memory Usage", "%", 109, 128, 129, 130, false),
    Metric("Date&Time", "", "", 110, 131, 132, 0, true)
  ]

  datatype Area = Area(
    metrics: seq<string>, badges: seq<string>, alignment: string, textColor: nat, verticalPlacement: string)

  datatype Config = Config(
    left: Area, right: Area, dual: bool, waterfall: bool, cpuBadge: string, gpuBadge: string)

  datatype MetricValue = MetricValue(name: string, value: string, unit: string)

  /** Two texts a date-and-time metric shows. */
  datatype Clock = Clock(date: string, time: string)

  datatype TextAlignment = AlignLeft | AlignCenter | AlignRight

  datatype Label = Label(id: nat, line: nat, gapLeft: int, size: nat, color: nat, text: string)

  datatype Group = Group(
    id: nat, x: nat, y: nat, width: nat, height: nat,
    align: TextAlignment, lineGap: int, labels: seq<Label>)

  datatype Update = Update(groupId: nat, labelId: nat, text: string)

  const SCREEN_WIDTH := 2240
  const SCREEN_HEIGHT := 1080
  const TEXT_OFFSET_X := 60
  const TEXT_OFFSET_Y := -20
  const VALUE_TEXT_SIZE := 160
  const TAG_OFFSET_Y := 70

  // ----- Choosing the metrics of an area.

  function FindMetric(name: string, from: nat): (found: Option<Metric>)
    requires from <= |METRICS|
    ensures found.Some? ==> found.value in METRICS && found.value.name == name
    ensures found.None? ==> forall k :: from <= k < |METRICS| ==> METRICS[k].name != name
    decreases |METRICS| - from
  {
    if from == |METRICS| then None
    else if METRICS[from].name == name then Some(METRICS[from])
    else FindMetric(name, from + 1)
  }

  function Lookup(name: string): (found: Option<Metric>)
    ensures found.Some? ==> found.value in METRICS && found.value.name == Trim(name)
    ensures found.None? ==> forall k :: 0 <= k < |METRICS| ==> METRICS[k].name != Trim(name)
  {
    FindMetric(Trim(name), 0)
  }

  predicate Has(chosen: seq<Metric>, metric: Metric) {
    exists i :: 0 <= i < |chosen| && chosen[i].name == metric.name
  }

  /** The first three distinct known metrics among the names, given those already chosen. */
  function Choose(names: seq<string>, chosen: seq<Metric>): seq<Metric> {
    if names == [] || |chosen| == 3 then chosen
    else
      var metric := Lookup(names[0]);
      if metric.Some? && !Has(chosen, metric.value) then Choose(names[1..], chosen + [metric.value])
      else Choose(names[1..], chosen)
  }

  function Chosen(area: Area): seq<Metric> {
    Choose(area.metrics, [])
  }

  method Selected(area: Area) returns (out: seq<Metric>)
    ensures out == Chosen(area)
  {
    hide Has, Lookup, Choose;
    out := [];
    var i := 0;
    assert area.metrics[0..] == area.metrics;
    while i < |area.metrics|
      invariant i <= |area.metrics| && |out| < 3
      invariant Choose(area.metrics[i..], out) == Chosen(area)
    {
      var metric := Lookup(area.metrics[i]);
      ChooseStep(area.metrics, i, out);
      if metric.Some? && !Has(out, metric.value) {
        out := out + [metric.value];
        if |out| == 3 {
          return;
        }
      }
      i := i + 1;
    }
    ChooseNoMore(area.metrics[i..], out);
  }

  lemma ChooseStep(names: seq<string>, i: nat, chosen: seq<Metric>)
    requires i < |names| && |chosen| < 3
    ensures Choose(names[i..], chosen) ==
      var metric := Lookup(names[i]);
      if metric.None? || Has(chosen, metric.value) then Choose(names[i + 1..], chosen)
      else if |chosen| == 2 then chosen + [metric.value]
      else Choose(names[i + 1..], chosen + [metric.value])
  {
    hide Has, Lookup;
    assert names[i..][1..] == names[i + 1..];
  }

  lemma ChooseNoMore(names: seq<string>, chosen: seq<Metric>)
    requires names == []
    ensures Choose(names, chosen) == chosen
  {
  }

  /** The catalog's ids run without gaps, so no two metrics share a group or a label. */
  lemma CatalogIds(metric: Metric)
    requires metric in METRICS
    ensures 100 <= metric.group <= 110
    ensures METRICS[metric.group - 100] == metric
    ensures metric.titleId == 101 + 3 * (metric.group - 100) && metric.valueId == metric.titleId + 1
    ensures metric.unitId == if metric.group == 110 then 0 else metric.titleId + 2
    ensures metric.dateTime <==> metric.group == 110
  {
    var i :| 0 <= i < |METRICS| && METRICS[i] == metric;
    if i < 6 {
      assert i == 0 || i == 1 || i == 2 || i == 3 || i == 4 || i == 5;
    } else {
      assert i == 6 || i == 7 || i == 8 || i == 9 || i == 10;
    }
  }

  predicate AllKnown(chosen: seq<Metric>) {
    && |chosen| <= 3
    && (forall i :: 0 <= i < |chosen| ==> chosen[i] in METRICS)
    && (forall i, j :: 0 <= i < j < |chosen| ==> chosen[i].group != chosen[j].group)
  }

  /** At most three known metrics are chosen, no two alike; a known name is left out only when three came first. */
  lemma {:induction false} ChooseMeaning(names: seq<string>, chosen: seq<Metric>)
    requires AllKnown(chosen)
    ensures AllKnown(Choose(names, chosen))
    ensures chosen <= Choose(names, chosen)
    ensures |Choose(names, chosen)| < 3 ==>
      forall n :: n in names && Lookup(n).Some? ==> Has(Choose(names, chosen), Lookup(n).value)
    ensures forall m :: m in Choose(names, chosen) && m !in chosen ==> exists n :: n in names && Lookup(n) == Some(m)
  {
    if names != [] && |chosen| < 3 {
      var metric := Lookup(names[0]);
      if metric.Some? && !Has(chosen, metric.value) {
        forall i | 0 <= i < |chosen| ensures chosen[i].group != metric.value.group {
          CatalogIds(chosen[i]);
          CatalogIds(metric.value);
        }
        ChooseMeaning(names[1..], chosen + [metric.value]);
        assert Choose(names, chosen)[|chosen|] == metric.value;
        assert Lookup(names[0]) == Some(metric.value);
      } else {
        ChooseMeaning(names[1..], chosen);
        if metric.Some? {
          var i :| 0 <= i < |chosen| && chosen[i].name == metric.value.name;
          assert Choose(names, chosen)[i] == chosen[i];
        }
      }
    }
  }

  // ----- The layout.

  function Alignment(text: string): TextAlignment {
    if EqIgnoreAsciiCase(text, "Center") then AlignCenter
    else if EqIgnoreAsciiCase(text, "Right") then AlignRight
    else AlignLeft
  }

  function Offset(right: bool): nat { if right then 100 else 0 }

  function AreaCount(config: Config): nat { if config.dual then 2 else 1 }

  function AreaX(config: Config, right: bool): nat {
    if right then SCREEN_WIDTH / AreaCount(config) + TEXT_OFFSET_X else TEXT_OFFSET_X
  }

  /** Waterfall stacks one area half a screen further down the rotated canvas. */
  function WaterfallDrop(config: Config, area: Area, right: bool): nat {
    if !config.waterfall then 0
    else if config.dual then (if right then 0 else SCREEN_WIDTH / 2)
    else if EqIgnoreAsciiCase(area.verticalPlacement, "Bottom") then SCREEN_WIDTH / 2
    else 0
  }

  function ColumnX(config: Config, right: bool): nat {
    if config.waterfall && config.dual && right then TEXT_OFFSET_X else AreaX(config, right)
  }

  function MetricY(config: Config, area: Area, right: bool, index: nat, count: nat): nat {
    var base := if count == 1 then SCREEN_HEIGHT / 2 else (SCREEN_HEIGHT / (count + 1)) * (index + 1) + index * 10;
    var y := base - VALUE_TEXT_SIZE / 2 + WaterfallDrop(config, area, right) + TEXT_OFFSET_Y;
    if y < 0 then 0 else y
  }

  function MetricWidth(config: Config): nat {
    if config.waterfall then SCREEN_WIDTH / 2 - TEXT_OFFSET_X * 2 - 50
    else SCREEN_WIDTH / AreaCount(config) - TEXT_OFFSET_X * 2
  }

  function MetricLabels(metric: Metric, offset: nat, gap: int, color: nat, clock: Clock): seq<Label> {
    var title := Label(metric.titleId + offset, 1, gap, 30, color, if metric.dateTime then clock.date else metric.title);
    var value := Label(metric.valueId + offset, 0, 0, 160, color, if metric.dateTime then clock.time else "--");
    if metric.dateTime then [title, value]
    else
      var unitId := if metric.unitId == 0 then 0 else metric.unitId + offset;
      [title, value, Label(unitId, 0, 0, 36, color, metric.unit)]
  }

  function MetricGroup(config: Config, area: Area, right: bool, index: nat, count: nat, metric: Metric, clock: Clock): Group {
    var align := Alignment(area.alignment);
    Group(
      metric.group + Offset(right), ColumnX(config, right), MetricY(config, area, right, index, count),
      MetricWidth(config), 160, align, -10,
      MetricLabels(metric, Offset(right), if align.AlignLeft? then 13 else 0, area.textColor, clock))
  }

  function MetricGroups(config: Config, area: Area, right: bool, clock: Clock): seq<Group> {
    var chosen := Chosen(area);
    seq(|chosen|, i requires 0 <= i < |chosen| => MetricGroup(config, area, right, i, |chosen|, chosen[i], clock))
  }

  predicate IsCpu(badge: string) {
    EqIgnoreAsciiCase(badge, "CPU Badge") || EqIgnoreAsciiCase(badge, "cpu")
  }

  predicate IsGpu(badge: string) {
    EqIgnoreAsciiCase(badge, "GPU Badge") || EqIgnoreAsciiCase(badge, "gpu")
  }

  function BadgeText(config: Config, badge: string): string {
    var text := if IsCpu(badge) then (if config.cpuBadge == "" then "CPU" else config.cpuBadge)
                else if config.gpuBadge == "" then "GPU" else config.gpuBadge;
    "  " + text + "  "
  }

  function BadgeBase(right: bool): nat { if right then 400 else 300 }

  function BadgeLabels(config: Config, badges: seq<string>, right: bool, index: nat): seq<Label> {
    if badges == [] then []
    else if !IsCpu(badges[0]) && !IsGpu(badges[0]) then BadgeLabels(config, badges[1..], right, index)
    else
      var id := BadgeBase(right) + if IsCpu(badges[0]) then 1 else 2;
      [Label(id, 0, if index > 0 then 10 else 0, 30, 0x00DC_DCDC, BadgeText(config, badges[0]))]
      + BadgeLabels(config, badges[1..], right, index + 1)
  }

  function BadgeGroup(config: Config, area: Area, right: bool): Group {
    Group(
      BadgeBase(right), ColumnX(config, right) + 10, TAG_OFFSET_Y + WaterfallDrop(config, area, right),
      if config.waterfall then SCREEN_WIDTH / 2 - TEXT_OFFSET_X * 2 - 30 else MetricWidth(config),
      0, Alignment(area.alignment), 1, BadgeLabels(config, area.badges, right, 0))
  }

  function AreaGroups(config: Config, area: Area, right: bool, clock: Clock): seq<Group> {
    if area.metrics == [] && area.badges == [] then []
    else if area.badges == [] then MetricGroups(config, area, right, clock)
    else MetricGroups(config, area, right, clock) + [BadgeGroup(config, area, right)]
  }

  function RunConfig(config: Config, clock: Clock): seq<Group> {
    AreaGroups(config, config.left, false, clock)
    + if config.dual then AreaGroups(config, config.right, true, clock) else []
  }

  /** A layout or batch under construction. */
  class Layout {
    var groups: seq<Group>

    constructor ()
      ensures groups == []
    {
      groups := [];
    }
  }

  /** One row of an area, placed step by step. */
  method PlaceMetric(config: Config, area: Area, right: bool, index: nat, count: nat, metric: Metric, clock: Clock)
    returns (group: Group)
    ensures group == MetricGroup(config, area, right, index, count, metric, clock)
  {
    hide EqIgnoreAsciiCase, Alignment, MetricLabels;
    var align := Alignment(area.alignment);
    var bottom := EqIgnoreAsciiCase(area.verticalPlacement, "Bottom");
    var groupY: int := if count == 1 then SCREEN_HEIGHT / 2
                       else (SCREEN_HEIGHT / (count + 1)) * (index + 1) + index * 10;
    groupY := groupY - VALUE_TEXT_SIZE / 2;
    var groupWidth := SCREEN_WIDTH / AreaCount(config) - TEXT_OFFSET_X * 2;
    var groupX := AreaX(config, right);
    if config.waterfall {
      groupWidth := SCREEN_WIDTH / 2 - TEXT_OFFSET_X * 2 - 50;
      if config.dual {
        if right {
          groupX := TEXT_OFFSET_X;
        } else {
          groupY := groupY + SCREEN_WIDTH / 2;
        }
      } else if bottom {
        groupY := groupY + SCREEN_WIDTH / 2;
      }
    }
    groupY := groupY + TEXT_OFFSET_Y;
    group := Group(
      metric.group + Offset(right), groupX, if groupY < 0 then 0 else groupY, groupWidth, 160, align, -10,
      MetricLabels(metric, Offset(right), if align.AlignLeft? then 13 else 0, area.textColor, clock));
  }

  method AppendArea(layout: Layout, config: Config, area: Area, right: bool, clock: Clock)
    modifies layout
    ensures layout.groups == old(layout.groups) + AreaGroups(config, area, right, clock)
  {
    hide MetricGroup, BadgeGroup, Chosen;
    if area.metrics == [] && area.badges == [] {
      return;
    }
    ghost var before := layout.groups;
    var chosen := Selected(area);
    var count := |chosen|;
    var index := 0;
    while index < count
      invariant index <= count
      invariant layout.groups == before + MetricGroups(config, area, right, clock)[..index]
    {
      var group := PlaceMetric(config, area, right, index, count, chosen[index], clock);
      layout.groups := layout.groups + [group];
      index := index + 1;
    }
    if area.badges != [] {
      layout.groups := layout.groups + [BadgeGroup(config, area, right)];
    }
  }

  method BuildRunConfig(config: Config, clock: Clock) returns (groups: seq<Group>)
    ensures groups == RunConfig(config, clock)
  {
    hide AreaGroups;
    var layout := new Layout();
    AppendArea(layout, config, config.left, false, clock);
    if config.dual {
      AppendArea(layout, config, config.right, true, clock);
    }
    groups := layout.groups;
  }

  // ----- What every layout keeps.

  predicate Within(config: Config, group: Group) {
    var width, height := if config.waterfall then SCREEN_HEIGHT else SCREEN_WIDTH,
                         if config.waterfall then SCREEN_WIDTH else SCREEN_HEIGHT;
    group.x + group.width <= width && group.y + group.height <= height
  }

  predicate Disjoint(g: Group, h: Group) {
    || g.x + g.width <= h.x || h.x + h.width <= g.x
    || g.y + g.height <= h.y || h.y + h.height <= g.y
  }

  predicate SharesLabel(g: Group, h: Group) {
    exists i, j :: 0 <= i < |g.labels| && 0 <= j < |h.labels| && g.labels[i].id == h.labels[j].id
  }

  predicate DistinctLabels(g: Group) {
    forall i, j :: 0 <= i < j < |g.labels| ==> g.labels[i].id != g.labels[j].id
  }

  predicate IsMetricGroup(g: Group) {
    g.id < 300
  }

  function AreaOf(config: Config, right: bool): Area {
    if right then config.right else config.left
  }

  function Nth(config: Config, right: bool, i: nat, clock: Clock): Group
    requires i < |Chosen(AreaOf(config, right))|
  {
    MetricGroup(config, AreaOf(config, right), right, i, |Chosen(AreaOf(config, right))|, Chosen(AreaOf(config, right))[i], clock)
  }

  /** The rows of an area: at most three, 160 high, within one half of the waterfall canvas. */
  lemma Rows(config: Config, area: Area, right: bool, index: nat, count: nat)
    requires index < count <= 3
    ensures var y := MetricY(config, area, right, index, count);
            y == WaterfallDrop(config, area, right)
               + if count == 1 then 440 else if count == 2 then 260 + 370 * index else 170 + 280 * index
  {
  }

  lemma LabelRange(metric: Metric, offset: nat, gap: int, color: nat, clock: Clock)
    requires metric in METRICS
    ensures var labels := MetricLabels(metric, offset, gap, color, clock);
            && (forall k :: 0 <= k < |labels| ==>
                 101 + 3 * (metric.group - 100) <= labels[k].id - offset < 104 + 3 * (metric.group - 100))
            && (forall j, k :: 0 <= j < k < |labels| ==> labels[j].id != labels[k].id)
  {
    CatalogIds(metric);
  }

  /** A metric group keeps its ids in its side's range and its rectangle inside the canvas. */
  lemma MetricGroupPlaced(config: Config, right: bool, i: nat, clock: Clock)
    requires i < |Chosen(AreaOf(config, right))| && (right ==> config.dual)
    ensures var g := Nth(config, right, i, clock);
            && Within(config, g) && DistinctLabels(g) && IsMetricGroup(g)
            && Offset(right) + 100 <= g.id <= Offset(right) + 110
            && forall k :: 0 <= k < |g.labels| ==>
                 101 + 3 * (g.id - Offset(right) - 100) <= g.labels[k].id - Offset(right)
                   < 104 + 3 * (g.id - Offset(right) - 100)
  {
    hide MetricLabels, MetricY, Alignment, Chosen, EqIgnoreAsciiCase;
    var area := AreaOf(config, right);
    var metric := Chosen(area)[i];
    ChosenMeaning(area);
    CatalogIds(metric);
    LabelRange(metric, Offset(right), if Alignment(area.alignment).AlignLeft? then 13 else 0, area.textColor, clock);
    Rows(config, area, right, i, |Chosen(area)|);
  }

  lemma ChosenMeaning(area: Area)
    ensures AllKnown(Chosen(area))
    ensures |Chosen(area)| < 3 ==> forall n :: n in area.metrics && Lookup(n).Some? ==> Has(Chosen(area), Lookup(n).value)
    ensures forall m :: m in Chosen(area) ==> exists n :: n in area.metrics && Lookup(n) == Some(m)
  {
    ChooseMeaning(area.metrics, []);
  }

  /** Two different metric groups of a layout share no id, no label and no pixel. */
  lemma MetricGroupsApart(config: Config, right: bool, i: nat, right': bool, i': nat, clock: Clock)
    requires i < |Chosen(AreaOf(config, right))| && i' < |Chosen(AreaOf(config, right'))|
    requires (right || right' ==> config.dual) && (right, i) != (right', i')
    ensures var g, h := Nth(config, right, i, clock), Nth(config, right', i', clock);
            g.id != h.id && !SharesLabel(g, h) && Disjoint(g, h)
  {
    hide MetricLabels, MetricY, Alignment, Chosen, EqIgnoreAsciiCase, Within, DistinctLabels;
    MetricGroupPlaced(config, right, i, clock);
    MetricGroupPlaced(config, right', i', clock);
    var area, area' := AreaOf(config, right), AreaOf(config, right');
    ChosenMeaning(area);
    ChosenMeaning(area');
    Rows(config, area, right, i, |Chosen(area)|);
    Rows(config, area', right', i', |Chosen(area')|);
    var g, h := Nth(config, right, i, clock), Nth(config, right', i', clock);
    if right == right' {
      if i < i' { assert Chosen(area)[i].group != Chosen(area)[i'].group; }
      else { assert Chosen(area)[i'].group != Chosen(area)[i].group; }
    }
  }

  /** Where a layout's group comes from: a side's metric row, or a side's badges. */
  lemma GroupOrigin(config: Config, clock: Clock, k: nat) returns (right: bool, i: nat)
    requires k < |RunConfig(config, clock)|
    ensures right ==> config.dual
    ensures var g := RunConfig(config, clock)[k];
            if i < |Chosen(AreaOf(config, right))| then g == Nth(config, right, i, clock)
            else i == |Chosen(AreaOf(config, right))| && g == BadgeGroup(config, AreaOf(config, right), right)
    ensures k == i + if right then |AreaGroups(config, config.left, false, clock)| else 0
  {
    hide MetricGroup, BadgeGroup, Chosen;
    var leftGroups := AreaGroups(config, config.left, false, clock);
    right := k >= |leftGroups|;
    i := if right then k - |leftGroups| else k;
    var area := AreaOf(config, right);
    assert RunConfig(config, clock)[k] == AreaGroups(config, area, right, clock)[i];
  }

  lemma BadgesWithin(config: Config, right: bool)
    requires right ==> config.dual
    ensures var g := BadgeGroup(config, AreaOf(config, right), right);
            Within(config, g) && !IsMetricGroup(g)
  {
    hide EqIgnoreAsciiCase, Alignment, BadgeLabels;
  }

  /**
   * Every layout: groups lie inside the canvas and their ids are distinct; metric rows do not
   * overlap, and no label id occurs twice among them.
   */
  lemma LayoutSound(config: Config, clock: Clock)
    ensures var groups := RunConfig(config, clock);
            && (forall k :: 0 <= k < |groups| ==> Within(config, groups[k]))
            && (forall k :: 0 <= k < |groups| && IsMetricGroup(groups[k]) ==> DistinctLabels(groups[k]))
            && (forall k, l :: 0 <= k < l < |groups| ==> groups[k].id != groups[l].id)
            && (forall k, l :: 0 <= k < l < |groups| && IsMetricGroup(groups[k]) && IsMetricGroup(groups[l]) ==>
                 Disjoint(groups[k], groups[l]) && !SharesLabel(groups[k], groups[l]))
  {
    hide RunConfig, Chosen, MetricGroup, Within, DistinctLabels, Disjoint, SharesLabel;
    var groups := RunConfig(config, clock);
    forall k | 0 <= k < |groups|
      ensures Within(config, groups[k])
      ensures IsMetricGroup(groups[k]) ==> DistinctLabels(groups[k])
    {
      var right, i := GroupOrigin(config, clock, k);
      if i < |Chosen(AreaOf(config, right))| {
        MetricGroupPlaced(config, right, i, clock);
      } else {
        BadgesWithin(config, right);
      }
    }
    forall k, l | 0 <= k < l < |groups|
      ensures groups[k].id != groups[l].id
      ensures IsMetricGroup(groups[k]) && IsMetricGroup(groups[l]) ==>
                Disjoint(groups[k], groups[l]) && !SharesLabel(groups[k], groups[l])
    {
      var right, i := GroupOrigin(config, clock, k);
      var right', i' := GroupOrigin(config, clock, l);
      if i < |Chosen(AreaOf(config, right))| { MetricGroupPlaced(config, right, i, clock); }
      if i' < |Chosen(AreaOf(config, right'))| { MetricGroupPlaced(config, right', i', clock); }
      if i < |Chosen(AreaOf(config, right))| && i' < |Chosen(AreaOf(config, right'))| {
        MetricGroupsApart(config, right, i, right', i', clock);
      }
    }
  }

  function CountKind(badges: seq<string>, cpu: bool): nat {
    if badges == [] then 0
    else CountKind(badges[1..], cpu)
         + if (if cpu then IsCpu(badges[0]) else IsGpu(badges[0]) && !IsCpu(badges[0])) then 1 else 0
  }

  predicate LabelAt(labels: seq<Label>, id: nat) {
    exists k :: 0 <= k < |labels| && labels[k].id == id
  }

  /** Badge labels are not deduplicated: they are distinct exactly when each kind of badge is named once at most. */
  lemma {:induction false} BadgeLabelsDistinctIff(config: Config, badges: seq<string>, right: bool, index: nat)
    ensures var labels := BadgeLabels(config, badges, right, index);
            && (LabelAt(labels, BadgeBase(right) + 1) <==> CountKind(badges, true) > 0)
            && (LabelAt(labels, BadgeBase(right) + 2) <==> CountKind(badges, false) > 0)
            && ((forall j, k :: 0 <= j < k < |labels| ==> labels[j].id != labels[k].id)
                <==> CountKind(badges, true) <= 1 && CountKind(badges, false) <= 1)
    decreases |badges|
  {
    if badges != [] {
      hide EqIgnoreAsciiCase, IsCpu, IsGpu, BadgeText;
      var labels := BadgeLabels(config, badges, right, index);
      if IsCpu(badges[0]) || IsGpu(badges[0]) {
        BadgeLabelsDistinctIff(config, badges[1..], right, index + 1);
        var rest := BadgeLabels(config, badges[1..], right, index + 1);
        ConsLabels(labels, rest);
      } else {
        BadgeLabelsDistinctIff(config, badges[1..], right, index);
      }
    }
  }

  lemma ConsLabels(labels: seq<Label>, rest: seq<Label>)
    requires labels != [] && labels[1..] == rest
    ensures forall id :: LabelAt(labels, id) <==> labels[0].id == id || LabelAt(rest, id)
    ensures (forall j, k :: 0 <= j < k < |labels| ==> labels[j].id != labels[k].id)
            <==> (forall j, k :: 0 <= j < k < |rest| ==> rest[j].id != rest[k].id) && !LabelAt(rest, labels[0].id)
  {
  }

  // ----- The metric batch.

  /** None of the values shows anything under the name. */
  predicate Skipped(values: seq<MetricValue>, name: string) {
    forall i :: 0 <= i < |values| ==> values[i].name != name || values[i].value == ""
  }

  function FindValue(values: seq<MetricValue>, name: string): (found: Option<MetricValue>)
    ensures found.Some? ==> found.value in values && found.value.name == name && found.value.value != ""
    ensures found.None? ==> Skipped(values, name)
  {
    if values == [] then None
    else if values[0].name == name && values[0].value != "" then Some(values[0])
    else FindValue(values[1..], name)
  }

  /** The value found is the first that shows something under the name. */
  lemma {:induction false} FoundFirst(values: seq<MetricValue>, name: string) returns (k: nat)
    requires FindValue(values, name).Some?
    ensures k < |values| && values[k] == FindValue(values, name).value && Skipped(values[..k], name)
  {
    if values[0].name == name && values[0].value != "" {
      return 0;
    }
    var next := FoundFirst(values[1..], name);
    assert values[..next + 1] == [values[0]] + values[1..][..next];
    return next + 1;
  }

  /** The updates one chosen metric gives rise to. */
  function MetricUpdates(metric: Metric, right: bool, values: seq<MetricValue>, clock: Clock): seq<Update> {
    var group := metric.group + Offset(right);
    if metric.dateTime then
      [Update(group, metric.titleId + Offset(right), clock.date), Update(group, metric.valueId + Offset(right), clock.time)]
    else
      var value := FindValue(values, metric.name);
      if value.None? then []
      else
        var update := Update(group, metric.valueId + Offset(right), value.value.value);
        // Two of the groups, those of the temperatures, have their unit updated too.
        if metric.group == 100 || metric.group == 104 then
          var unit := if value.value.unit == "" then metric.unit else value.value.unit;
          [update, Update(group, metric.unitId + Offset(right), unit)]
        else [update]
  }

  function AreaUpdates(chosen: seq<Metric>, right: bool, values: seq<MetricValue>, clock: Clock): seq<Update> {
    if chosen == [] then []
    else AreaUpdates(chosen[..|chosen| - 1], right, values, clock)
         + MetricUpdates(chosen[|chosen| - 1], right, values, clock)
  }

  function Batch(config: Config, values: seq<MetricValue>, clock: Clock): seq<Update> {
    AreaUpdates(Chosen(config.left), false, values, clock)
    + if config.dual then AreaUpdates(Chosen(config.right), true, values, clock) else []
  }

  /** Value updates for the chosen metrics; none when nothing applies. */
  method MetricBatch(config: Config, values: seq<MetricValue>, clock: Clock) returns (batch: Option<seq<Update>>)
    ensures batch == if Batch(config, values, clock) == [] then None else Some(Batch(config, values, clock))
  {
    hide AreaUpdates, Chosen;
    var updates := AppendUpdates([], config.left, false, values, clock);
    if config.dual {
      updates := AppendUpdates(updates, config.right, true, values, clock);
    }
    assert updates == Batch(config, values, clock);
    batch := if updates == [] then None else Some(updates);
  }

  method AppendUpdates(before: seq<Update>, area: Area, right: bool, values: seq<MetricValue>, clock: Clock)
    returns (updates: seq<Update>)
    ensures updates == before + AreaUpdates(Chosen(area), right, values, clock)
  {
    hide AreaUpdates, MetricUpdates, Chosen;
    updates := before;
    var chosen := Selected(area);
    var index := 0;
    NoUpdates(chosen[..index], right, values, clock);
    assert before + [] == before;
    while index < |chosen|
      invariant index <= |chosen|
      invariant updates == before + AreaUpdates(chosen[..index], right, values, clock)
    {
      OneMoreUpdated(chosen, index, right, values, clock);
      ghost var sofar, more := AreaUpdates(chosen[..index], right, values, clock), MetricUpdates(chosen[index], right, values, clock);
      assert before + sofar + more == before + (sofar + more);
      updates := updates + MetricUpdates(chosen[index], right, values, clock);
      index := index + 1;
    }
    assert chosen[..index] == chosen;
  }

  lemma NoUpdates(chosen: seq<Metric>, right: bool, values: seq<MetricValue>, clock: Clock)
    requires chosen == []
    ensures AreaUpdates(chosen, right, values, clock) == []
  {
  }

  lemma OneMoreUpdated(chosen: seq<Metric>, index: nat, right: bool, values: seq<MetricValue>, clock: Clock)
    requires index < |chosen|
    ensures AreaUpdates(chosen[..index + 1], right, values, clock)
            == AreaUpdates(chosen[..index], right, values, clock) + MetricUpdates(chosen[index], right, values, clock)
  {
    hide MetricUpdates;
    assert chosen[..index + 1][..index] == chosen[..index];
  }

  predicate Declares(groups: seq<Group>, update: Update) {
    exists k :: 0 <= k < |groups| && groups[k].id == update.groupId && LabelAt(groups[k].labels, update.labelId)
  }

  /** Every update names a group, and a label in that group, that the layout for the same overlay declared. */
  lemma BatchMatchesLayout(config: Config, values: seq<MetricValue>, clock: Clock, clock': Clock)
    ensures forall u :: u in Batch(config, values, clock) ==> Declares(RunConfig(config, clock'), u)
  {
    forall u | u in Batch(config, values, clock) ensures Declares(RunConfig(config, clock'), u) {
      if u in AreaUpdates(Chosen(config.left), false, values, clock) {
        AreaUpdateDeclared(config, false, Chosen(config.left), values, clock, clock', u);
      } else {
        AreaUpdateDeclared(config, true, Chosen(config.right), values, clock, clock', u);
      }
    }
  }

  lemma {:induction false} AreaUpdateDeclared(
      config: Config, right: bool, front: seq<Metric>, values: seq<MetricValue>, clock: Clock, clock': Clock, u: Update)
    requires right ==> config.dual
    requires front <= Chosen(AreaOf(config, right)) && u in AreaUpdates(front, right, values, clock)
    ensures Declares(RunConfig(config, clock'), u)
    decreases |front|
  {
    hide Chosen, RunConfig, MetricUpdates;
    var i := |front| - 1;
    if u in AreaUpdates(front[..i], right, values, clock) {
      AreaUpdateDeclared(config, right, front[..i], values, clock, clock', u);
    } else {
      var area := AreaOf(config, right);
      var metric := front[i];
      assert Chosen(area)[i] == metric;
      ChosenMeaning(area);
      var k := GroupPosition(config, right, i, clock');
      assert LabelAt(Nth(config, right, i, clock').labels, u.labelId) by {
        UpdateLabelled(metric, right, values, clock, u,
          if Alignment(area.alignment).AlignLeft? then 13 else 0, area.textColor, clock');
      }
      assert u.groupId == metric.group + Offset(right) by {
        UpdateLabelled(metric, right, values, clock, u, 0, 0, clock');
      }
      assert RunConfig(config, clock')[k].id == u.groupId;
    }
  }

  lemma UpdateLabelled(
      metric: Metric, right: bool, values: seq<MetricValue>, clock: Clock, u: Update, gap: int, color: nat, clock': Clock)
    requires metric in METRICS && u in MetricUpdates(metric, right, values, clock)
    ensures u.groupId == metric.group + Offset(right)
    ensures LabelAt(MetricLabels(metric, Offset(right), gap, color, clock'), u.labelId)
  {
    CatalogIds(metric);
    var labels := MetricLabels(metric, Offset(right), gap, color, clock');
    assert labels[0].id == metric.titleId + Offset(right) && labels[1].id == metric.valueId + Offset(right);
    if u.labelId != labels[0].id && u.labelId != labels[1].id {
      assert labels[2].id == u.labelId;
    }
  }

  lemma GroupPosition(config: Config, right: bool, i: nat, clock: Clock) returns (k: nat)
    requires (right ==> config.dual) && i < |Chosen(AreaOf(config, right))|
    ensures k < |RunConfig(config, clock)| && RunConfig(config, clock)[k] == Nth(config, right, i, clock)
  {
    hide MetricGroup, BadgeGroup, AreaGroups, Chosen;
    k := i + if right then |AreaGroups(config, config.left, false, clock)| else 0;
    RowInArea(config, right, i, clock);
  }

  lemma RowInArea(config: Config, right: bool, i: nat, clock: Clock)
    requires i < |Chosen(AreaOf(config, right))|
    ensures var groups := AreaGroups(config, AreaOf(config, right), right, clock);
            i < |groups| && groups[i] == Nth(config, right, i, clock)
  {
    hide MetricGroup, BadgeGroup;
    assert AreaOf(config, right).metrics != [];
  }

  function ValueUpdate(metric: Metric, right: bool, values: seq<MetricValue>): Update
    requires FindValue(values, metric.name).Some?
  {
    Update(metric.group + Offset(right), metric.valueId + Offset(right), FindValue(values, metric.name).value.value)
  }

  lemma OwnValueUpdate(metric: Metric, right: bool, values: seq<MetricValue>, clock: Clock)
    requires !metric.dateTime && FindValue(values, metric.name).Some?
    ensures ValueUpdate(metric, right, values) in MetricUpdates(metric, right, values, clock)
  {
  }

  /** A chosen metric with a value to show is always updated with it. */
  lemma {:induction false} ChosenValueIsUpdated(front: seq<Metric>, right: bool, i: nat, values: seq<MetricValue>, clock: Clock)
    requires i < |front| && !front[i].dateTime && FindValue(values, front[i].name).Some?
    ensures ValueUpdate(front[i], right, values) in AreaUpdates(front, right, values, clock)
    decreases |front|
  {
    hide FindValue, MetricUpdates, ValueUpdate;
    var last := |front| - 1;
    if i < last {
      ChosenValueIsUpdated(front[..last], right, i, values, clock);
      assert front[..last][i] == front[i];
    } else {
      OwnValueUpdate(front[i], right, values, clock);
    }
  }

  // ----- What the labels read.

  /** How far down an area is put: by half the screen for a waterfall's left half, or for one area at the bottom. */
  function Down(config: Config, right: bool): nat {
    if config.waterfall && !right && (config.dual || EqIgnoreAsciiCase(config.left.verticalPlacement, "Bottom")) then 1120 else 0
  }

  /** Where metrics stand, in numbers: one to three rows below each other, in one column, two, or two halves of a waterfall. */
  lemma MetricPlacedAt(config: Config, right: bool, i: nat, clock: Clock)
    requires i < |Chosen(AreaOf(config, right))| && (right ==> config.dual)
    ensures var g, count := Nth(config, right, i, clock), |Chosen(AreaOf(config, right))|;
      && g.id == Chosen(AreaOf(config, right))[i].group + (if right then 100 else 0)
      && g.x == (if right && !config.waterfall then 1180 else 60)
      && g.y == Down(config, right) + (if count == 1 then 440 else if count == 2 then 260 + 370 * i else 170 + 280 * i)
      && g.width == (if config.waterfall then 950 else if config.dual then 1000 else 2120)
      && g.height == 160 && g.lineGap == -10
      && g.align == Alignment(AreaOf(config, right).alignment)
  {
    hide MetricLabels, MetricY, Alignment, Chosen, EqIgnoreAsciiCase;
    ChosenMeaning(AreaOf(config, right));
    Rows(config, AreaOf(config, right), right, i, |Chosen(AreaOf(config, right))|);
  }

  /** The badges stand ten further right than the metrics, on top. */
  lemma BadgesPlacedAt(config: Config, right: bool)
    requires right ==> config.dual
    ensures var g := BadgeGroup(config, AreaOf(config, right), right);
      && g.id == (if right then 400 else 300)
      && g.x == (if right && !config.waterfall then 1190 else 70)
      && g.y == Down(config, right) + 70
      && g.width == (if config.waterfall then 970 else if config.dual then 1000 else 2120)
      && g.height == 0 && g.lineGap == 1
      && g.align == Alignment(AreaOf(config, right).alignment)
      && BadgesReadFrom(config, right, 0, g.labels)
  {
    hide Alignment, EqIgnoreAsciiCase, BadgeLabels, BadgesReadFrom;
    BadgesRead(config, AreaOf(config, right).badges, right, 0);
  }

  /** Text is centred or to the right where its area says so in any case of letters, else to the left. */
  lemma Aligned(text: string)
    ensures Alignment(text).AlignCenter? <==> EqIgnoreAsciiCase(text, "Center")
    ensures Alignment(text).AlignRight? <==> EqIgnoreAsciiCase(text, "Right")
  {
    assert |"Center"| == 6 && |"Right"| == 5;
  }

  /** A metric's labels: its title above, a placeholder and the unit; or the date above and the time. */
  lemma LayoutReads(config: Config, right: bool, i: nat, clock: Clock)
    requires i < |Chosen(AreaOf(config, right))|
    ensures var side := if right then 100 else 0;
      var metric, labels := Chosen(AreaOf(config, right))[i], Nth(config, right, i, clock).labels;
      && |labels| == (if metric.dateTime then 2 else 3)
      && labels[0].id == metric.titleId + side && labels[0].line == 1
      && labels[0].text == (if metric.dateTime then clock.date else metric.title) && labels[0].size == 30
      && labels[0].gapLeft == (if Alignment(AreaOf(config, right).alignment).AlignLeft? then 13 else 0)
      && labels[1].id == metric.valueId + side && labels[1].line == 0
      && labels[1].text == (if metric.dateTime then clock.time else "--") && labels[1].size == 160
      && (!metric.dateTime ==>
            labels[2].id == metric.unitId + side && labels[2].text == metric.unit && labels[2].size == 36 && labels[2].line == 0)
      && (forall k :: 0 <= k < |labels| ==> labels[k].color == AreaOf(config, right).textColor)
      && (forall k :: 0 < k < |labels| ==> labels[k].gapLeft == 0)
  {
    hide MetricY, Alignment, Chosen, EqIgnoreAsciiCase;
    ChosenMeaning(AreaOf(config, right));
    CatalogIds(Chosen(AreaOf(config, right))[i]);
  }

  /** An update of date or time brings its label to what a layout made at that moment reads. */
  lemma DateTimeUpdatesAgree(metric: Metric, right: bool, values: seq<MetricValue>, clock: Clock, gap: int, color: nat)
    requires metric in METRICS && metric.dateTime
    ensures var updates, labels := MetricUpdates(metric, right, values, clock), MetricLabels(metric, Offset(right), gap, color, clock);
      && |updates| == |labels| == 2
      && forall k :: 0 <= k < 2 ==> updates[k].labelId == labels[k].id && updates[k].text == labels[k].text
  {
  }

  /** Any other metric's value goes to its value label; only the two temperatures, 100 and 104, bring a unit, their own if none is given. */
  lemma ValueUpdatesMean(metric: Metric, right: bool, values: seq<MetricValue>, clock: Clock)
    requires metric in METRICS && !metric.dateTime
    ensures var updates, found := MetricUpdates(metric, right, values, clock), FindValue(values, metric.name);
      && (found.None? <==> updates == [])
      && (found.Some? ==>
            && updates[0].labelId == metric.valueId + Offset(right) && updates[0].text == found.value.value
            && |updates| == (if metric.group in {100, 104} then 2 else 1)
            && (metric.group in {100, 104} ==>
                  && updates[1].labelId == metric.unitId + Offset(right)
                  && updates[1].text == if found.value.unit != "" then found.value.unit else metric.unit))
  {
  }

  /** Each badge goes by a short and a long name, in any case of letters, and none by another's. */
  lemma BadgeNames(badge: string)
    ensures badge in {"CPU Badge", "cpu badge", "CPU", "cpu"} ==> IsCpu(badge)
    ensures badge in {"GPU Badge", "gpu badge", "GPU", "gpu"} ==> IsGpu(badge)
    ensures IsCpu(badge) || IsGpu(badge) ==> |badge| in {3, 9}
    ensures !(IsCpu(badge) && IsGpu(badge))
  {
    assert ToLower("cpu"[0]) != ToLower("gpu"[0]) && ToLower("CPU Badge"[0]) != ToLower("GPU Badge"[0]);
    assert |"cpu"| == |"gpu"| == 3 && |"CPU Badge"| == |"GPU Badge"| == 9;
  }

  predicate BadgeReads(config: Config, right: bool, position: nat, mark: Label) {
    && mark.id in {BadgeBase(right) + 1, BadgeBase(right) + 2}
    && mark.gapLeft == (if position > 0 then 10 else 0) && mark.line == 0 && mark.size == 30 && mark.color == 0xDC_DCDC
    && mark.text ==
         if mark.id == BadgeBase(right) + 1 then "  " + (if config.cpuBadge != "" then config.cpuBadge else "CPU") + "  "
         else "  " + (if config.gpuBadge != "" then config.gpuBadge else "GPU") + "  "
  }

  predicate BadgesReadFrom(config: Config, right: bool, position: nat, labels: seq<Label>) {
    forall k :: 0 <= k < |labels| ==> BadgeReads(config, right, position + k, labels[k])
  }

  /** Badges are labelled in the order named, with the text configured or the plain name, set apart from the one before. */
  lemma {:induction false} BadgesRead(config: Config, badges: seq<string>, right: bool, index: nat)
    ensures BadgesReadFrom(config, right, index, BadgeLabels(config, badges, right, index))
    decreases |badges|
  {
    hide IsCpu, IsGpu, BadgeReads;
    if badges != [] {
      var labels := BadgeLabels(config, badges, right, index);
      if IsCpu(badges[0]) || IsGpu(badges[0]) {
        BadgesRead(config, badges[1..], right, index + 1);
        FirstBadgeReads(config, badges, right, index);
        var rest := BadgeLabels(config, badges[1..], right, index + 1);
        forall k | 0 <= k < |labels| ensures BadgeReads(config, right, index + k, labels[k]) {
          if k > 0 {
            assert labels[k] == rest[k - 1];
            assert BadgeReads(config, right, index + 1 + (k - 1), rest[k - 1]);
          }
        }
      } else {
        BadgesRead(config, badges[1..], right, index);
      }
    }
  }

  lemma FirstBadgeReads(config: Config, badges: seq<string>, right: bool, index: nat)
    requires badges != [] && (IsCpu(badges[0]) || IsGpu(badges[0]))
    ensures BadgeReads(config, right, index, BadgeLabels(config, badges, right, index)[0])
  {
    hide IsCpu, IsGpu;
  }
}
