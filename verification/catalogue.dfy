/** The fixed catalogue of settings of grslicer/settings.py: the groups of
    `DEFAULT_SETTINGS`, their flattening `settings_iter`, and the two lookup
    tables built from it, `DEFAULT_SETTINGS_GROUPS_REVERSE` (name to group)
    and `DEFAULT_SETTINGS_DICT` (group to name to setting). */
module Catalogue {
  import opened SettingValues

  /** The class of a setting: `RangeSettingFloat` and `RangeSettingInt`
      carry their GUI range; `BoolSetting` carries none. */
  datatype Kind =
    | FloatRange(low: real, high: real, step: real)
    | IntRange(lowInt: int, highInt: int, stepInt: int)
    | Flag

  /** A setting as declared: `default` is the value written in the
      declaration, before `convert`. */
  datatype SettingsItem = SettingsItem(
    name: string,
    short: string,
    default: PyValue,
    description: string,
    advanced: bool,
    kind: Kind)

  datatype Group = Group(key: string, items: seq<SettingsItem>)

  /** One step of `settings_iter`: a group key and one of its settings. */
  type Entry = (string, SettingsItem)

  function FloatItem(name: string, short: string, default: PyValue, description: string,
                     low: real, high: real, step: real, advanced: bool := false): SettingsItem {
    SettingsItem(name, short, default, description, advanced, FloatRange(low, high, step))
  }

  function IntItem(name: string, short: string, default: int, description: string,
                   low: int, high: int, step: int, advanced: bool := false): SettingsItem {
    SettingsItem(name, short, PyInt(default), description, advanced, IntRange(low, high, step))
  }

  function BoolItem(name: string, short: string, default: bool, description: string): SettingsItem {
    SettingsItem(name, short, PyBool(default), description, false, Flag)
  }

  /** The `Geometry` group. */
  const GeometrySettings: seq<SettingsItem> := [
    FloatItem("scale", "Scale", PyFloat(1.0), "Scaling factor for input geometry", 0.1, 10.0, 0.1),
    FloatItem("roundOffError", "Round-off error", PyFloat(Um(20.0)), "Merging area of vertices",
              Um(1.0), Um(100.0), Um(1.0), advanced := true)
  ]

  /** The `Printer` group. */
  const PrinterSettings: seq<SettingsItem> := [
    IntItem("printPlateWidth", "Plate width", 200, "Plate width", 0, 500, 1),
    IntItem("printPlateLength", "Plate length", 200, "Plate length", 0, 500, 1),
    FloatItem("nozzleDiameter", "Nozzle diameter", PyFloat(0.35), "Nozzle diameter", 0.1, 1.0, 0.01),
    FloatItem("filamentDiameter", "Filament diameter", PyFloat(3.0), "Filament diameter", 0.1, 5.0, 0.01),
    IntItem("nozzleTemperature", "Nozzle temperature", 236, "Nozzle temperature", 0, 300, 1),
    IntItem("bedTemperature", "Bed temperature", 90, "Bed temperature", 0, 150, 1),
    FloatItem("layerHeight", "Layer height", PyFloat(0.30), "Layer height", 0.1, 1.0, 0.01),
    FloatItem("extrusionWidth", "Exstrusion width", PyFloat(0.35), "Extrusion width", 0.1, 1.0, 0.01),
    FloatItem("correctionZ", "Z correction", PyInt(0), "Z correction", 0.0, 10.0, 0.01)
  ]

  /** The `Infill` group. */
  const InfillSettings: seq<SettingsItem> := [
    IntItem("offsetsNr", "Offsets nr", 3, "Number of offsets (including perimeter)", 0, 10, 1),
    FloatItem("offsetsDelta", "Offsets delta", PyInt(0), "Empty space between offsets", 0.0, 1.0, 0.01),
    IntItem("offsetsMinNrForLines", "Min nr offsets for lines", 2,
            "Minimum amount of offsets that has to fit into the most inner offset to create a line infill inside it",
            1, 10, 1, advanced := true),
    BoolItem("linesEnable", "Enable line infill", true, "Enable lines inner pattern"),
    FloatItem("linesDelta", "Lines delta", PyFloat(0.2), "Spacing between lines", 0.0, 5.0, 0.1),
    FloatItem("linesConnectionDistFactor", "Lines connection distance factor", PyFloat(2.0),
              "Factor of line spacing between two consecutive lines are connected with extruded filament",
              0.0, 5.0, 0.1),
    IntItem("linesNrLayersForRotation", "Nr layers for lines rotation", 2,
            "How many consecutive layers have the same rotation", 0, 10, 1),
    IntItem("linesRotationTheta", "Lines rotation degrees", 30, "The degree of rotation", 0, 180, 1)
  ]

  /** The `Support` group. */
  const SupportSettings: seq<SettingsItem> := [
    FloatItem("skirtsInitialDelta", "Skirts initial delta", PyInt(7), "Spacing between skirts and AABB of the model",
              0.0, 30.0, 0.1),
    IntItem("skirtsOffsetsNr", "Skirts nr of offsets", 2, "Number of skirt offsets", 0, 5, 1),
    IntItem("skirtsLayers", "Skirts nr layers", 1, "How high should skirts be", 0, 5, 1)
  ]

  /** The `G-Code` group. */
  const GCodeSettings: seq<SettingsItem> := [
    FloatItem("extrusionMultiplier", "Exstrusion multiplier", PyFloat(1.0),
              "By how much should the calculated extruded filament be multiplied", 0.1, 2.0, 0.01),
    IntItem("speedOffsets", "Speed offsets", 1260, "Speed of printing offsets", 100, 10000, 1),
    IntItem("speedContours", "Speed contours", 1800, "Speed of printing contours", 100, 10000, 1),
    IntItem("speedLines", "Speed lines", 3600, "Speed of printing lines", 100, 10000, 1),
    IntItem("speedTravel", "Speed travel", 7800, "Speed of travel", 100, 10000, 1),
    IntItem("speedSupports", "Speed supports", 3600, "Speed of printing supports", 100, 10000, 1),
    FloatItem("speedModifierLayers", "Speed modifier layers", PyFloat(1.0),
              "For how many layers should speed modifier be used", 0.01, 10.0, 0.1),
    FloatItem("speedModifier", "Speed modifier", PyFloat(0.70), "Speed modifier", 0.1, 1.0, 0.1),
    FloatItem("retractLength", "Retract length", PyFloat(0.2), "Length of retraction", 0.0, 5.0, 0.1),
    FloatItem("spitLength", "Spit length", PyFloat(0.01), "Length of contra retraction", 0.0, 5.0, 0.1),
    BoolItem("retractEachLayer", "Retract each layer", true, "Should retract on the beggining of each layer"),
    BoolItem("retractEachPath", "Retract each path", false, "Should retract for each path"),
    BoolItem("retractFirstPath", "Retract first path", false, "Should retract for the first path of pattern"),
    BoolItem("verbose", "Verbose", true, "Add comments to commands")
  ]

  /** `DEFAULT_SETTINGS`. */
  const DefaultSettings: seq<Group> := [
    Group("Geometry", GeometrySettings),
    Group("Printer", PrinterSettings),
    Group("Infill", InfillSettings),
    Group("Support", SupportSettings),
    Group("G-Code", GCodeSettings)
  ]

  /** `settings_iter`: every setting with its group key, group by group in
      declaration order. */
  function SettingsIter(groups: seq<Group>): (es: seq<Entry>)
    ensures forall k | 0 <= k < |es| :: exists i | 0 <= i < |groups| :: es[k].0 == groups[i].key && es[k].1 in groups[i].items
    decreases |groups|
  {
    if |groups| == 0 then []
    else
      var g := groups[0];
      var rest := SettingsIter(groups[1..]);
      assert forall k | 0 <= k < |rest| :: exists i | 1 <= i < |groups| :: rest[k].0 == groups[i].key && rest[k].1 in groups[i].items by {
        forall k | 0 <= k < |rest|
          ensures exists i | 1 <= i < |groups| :: rest[k].0 == groups[i].key && rest[k].1 in groups[i].items
        {
          var i :| 0 <= i < |groups[1..]| && rest[k].0 == groups[1..][i].key && rest[k].1 in groups[1..][i].items;
          assert groups[1..][i] == groups[i + 1];
        }
      }
      seq(|g.items|, j requires 0 <= j < |g.items| => (g.key, g.items[j])) + rest
  }

  /** How many settings `groups` declare altogether. */
  function ItemCount(groups: seq<Group>): nat
    decreases |groups|
  {
    if |groups| == 0 then 0 else |groups[0].items| + ItemCount(groups[1..])
  }

  /** Where the settings of `groups[i]` begin in the flattening. */
  function Offset(groups: seq<Group>, i: nat): nat
    requires i <= |groups|
  {
    ItemCount(groups[..i])
  }

  lemma OffsetStep(groups: seq<Group>, i: nat)
    requires 0 < i <= |groups|
    ensures Offset(groups, i) == |groups[0].items| + Offset(groups[1..], i - 1)
  {
    assert groups[..i][1..] == groups[1..][..i - 1];
  }

  lemma {:induction false} SettingsIterLength(groups: seq<Group>)
    ensures |SettingsIter(groups)| == ItemCount(groups)
    decreases |groups|
  {
    if |groups| > 0 {
      SettingsIterLength(groups[1..]);
    }
  }

  /** The `j`-th setting of group `i` sits at `Offset(groups, i) + j`. */
  lemma {:induction false} SettingsIterEntry(groups: seq<Group>, i: nat, j: nat)
    requires i < |groups| && j < |groups[i].items|
    ensures Offset(groups, i) + j < |SettingsIter(groups)|
    ensures SettingsIter(groups)[Offset(groups, i) + j] == (groups[i].key, groups[i].items[j])
    decreases i
  {
    var g := groups[0];
    var head := seq(|g.items|, j requires 0 <= j < |g.items| => (g.key, g.items[j]));
    var rest := SettingsIter(groups[1..]);
    assert SettingsIter(groups) == head + rest;
    if i == 0 {
      assert groups[..0] == [];
      assert SettingsIter(groups)[j] == head[j];
    } else {
      OffsetStep(groups, i);
      SettingsIterEntry(groups[1..], i - 1, j);
      assert groups[1..][i - 1] == groups[i];
      var o := Offset(groups[1..], i - 1) + j;
      assert SettingsIter(groups)[|head| + o] == rest[o];
    }
  }

  /** `settings_iter` yields every setting of every group exactly in place:
      group by group, each group's settings in declaration order, and
      nothing else. */
  lemma SettingsIterLayout(groups: seq<Group>)
    ensures |SettingsIter(groups)| == ItemCount(groups)
    ensures forall i, j | 0 <= i < |groups| && 0 <= j < |groups[i].items| ::
              Offset(groups, i) + j < |SettingsIter(groups)|
              && SettingsIter(groups)[Offset(groups, i) + j] == (groups[i].key, groups[i].items[j])
  {
    SettingsIterLength(groups);
    forall i, j | 0 <= i < |groups| && 0 <= j < |groups[i].items|
      ensures Offset(groups, i) + j < |SettingsIter(groups)|
              && SettingsIter(groups)[Offset(groups, i) + j] == (groups[i].key, groups[i].items[j])
    {
      SettingsIterEntry(groups, i, j);
    }
  }

  /** The names of the settings in `es`. */
  function NameSet(es: seq<Entry>): set<string> {
    set k | 0 <= k < |es| :: es[k].1.name
  }

  predicate UniqueNames(es: seq<Entry>) {
    forall i, j | 0 <= i < j < |es| :: es[i].1.name != es[j].1.name
  }

  /** `create_reverse_map`: a later setting of the same name overwrites an
      earlier one. */
  function ReverseMapOf(es: seq<Entry>): (d: map<string, string>)
    decreases |es|
  {
    if |es| == 0 then map[]
    else
      var (g, prop) := es[|es| - 1];
      ReverseMapOf(es[..|es| - 1])[prop.name := g]
  }

  /** `create_settings_dict`: `setdefault` the group's table, then store the
      setting under its name. */
  function SettingsDictOf(es: seq<Entry>): (d: map<string, map<string, SettingsItem>>)
    decreases |es|
  {
    if |es| == 0 then map[]
    else
      var (g, prop) := es[|es| - 1];
      var d := SettingsDictOf(es[..|es| - 1]);
      var inner := if g in d then d[g] else map[];
      d[g := inner[prop.name := prop]]
  }

  /** A prefix of entries keeps its indices. */
  lemma PrefixAgrees(es: seq<Entry>)
    requires |es| > 0
    ensures forall k | 0 <= k < |es| - 1 :: es[..|es| - 1][k] == es[k]
  {
  }

  /** The reverse map has one key per declared name. */
  lemma {:induction false} ReverseMapCovers(es: seq<Entry>)
    ensures ReverseMapOf(es).Keys == NameSet(es)
    decreases |es|
  {
    if |es| > 0 {
      var init := es[..|es| - 1];
      ReverseMapCovers(init);
      PrefixAgrees(es);
      assert NameSet(es) == NameSet(init) + {es[|es| - 1].1.name};
    }
  }

  /** With unique names the reverse map sends every name to its group. */
  lemma {:induction false} ReverseMapFindsGroup(es: seq<Entry>)
    requires UniqueNames(es)
    ensures forall k | 0 <= k < |es| :: es[k].1.name in ReverseMapOf(es) && ReverseMapOf(es)[es[k].1.name] == es[k].0
    decreases |es|
  {
    if |es| > 0 {
      var init := es[..|es| - 1];
      assert UniqueNames(init);
      ReverseMapFindsGroup(init);
      PrefixAgrees(es);
      ReverseMapCovers(init);
    }
  }

  /** With unique names the settings dict finds every setting under its
      group and name. */
  lemma {:induction false} SettingsDictFindsItem(es: seq<Entry>)
    requires UniqueNames(es)
    ensures forall k | 0 <= k < |es| ::
      && es[k].0 in SettingsDictOf(es)
      && es[k].1.name in SettingsDictOf(es)[es[k].0]
      && SettingsDictOf(es)[es[k].0][es[k].1.name] == es[k].1
    decreases |es|
  {
    if |es| > 0 {
      var init := es[..|es| - 1];
      assert UniqueNames(init);
      SettingsDictFindsItem(init);
      PrefixAgrees(es);
    }
  }

  /** Everything in the settings dict was declared under that group. */
  lemma {:induction false} SettingsDictDeclared(es: seq<Entry>)
    ensures forall g, n | g in SettingsDictOf(es) && n in SettingsDictOf(es)[g] ::
      exists k | 0 <= k < |es| :: es[k].0 == g && es[k].1.name == n
    decreases |es|
  {
    if |es| > 0 {
      var init := es[..|es| - 1];
      SettingsDictDeclared(init);
      PrefixAgrees(es);
      var last := |es| - 1;
      var d := SettingsDictOf(init);
      forall g, n | g in SettingsDictOf(es) && n in SettingsDictOf(es)[g]
        ensures exists k | 0 <= k < |es| :: es[k].0 == g && es[k].1.name == n
      {
        if g == es[last].0 && n == es[last].1.name {
          assert es[last].0 == g && es[last].1.name == n;
        } else {
          assert g in d && n in d[g];
          var k :| 0 <= k < |init| && init[k].0 == g && init[k].1.name == n;
          assert es[k].0 == g && es[k].1.name == n;
        }
      }
    }
  }

  /** For any flattened catalogue with unique names the two tables agree:
      they cover the same names, every setting is found under its own group
      and name, and a name is listed under a group exactly when the reverse
      map sends it there. */
  lemma TablesAgree(es: seq<Entry>)
    requires UniqueNames(es)
    ensures ReverseMapOf(es).Keys == NameSet(es)
    ensures forall k | 0 <= k < |es| ::
      && es[k].1.name in ReverseMapOf(es)
      && ReverseMapOf(es)[es[k].1.name] == es[k].0
      && es[k].0 in SettingsDictOf(es)
      && es[k].1.name in SettingsDictOf(es)[es[k].0]
      && SettingsDictOf(es)[es[k].0][es[k].1.name] == es[k].1
    ensures forall g, n | g in SettingsDictOf(es) && n in SettingsDictOf(es)[g] ::
      n in ReverseMapOf(es) && ReverseMapOf(es)[n] == g
    ensures forall n | n in ReverseMapOf(es) ::
      && ReverseMapOf(es)[n] in SettingsDictOf(es)
      && n in SettingsDictOf(es)[ReverseMapOf(es)[n]]
      && SettingsDictOf(es)[ReverseMapOf(es)[n]][n].name == n
  {
    ReverseMapCovers(es);
    ReverseMapFindsGroup(es);
    SettingsDictFindsItem(es);
    SettingsDictDeclared(es);
    forall n | n in ReverseMapOf(es)
      ensures && ReverseMapOf(es)[n] in SettingsDictOf(es)
              && n in SettingsDictOf(es)[ReverseMapOf(es)[n]]
              && SettingsDictOf(es)[ReverseMapOf(es)[n]][n].name == n
    {
      var k :| 0 <= k < |es| && es[k].1.name == n;
    }
  }

  /** `settings_iter()` over `DEFAULT_SETTINGS`. */
  const Entries: seq<Entry> := SettingsIter(DefaultSettings)

  /** `DEFAULT_SETTINGS_GROUPS_REVERSE`. */
  const GroupsReverse: map<string, string> := ReverseMapOf(Entries)

  /** `DEFAULT_SETTINGS_DICT`. */
  const SettingsDict: map<string, map<string, SettingsItem>> := SettingsDictOf(Entries)

  /** No two settings of `items` share a name. */
  predicate NamesDistinct(items: seq<SettingsItem>) {
    forall i, j | 0 <= i < j < |items| :: items[i].name != items[j].name
  }

  /** No setting of `xs` shares a name with one of `ys`. */
  predicate NamesApart(xs: seq<SettingsItem>, ys: seq<SettingsItem>) {
    forall i, j | 0 <= i < |xs| && 0 <= j < |ys| :: xs[i].name != ys[j].name
  }

  /** The settings listed after the first group share no name with it. */
  lemma LaterGroupsApart(groups: seq<Group>)
    requires |groups| > 0
    requires forall b | 1 <= b < |groups| :: NamesApart(groups[0].items, groups[b].items)
    ensures forall k, i | 0 <= k < |SettingsIter(groups[1..])| && 0 <= i < |groups[0].items| ::
              SettingsIter(groups[1..])[k].1.name != groups[0].items[i].name
  {
    var rest := SettingsIter(groups[1..]);
    forall k, i | 0 <= k < |rest| && 0 <= i < |groups[0].items|
      ensures rest[k].1.name != groups[0].items[i].name
    {
      var b :| 0 <= b < |groups[1..]| && rest[k].0 == groups[1..][b].key && rest[k].1 in groups[1..][b].items;
      var ys := groups[b + 1].items;
      assert NamesApart(groups[0].items, ys);
      var jj :| 0 <= jj < |ys| && ys[jj] == rest[k].1;
    }
  }

  /** Names are unique across the flattening when they are unique within
      each group and no two groups share one. */
  lemma {:induction false} UniqueAcrossGroups(groups: seq<Group>)
    requires forall a | 0 <= a < |groups| :: NamesDistinct(groups[a].items)
    requires forall a, b | 0 <= a < b < |groups| :: NamesApart(groups[a].items, groups[b].items)
    ensures UniqueNames(SettingsIter(groups))
    decreases |groups|
  {
    if |groups| > 0 {
      var g := groups[0];
      var es := SettingsIter(groups);
      var rest := SettingsIter(groups[1..]);
      var n := |g.items|;
      assert forall a | 1 <= a < |groups| :: groups[1..][a - 1] == groups[a];
      UniqueAcrossGroups(groups[1..]);
      LaterGroupsApart(groups);
      assert NamesDistinct(g.items);
      assert forall i | 0 <= i < n :: es[i] == (g.key, g.items[i]);
      assert forall k | n <= k < |es| :: es[k] == rest[k - n];
    }
  }

  lemma GeometryNamesDistinct() ensures NamesDistinct(GeometrySettings) {}
  lemma PrinterNamesDistinct() ensures NamesDistinct(PrinterSettings) {}
  lemma InfillNamesDistinct() ensures NamesDistinct(InfillSettings) {}
  lemma SupportNamesDistinct() ensures NamesDistinct(SupportSettings) {}
  lemma GCodeNamesDistinct() ensures NamesDistinct(GCodeSettings) {}

  lemma GeometryPrinterNamesApart() ensures NamesApart(GeometrySettings, PrinterSettings) {}
  lemma GeometryInfillNamesApart() ensures NamesApart(GeometrySettings, InfillSettings) {}
  lemma GeometrySupportNamesApart() ensures NamesApart(GeometrySettings, SupportSettings) {}
  lemma GeometryGCodeNamesApart() ensures NamesApart(GeometrySettings, GCodeSettings) {}
  lemma PrinterInfillNamesApart() ensures NamesApart(PrinterSettings, InfillSettings) {}
  lemma PrinterSupportNamesApart() ensures NamesApart(PrinterSettings, SupportSettings) {}
  lemma PrinterGCodeNamesApart() ensures NamesApart(PrinterSettings, GCodeSettings) {}
  lemma InfillSupportNamesApart() ensures NamesApart(InfillSettings, SupportSettings) {}
  lemma InfillGCodeNamesApart() ensures NamesApart(InfillSettings, GCodeSettings) {}
  lemma SupportGCodeNamesApart() ensures NamesApart(SupportSettings, GCodeSettings) {}

  /** The declared setting names are unique across all groups. */
  lemma CatalogueNamesUnique()
    ensures UniqueNames(Entries)
  {
    GeometryNamesDistinct();
    PrinterNamesDistinct();
    InfillNamesDistinct();
    SupportNamesDistinct();
    GCodeNamesDistinct();
    GeometryPrinterNamesApart();
    GeometryInfillNamesApart();
    GeometrySupportNamesApart();
    GeometryGCodeNamesApart();
    PrinterInfillNamesApart();
    PrinterSupportNamesApart();
    PrinterGCodeNamesApart();
    InfillSupportNamesApart();
    InfillGCodeNamesApart();
    SupportGCodeNamesApart();
    UniqueAcrossGroups(DefaultSettings);
  }

  /** Every setting of the catalogue is found under its group and name in
      `DEFAULT_SETTINGS_DICT`, the reverse map sends its name to that group,
      and the two tables list the same names. */
  lemma CatalogueTablesAgree()
    ensures GroupsReverse.Keys == NameSet(Entries)
    ensures forall k | 0 <= k < |Entries| ::
      && Entries[k].1.name in GroupsReverse
      && GroupsReverse[Entries[k].1.name] == Entries[k].0
      && Entries[k].0 in SettingsDict
      && Entries[k].1.name in SettingsDict[Entries[k].0]
      && SettingsDict[Entries[k].0][Entries[k].1.name] == Entries[k].1
    ensures forall n | n in GroupsReverse ::
      GroupsReverse[n] in SettingsDict && n in SettingsDict[GroupsReverse[n]] && SettingsDict[GroupsReverse[n]][n].name == n
    ensures forall g, n | g in SettingsDict && n in SettingsDict[g] :: n in GroupsReverse && GroupsReverse[n] == g
  {
    CatalogueNamesUnique();
    TablesAgree(Entries);
  }

  // ---------------------------------------------------------------------------
  // Declared defaults

  /** The declared default lies in the declared range and has the type the
      setting stores (a float setting may be declared with an integer). */
  predicate DefaultFits(item: SettingsItem) {
    match item.kind
    case FloatRange(lo, hi, _) =>
      || (item.default.PyFloat? && lo <= item.default.x <= hi)
      || (item.default.PyInt? && lo <= item.default.i as real <= hi)
    case IntRange(lo, hi, _) => item.default.PyInt? && lo <= item.default.i <= hi
    case Flag => item.default.PyBool?
  }

  predicate AllDefaultsFit(items: seq<SettingsItem>) {
    forall i | 0 <= i < |items| :: DefaultFits(items[i])
  }

  lemma {:induction false} FlattenKeepsFit(groups: seq<Group>)
    requires forall a | 0 <= a < |groups| :: AllDefaultsFit(groups[a].items)
    ensures forall k | 0 <= k < |SettingsIter(groups)| :: DefaultFits(SettingsIter(groups)[k].1)
  {
    var es := SettingsIter(groups);
    forall k | 0 <= k < |es|
      ensures DefaultFits(es[k].1)
    {
      var a :| 0 <= a < |groups| && es[k].0 == groups[a].key && es[k].1 in groups[a].items;
      assert AllDefaultsFit(groups[a].items);
    }
  }

  lemma GeometryDefaultsFit() ensures AllDefaultsFit(GeometrySettings) {}
  lemma PrinterDefaultsFit() ensures AllDefaultsFit(PrinterSettings) {}
  lemma InfillDefaultsFit() ensures AllDefaultsFit(InfillSettings) {}
  lemma SupportDefaultsFit() ensures AllDefaultsFit(SupportSettings) {}
  lemma GCodeDefaultsFit() ensures AllDefaultsFit(GCodeSettings) {}

  /** Every declared default lies within its setting's range. */
  lemma CatalogueDefaultsFit()
    ensures forall k | 0 <= k < |Entries| :: DefaultFits(Entries[k].1)
  {
    GeometryDefaultsFit();
    PrinterDefaultsFit();
    InfillDefaultsFit();
    SupportDefaultsFit();
    GCodeDefaultsFit();
    FlattenKeepsFit(DefaultSettings);
  }
}
