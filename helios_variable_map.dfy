/**
 * The table of every variable the binding knows, keyed by item name, and its two
 * listings: the entries sorted by variable number, and the rows of the HTML overview.
 */
module HeliosVariableMap {
  import opened Wrappers
  import opened JavaText
  import opened HeliosVariable

  /** One entry of the table: an item name and its descriptor. */
  datatype Entry = Entry(name: string, v: Variable)

  /** The numeric value of a bound; a Double is taken as the real number it denotes. */
  function NumValue(n: Number): real
  {
    match n
    case Integer(i) => i as real
    case Long(l) => l as real
    case Double(d) => d
  }

  /** A bounded descriptor's minimum does not exceed its maximum. */
  predicate BoundsOrdered(v: Variable)
  {
    v.minVal.Some? && v.maxVal.Some? ==> NumValue(v.minVal.value) <= NumValue(v.maxVal.value)
  }

  /** A read of count registers returns 2 * count bytes: room for "vNNNNN=" and length characters. */
  predicate ReplyFits(v: Variable)
  {
    2 * v.count >= 7 + v.length
  }

  /**
   * The usual register count: the smallest that holds "vNNNNN=", length characters and
   * a terminating zero byte, that is, ceil((length + 8) / 2).
   */
  predicate UsualCount(v: Variable)
  {
    v.count == (v.length + 9) / 2
  }

  /** A Long bound, which setValue could not reach through parseInt, only occurs on read-only variables. */
  predicate LongBoundReadOnly(v: Variable)
  {
    v.maxVal.Some? && v.maxVal.value.Long? ==> v.access == ACCESS_R
  }

  /**
   * What every entry of the table satisfies: a shape a constructor makes, ordered bounds,
   * a reply that fits, and Long bounds on read-only variables only.
   */
  predicate EntryOk(v: Variable)
  {
    WellFormed(v) && BoundsOrdered(v) && ReplyFits(v) && LongBoundReadOnly(v)
  }

  /**
   * A proof device: the variable number the table gives each of its names, read off the
   * name's length and at most three of its characters. Agreeing with it row by row is
   * what makes the table's names distinct (NamesDistinct).
   */
  ghost function CatalogIndex(s: string): int
  {
    match |s|
    case 4 => IndexOfLength4(s)
    case 5 => 1125
    case 6 => IndexOfLength6(s)
    case 7 => 22
    case 8 => IndexOfLength8(s)
    case 9 => IndexOfLength9(s)
    case 10 => IndexOfLength10(s)
    case 11 => IndexOfLength11(s)
    case 12 => IndexOfLength12(s)
    case 13 => IndexOfLength13(s)
    case 14 => IndexOfLength14(s)
    case 15 => IndexOfLength15(s)
    case 16 => IndexOfLength16(s)
    case 17 => IndexOfLength17(s)
    case 18 => IndexOfLength18(s)
    case 19 => IndexOfLength19(s)
    case 20 => IndexOfLength20(s)
    case 21 => IndexOfLength21(s)
    case 22 => IndexOfLength22(s)
    case 23 => IndexOfLength23(s)
    case 24 => IndexOfLength24(s)
    case 25 => IndexOfLength25(s)
    case 26 => IndexOfLength26(s)
    case 27 => IndexOfLength27(s)
    case 28 => IndexOfLength28(s)
    case 31 => 1103
    case 32 => 1104
    case 33 => 606
    case _ => -1
  }

  ghost function IndexOfLength4(s: string): int
    requires |s| == 4
  {
    match s[0]
    case 'd' => 4
    case _ => 5
  }

  ghost function IndexOfLength6(s: string): int
    requires |s| == 6
  {
    match s[0]
    case 'r' => 1
    case 'k' => 21
    case 's' => 303
    case 'l' => 403
    case _ => 1123
  }

  ghost function IndexOfLength8(s: string): int
    requires |s| == 8
  {
    match s[0]
    case 'l' => 3
    case 'v' => 1010
    case _ => 1124
  }

  ghost function IndexOfLength9(s: string): int
    requires |s| == 9
  {
    match s[0]
    case 'f' => 102
    case _ => 304
  }

  ghost function IndexOfLength10(s: string): int
    requires |s| == 10
  {
    match s[0]
    case 'p' => 94
    case 's' => 1101
    case _ => 1120
  }

  ghost function IndexOfLength11(s: string): int
    requires |s| == 11
  {
    match s[0]
    case 'm' => 2
    case 'u' => 23
    case 'd' => 52
    case _ => 2015
  }

  ghost function IndexOfLength12(s: string): int
    requires |s| == 12
  {
    match s[3]
    case 'f' => 43
    case 'n' => 99
    case 'o' => 1305
    case _ => 1306
  }

  ghost function IndexOfLength13(s: string): int
    requires |s| == 13
  {
    match s[2]
    case 'm' => 6
    case 'n' => 20
    case 'l' => 1031
    case 'c' => 1041
    case _ => 1303
  }

  ghost function IndexOfLength14(s: string): int
    requires |s| == 14
  {
    match (s[10], s[12], s[13])
    case ('d', 't', 'e') => 7
    case ('1', 'e', 'a') => 12
    case ('1', 's', 'a') => 13
    case ('2', 'e', 'a') => 14
    case ('2', 's', 'a') => 15
    case ('3', 'e', 'a') => 16
    case ('3', 's', 'a') => 17
    case ('4', 'e', 'a') => 18
    case ('4', 's', 'a') => 19
    case ('m', 'd', 'e') => 101
    case ('_', 'p', 'm') => 348
    case ('f', 'g', '1') => 2020
    case ('f', 'g', '2') => 2021
    case ('f', 'g', '3') => 2022
    case ('f', 'g', '4') => 2023
    case ('f', 'g', '5') => 2024
    case ('f', 'g', '6') => 2025
    case ('f', 'g', '7') => 2026
    case _ => 2027
  }

  ghost function IndexOfLength15(s: string): int
    requires |s| == 15
  {
    match (s[0], s[14])
    case ('k', '0') => 25
    case ('k', '1') => 26
    case ('k', '2') => 27
    case ('k', '3') => 28
    case ('k', '4') => 29
    case ('k', '5') => 30
    case ('k', '6') => 31
    case ('k', '7') => 32
    case ('v', 'r') => 108
    case ('n', 'r') => 146
    case ('e', 'm') => 349
    case ('n', 's') => 1302
    case _ => 1304
  }

  ghost function IndexOfLength16(s: string): int
    requires |s| == 16
  {
    match (s[12], s[15])
    case ('_', 'z') => 201
    case ('t', 't') => 1020
    case ('t', 'p') => 1035
    case ('c', '1') => 1081
    case ('c', '2') => 1082
    case ('c', '3') => 1083
    case ('c', '4') => 1084
    case ('c', '5') => 1085
    case ('c', '6') => 1086
    case ('c', '7') => 1087
    case ('c', '8') => 1088
    case ('v', '1') => 1091
    case ('v', '2') => 1092
    case ('v', '3') => 1093
    case ('v', '4') => 1094
    case ('v', '5') => 1095
    case ('v', '6') => 1096
    case ('v', '7') => 1097
    case ('v', '8') => 1098
    case _ => 1300
  }

  ghost function IndexOfLength17(s: string): int
    requires |s| == 17
  {
    match s[0]
    case 'p' => 24
    case 'c' => 39
    case 'v' => 42
    case 'n' => 110
    case _ => 601
  }

  ghost function IndexOfLength18(s: string): int
    requires |s| == 18
  {
    match s[0]
    case 'c' => 37
    case 'v' => 40
    case 'o' => 1066
    case _ => 1301
  }

  ghost function IndexOfLength19(s: string): int
    requires |s| == 19
  {
    match (s[0], s[16])
    case ('a', 'i') => 0
    case ('h', 'y') => 53
    case ('p', 'i') => 91
    case ('r', 'n') => 1019
    case ('f', 'w') => 1037
    case ('o', 'v') => 1105
    case ('o', 'n') => 1106
    case _ => 2014
  }

  ghost function IndexOfLength20(s: string): int
    requires |s| == 20
  {
    match (s[1], s[15], s[19])
    case ('c', 'o', 'l') => 8
    case ('a', 's', 'e') => 92
    case ('e', 's', 'e') => 103
    case ('x', 'c', '1') => 128
    case ('x', 'c', '2') => 129
    case ('x', 'c', '3') => 130
    case ('x', 'c', '4') => 131
    case ('x', 'c', '5') => 132
    case ('x', 'c', '6') => 133
    case ('x', 'c', '7') => 134
    case ('x', 'c', '8') => 135
    case ('x', 'v', '1') => 136
    case ('x', 'v', '2') => 137
    case ('x', 'v', '3') => 138
    case ('x', 'v', '4') => 139
    case ('x', 'v', '5') => 140
    case ('x', 'v', '6') => 141
    case ('x', 'v', '7') => 142
    case ('x', 'v', '8') => 143
    case ('u', 'w', 'm') => 1017
    case _ => 1050
  }

  ghost function IndexOfLength21(s: string): int
    requires |s| == 21
  {
    match s[2]
    case '2' => 38
    case 'c' => 41
    case 'm' => 51
    case 'a' => 96
    case 'l' => 604
    case 'r' => 1021
    case _ => 1051
  }

  ghost function IndexOfLength22(s: string): int
    requires |s| == 22
  {
    match s[0]
    case 'h' => 35
    case 's' => 97
    case 't' => 105
    case _ => 1032
  }

  ghost function IndexOfLength23(s: string): int
    requires |s| == 23
  {
    match s[12]
    case 't' => 33
    case 'o' => 104
    case 'e' => 107
    case 'r' => 603
    case _ => 1036
  }

  ghost function IndexOfLength24(s: string): int
    requires |s| == 24
  {
    match s[13]
    case 'u' => 106
    case 'v' => 1108
    case 'n' => 1109
    case _ => 2013
  }

  ghost function IndexOfLength25(s: string): int
    requires |s| == 25
  {
    match s[24]
    case 'e' => 93
    case '1' => 119
    case '2' => 120
    case '3' => 121
    case '4' => 122
    case '5' => 123
    case '6' => 124
    case '7' => 125
    case _ => 126
  }

  ghost function IndexOfLength26(s: string): int
    requires |s| == 26
  {
    match (s[18], s[25])
    case ('e', 'e') => 34
    case ('t', 'e') => 36
    case ('_', '1') => 111
    case ('_', '2') => 112
    case ('_', '3') => 113
    case ('_', '4') => 114
    case ('_', '5') => 115
    case ('_', '6') => 116
    case ('_', '7') => 117
    case ('_', '8') => 118
    case ('i', 'l') => 605
    case ('t', '1') => 1071
    case ('t', '2') => 1072
    case ('t', '3') => 1073
    case ('t', '4') => 1074
    case ('t', '5') => 1075
    case ('t', '6') => 1076
    case ('t', '7') => 1077
    case _ => 1078
  }

  ghost function IndexOfLength27(s: string): int
    requires |s| == 27
  {
    match s[24]
    case 'i' => 98
    case 'a' => 602
    case '0' => 1061
    case '2' => 1062
    case '4' => 1063
    case '6' => 1064
    case _ => 1068
  }

  ghost function IndexOfLength28(s: string): int
    requires |s| == 28
  {
    match s[1]
    case 'i' => 1033
    case _ => 1065
  }

  /** Each row's name maps to its variable number under CatalogIndex. */
  ghost predicate Indexed(rows: seq<Entry>)
  {
    forall k | 0 <= k < |rows| :: CatalogIndex(rows[k].name) == rows[k].v.variable
  }

  predicate EntriesOk(rows: seq<Entry>)
  {
    forall k | 0 <= k < |rows| :: EntryOk(rows[k].v)
  }

  /** Every row has the usual register count, except party-mode_fan_stage (92) and fan_stage (102). */
  predicate UsualCounts(rows: seq<Entry>)
  {
    forall k | 0 <= k < |rows| :: UsualCount(rows[k].v) || rows[k].v.variable in {92, 102}
  }

  predicate Ascending(rows: seq<Entry>)
  {
    forall k | 0 < k < |rows| :: rows[k - 1].v.variable < rows[k].v.variable
  }

  predicate Within(rows: seq<Entry>, lo: int, hi: int)
  {
    forall k | 0 <= k < |rows| :: lo <= rows[k].v.variable < hi
  }

  predicate DistinctIds(rows: seq<Entry>)
  {
    forall i, j | 0 <= i < j < |rows| :: rows[i].v.variable != rows[j].v.variable
  }

  predicate DistinctNames(rows: seq<Entry>)
  {
    forall i, j | 0 <= i < j < |rows| :: rows[i].name != rows[j].name
  }

  /** What the whole table satisfies, row by row and pairwise. */
  ghost predicate Good(rows: seq<Entry>)
  {
    Indexed(rows) && EntriesOk(rows) && UsualCounts(rows) && DistinctIds(rows)
  }

  lemma {:induction false} AscendingIncreasing(rows: seq<Entry>, i: int, j: int)
    requires Ascending(rows) && 0 <= i < j < |rows|
    ensures rows[i].v.variable < rows[j].v.variable
    decreases j - i
  {
    if i + 1 < j {
      AscendingIncreasing(rows, i, j - 1);
    }
  }

  lemma AscendingDistinct(rows: seq<Entry>)
    requires Ascending(rows)
    ensures DistinctIds(rows)
  {
    forall i, j | 0 <= i < j < |rows| ensures rows[i].v.variable != rows[j].v.variable {
      AscendingIncreasing(rows, i, j);
    }
  }

  /** No variable number occurs in both runs of puts. */
  predicate Disjoint(a: seq<Entry>, b: seq<Entry>)
  {
    forall i, j | 0 <= i < |a| && 0 <= j < |b| :: a[i].v.variable != b[j].v.variable
  }

  /** Two good runs of puts with disjoint numbers make a good run. */
  lemma Join(a: seq<Entry>, b: seq<Entry>)
    requires Good(a) && Good(b) && Disjoint(a, b)
    ensures Good(a + b)
  {
    var ab := a + b;
    forall i, j | 0 <= i < j < |ab| ensures ab[i].v.variable != ab[j].v.variable {
      if j < |a| {
        assert ab[i] == a[i] && ab[j] == a[j];
      } else if i < |a| {
        assert ab[i] == a[i] && ab[j] == b[j - |a|];
      } else {
        assert ab[i] == b[i - |a|] && ab[j] == b[j - |a|];
      }
    }
  }

  /** Appending good puts whose numbers lie above the numbers already put keeps the table good. */
  lemma JoinAbove(a: seq<Entry>, b: seq<Entry>, lo: int, mid: int, hi: int)
    requires lo <= mid <= hi
    requires Good(a) && Within(a, lo, mid)
    requires Good(b) && Within(b, mid, hi)
    ensures Good(a + b) && Within(a + b, lo, hi)
  {
    Join(a, b);
    forall k | 0 <= k < |a + b| ensures lo <= (a + b)[k].v.variable < hi {
      if k < |a| {
        assert (a + b)[k] == a[k];
      } else {
        assert (a + b)[k] == b[k - |a|];
      }
    }
  }

  /** The descriptions array of HeliosVariableMap.java lines 45-54. */
  const VOLT_FAN_NAMES: seq<string> := ["volt_fan_s1_ea", "volt_fan_s1_sa", "volt_fan_s2_ea", "volt_fan_s2_sa", "volt_fan_s3_ea", "volt_fan_s3_sa", "volt_fan_s4_ea", "volt_fan_s4_sa"]

  /** The descriptions array of HeliosVariableMap.java lines 164-169. */
  const OPERATING_HOUR_NAMES: seq<string> := ["operating_hours_supply_air_vent", "operating_hours_extract_air_vent", "operating_hours_vhz", "operating_hours_nhz"]

  /** The descriptions array of HeliosVariableMap.java lines 172-175. */
  const OUTPUT_POWER_NAMES: seq<string> := ["output_power_vhz_percent", "output_power_nhz_percent"]

  /** Article description, reference and MAC address, language and date (HeliosVariableMap.java lines 35-39). */
  function IdentityRows(): (rows: seq<Entry>)
    ensures |rows| == 5
  {
    [
      Entry("article_description", New(0, ACCESS_RW, 31, 20, TYPE_STRING)),
      Entry("ref_no", New(1, ACCESS_RW, 16, 12, TYPE_STRING)),
      Entry("mac_address", New(2, ACCESS_R, 18, 13, TYPE_STRING)),
      Entry("language", New(3, ACCESS_RW, 2, 5, TYPE_STRING)),
      Entry("date", New(4, ACCESS_RW, 10, 9, TYPE_STRING))
    ]
  }

  lemma IdentityIndexed() ensures Indexed(IdentityRows()) {}
  lemma IdentityGood() ensures EntriesOk(IdentityRows()) && UsualCounts(IdentityRows()) {}
  lemma IdentityOrdered() ensures Ascending(IdentityRows()) && Within(IdentityRows(), 0, 5) {}

  /** Time, summer/winter time and the update and portal switches (HeliosVariableMap.java lines 40-43). */
  function ClockUpdateRows(): (rows: seq<Entry>)
    ensures |rows| == 4
  {
    [
      Entry("time", New(5, ACCESS_RW, 10, 9, TYPE_STRING)),
      Entry("summer_winter", New(6, ACCESS_RW, 1, 5, TYPE_INTEGER)),
      Entry("auto_sw_update", New(7, ACCESS_RW, 1, 5, TYPE_INTEGER)),
      Entry("access_helios_portal", New(8, ACCESS_RW, 1, 5, TYPE_INTEGER))
    ]
  }

  lemma ClockUpdateIndexed() ensures Indexed(ClockUpdateRows()) {}
  lemma ClockUpdateGood() ensures EntriesOk(ClockUpdateRows()) && UsualCounts(ClockUpdateRows()) {}
  lemma ClockUpdateOrdered() ensures Ascending(ClockUpdateRows()) && Within(ClockUpdateRows(), 5, 12) {}

  /** The eight fan voltages, named by the descriptions array (HeliosVariableMap.java lines 45-55). */
  function VoltFanRows(): (rows: seq<Entry>)
    ensures |rows| == 8
  {
    seq(8, j requires 0 <= j < 8 => VoltFanRow(12 + j))
  }

  /** The loop body: the entry put for loop index i. */
  function VoltFanRow(i: int): Entry
    requires 12 <= i < 20
  {
    Entry(VOLT_FAN_NAMES[i - 12], NewDoubleBounded(i, ACCESS_RW, 3, 6, TYPE_FLOAT, 1.6, 10.0))
  }

  lemma VoltFanIndexed() ensures Indexed(VoltFanRows()) {}
  lemma VoltFanGood() ensures EntriesOk(VoltFanRows()) && UsualCounts(VoltFanRows()) {}
  lemma VoltFanOrdered() ensures Ascending(VoltFanRows()) && Within(VoltFanRows(), 12, 20) {}

  /** Minimum fan stage and unit configuration (HeliosVariableMap.java lines 57-61). */
  function UnitRows(): (rows: seq<Entry>)
    ensures |rows| == 5
  {
    [
      Entry("min_fan_stage", NewIntBounded(20, ACCESS_RW, 1, 5, TYPE_INTEGER, 0, 1)),
      Entry("kwl_be", NewIntBounded(21, ACCESS_RW, 1, 5, TYPE_INTEGER, 0, 1)),
      Entry("kwl_bec", NewIntBounded(22, ACCESS_RW, 1, 5, TYPE_INTEGER, 0, 1)),
      Entry("unit_config", NewIntBounded(23, ACCESS_RW, 1, 5, TYPE_INTEGER, 0, 1)),
      Entry("pre-heater_status", NewIntBounded(24, ACCESS_RW, 1, 5, TYPE_INTEGER, 0, 1))
    ]
  }

  lemma UnitIndexed() ensures Indexed(UnitRows()) {}
  lemma UnitGood() ensures EntriesOk(UnitRows()) && UsualCounts(UnitRows()) {}
  lemma UnitOrdered() ensures Ascending(UnitRows()) && Within(UnitRows(), 20, 25) {}

  /** kwl_ftf_config0 .. kwl_ftf_config7, numbers 25 .. 32 (HeliosVariableMap.java line 63). */
  function KwlFtfConfigRows(): (rows: seq<Entry>)
    ensures |rows| == 8
  {
    seq(8, j requires 0 <= j < 8 => KwlFtfConfigRow(25 + j))
  }

  /** The loop body: the entry put for loop index i. */
  function KwlFtfConfigRow(i: int): Entry
    requires 25 <= i < 33
  {
    Entry("kwl_ftf_config" + DecimalString(i - 25), NewIntBounded(i, ACCESS_RW, 1, 5, TYPE_INTEGER, 1, 3))
  }

  lemma KwlFtfConfigIndexed() ensures Indexed(KwlFtfConfigRows()) {}
  lemma KwlFtfConfigGood() ensures EntriesOk(KwlFtfConfigRows()) && UsualCounts(KwlFtfConfigRows()) {}
  lemma KwlFtfConfigOrdered() ensures Ascending(KwlFtfConfigRows()) && Within(KwlFtfConfigRows(), 25, 33) {}

  /** Humidity control (HeliosVariableMap.java lines 65-68). */
  function HumidityControlRows(): (rows: seq<Entry>)
    ensures |rows| == 4
  {
    [
      Entry("humidity_control_status", NewIntBounded(33, ACCESS_RW, 1, 5, TYPE_INTEGER, 0, 2)),
      Entry("humidity_control_set_value", NewIntBounded(34, ACCESS_RW, 2, 5, TYPE_INTEGER, 20, 80)),
      Entry("humidity_control_steps", NewIntBounded(35, ACCESS_RW, 2, 5, TYPE_INTEGER, 5, 20)),
      Entry("humidity_control_stop_time", NewIntBounded(36, ACCESS_RW, 2, 5, TYPE_INTEGER, 0, 24))
    ]
  }

  lemma HumidityControlIndexed() ensures Indexed(HumidityControlRows()) {}
  lemma HumidityControlGood() ensures EntriesOk(HumidityControlRows()) && UsualCounts(HumidityControlRows()) {}
  lemma HumidityControlOrdered() ensures Ascending(HumidityControlRows()) && Within(HumidityControlRows(), 33, 37) {}

  /** CO2 control (HeliosVariableMap.java lines 70-72). */
  function Co2ControlRows(): (rows: seq<Entry>)
    ensures |rows| == 3
  {
    [
      Entry("co2_control_status", NewIntBounded(37, ACCESS_RW, 1, 5, TYPE_INTEGER, 0, 2)),
      Entry("co2_control_set_value", NewIntBounded(38, ACCESS_RW, 4, 6, TYPE_INTEGER, 300, 2000)),
      Entry("co2_control_steps", NewIntBounded(39, ACCESS_RW, 3, 6, TYPE_INTEGER, 50, 400))
    ]
  }

  lemma Co2ControlIndexed() ensures Indexed(Co2ControlRows()) {}
  lemma Co2ControlGood() ensures EntriesOk(Co2ControlRows()) && UsualCounts(Co2ControlRows()) {}
  lemma Co2ControlOrdered() ensures Ascending(Co2ControlRows()) && Within(Co2ControlRows(), 37, 40) {}

  /** VOC control (HeliosVariableMap.java lines 74-76). */
  function VocControlRows(): (rows: seq<Entry>)
    ensures |rows| == 3
  {
    [
      Entry("voc_control_status", NewIntBounded(40, ACCESS_RW, 1, 5, TYPE_INTEGER, 0, 2)),
      Entry("voc_control_set_value", NewIntBounded(41, ACCESS_RW, 4, 6, TYPE_INTEGER, 300, 2000)),
      Entry("voc_control_steps", NewIntBounded(42, ACCESS_RW, 3, 6, TYPE_INTEGER, 50, 400))
    ]
  }

  lemma VocControlIndexed() ensures Indexed(VocControlRows()) {}
  lemma VocControlGood() ensures EntriesOk(VocControlRows()) && UsualCounts(VocControlRows()) {}
  lemma VocControlOrdered() ensures Ascending(VocControlRows()) && Within(VocControlRows(), 40, 43) {}

  /** Comfort temperature, time zone, date format and heat exchanger type (HeliosVariableMap.java lines 78-83). */
  function ComfortTimeRows(): (rows: seq<Entry>)
    ensures |rows| == 4
  {
    [
      Entry("comfort_temp", NewIntBounded(43, ACCESS_RW, 4, 6, TYPE_INTEGER, 10, 25)),
      Entry("time_zone_diff_to_gmt", NewIntBounded(51, ACCESS_RW, 3, 6, TYPE_INTEGER, -12, 14)),
      Entry("date_format", NewIntBounded(52, ACCESS_RW, 1, 5, TYPE_INTEGER, 0, 2)),
      Entry("heat_exchanger_type", NewIntBounded(53, ACCESS_RW, 1, 5, TYPE_INTEGER, 0, 3))
    ]
  }

  lemma ComfortTimeIndexed() ensures Indexed(ComfortTimeRows()) {}
  lemma ComfortTimeGood() ensures EntriesOk(ComfortTimeRows()) && UsualCounts(ComfortTimeRows()) {}
  lemma ComfortTimeOrdered() ensures Ascending(ComfortTimeRows()) && Within(ComfortTimeRows(), 43, 91) {}

  /** Party mode (HeliosVariableMap.java lines 85-88). */
  function PartyModeRows(): (rows: seq<Entry>)
    ensures |rows| == 4
  {
    [
      Entry("party-mode_duration", NewIntBounded(91, ACCESS_RW, 3, 6, TYPE_INTEGER, 5, 180)),
      Entry("party-mode_fan_stage", NewIntBounded(92, ACCESS_RW, 3, 5, TYPE_INTEGER, 0, 4)),
      Entry("party-mode_remaining_time", NewIntBounded(93, ACCESS_R, 3, 6, TYPE_INTEGER, 0, 180)),
      Entry("party-mode", NewIntBounded(94, ACCESS_RW, 1, 5, TYPE_INTEGER, 0, 1))
    ]
  }

  lemma PartyModeIndexed() ensures Indexed(PartyModeRows()) {}
  lemma PartyModeGood() ensures EntriesOk(PartyModeRows()) && UsualCounts(PartyModeRows()) {}
  lemma PartyModeOrdered() ensures Ascending(PartyModeRows()) && Within(PartyModeRows(), 91, 96) {}

  /** Standby mode (HeliosVariableMap.java lines 90-93). */
  function StandbyModeRows(): (rows: seq<Entry>)
    ensures |rows| == 4
  {
    [
      Entry("standby-mode_duration", NewIntBounded(96, ACCESS_RW, 3, 6, TYPE_INTEGER, 5, 180)),
      Entry("standby-mode_fan_stage", NewIntBounded(97, ACCESS_RW, 1, 5, TYPE_INTEGER, 0, 4)),
      Entry("standby-mode_remaining_time", NewIntBounded(98, ACCESS_R, 3, 6, TYPE_INTEGER, 0, 180)),
      Entry("standby-mode", NewIntBounded(99, ACCESS_RW, 1, 5, TYPE_INTEGER, 0, 1))
    ]
  }

  lemma StandbyModeIndexed() ensures Indexed(StandbyModeRows()) {}
  lemma StandbyModeGood() ensures EntriesOk(StandbyModeRows()) && UsualCounts(StandbyModeRows()) {}
  lemma StandbyModeOrdered() ensures Ascending(StandbyModeRows()) && Within(StandbyModeRows(), 96, 101) {}

  /** Operating mode and fan stage (HeliosVariableMap.java lines 95-97). */
  function OperatingModeRows(): (rows: seq<Entry>)
    ensures |rows| == 3
  {
    [
      Entry("operating_mode", NewIntBounded(101, ACCESS_RW, 1, 5, TYPE_INTEGER, 0, 1)),
      Entry("fan_stage", NewIntBounded(102, ACCESS_RW, 3, 5, TYPE_INTEGER, 0, 4)),
      Entry("percentage_fan_stage", NewIntBounded(103, ACCESS_R, 3, 6, TYPE_INTEGER, 0, 100))
    ]
  }

  lemma OperatingModeIndexed() ensures Indexed(OperatingModeRows()) {}
  lemma OperatingModeGood() ensures EntriesOk(OperatingModeRows()) && UsualCounts(OperatingModeRows()) {}
  lemma OperatingModeOrdered() ensures Ascending(OperatingModeRows()) && Within(OperatingModeRows(), 101, 104) {}

  /** Air temperatures (HeliosVariableMap.java lines 99-102). */
  function TemperatureRows(): (rows: seq<Entry>)
    ensures |rows| == 4
  {
    [
      Entry("temperature_outside_air", NewIntBounded(104, ACCESS_R, 7, 8, TYPE_INTEGER, -27, 9998)),
      Entry("temperature_supply_air", NewIntBounded(105, ACCESS_R, 7, 8, TYPE_INTEGER, -27, 9998)),
      Entry("temperature_outgoing_air", NewIntBounded(106, ACCESS_R, 7, 8, TYPE_INTEGER, -27, 9998)),
      Entry("temperature_extract_air", NewIntBounded(107, ACCESS_R, 7, 8, TYPE_INTEGER, -27, 9998))
    ]
  }

  lemma TemperatureIndexed() ensures Indexed(TemperatureRows()) {}
  lemma TemperatureGood() ensures EntriesOk(TemperatureRows()) && UsualCounts(TemperatureRows()) {}
  lemma TemperatureOrdered() ensures Ascending(TemperatureRows()) && Within(TemperatureRows(), 104, 108) {}

  /** Duct and return sensors of the heaters (HeliosVariableMap.java lines 104-105). */
  function DuctSensorRows(): (rows: seq<Entry>)
    ensures |rows| == 2
  {
    [
      Entry("vhz_duct_sensor", NewIntBounded(108, ACCESS_R, 7, 8, TYPE_INTEGER, -27, 9998)),
      Entry("nhz_return_sensor", NewIntBounded(110, ACCESS_R, 7, 8, TYPE_INTEGER, -27, 9998))
    ]
  }

  lemma DuctSensorIndexed() ensures Indexed(DuctSensorRows()) {}
  lemma DuctSensorGood() ensures EntriesOk(DuctSensorRows()) && UsualCounts(DuctSensorRows()) {}
  lemma DuctSensorOrdered() ensures Ascending(DuctSensorRows()) && Within(DuctSensorRows(), 108, 111) {}

  /** ext_sensor_kwl-ftf_humid_1 .. 8, numbers 111 .. 118 (HeliosVariableMap.java line 107). */
  function ExtHumidityRows(): (rows: seq<Entry>)
    ensures |rows| == 8
  {
    seq(8, j requires 0 <= j < 8 => ExtHumidityRow(111 + j))
  }

  /** The loop body: the entry put for loop index i. */
  function ExtHumidityRow(i: int): Entry
    requires 111 <= i < 119
  {
    Entry("ext_sensor_kwl-ftf_humid_" + DecimalString(i - 110), NewIntBounded(i, ACCESS_R, 4, 6, TYPE_INTEGER, 0, 9998))
  }

  lemma ExtHumidityIndexed() ensures Indexed(ExtHumidityRows()) {}
  lemma ExtHumidityGood() ensures EntriesOk(ExtHumidityRows()) && UsualCounts(ExtHumidityRows()) {}
  lemma ExtHumidityOrdered() ensures Ascending(ExtHumidityRows()) && Within(ExtHumidityRows(), 111, 119) {}

  /** ext_sensor_kwl-ftf_temp_1 .. 8, numbers 119 .. 126 (HeliosVariableMap.java line 108). */
  function ExtTemperatureRows(): (rows: seq<Entry>)
    ensures |rows| == 8
  {
    seq(8, j requires 0 <= j < 8 => ExtTemperatureRow(119 + j))
  }

  /** The loop body: the entry put for loop index i. */
  function ExtTemperatureRow(i: int): Entry
    requires 119 <= i < 127
  {
    Entry("ext_sensor_kwl-ftf_temp_" + DecimalString(i - 118), NewIntBounded(i, ACCESS_R, 7, 8, TYPE_INTEGER, -27, 9998))
  }

  lemma ExtTemperatureIndexed() ensures Indexed(ExtTemperatureRows()) {}
  lemma ExtTemperatureGood() ensures EntriesOk(ExtTemperatureRows()) && UsualCounts(ExtTemperatureRows()) {}
  lemma ExtTemperatureOrdered() ensures Ascending(ExtTemperatureRows()) && Within(ExtTemperatureRows(), 119, 128) {}

  /** ext_sensor_kwl-co2_1 .. 8, numbers 128 .. 135 (HeliosVariableMap.java line 109). */
  function ExtCo2Rows(): (rows: seq<Entry>)
    ensures |rows| == 8
  {
    seq(8, j requires 0 <= j < 8 => ExtCo2Row(128 + j))
  }

  /** The loop body: the entry put for loop index i. */
  function ExtCo2Row(i: int): Entry
    requires 128 <= i < 136
  {
    Entry("ext_sensor_kwl-co2_" + DecimalString(i - 127), NewIntBounded(i, ACCESS_R, 4, 6, TYPE_INTEGER, 0, 9998))
  }

  lemma ExtCo2Indexed() ensures Indexed(ExtCo2Rows()) {}
  lemma ExtCo2Good() ensures EntriesOk(ExtCo2Rows()) && UsualCounts(ExtCo2Rows()) {}
  lemma ExtCo2Ordered() ensures Ascending(ExtCo2Rows()) && Within(ExtCo2Rows(), 128, 136) {}

  /** ext_sensor_kwl-voc_1 .. 8, numbers 136 .. 143 (HeliosVariableMap.java line 110). */
  function ExtVocRows(): (rows: seq<Entry>)
    ensures |rows| == 8
  {
    seq(8, j requires 0 <= j < 8 => ExtVocRow(136 + j))
  }

  /** The loop body: the entry put for loop index i. */
  function ExtVocRow(i: int): Entry
    requires 136 <= i < 144
  {
    Entry("ext_sensor_kwl-voc_" + DecimalString(i - 135), NewIntBounded(i, ACCESS_R, 4, 6, TYPE_INTEGER, 0, 9998))
  }

  lemma ExtVocIndexed() ensures Indexed(ExtVocRows()) {}
  lemma ExtVocGood() ensures EntriesOk(ExtVocRows()) && UsualCounts(ExtVocRows()) {}
  lemma ExtVocOrdered() ensures Ascending(ExtVocRows()) && Within(ExtVocRows(), 136, 146) {}

  /** Duct sensor, week profile, serial number and product code (HeliosVariableMap.java lines 112-116). */
  function SerialRows(): (rows: seq<Entry>)
    ensures |rows| == 4
  {
    [
      Entry("nhz_duct_sensor", NewIntBounded(146, ACCESS_R, 7, 8, TYPE_INTEGER, -27, 9998)),
      Entry("week_profile_nhz", NewIntBounded(201, ACCESS_RW, 1, 5, TYPE_INTEGER, 0, 6)),
      Entry("ser_no", New(303, ACCESS_RW, 16, 12, TYPE_STRING)),
      Entry("prod_code", New(304, ACCESS_RW, 13, 11, TYPE_STRING))
    ]
  }

  lemma SerialIndexed() ensures Indexed(SerialRows()) {}
  lemma SerialGood() ensures EntriesOk(SerialRows()) && UsualCounts(SerialRows()) {}
  lemma SerialOrdered() ensures Ascending(SerialRows()) && Within(SerialRows(), 146, 348) {}

  /** Fan speeds and logout (HeliosVariableMap.java lines 118-120). */
  function FanSpeedRows(): (rows: seq<Entry>)
    ensures |rows| == 3
  {
    [
      Entry("supply_air_rpm", NewIntBounded(348, ACCESS_R, 4, 6, TYPE_INTEGER, 0, 9999)),
      Entry("extract_air_rpm", NewIntBounded(349, ACCESS_R, 4, 6, TYPE_INTEGER, 0, 9999)),
      Entry("logout", NewIntBounded(403, ACCESS_W, 1, 5, TYPE_INTEGER, 1, 1))
    ]
  }

  lemma FanSpeedIndexed() ensures Indexed(FanSpeedRows()) {}
  lemma FanSpeedGood() ensures EntriesOk(FanSpeedRows()) && UsualCounts(FanSpeedRows()) {}
  lemma FanSpeedOrdered() ensures Ascending(FanSpeedRows()) && Within(FanSpeedRows(), 348, 601) {}

  /** Holiday programme: switch, fan stage, start and end (HeliosVariableMap.java lines 122-125). */
  function HolidayRows(): (rows: seq<Entry>)
    ensures |rows| == 4
  {
    [
      Entry("holiday_programme", NewIntBounded(601, ACCESS_RW, 1, 5, TYPE_INTEGER, 0, 2)),
      Entry("holiday_programme_fan_stage", NewIntBounded(602, ACCESS_RW, 1, 5, TYPE_INTEGER, 1, 4)),
      Entry("holiday_programme_start", New(603, ACCESS_RW, 10, 9, TYPE_STRING)),
      Entry("holiday_programme_end", New(604, ACCESS_RW, 10, 9, TYPE_STRING))
    ]
  }

  lemma HolidayIndexed() ensures Indexed(HolidayRows()) {}
  lemma HolidayGood() ensures EntriesOk(HolidayRows()) && UsualCounts(HolidayRows()) {}
  lemma HolidayOrdered() ensures Ascending(HolidayRows()) && Within(HolidayRows(), 601, 605) {}

  /** Holiday programme: interval and activation time (HeliosVariableMap.java lines 126-127). */
  function HolidayTimingRows(): (rows: seq<Entry>)
    ensures |rows| == 2
  {
    [
      Entry("holiday_programme_interval", NewIntBounded(605, ACCESS_RW, 2, 5, TYPE_INTEGER, 1, 24)),
      Entry("holiday_programme_activation_time", NewIntBounded(606, ACCESS_RW, 3, 6, TYPE_INTEGER, 5, 300))
    ]
  }

  lemma HolidayTimingIndexed() ensures Indexed(HolidayTimingRows()) {}
  lemma HolidayTimingGood() ensures EntriesOk(HolidayTimingRows()) && UsualCounts(HolidayTimingRows()) {}
  lemma HolidayTimingOrdered() ensures Ascending(HolidayTimingRows()) && Within(HolidayTimingRows(), 605, 1010) {}

  /** Heater type, function and run-on time (HeliosVariableMap.java lines 129-131). */
  function HeaterRows(): (rows: seq<Entry>)
    ensures |rows| == 3
  {
    [
      Entry("vhz_type", NewIntBounded(1010, ACCESS_RW, 1, 5, TYPE_INTEGER, 1, 4)),
      Entry("function_type_kwl-em", NewIntBounded(1017, ACCESS_RW, 1, 5, TYPE_INTEGER, 1, 2)),
      Entry("run-on_time_vhz_nhz", NewIntBounded(1019, ACCESS_RW, 3, 6, TYPE_INTEGER, 60, 120))
    ]
  }

  lemma HeaterIndexed() ensures Indexed(HeaterRows()) {}
  lemma HeaterGood() ensures EntriesOk(HeaterRows()) && UsualCounts(HeaterRows()) {}
  lemma HeaterOrdered() ensures Ascending(HeaterRows()) && Within(HeaterRows(), 1010, 1020) {}

  /** External contact and error output (HeliosVariableMap.java lines 133-134). */
  function ContactRows(): (rows: seq<Entry>)
    ensures |rows| == 2
  {
    [
      Entry("external_contact", NewIntBounded(1020, ACCESS_RW, 1, 5, TYPE_INTEGER, 1, 6)),
      Entry("error_output_function", NewIntBounded(1021, ACCESS_RW, 1, 5, TYPE_INTEGER, 1, 2))
    ]
  }

  lemma ContactIndexed() ensures Indexed(ContactRows()) {}
  lemma ContactGood() ensures EntriesOk(ContactRows()) && UsualCounts(ContactRows()) {}
  lemma ContactOrdered() ensures Ascending(ContactRows()) && Within(ContactRows(), 1020, 1031) {}

  /** Filter change (HeliosVariableMap.java lines 136-138). */
  function FilterRows(): (rows: seq<Entry>)
    ensures |rows| == 3
  {
    [
      Entry("filter_change", NewIntBounded(1031, ACCESS_RW, 1, 5, TYPE_INTEGER, 0, 1)),
      Entry("filter_change_interval", NewIntBounded(1032, ACCESS_RW, 2, 5, TYPE_INTEGER, 0, 12)),
      Entry("filter_change_remaining_time", NewLongBounded(1033, ACCESS_R, 10, 9, TYPE_INTEGER, 2, 4294967295))
    ]
  }

  lemma FilterIndexed() ensures Indexed(FilterRows()) {}
  lemma FilterGood() ensures EntriesOk(FilterRows()) && UsualCounts(FilterRows()) {}
  lemma FilterOrdered() ensures Ascending(FilterRows()) && Within(FilterRows(), 1031, 1035) {}

  /** Bypass and factory settings (HeliosVariableMap.java lines 140-144). */
  function BypassFactoryRows(): (rows: seq<Entry>)
    ensures |rows| == 4
  {
    [
      Entry("bypass_room_temp", NewIntBounded(1035, ACCESS_RW, 2, 5, TYPE_INTEGER, 10, 40)),
      Entry("bypass_min_outside_temp", NewIntBounded(1036, ACCESS_RW, 2, 5, TYPE_INTEGER, 5, 20)),
      Entry("factory_setting_wzu", NewIntBounded(1037, ACCESS_RW, 2, 5, TYPE_INTEGER, 3, 10)),
      Entry("factory_reset", NewIntBounded(1041, ACCESS_RW, 1, 5, TYPE_INTEGER, 1, 1))
    ]
  }

  lemma BypassFactoryIndexed() ensures Indexed(BypassFactoryRows()) {}
  lemma BypassFactoryGood() ensures EntriesOk(BypassFactoryRows()) && UsualCounts(BypassFactoryRows()) {}
  lemma BypassFactoryOrdered() ensures Ascending(BypassFactoryRows()) && Within(BypassFactoryRows(), 1035, 1050) {}

  /** Supply and extract air fan stages (HeliosVariableMap.java lines 146-147). */
  function FanStageRows(): (rows: seq<Entry>)
    ensures |rows| == 2
  {
    [
      Entry("supply_air_fan_stage", NewIntBounded(1050, ACCESS_RW, 1, 5, TYPE_INTEGER, 1, 4)),
      Entry("extract_air_fan_stage", NewIntBounded(1051, ACCESS_RW, 1, 5, TYPE_INTEGER, 1, 4))
    ]
  }

  lemma FanStageIndexed() ensures Indexed(FanStageRows()) {}
  lemma FanStageGood() ensures EntriesOk(FanStageRows()) && UsualCounts(FanStageRows()) {}
  lemma FanStageOrdered() ensures Ascending(FanStageRows()) && Within(FanStageRows(), 1050, 1061) {}

  /** fan_stages_stepped_range0-2 .. 8-10, numbers 1061 .. 1065 (HeliosVariableMap.java lines 149-153). */
  function SteppedRangeRows(): (rows: seq<Entry>)
    ensures |rows| == 5
  {
    seq(5, j requires 0 <= j < 5 => SteppedRangeRow(1061 + j))
  }

  /** The loop body: the entry put for loop index i. */
  function SteppedRangeRow(i: int): Entry
    requires 1061 <= i < 1066
  {
    var stage := 2 * (i - 1061);
    Entry("fan_stages_stepped_range" + DecimalString(stage) + "-" + DecimalString(stage + 2),
          NewIntBounded(i, ACCESS_RW, 1, 5, TYPE_INTEGER, 0, 2))
  }

  lemma SteppedRangeIndexed() ensures Indexed(SteppedRangeRows())
  {
    forall i | 1061 <= i < 1066 ensures CatalogIndex(SteppedRangeRow(i).name) == i {
      var stage := 2 * (i - 1061);
      assert DecimalString(stage) == [DigitChar(stage)];
      assert DecimalString(stage + 2) == if i < 1065 then [DigitChar(stage + 2)] else "10";
    }
  }
  lemma SteppedRangeGood() ensures EntriesOk(SteppedRangeRows()) && UsualCounts(SteppedRangeRows()) {}
  lemma SteppedRangeOrdered() ensures Ascending(SteppedRangeRows()) && Within(SteppedRangeRows(), 1061, 1066) {}

  /** Extract air offset and stepped fan stages (HeliosVariableMap.java lines 155-156). */
  function SteppedExtraRows(): (rows: seq<Entry>)
    ensures |rows| == 2
  {
    [
      Entry("offset_extract_air", New(1066, ACCESS_RW, 10, 9, TYPE_FLOAT)),
      Entry("fan_stages_stepped_vs_1-10v", NewIntBounded(1068, ACCESS_RW, 1, 5, TYPE_INTEGER, 0, 1))
    ]
  }

  lemma SteppedExtraIndexed() ensures Indexed(SteppedExtraRows()) {}
  lemma SteppedExtraGood() ensures EntriesOk(SteppedExtraRows()) && UsualCounts(SteppedExtraRows()) {}
  lemma SteppedExtraOrdered() ensures Ascending(SteppedExtraRows()) && Within(SteppedExtraRows(), 1066, 1071) {}

  /** sensor_name_humidity+temp1 .. 8, numbers 1071 .. 1078 (HeliosVariableMap.java line 158). */
  function SensorNameHumidityRows(): (rows: seq<Entry>)
    ensures |rows| == 8
  {
    seq(8, j requires 0 <= j < 8 => SensorNameHumidityRow(1071 + j))
  }

  /** The loop body: the entry put for loop index i. */
  function SensorNameHumidityRow(i: int): Entry
    requires 1071 <= i < 1079
  {
    Entry("sensor_name_humidity+temp" + DecimalString(i - 1070), New(i, ACCESS_RW, 15, 12, TYPE_STRING))
  }

  lemma SensorNameHumidityIndexed() ensures Indexed(SensorNameHumidityRows()) {}
  lemma SensorNameHumidityGood() ensures EntriesOk(SensorNameHumidityRows()) && UsualCounts(SensorNameHumidityRows()) {}
  lemma SensorNameHumidityOrdered() ensures Ascending(SensorNameHumidityRows()) && Within(SensorNameHumidityRows(), 1071, 1081) {}

  /** sensor_name_co21 .. 8, numbers 1081 .. 1088 (HeliosVariableMap.java line 159). */
  function SensorNameCo2Rows(): (rows: seq<Entry>)
    ensures |rows| == 8
  {
    seq(8, j requires 0 <= j < 8 => SensorNameCo2Row(1081 + j))
  }

  /** The loop body: the entry put for loop index i. */
  function SensorNameCo2Row(i: int): Entry
    requires 1081 <= i < 1089
  {
    Entry("sensor_name_co2" + DecimalString(i - 1080), New(i, ACCESS_RW, 15, 12, TYPE_STRING))
  }

  lemma SensorNameCo2Indexed() ensures Indexed(SensorNameCo2Rows()) {}
  lemma SensorNameCo2Good() ensures EntriesOk(SensorNameCo2Rows()) && UsualCounts(SensorNameCo2Rows()) {}
  lemma SensorNameCo2Ordered() ensures Ascending(SensorNameCo2Rows()) && Within(SensorNameCo2Rows(), 1081, 1091) {}

  /** sensor_name_voc1 .. 8, numbers 1091 .. 1098 (HeliosVariableMap.java line 160). */
  function SensorNameVocRows(): (rows: seq<Entry>)
    ensures |rows| == 8
  {
    seq(8, j requires 0 <= j < 8 => SensorNameVocRow(1091 + j))
  }

  /** The loop body: the entry put for loop index i. */
  function SensorNameVocRow(i: int): Entry
    requires 1091 <= i < 1099
  {
    Entry("sensor_name_voc" + DecimalString(i - 1090), New(i, ACCESS_RW, 15, 12, TYPE_STRING))
  }

  lemma SensorNameVocIndexed() ensures Indexed(SensorNameVocRows()) {}
  lemma SensorNameVocGood() ensures EntriesOk(SensorNameVocRows()) && UsualCounts(SensorNameVocRows()) {}
  lemma SensorNameVocOrdered() ensures Ascending(SensorNameVocRows()) && Within(SensorNameVocRows(), 1091, 1101) {}

  /** Software version (HeliosVariableMap.java line 162). */
  function SoftwareRows(): (rows: seq<Entry>)
    ensures |rows| == 1
  {
    [
      Entry("sw_version", NewDoubleBounded(1101, ACCESS_R, 5, 7, TYPE_FLOAT, 0.0, 99.99))
    ]
  }

  lemma SoftwareIndexed() ensures Indexed(SoftwareRows()) {}
  lemma SoftwareGood() ensures EntriesOk(SoftwareRows()) && UsualCounts(SoftwareRows()) {}
  lemma SoftwareOrdered() ensures Ascending(SoftwareRows()) && Within(SoftwareRows(), 1101, 1103) {}

  /** Operating hours, named by the descriptions array (HeliosVariableMap.java lines 164-170). */
  function OperatingHourRows(): (rows: seq<Entry>)
    ensures |rows| == 4
  {
    seq(4, j requires 0 <= j < 4 => OperatingHourRow(1103 + j))
  }

  /** The loop body: the entry put for loop index i. */
  function OperatingHourRow(i: int): Entry
    requires 1103 <= i < 1107
  {
    Entry(OPERATING_HOUR_NAMES[i - 1103], NewLongBounded(i, ACCESS_R, 10, 9, TYPE_INTEGER, 0, 4294967295))
  }

  lemma OperatingHourIndexed() ensures Indexed(OperatingHourRows()) {}
  lemma OperatingHourGood() ensures EntriesOk(OperatingHourRows()) && UsualCounts(OperatingHourRows()) {}
  lemma OperatingHourOrdered() ensures Ascending(OperatingHourRows()) && Within(OperatingHourRows(), 1103, 1108) {}

  /** Output power, named by the descriptions array (HeliosVariableMap.java lines 172-176). */
  function OutputPowerRows(): (rows: seq<Entry>)
    ensures |rows| == 2
  {
    seq(2, j requires 0 <= j < 2 => OutputPowerRow(1108 + j))
  }

  /** The loop body: the entry put for loop index i. */
  function OutputPowerRow(i: int): Entry
    requires 1108 <= i < 1110
  {
    Entry(OUTPUT_POWER_NAMES[i - 1108], NewLongBounded(i, ACCESS_R, 10, 9, TYPE_INTEGER, 0, 4294967295))
  }

  lemma OutputPowerIndexed() ensures Indexed(OutputPowerRows()) {}
  lemma OutputPowerGood() ensures EntriesOk(OutputPowerRows()) && UsualCounts(OutputPowerRows()) {}
  lemma OutputPowerOrdered() ensures Ascending(OutputPowerRows()) && Within(OutputPowerRows(), 1108, 1120) {}

  /** Reset flag and the error, warning and info codes (HeliosVariableMap.java lines 179-182). */
  function FaultCodeRows(): (rows: seq<Entry>)
    ensures |rows| == 4
  {
    [
      Entry("reset_flag", NewIntBounded(1120, ACCESS_R, 1, 5, TYPE_INTEGER, 1, 1)),
      Entry("errors", NewLongBounded(1123, ACCESS_R, 10, 9, TYPE_INTEGER, 0, 4294967295)),
      Entry("warnings", NewIntBounded(1124, ACCESS_R, 3, 6, TYPE_INTEGER, 0, 255)),
      Entry("infos", NewIntBounded(1125, ACCESS_R, 3, 6, TYPE_INTEGER, 0, 255))
    ]
  }

  lemma FaultCodeIndexed() ensures Indexed(FaultCodeRows()) {}
  lemma FaultCodeGood() ensures EntriesOk(FaultCodeRows()) && UsualCounts(FaultCodeRows()) {}
  lemma FaultCodeOrdered() ensures Ascending(FaultCodeRows()) && Within(FaultCodeRows(), 1120, 1300) {}

  /** The numbers of errors, warnings and infos (HeliosVariableMap.java lines 183-185). */
  function FaultCountRows(): (rows: seq<Entry>)
    ensures |rows| == 3
  {
    [
      Entry("number_of_errors", NewIntBounded(1300, ACCESS_R, 2, 5, TYPE_INTEGER, 0, 32)),
      Entry("number_of_warnings", NewIntBounded(1301, ACCESS_R, 1, 5, TYPE_INTEGER, 0, 8)),
      Entry("number_of_infos", NewIntBounded(1302, ACCESS_R, 1, 5, TYPE_INTEGER, 0, 8))
    ]
  }

  lemma FaultCountIndexed() ensures Indexed(FaultCountRows()) {}
  lemma FaultCountGood() ensures EntriesOk(FaultCountRows()) && UsualCounts(FaultCountRows()) {}
  lemma FaultCountOrdered() ensures Ascending(FaultCountRows()) && Within(FaultCountRows(), 1300, 1303) {}

  /** The error, warning and info texts and the status flags (HeliosVariableMap.java lines 186-189). */
  function FaultTextRows(): (rows: seq<Entry>)
    ensures |rows| == 4
  {
    [
      Entry("errors_string", New(1303, ACCESS_R, 32, 20, TYPE_STRING)),
      Entry("warnings_string", New(1304, ACCESS_R, 8, 8, TYPE_STRING)),
      Entry("infos_string", New(1305, ACCESS_R, 8, 8, TYPE_STRING)),
      Entry("status_flags", New(1306, ACCESS_R, 32, 20, TYPE_STRING))
    ]
  }

  lemma FaultTextIndexed() ensures Indexed(FaultTextRows()) {}
  lemma FaultTextGood() ensures EntriesOk(FaultTextRows()) && UsualCounts(FaultTextRows()) {}
  lemma FaultTextOrdered() ensures Ascending(FaultTextRows()) && Within(FaultTextRows(), 1303, 1307) {}

  /** kw_ftf_config1 .. kw_ftf_config8, numbers 2020 .. 2027 (HeliosVariableMap.java line 191). */
  function KwFtfConfigRows(): (rows: seq<Entry>)
    ensures |rows| == 8
  {
    seq(8, j requires 0 <= j < 8 => KwFtfConfigRow(2020 + j))
  }

  /** The loop body: the entry put for loop index i. */
  function KwFtfConfigRow(i: int): Entry
    requires 2020 <= i < 2028
  {
    Entry("kw_ftf_config" + DecimalString(i - 2019), NewIntBounded(i, ACCESS_R, 1, 5, TYPE_INTEGER, 0, 1))
  }

  lemma KwFtfConfigIndexed() ensures Indexed(KwFtfConfigRows()) {}
  lemma KwFtfConfigGood() ensures EntriesOk(KwFtfConfigRows()) && UsualCounts(KwFtfConfigRows()) {}
  lemma KwFtfConfigOrdered() ensures Ascending(KwFtfConfigRows()) && Within(KwFtfConfigRows(), 2020, 2028) {}

  /** Web update and portal errors (HeliosVariableMap.java lines 193-195). */
  function PortalRows(): (rows: seq<Entry>)
    ensures |rows| == 3
  {
    [
      Entry("global_manual_web-update", NewIntBounded(2013, ACCESS_RW, 1, 5, TYPE_INTEGER, 1, 1)),
      Entry("portal_latest_error", NewIntBounded(2014, ACCESS_R, 3, 6, TYPE_INTEGER, 1, 255)),
      Entry("clear_error", NewIntBounded(2015, ACCESS_W, 1, 5, TYPE_INTEGER, 1, 1))
    ]
  }

  lemma PortalIndexed() ensures Indexed(PortalRows()) {}
  lemma PortalGood() ensures EntriesOk(PortalRows()) && UsualCounts(PortalRows()) {}
  lemma PortalOrdered() ensures Ascending(PortalRows()) && Within(PortalRows(), 2013, 2016) {}
  /** The constructor's puts up to status_flags (lines 35-189), whose numbers ascend. */
  function MainRows(): seq<Entry>
  {
    Block1Rows() +
    Block2Rows() +
    Block3Rows() +
    Block4Rows() +
    Block5Rows() +
    Block6Rows()
  }

  /** The puts of lines 35-72. */
  function Block1Rows(): seq<Entry>
  {
    IdentityRows() +
    ClockUpdateRows() +
    VoltFanRows() +
    UnitRows() +
    KwlFtfConfigRows() +
    HumidityControlRows() +
    Co2ControlRows()
  }

  lemma Block1Good()
    ensures |Block1Rows()| == 37 && Good(Block1Rows()) && Within(Block1Rows(), 0, 40)
  {
    hide IdentityRows, ClockUpdateRows, VoltFanRows, UnitRows, KwlFtfConfigRows, HumidityControlRows, Co2ControlRows;
    IdentityIndexed(); IdentityGood(); IdentityOrdered(); AscendingDistinct(IdentityRows());
    ClockUpdateIndexed(); ClockUpdateGood(); ClockUpdateOrdered(); AscendingDistinct(ClockUpdateRows());
    VoltFanIndexed(); VoltFanGood(); VoltFanOrdered(); AscendingDistinct(VoltFanRows());
    UnitIndexed(); UnitGood(); UnitOrdered(); AscendingDistinct(UnitRows());
    KwlFtfConfigIndexed(); KwlFtfConfigGood(); KwlFtfConfigOrdered(); AscendingDistinct(KwlFtfConfigRows());
    HumidityControlIndexed(); HumidityControlGood(); HumidityControlOrdered(); AscendingDistinct(HumidityControlRows());
    Co2ControlIndexed(); Co2ControlGood(); Co2ControlOrdered(); AscendingDistinct(Co2ControlRows());
    var rows := IdentityRows();
    JoinAbove(rows, ClockUpdateRows(), 0, 5, 12);
    rows := rows + ClockUpdateRows();
    JoinAbove(rows, VoltFanRows(), 0, 12, 20);
    rows := rows + VoltFanRows();
    JoinAbove(rows, UnitRows(), 0, 20, 25);
    rows := rows + UnitRows();
    JoinAbove(rows, KwlFtfConfigRows(), 0, 25, 33);
    rows := rows + KwlFtfConfigRows();
    JoinAbove(rows, HumidityControlRows(), 0, 33, 37);
    rows := rows + HumidityControlRows();
    JoinAbove(rows, Co2ControlRows(), 0, 37, 40);
    rows := rows + Co2ControlRows();
  }

  /** The puts of lines 74-105. */
  function Block2Rows(): seq<Entry>
  {
    VocControlRows() +
    ComfortTimeRows() +
    PartyModeRows() +
    StandbyModeRows() +
    OperatingModeRows() +
    TemperatureRows() +
    DuctSensorRows()
  }

  lemma Block2Good()
    ensures |Block2Rows()| == 24 && Good(Block2Rows()) && Within(Block2Rows(), 40, 111)
  {
    hide VocControlRows, ComfortTimeRows, PartyModeRows, StandbyModeRows, OperatingModeRows, TemperatureRows, DuctSensorRows;
    VocControlIndexed(); VocControlGood(); VocControlOrdered(); AscendingDistinct(VocControlRows());
    ComfortTimeIndexed(); ComfortTimeGood(); ComfortTimeOrdered(); AscendingDistinct(ComfortTimeRows());
    PartyModeIndexed(); PartyModeGood(); PartyModeOrdered(); AscendingDistinct(PartyModeRows());
    StandbyModeIndexed(); StandbyModeGood(); StandbyModeOrdered(); AscendingDistinct(StandbyModeRows());
    OperatingModeIndexed(); OperatingModeGood(); OperatingModeOrdered(); AscendingDistinct(OperatingModeRows());
    TemperatureIndexed(); TemperatureGood(); TemperatureOrdered(); AscendingDistinct(TemperatureRows());
    DuctSensorIndexed(); DuctSensorGood(); DuctSensorOrdered(); AscendingDistinct(DuctSensorRows());
    var rows := VocControlRows();
    JoinAbove(rows, ComfortTimeRows(), 40, 43, 91);
    rows := rows + ComfortTimeRows();
    JoinAbove(rows, PartyModeRows(), 40, 91, 96);
    rows := rows + PartyModeRows();
    JoinAbove(rows, StandbyModeRows(), 40, 96, 101);
    rows := rows + StandbyModeRows();
    JoinAbove(rows, OperatingModeRows(), 40, 101, 104);
    rows := rows + OperatingModeRows();
    JoinAbove(rows, TemperatureRows(), 40, 104, 108);
    rows := rows + TemperatureRows();
    JoinAbove(rows, DuctSensorRows(), 40, 108, 111);
    rows := rows + DuctSensorRows();
  }

  /** The puts of lines 107-125. */
  function Block3Rows(): seq<Entry>
  {
    ExtHumidityRows() +
    ExtTemperatureRows() +
    ExtCo2Rows() +
    ExtVocRows() +
    SerialRows() +
    FanSpeedRows() +
    HolidayRows()
  }

  lemma Block3Good()
    ensures |Block3Rows()| == 43 && Good(Block3Rows()) && Within(Block3Rows(), 111, 605)
  {
    hide ExtHumidityRows, ExtTemperatureRows, ExtCo2Rows, ExtVocRows, SerialRows, FanSpeedRows, HolidayRows;
    ExtHumidityIndexed(); ExtHumidityGood(); ExtHumidityOrdered(); AscendingDistinct(ExtHumidityRows());
    ExtTemperatureIndexed(); ExtTemperatureGood(); ExtTemperatureOrdered(); AscendingDistinct(ExtTemperatureRows());
    ExtCo2Indexed(); ExtCo2Good(); ExtCo2Ordered(); AscendingDistinct(ExtCo2Rows());
    ExtVocIndexed(); ExtVocGood(); ExtVocOrdered(); AscendingDistinct(ExtVocRows());
    SerialIndexed(); SerialGood(); SerialOrdered(); AscendingDistinct(SerialRows());
    FanSpeedIndexed(); FanSpeedGood(); FanSpeedOrdered(); AscendingDistinct(FanSpeedRows());
    HolidayIndexed(); HolidayGood(); HolidayOrdered(); AscendingDistinct(HolidayRows());
    var rows := ExtHumidityRows();
    JoinAbove(rows, ExtTemperatureRows(), 111, 119, 128);
    rows := rows + ExtTemperatureRows();
    JoinAbove(rows, ExtCo2Rows(), 111, 128, 136);
    rows := rows + ExtCo2Rows();
    JoinAbove(rows, ExtVocRows(), 111, 136, 146);
    rows := rows + ExtVocRows();
    JoinAbove(rows, SerialRows(), 111, 146, 348);
    rows := rows + SerialRows();
    JoinAbove(rows, FanSpeedRows(), 111, 348, 601);
    rows := rows + FanSpeedRows();
    JoinAbove(rows, HolidayRows(), 111, 601, 605);
    rows := rows + HolidayRows();
  }

  /** The puts of lines 126-153. */
  function Block4Rows(): seq<Entry>
  {
    HolidayTimingRows() +
    HeaterRows() +
    ContactRows() +
    FilterRows() +
    BypassFactoryRows() +
    FanStageRows() +
    SteppedRangeRows()
  }

  lemma Block4Good()
    ensures |Block4Rows()| == 21 && Good(Block4Rows()) && Within(Block4Rows(), 605, 1066)
  {
    hide HolidayTimingRows, HeaterRows, ContactRows, FilterRows, BypassFactoryRows, FanStageRows, SteppedRangeRows;
    HolidayTimingIndexed(); HolidayTimingGood(); HolidayTimingOrdered(); AscendingDistinct(HolidayTimingRows());
    HeaterIndexed(); HeaterGood(); HeaterOrdered(); AscendingDistinct(HeaterRows());
    ContactIndexed(); ContactGood(); ContactOrdered(); AscendingDistinct(ContactRows());
    FilterIndexed(); FilterGood(); FilterOrdered(); AscendingDistinct(FilterRows());
    BypassFactoryIndexed(); BypassFactoryGood(); BypassFactoryOrdered(); AscendingDistinct(BypassFactoryRows());
    FanStageIndexed(); FanStageGood(); FanStageOrdered(); AscendingDistinct(FanStageRows());
    SteppedRangeIndexed(); SteppedRangeGood(); SteppedRangeOrdered(); AscendingDistinct(SteppedRangeRows());
    var rows := HolidayTimingRows();
    JoinAbove(rows, HeaterRows(), 605, 1010, 1020);
    rows := rows + HeaterRows();
    JoinAbove(rows, ContactRows(), 605, 1020, 1031);
    rows := rows + ContactRows();
    JoinAbove(rows, FilterRows(), 605, 1031, 1035);
    rows := rows + FilterRows();
    JoinAbove(rows, BypassFactoryRows(), 605, 1035, 1050);
    rows := rows + BypassFactoryRows();
    JoinAbove(rows, FanStageRows(), 605, 1050, 1061);
    rows := rows + FanStageRows();
    JoinAbove(rows, SteppedRangeRows(), 605, 1061, 1066);
    rows := rows + SteppedRangeRows();
  }

  /** The puts of lines 155-176. */
  function Block5Rows(): seq<Entry>
  {
    SteppedExtraRows() +
    SensorNameHumidityRows() +
    SensorNameCo2Rows() +
    SensorNameVocRows() +
    SoftwareRows() +
    OperatingHourRows() +
    OutputPowerRows()
  }

  lemma Block5Good()
    ensures |Block5Rows()| == 33 && Good(Block5Rows()) && Within(Block5Rows(), 1066, 1120)
  {
    hide SteppedExtraRows, SensorNameHumidityRows, SensorNameCo2Rows, SensorNameVocRows, SoftwareRows, OperatingHourRows, OutputPowerRows;
    SteppedExtraIndexed(); SteppedExtraGood(); SteppedExtraOrdered(); AscendingDistinct(SteppedExtraRows());
    SensorNameHumidityIndexed(); SensorNameHumidityGood(); SensorNameHumidityOrdered(); AscendingDistinct(SensorNameHumidityRows());
    SensorNameCo2Indexed(); SensorNameCo2Good(); SensorNameCo2Ordered(); AscendingDistinct(SensorNameCo2Rows());
    SensorNameVocIndexed(); SensorNameVocGood(); SensorNameVocOrdered(); AscendingDistinct(SensorNameVocRows());
    SoftwareIndexed(); SoftwareGood(); SoftwareOrdered(); AscendingDistinct(SoftwareRows());
    OperatingHourIndexed(); OperatingHourGood(); OperatingHourOrdered(); AscendingDistinct(OperatingHourRows());
    OutputPowerIndexed(); OutputPowerGood(); OutputPowerOrdered(); AscendingDistinct(OutputPowerRows());
    var rows := SteppedExtraRows();
    JoinAbove(rows, SensorNameHumidityRows(), 1066, 1071, 1081);
    rows := rows + SensorNameHumidityRows();
    JoinAbove(rows, SensorNameCo2Rows(), 1066, 1081, 1091);
    rows := rows + SensorNameCo2Rows();
    JoinAbove(rows, SensorNameVocRows(), 1066, 1091, 1101);
    rows := rows + SensorNameVocRows();
    JoinAbove(rows, SoftwareRows(), 1066, 1101, 1103);
    rows := rows + SoftwareRows();
    JoinAbove(rows, OperatingHourRows(), 1066, 1103, 1108);
    rows := rows + OperatingHourRows();
    JoinAbove(rows, OutputPowerRows(), 1066, 1108, 1120);
    rows := rows + OutputPowerRows();
  }

  /** The puts of lines 179-189. */
  function Block6Rows(): seq<Entry>
  {
    FaultCodeRows() +
    FaultCountRows() +
    FaultTextRows()
  }

  lemma Block6Good()
    ensures |Block6Rows()| == 11 && Good(Block6Rows()) && Within(Block6Rows(), 1120, 1307)
  {
    hide FaultCodeRows, FaultCountRows, FaultTextRows;
    FaultCodeIndexed(); FaultCodeGood(); FaultCodeOrdered(); AscendingDistinct(FaultCodeRows());
    FaultCountIndexed(); FaultCountGood(); FaultCountOrdered(); AscendingDistinct(FaultCountRows());
    FaultTextIndexed(); FaultTextGood(); FaultTextOrdered(); AscendingDistinct(FaultTextRows());
    var rows := FaultCodeRows();
    JoinAbove(rows, FaultCountRows(), 1120, 1300, 1303);
    rows := rows + FaultCountRows();
    JoinAbove(rows, FaultTextRows(), 1120, 1303, 1307);
    rows := rows + FaultTextRows();
  }


  /** The constructor's puts, in the order of the source. */
  function Catalog(): seq<Entry>
  {
    MainRows() + KwFtfConfigRows() + PortalRows()
  }

  lemma MainRowsGood()
    ensures |MainRows()| == 169 && Good(MainRows()) && Within(MainRows(), 0, 1307)
  {
    hide Block1Rows, Block2Rows, Block3Rows, Block4Rows, Block5Rows, Block6Rows;
    Block1Good(); Block2Good(); Block3Good(); Block4Good(); Block5Good(); Block6Good();
    var rows := Block1Rows();
    JoinAbove(rows, Block2Rows(), 0, 40, 111);
    rows := rows + Block2Rows();
    JoinAbove(rows, Block3Rows(), 0, 111, 605);
    rows := rows + Block3Rows();
    JoinAbove(rows, Block4Rows(), 0, 605, 1066);
    rows := rows + Block4Rows();
    JoinAbove(rows, Block5Rows(), 0, 1066, 1120);
    rows := rows + Block5Rows();
    JoinAbove(rows, Block6Rows(), 0, 1120, 1307);
    rows := rows + Block6Rows();
  }

  /** The constructor puts 180 entries, each well formed, with distinct numbers and distinct names. */
  lemma CatalogGood()
    ensures |Catalog()| == 180 && Good(Catalog()) && DistinctNames(Catalog())
  {
    hide MainRows, KwFtfConfigRows, PortalRows;
    MainRowsGood();
    KwFtfConfigIndexed(); KwFtfConfigGood(); KwFtfConfigOrdered(); AscendingDistinct(KwFtfConfigRows());
    PortalIndexed(); PortalGood(); PortalOrdered(); AscendingDistinct(PortalRows());
    JoinAbove(MainRows(), KwFtfConfigRows(), 0, 1307, 2028);
    var head := MainRows() + KwFtfConfigRows();
    Join(head, PortalRows());
    NamesDistinct(Catalog());
  }

  /** Names agreeing with CatalogIndex and distinct numbers give distinct names. */
  lemma NamesDistinct(rows: seq<Entry>)
    requires Indexed(rows) && DistinctIds(rows)
    ensures DistinctNames(rows)
  {
    forall i, j | 0 <= i < j < |rows| ensures rows[i].name != rows[j].name {
      assert CatalogIndex(rows[i].name) != CatalogIndex(rows[j].name);
    }
  }

  /** The map a run of puts builds: each put adds its entry, replacing one with the same name. */
  function MapOf(rows: seq<Entry>): map<string, Variable>
  {
    if rows == [] then map[]
    else
      var last := rows[|rows| - 1];
      MapOf(rows[..|rows| - 1])[last.name := last.v]
  }

  /** The map's names are exactly the names put, and each value is one that was put under its name. */
  lemma {:induction false} MapOfSource(rows: seq<Entry>)
    ensures forall n | n in MapOf(rows) :: Entry(n, MapOf(rows)[n]) in rows
    ensures forall k | 0 <= k < |rows| :: rows[k].name in MapOf(rows)
  {
    if rows != [] {
      var init := rows[..|rows| - 1];
      MapOfSource(init);
      forall k | 0 <= k < |init| ensures init[k] == rows[k] { }
    }
  }

  /** The puts before the last one: distinct names, none of them the last one's. */
  lemma InitNames(rows: seq<Entry>)
    requires rows != [] && DistinctNames(rows)
    ensures var init := rows[..|rows| - 1];
      DistinctNames(init) &&
      forall k | 0 <= k < |init| :: init[k] == rows[k] && init[k].name != rows[|rows| - 1].name
  {
  }

  /** With distinct names, no put replaces another: the map holds every entry, and as many keys as puts. */
  lemma {:induction false} MapOfDistinct(rows: seq<Entry>)
    requires DistinctNames(rows)
    ensures |MapOf(rows)| == |rows|
    ensures forall k | 0 <= k < |rows| :: rows[k].name in MapOf(rows) && MapOf(rows)[rows[k].name] == rows[k].v
  {
    if rows != [] {
      InitNames(rows);
      MapOfDistinct(rows[..|rows| - 1]);
      MapOfDistinctStep(rows);
    }
  }

  /** The inductive step of MapOfDistinct: one more put under a new name. */
  lemma MapOfDistinctStep(rows: seq<Entry>)
    requires rows != []
    requires var init := rows[..|rows| - 1];
      (forall k | 0 <= k < |init| :: init[k] == rows[k] && init[k].name != rows[|rows| - 1].name) &&
      |MapOf(init)| == |init| &&
      forall k | 0 <= k < |init| :: init[k].name in MapOf(init) && MapOf(init)[init[k].name] == init[k].v
    ensures |MapOf(rows)| == |rows|
    ensures forall k | 0 <= k < |rows| :: rows[k].name in MapOf(rows) && MapOf(rows)[rows[k].name] == rows[k].v
  {
    var init, last := rows[..|rows| - 1], rows[|rows| - 1];
    var m := MapOf(init);
    MapOfSource(init);
    assert last.name !in m;
    assert MapOf(rows) == m[last.name := last.v];
  }

  /** Every descriptor in the map satisfies EntryOk. */
  ghost predicate MapEntriesOk(m: map<string, Variable>)
  {
    forall n | n in m :: EntryOk(m[n])
  }

  /** No two names of the map share a variable number. */
  ghost predicate MapIdsDistinct(m: map<string, Variable>)
  {
    forall a, b | a in m && b in m && a != b :: m[a].variable != m[b].variable
  }

  /** Every descriptor in the map has the usual register count, except variables 92 and 102. */
  ghost predicate MapCountsUsual(m: map<string, Variable>)
  {
    forall n | n in m :: UsualCount(m[n]) || m[n].variable in {92, 102}
  }

  /** The map of a good run: good descriptors with usual counts, and no two names sharing a number. */
  lemma MapOfGood(rows: seq<Entry>)
    requires Good(rows)
    ensures MapEntriesOk(MapOf(rows)) && MapCountsUsual(MapOf(rows)) && MapIdsDistinct(MapOf(rows))
  {
    MapOfSource(rows);
    var m := MapOf(rows);
    forall n | n in m ensures EntryOk(m[n]) && (UsualCount(m[n]) || m[n].variable in {92, 102}) {
      var k :| 0 <= k < |rows| && rows[k] == Entry(n, m[n]);
    }
    forall a, b | a in m && b in m && a != b ensures m[a].variable != m[b].variable {
      var i :| 0 <= i < |rows| && rows[i] == Entry(a, m[a]);
      var j :| 0 <= j < |rows| && rows[j] == Entry(b, m[b]);
      assert i != j;
    }
  }

  /** `Map.get`: the variable stored under a name, or None (Java's null) for a name not in the map. */
  function Get(m: map<string, Variable>, name: string): (r: Option<Variable>)
    ensures r.Some? <==> name in m
  {
    if name in m then Some(m[name]) else None
  }

  /** A put of the constructor shows up in the finished map under its name. */
  lemma CatalogListed(e: Entry)
    requires e in Catalog()
    ensures Get(MapOf(Catalog()), e.name) == Some(e.v)
  {
    hide MainRows, KwFtfConfigRows, PortalRows;
    CatalogGood();
    MapOfDistinct(Catalog());
    MapOfSource(Catalog());
    var k :| 0 <= k < |Catalog()| && Catalog()[k] == e;
  }

  /** A read-only string without bounds (line 37). */
  lemma MacAddressListed()
    ensures Some(New(2, ACCESS_R, 18, 13, TYPE_STRING)) == Get(MapOf(Catalog()), "mac_address")
  {
    hide KwFtfConfigRows, PortalRows, Block2Rows, Block3Rows, Block4Rows, Block5Rows, Block6Rows, ClockUpdateRows, VoltFanRows, UnitRows, KwlFtfConfigRows, HumidityControlRows, Co2ControlRows;
    var e := Entry("mac_address", New(2, ACCESS_R, 18, 13, TYPE_STRING));
    assert IdentityRows()[2] == e;
    CatalogListed(e);
  }

  /** An unbounded integer (line 41). */
  lemma SummerWinterListed()
    ensures Some(New(6, ACCESS_RW, 1, 5, TYPE_INTEGER)) == Get(MapOf(Catalog()), "summer_winter")
  {
    hide KwFtfConfigRows, PortalRows, Block2Rows, Block3Rows, Block4Rows, Block5Rows, Block6Rows, IdentityRows, VoltFanRows, UnitRows, KwlFtfConfigRows, HumidityControlRows, Co2ControlRows;
    var e := Entry("summer_winter", New(6, ACCESS_RW, 1, 5, TYPE_INTEGER));
    assert ClockUpdateRows()[1] == e;
    CatalogListed(e);
  }

  /** The first bounded integer (line 57). */
  lemma MinFanStageListed()
    ensures Some(NewIntBounded(20, ACCESS_RW, 1, 5, TYPE_INTEGER, 0, 1)) == Get(MapOf(Catalog()), "min_fan_stage")
  {
    hide KwFtfConfigRows, PortalRows, Block2Rows, Block3Rows, Block4Rows, Block5Rows, Block6Rows, IdentityRows, ClockUpdateRows, VoltFanRows, KwlFtfConfigRows, HumidityControlRows, Co2ControlRows;
    var e := Entry("min_fan_stage", NewIntBounded(20, ACCESS_RW, 1, 5, TYPE_INTEGER, 0, 1));
    assert UnitRows()[0] == e;
    CatalogListed(e);
  }

  /** The party-mode switch (line 88). */
  lemma PartyModeListed()
    ensures Some(NewIntBounded(94, ACCESS_RW, 1, 5, TYPE_INTEGER, 0, 1)) == Get(MapOf(Catalog()), "party-mode")
  {
    hide KwFtfConfigRows, PortalRows, Block1Rows, Block3Rows, Block4Rows, Block5Rows, Block6Rows, VocControlRows, ComfortTimeRows, StandbyModeRows, OperatingModeRows, TemperatureRows, DuctSensorRows;
    var e := Entry("party-mode", NewIntBounded(94, ACCESS_RW, 1, 5, TYPE_INTEGER, 0, 1));
    assert PartyModeRows()[3] == e;
    CatalogListed(e);
  }

  /** The fan stage, one of the two counts outside the usual rule (line 96). */
  lemma FanStageListed()
    ensures Some(NewIntBounded(102, ACCESS_RW, 3, 5, TYPE_INTEGER, 0, 4)) == Get(MapOf(Catalog()), "fan_stage")
  {
    hide KwFtfConfigRows, PortalRows, Block1Rows, Block3Rows, Block4Rows, Block5Rows, Block6Rows, VocControlRows, ComfortTimeRows, PartyModeRows, StandbyModeRows, TemperatureRows, DuctSensorRows;
    var e := Entry("fan_stage", NewIntBounded(102, ACCESS_RW, 3, 5, TYPE_INTEGER, 0, 4));
    assert OperatingModeRows()[1] == e;
    CatalogListed(e);
  }

  /** A Long maximum on a read-only variable (line 138). */
  lemma FilterChangeRemainingTimeListed()
    ensures Some(NewLongBounded(1033, ACCESS_R, 10, 9, TYPE_INTEGER, 2, 4294967295)) == Get(MapOf(Catalog()), "filter_change_remaining_time")
  {
    hide KwFtfConfigRows, PortalRows, Block1Rows, Block2Rows, Block3Rows, Block5Rows, Block6Rows, HolidayTimingRows, HeaterRows, ContactRows, BypassFactoryRows, FanStageRows, SteppedRangeRows;
    var e := Entry("filter_change_remaining_time", NewLongBounded(1033, ACCESS_R, 10, 9, TYPE_INTEGER, 2, 4294967295));
    assert FilterRows()[2] == e;
    CatalogListed(e);
  }

  /** kwl_ftf_config0 .. kwl_ftf_config7 are variables 25 .. 32 (line 63). */
  lemma KwlFtfConfigListed(j: int)
    requires 0 <= j < 8
    ensures Some(NewIntBounded(25 + j, ACCESS_RW, 1, 5, TYPE_INTEGER, 1, 3)) ==
            Get(MapOf(Catalog()), "kwl_ftf_config" + DecimalString(j))
  {
    hide KwFtfConfigRows, PortalRows, Block2Rows, Block3Rows, Block4Rows, Block5Rows, Block6Rows, IdentityRows, ClockUpdateRows, VoltFanRows, UnitRows, HumidityControlRows, Co2ControlRows;
    assert KwlFtfConfigRows()[j] == KwlFtfConfigRow(25 + j);
    CatalogListed(KwlFtfConfigRows()[j]);
  }

  /** ext_sensor_kwl-ftf_humid_1 .. 8 are variables 111 .. 118 (line 107). */
  lemma ExtHumidityListed(j: int)
    requires 0 <= j < 8
    ensures Some(NewIntBounded(111 + j, ACCESS_R, 4, 6, TYPE_INTEGER, 0, 9998)) ==
            Get(MapOf(Catalog()), "ext_sensor_kwl-ftf_humid_" + DecimalString(j + 1))
  {
    hide KwFtfConfigRows, PortalRows, Block1Rows, Block2Rows, Block4Rows, Block5Rows, Block6Rows, ExtTemperatureRows, ExtCo2Rows, ExtVocRows, SerialRows, FanSpeedRows, HolidayRows;
    assert ExtHumidityRows()[j] == ExtHumidityRow(111 + j);
    CatalogListed(ExtHumidityRows()[j]);
  }

  /** fan_stages_stepped_range0-2 .. 8-10 are variables 1061 .. 1065 (lines 149-153). */
  lemma SteppedRangeListed(j: int)
    requires 0 <= j < 5
    ensures Some(NewIntBounded(1061 + j, ACCESS_RW, 1, 5, TYPE_INTEGER, 0, 2)) ==
            Get(MapOf(Catalog()), "fan_stages_stepped_range" + DecimalString(2 * j) + "-" + DecimalString(2 * j + 2))
  {
    hide KwFtfConfigRows, PortalRows, Block1Rows, Block2Rows, Block3Rows, Block5Rows, Block6Rows, HolidayTimingRows, HeaterRows, ContactRows, FilterRows, BypassFactoryRows, FanStageRows;
    assert SteppedRangeRows()[j] == SteppedRangeRow(1061 + j);
    CatalogListed(SteppedRangeRows()[j]);
  }

  /**
   * The finished table: 180 names; every descriptor well formed, with ordered bounds, a reply
   * that fits and Long bounds only when read-only; the usual register count except for
   * variables 92 and 102; no number under two names.
   */
  lemma TableFacts()
    ensures 180 == |MapOf(Catalog())|
    ensures MapEntriesOk(MapOf(Catalog())) && MapIdsDistinct(MapOf(Catalog()))
    ensures MapCountsUsual(MapOf(Catalog()))
  {
    hide MainRows, KwFtfConfigRows, PortalRows, MapOf, Good;
    CatalogGood();
    MapOfDistinct(Catalog());
    MapOfGood(Catalog());
  }

  /** A bound cell of the overview: "-" for a missing bound, otherwise the bound. */
  datatype Cell = Dash | Bound(n: Number)

  /**
   * The cells of one row of the overview: its class, the item name, the access label,
   * "Char[length]", the register count, the variable string and the two bounds.
   */
  datatype HtmlRow = HtmlRow(rowClass: string, description: string, access: string, dataType: string,
                             count: string, variableString: string, minCell: Cell, maxCell: Cell)

  /** The access cell: "R", "W" or "RW" for the three access codes, and "N/A" for any other code. */
  function AccessLabel(access: int32): (r: string)
    ensures r == "N/A" <==> access !in {ACCESS_R, ACCESS_W, ACCESS_RW}
    ensures access == ACCESS_R <==> r == "R"
    ensures access == ACCESS_W <==> r == "W"
    ensures access == ACCESS_RW <==> r == "RW"
  {
    if access == ACCESS_R then "R"
    else if access == ACCESS_W then "W"
    else if access == ACCESS_RW then "RW"
    else "N/A"
  }

  /** A bound's cell: "-" for a missing bound, otherwise the bound itself. */
  function BoundCell(b: Option<Number>): (c: Cell)
    ensures c.Dash? <==> b.None?
    ensures c.Bound? ==> b == Some(c.n)
  {
    match b
    case None => Dash
    case Some(n) => Bound(n)
  }

  /** The row the loop body writes for one entry, under the row class it computes. */
  function RowOf(rowClass: string, e: Entry): (r: HtmlRow)
    ensures r.rowClass == rowClass && r.description == e.name
  {
    HtmlRow(rowClass, e.name, AccessLabel(e.v.access), "Char[" + DecimalString(e.v.length) + "]",
            DecimalString(e.v.count), VariableString(e.v), BoundCell(e.v.minVal), BoundCell(e.v.maxVal))
  }

  /** The row class the source computes from its counter i. */
  function RowClass(i: int): string
  {
    if i % 2 == 0 then "even" else "odd"
  }

  /**
   * The rows written for a listing, in its order. As written, the counter behind the row class
   * stays at 0 (striped = false); as evidently intended, it advances with the rows (striped = true).
   */
  function TableRows(listing: seq<Entry>, striped: bool): (rows: seq<HtmlRow>)
    ensures |rows| == |listing|
  {
    seq(|listing|, k requires 0 <= k < |listing| => RowOf(RowClass(if striped then k else 0), listing[k]))
  }

  /** With two or more entries, the second row is "even" as written but "odd" as intended. */
  lemma TableRowsNotStriped(listing: seq<Entry>)
    requires |listing| >= 2
    ensures TableRows(listing, false)[1].rowClass == "even"
    ensures TableRows(listing, true)[1].rowClass == "odd"
    ensures forall k | 0 <= k < |listing| :: TableRows(listing, false)[k].rowClass == "even"
  {
  }

  /**
   * Rows that describe the entries of m, one row per name, by ascending variable number:
   * what the overview shows whatever its row classes are.
   */
  ghost predicate RowsOfListing(rows: seq<HtmlRow>, m: map<string, Variable>)
  {
    && |rows| == |m|
    && (forall k | 0 <= k < |rows| :: rows[k].description in m &&
          rows[k] == RowOf(rows[k].rowClass, Entry(rows[k].description, m[rows[k].description])))
    && (forall i, j | 0 <= i < j < |rows| :: rows[i].description != rows[j].description)
    && (forall i, j | 0 <= i < j < |rows| ::
          m[rows[i].description].variable <= m[rows[j].description].variable)
  }

  /** Sorted by variable number, which is what Collections.sort leaves under compareTo. */
  predicate SortedByVariable(s: seq<Entry>)
  {
    forall k | 0 < k < |s| :: s[k - 1].v.variable <= s[k].v.variable
  }

  /**
   * Places e into sorted entries, in front of the first entry it does not compare above;
   * equal numbers keep e in front, which makes the sort below stable.
   */
  function Insert(e: Entry, s: seq<Entry>): (r: seq<Entry>)
    requires SortedByVariable(s)
    ensures |r| == |s| + 1
    ensures SortedByVariable(r)
    ensures multiset(r) == multiset(s) + multiset{e}
    ensures r[0] == e || (s != [] && r[0] == s[0])
  {
    if s == [] || CompareTo(e.v, s[0].v) <= 0 then
      InsertFront(e, s);
      [e] + s
    else
      InsertBehind(e, s, Insert(e, s[1..]));
      [s[0]] + Insert(e, s[1..])
  }

  /** e in front of sorted entries it does not compare above. */
  lemma InsertFront(e: Entry, s: seq<Entry>)
    requires SortedByVariable(s)
    requires s == [] || CompareTo(e.v, s[0].v) <= 0
    ensures SortedByVariable([e] + s)
    ensures multiset([e] + s) == multiset(s) + multiset{e}
  {
    assert forall k | 1 <= k <= |s| :: ([e] + s)[k] == s[k - 1];
  }

  /** The head of sorted entries, in front of e inserted into the rest. */
  lemma InsertBehind(e: Entry, s: seq<Entry>, t: seq<Entry>)
    requires SortedByVariable(s) && s != [] && CompareTo(e.v, s[0].v) > 0
    requires |t| == |s| && SortedByVariable(t)
    requires multiset(t) == multiset(s[1..]) + multiset{e}
    requires t[0] == e || (s[1..] != [] && t[0] == s[1..][0])
    ensures SortedByVariable([s[0]] + t)
    ensures multiset([s[0]] + t) == multiset(s) + multiset{e}
  {
    assert s == [s[0]] + s[1..];
    assert |s| > 1 ==> s[0].v.variable <= s[1].v.variable;
    assert forall k | 1 <= k <= |t| :: ([s[0]] + t)[k] == t[k - 1];
  }

  /**
   * `Collections.sort` with the descriptors' compareTo: a sorted permutation of the list.
   * Modelled as a stable insertion sort, the same result as the library's stable merge sort.
   */
  function SortByVariable(s: seq<Entry>): (r: seq<Entry>)
    ensures SortedByVariable(r)
    ensures multiset(r) == multiset(s)
  {
    if s == [] then [] else
      assert s == [s[0]] + s[1..];
      Insert(s[0], SortByVariable(s[1..]))
  }


  /** An entry in front of entries with distinct names other than its own. */
  lemma ConsNames(x: Entry, s: seq<Entry>)
    requires DistinctNames(s)
    requires forall k | 0 <= k < |s| :: s[k].name != x.name
    ensures DistinctNames([x] + s)
  {
    forall i, j | 0 <= i < j < |s| + 1 ensures ([x] + s)[i].name != ([x] + s)[j].name {
      assert ([x] + s)[j] == s[j - 1];
      if i > 0 {
        assert ([x] + s)[i] == s[i - 1];
      }
    }
  }

  /** Inserting an entry whose name is new keeps the names distinct. */
  lemma {:induction false} InsertKeepsNames(e: Entry, s: seq<Entry>)
    requires SortedByVariable(s) && DistinctNames(s)
    requires forall k | 0 <= k < |s| :: s[k].name != e.name
    ensures DistinctNames(Insert(e, s))
  {
    if s == [] || CompareTo(e.v, s[0].v) <= 0 {
      ConsNames(e, s);
    } else {
      TailNames(s);
      assert forall k | 0 <= k < |s| - 1 :: s[1..][k] == s[k + 1];
      InsertKeepsNames(e, s[1..]);
      var t := Insert(e, s[1..]);
      forall k | 0 <= k < |t| ensures t[k].name != s[0].name {
        assert t[k] in multiset(t);
      }
      ConsNames(s[0], t);
    }
  }

  /** The tail of a list with distinct names has distinct names, none of them the head's. */
  lemma TailNames(s: seq<Entry>)
    requires s != [] && DistinctNames(s)
    ensures DistinctNames(s[1..])
    ensures forall x | x in multiset(s[1..]) :: x.name != s[0].name
  {
    forall i, j | 0 <= i < j < |s| - 1 ensures s[1..][i].name != s[1..][j].name {
      assert s[1..][i] == s[i + 1] && s[1..][j] == s[j + 1];
    }
    forall x | x in multiset(s[1..]) ensures x.name != s[0].name {
      var j :| 0 <= j < |s| - 1 && s[1..][j] == x;
      assert s[j + 1] == x;
    }
  }

  /** Sorting keeps distinct names distinct. */
  lemma {:induction false} SortKeepsNames(s: seq<Entry>)
    requires DistinctNames(s)
    ensures DistinctNames(SortByVariable(s))
  {
    if s != [] {
      TailNames(s);
      SortKeepsNames(s[1..]);
      var tail := SortByVariable(s[1..]);
      assert forall k | 0 <= k < |tail| :: tail[k] in multiset(tail);
      InsertKeepsNames(s[0], tail);
    }
  }

  /** Runs of puts with distinct names and the same entries build the same map. */
  lemma SameEntriesSameMap(a: seq<Entry>, b: seq<Entry>)
    requires DistinctNames(a) && DistinctNames(b)
    requires forall x :: x in a <==> x in b
    ensures MapOf(a) == MapOf(b)
  {
    SameEntriesWithin(a, b);
    SameEntriesWithin(b, a);
  }

  /** Each name and value of the map of a is in the map of b, when b holds a's entries. */
  lemma SameEntriesWithin(a: seq<Entry>, b: seq<Entry>)
    requires DistinctNames(b)
    requires forall x | x in a :: x in b
    ensures forall n | n in MapOf(a) :: n in MapOf(b) && MapOf(b)[n] == MapOf(a)[n]
  {
    MapOfSource(a);
    MapOfDistinct(b);
    forall n | n in MapOf(a) ensures n in MapOf(b) && MapOf(b)[n] == MapOf(a)[n] {
      var x := Entry(n, MapOf(a)[n]);
      assert x in b;
      var j :| 0 <= j < |b| && b[j] == x;
    }
  }

  /** Ascending lists of the same entries start with the same entry. */
  lemma AscendingHeads(a: seq<Entry>, b: seq<Entry>)
    requires Ascending(a) && Ascending(b) && a != [] && b != []
    requires forall x :: x in a <==> x in b
    ensures a[0] == b[0]
  {
    assert b[0] in b && a[0] in a;
    var i :| 0 <= i < |a| && a[i] == b[0];
    var j :| 0 <= j < |b| && b[j] == a[0];
    if i > 0 {
      AscendingIncreasing(a, 0, i);
    }
    if j > 0 {
      AscendingIncreasing(b, 0, j);
    }
  }

  /** Dropping the equal heads of two ascending lists of the same entries leaves lists of the same entries. */
  lemma AscendingTails(a: seq<Entry>, b: seq<Entry>)
    requires Ascending(a) && Ascending(b) && a != [] && b != [] && a[0] == b[0]
    requires forall x :: x in a <==> x in b
    ensures Ascending(a[1..]) && Ascending(b[1..])
    ensures forall x :: x in a[1..] <==> x in b[1..]
  {
    forall x | x in a[1..] ensures x in b[1..] {
      var k :| 0 <= k < |a| - 1 && a[1..][k] == x;
      AscendingIncreasing(a, 0, k + 1);
      assert a[k + 1] == x;
      assert x in a && x in b;
      var j :| 0 <= j < |b| && b[j] == x;
      assert j != 0;
      assert b[1..][j - 1] == x;
    }
    forall x | x in b[1..] ensures x in a[1..] {
      var k :| 0 <= k < |b| - 1 && b[1..][k] == x;
      AscendingIncreasing(b, 0, k + 1);
      assert b[k + 1] == x;
      assert x in b && x in a;
      var j :| 0 <= j < |a| && a[j] == x;
      assert j != 0;
      assert a[1..][j - 1] == x;
    }
  }

  /** Two ascending lists of the same entries are the same list. */
  lemma {:induction false} AscendingUnique(a: seq<Entry>, b: seq<Entry>)
    requires Ascending(a) && Ascending(b) && |a| == |b|
    requires forall x :: x in a <==> x in b
    ensures a == b
  {
    if a != [] {
      AscendingHeads(a, b);
      AscendingTails(a, b);
      AscendingUnique(a[1..], b[1..]);
      assert a == [a[0]] + a[1..] && b == [b[0]] + b[1..];
    }
  }

  /**
   * A map has only one listing in ascending number order: the sorted map is fully determined,
   * whatever order the HashMap hands out its entries in.
   */
  lemma ListingUnique(a: seq<Entry>, b: seq<Entry>)
    requires DistinctNames(a) && DistinctNames(b) && MapOf(a) == MapOf(b)
    requires Ascending(a) && Ascending(b)
    ensures a == b
  {
    MapOfDistinct(a);
    MapOfDistinct(b);
    MapOfSource(a);
    MapOfSource(b);
    forall x ensures x in a <==> x in b {
      if x in a {
        var k :| 0 <= k < |a| && a[k] == x;
      }
      if x in b {
        var k :| 0 <= k < |b| && b[k] == x;
      }
    }
    AscendingUnique(a, b);
  }

  /** `LinkedHashMap.put`, on the map's listing in insertion order. */
  function LinkedPut(s: seq<Entry>, name: string, v: Variable): seq<Entry>
  {
    if s == [] then [Entry(name, v)]
    else if s[0].name == name then [Entry(name, v)] + s[1..]
    else [s[0]] + LinkedPut(s[1..], name, v)
  }

  /** A put under a new name appends the entry at the end of the listing. */
  lemma {:induction false} LinkedPutAppends(s: seq<Entry>, name: string, v: Variable)
    requires forall k | 0 <= k < |s| :: s[k].name != name
    ensures LinkedPut(s, name, v) == s + [Entry(name, v)]
  {
    if s != [] {
      assert s[0].name != name;
      LinkedPutAppends(s[1..], name, v);
      assert s == [s[0]] + s[1..];
    }
  }

  /** A put under a name already present replaces that entry's value in place; the order is kept. */
  lemma {:induction false} LinkedPutReplaces(s: seq<Entry>, name: string, v: Variable, i: int)
    requires DistinctNames(s) && 0 <= i < |s| && s[i].name == name
    ensures LinkedPut(s, name, v) == s[i := Entry(name, v)]
  {
    if i > 0 {
      assert s[0].name != name;
      assert DistinctNames(s[1..]) by {
        assert forall k | 0 <= k < |s| - 1 :: s[1..][k] == s[k + 1];
      }
      assert s[1..][i - 1] == s[i];
      LinkedPutReplaces(s[1..], name, v, i - 1);
      assert [s[0]] + s[1..][i - 1 := Entry(name, v)] == s[i := Entry(name, v)];
    }
  }

  /**
   * Sorting a listing of m gives a listing of m sorted by number, strictly ascending when no
   * two names of m share a number.
   */
  lemma SortedListing(list: seq<Entry>, m: map<string, Variable>)
    requires DistinctNames(list) && MapOf(list) == m
    ensures var sorted := SortByVariable(list);
      DistinctNames(sorted) && MapOf(sorted) == m && |sorted| == |m| && SortedByVariable(sorted) &&
      (MapIdsDistinct(m) ==> Ascending(sorted))
  {
    hide SortByVariable, Insert;
    var sorted := SortByVariable(list);
    SortKeepsNames(list);
    forall x ensures x in list <==> x in sorted {
      assert x in list <==> x in multiset(list);
      assert x in sorted <==> x in multiset(sorted);
    }
    SameEntriesSameMap(list, sorted);
    MapOfDistinct(sorted);
    if MapIdsDistinct(m) {
      forall j | 0 < j < |sorted| ensures sorted[j - 1].v.variable < sorted[j].v.variable {
        assert sorted[j - 1].name != sorted[j].name;
        assert m[sorted[j - 1].name] == sorted[j - 1].v && m[sorted[j].name] == sorted[j].v;
      }
    }
  }

  /**
   * Re-inserting the sorted entries one by one: the entry at k has a name not yet in the
   * LinkedHashMap, so the put appends it.
   */
  lemma SortedPutStep(list: seq<Entry>, k: int)
    requires DistinctNames(list) && 0 <= k < |SortByVariable(list)|
    ensures var sorted := SortByVariable(list);
      LinkedPut(sorted[..k], sorted[k].name, sorted[k].v) == sorted[..k + 1]
  {
    hide SortByVariable, Insert, SortedByVariable;
    var sorted := SortByVariable(list);
    SortKeepsNames(list);
    assert forall j | 0 <= j < k :: sorted[..k][j] == sorted[j] && sorted[j].name != sorted[k].name;
    LinkedPutAppends(sorted[..k], sorted[k].name, sorted[k].v);
    assert sorted[..k + 1] == sorted[..k] + [sorted[k]];
  }

  /** Sorted by number, pair by pair. */
  lemma {:induction false} SortedPairs(s: seq<Entry>, i: int, j: int)
    requires SortedByVariable(s) && 0 <= i < j < |s|
    ensures s[i].v.variable <= s[j].v.variable
    decreases j - i
  {
    if i + 1 < j {
      SortedPairs(s, i, j - 1);
    }
  }

  /** A sorted listing of m: each entry is m's entry for its name, names once each, numbers ascending. */
  lemma ListingEntries(sorted: seq<Entry>, m: map<string, Variable>)
    requires DistinctNames(sorted) && MapOf(sorted) == m && SortedByVariable(sorted)
    ensures |sorted| == |m|
    ensures forall k | 0 <= k < |sorted| :: sorted[k].name in m && sorted[k] == Entry(sorted[k].name, m[sorted[k].name])
    ensures forall i, j | 0 <= i < j < |sorted| :: m[sorted[i].name].variable <= m[sorted[j].name].variable
  {
    MapOfDistinct(sorted);
    forall i, j | 0 <= i < j < |sorted| ensures m[sorted[i].name].variable <= m[sorted[j].name].variable {
      SortedPairs(sorted, i, j);
    }
  }

  /** The rows written for a sorted listing of m describe m's entries, once each, by ascending number. */
  lemma ListedRows(sorted: seq<Entry>, m: map<string, Variable>, striped: bool)
    requires DistinctNames(sorted) && MapOf(sorted) == m && SortedByVariable(sorted)
    ensures RowsOfListing(TableRows(sorted, striped), m)
  {
    ListingEntries(sorted, m);
    var rows := TableRows(sorted, striped);
    hide RowOf, MapOf, SortedByVariable;
    forall k | 0 <= k < |rows|
      ensures rows[k].description in m
      ensures rows[k] == RowOf(rows[k].rowClass, Entry(rows[k].description, m[rows[k].description]))
    {
      assert rows[k] == RowOf(RowClass(if striped then k else 0), sorted[k]);
    }
    forall i, j | 0 <= i < j < |rows| ensures rows[i].description != rows[j].description {
      assert rows[i].description == sorted[i].name && rows[j].description == sorted[j].name;
    }
    forall i, j | 0 <= i < j < |rows|
      ensures m[rows[i].description].variable <= m[rows[j].description].variable
    {
      assert rows[i].description == sorted[i].name && rows[j].description == sorted[j].name;
    }
  }

  /** Putting a name not yet taken out of m extends a listing of the part already taken. */
  lemma PutNew(list: seq<Entry>, m: map<string, Variable>, keys: set<string>, name: string)
    requires keys <= m.Keys && name in keys
    requires DistinctNames(list) && MapOf(list) == m - keys
    requires forall k | 0 <= k < |list| :: list[k].name !in keys
    ensures var list' := list + [Entry(name, m[name])];
      DistinctNames(list') && MapOf(list') == m - (keys - {name}) &&
      forall k | 0 <= k < |list'| :: list'[k].name !in keys - {name}
  {
    var list' := list + [Entry(name, m[name])];
    assert forall k | 0 <= k < |list| :: list'[k] == list[k];
    assert list'[..|list'| - 1] == list;
    assert MapOf(list') == MapOf(list)[name := m[name]];
    MinusPut(m, keys, name);
  }

  /** Taking one more name out of keys is putting its value back into m - keys. */
  lemma MinusPut(m: map<string, Variable>, keys: set<string>, name: string)
    requires name in m
    ensures (m - keys)[name := m[name]] == m - (keys - {name})
  {
    var l, r := (m - keys)[name := m[name]], m - (keys - {name});
    assert l.Keys == r.Keys;
    assert forall n | n in l :: l[n] == r[n];
  }

  /**
   * The variable map: item names to descriptors. The constructor fills it; afterwards it is
   * only read.
   */
  class VariableMap {
    var vMap: map<string, Variable>

    /** What the filled map keeps: good descriptors under distinct numbers. */
    ghost predicate Valid()
      reads this
    {
      MapEntriesOk(vMap) && MapIdsDistinct(vMap)
    }

    /** Puts every entry of the table, in the source's order, into an empty map. */
    constructor()
      ensures vMap == MapOf(Catalog())
      ensures Valid() && |vMap| == 180
    {
      vMap := map[];
      new;
      hide MainRows, KwFtfConfigRows, PortalRows;
      var rows := Catalog();
      var i := 0;
      while i < |rows|
        invariant 0 <= i <= |rows|
        invariant vMap == MapOf(rows[..i])
      {
        assert rows[..i + 1][..i] == rows[..i];
        vMap := vMap[rows[i].name := rows[i].v];
        i := i + 1;
      }
      assert rows[..i] == rows;
      TableFacts();
    }

    /** `getVariable`: the descriptor stored under a name, or None (Java's null) for an unknown name. */
    function GetVariable(name: string): (r: Option<Variable>)
      reads this
      ensures r.Some? <==> name in vMap
      ensures r.Some? ==> r.value == vMap[name]
      ensures Valid() && r.Some? ==> EntryOk(r.value)
    {
      Get(vMap, name)
    }

    /**
     * Copies the map's entries out in the HashMap's own order, which is unspecified: the
     * model takes them in any order.
     */
    method EntryList() returns (list: seq<Entry>)
      ensures DistinctNames(list) && MapOf(list) == vMap
    {
      list := [];
      var keys := vMap.Keys;
      assert MapOf(list) == vMap - keys;
      hide MapOf, DistinctNames;
      while keys != {}
        invariant keys <= vMap.Keys
        invariant DistinctNames(list)
        invariant forall k | 0 <= k < |list| :: list[k].name !in keys
        invariant MapOf(list) == vMap - keys
        decreases |keys|
      {
        var name :| name in keys;
        PutNew(list, vMap, keys, name);
        list := list + [Entry(name, vMap[name])];
        keys := keys - {name};
      }
    }

    /**
     * `getSortedMap`: the entries re-inserted, in order of their variable numbers, into a
     * LinkedHashMap, modelled by its listing. It holds the same names and descriptors as the
     * map and lists them by ascending number; numbers are distinct in a valid map, which
     * makes the listing strictly ascending and the only one possible (ListingUnique).
     */
    method GetSortedMap() returns (sorted: seq<Entry>)
      ensures DistinctNames(sorted) && MapOf(sorted) == vMap && |sorted| == |vMap|
      ensures SortedByVariable(sorted)
      ensures Valid() ==> Ascending(sorted)
    {
      var list := EntryList();
      hide MapOf, DistinctNames, SortedByVariable, Ascending, SortByVariable, Insert;
      var ordered := SortByVariable(list);
      sorted := [];
      var k := 0;
      while k < |ordered|
        invariant 0 <= k <= |ordered|
        invariant sorted == ordered[..k]
      {
        SortedPutStep(list, k);
        sorted := LinkedPut(sorted, ordered[k].name, ordered[k].v);
        k := k + 1;
      }
      assert sorted == ordered;
      SortedListing(list, vMap);
    }

    /**
     * `getHtmlList`, as written: one row per entry of the sorted listing, in its order; the
     * counter behind the row class is never incremented, so every row is "even".
     */
    method GetHtmlList() returns (rows: seq<HtmlRow>)
      ensures RowsOfListing(rows, vMap)
      ensures forall k | 0 <= k < |rows| :: rows[k].rowClass == "even"
    {
      hide RowsOfListing, RowOf;
      var sorted := GetSortedMap();
      var i := 0;
      rows := [];
      var k := 0;
      while k < |sorted|
        invariant 0 <= k <= |sorted|
        invariant rows == TableRows(sorted, false)[..k]
      {
        rows := rows + [RowOf(RowClass(i), sorted[k])];
        k := k + 1;
      }
      assert rows == TableRows(sorted, false);
      ListedRows(sorted, vMap, false);
    }

    /** `getHtmlList` as evidently intended: the counter advances per row, so classes alternate. */
    method GetStripedHtmlList() returns (rows: seq<HtmlRow>)
      ensures RowsOfListing(rows, vMap)
      ensures forall k | 0 <= k < |rows| :: rows[k].rowClass == RowClass(k)
    {
      hide RowsOfListing, RowOf;
      var sorted := GetSortedMap();
      var i := 0;
      rows := [];
      while i < |sorted|
        invariant 0 <= i <= |sorted|
        invariant rows == TableRows(sorted, true)[..i]
      {
        rows := rows + [RowOf(RowClass(i), sorted[i])];
        i := i + 1;
      }
      assert rows == TableRows(sorted, true);
      ListedRows(sorted, vMap, true);
    }
  }
}
