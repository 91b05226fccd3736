/** `generate_bom`: group the selected footprints by normalised value,
    footprint name and attribute label, drop the virtual groups, sort each
    group's references naturally and sort the rows by reference prefix rank,
    footprint name, descending quantity and the first reference's natural key.

    The value normaliser (`units.componentValue`) is a parameter `cv`.
    Python 2 dictionaries iterate in an unspecified order; the model visits
    the groups in the order their keys were first seen. */
module Bom {
  import opened Base
  import opened Board
  import opened NaturalOrder
  import opened NaturalKey
  import opened StableSort

  // ---------------------------------------------------------------------
  // Attribute labels

  /** `attr_dict`. */
  const AttrNames: map<int, string> := map[0 := "Normal", 1 := "Normal+Insert", 2 := "Virtual"]

  function DigitChar(d: nat): char
    requires d < 10
  {
    ('0' as int + d) as char
  }

  /** `str(n)` for a non-negative integer: its decimal digits, which read back as `n`. */
  function NatToString(n: nat): (s: string)
    ensures s != [] && AllDigits(s)
    ensures DecimalValue(s) == n
    decreases n
  {
    if n < 10 then [DigitChar(n)]
    else
      var s := NatToString(n / 10) + [DigitChar(n % 10)];
      assert s[..|s| - 1] == NatToString(n / 10);
      s
  }

  /** `str(i)` for any integer: a minus sign for negatives, then the digits. */
  function IntToString(i: int): (s: string)
    ensures s != [] && forall k :: 0 <= k < |s| ==> IsDigit(s[k]) || s[k] == '-'
    ensures i >= 0 ==> AllDigits(s) && DecimalValue(s) == i
    ensures i < 0 ==> s[0] == '-' && AllDigits(s[1..]) && DecimalValue(s[1..]) == -i
  {
    if i < 0 then
      var s := "-" + NatToString(-i);
      assert s[1..] == NatToString(-i);
      s
    else NatToString(i)
  }

  /** The attribute label of a footprint: the name from `attr_dict`, or the
      code in decimal. No unnamed code shares a label with a named one. */
  function AttrLabel(code: int): (name: string)
    ensures code == 0 <==> name == "Normal"
    ensures code == 1 <==> name == "Normal+Insert"
    ensures code == 2 <==> name == "Virtual"
    ensures code !in AttrNames ==> name == IntToString(code)
  {
    if code in AttrNames then AttrNames[code]
    else
      var s := IntToString(code);
      assert s[0] != 'N' && s[0] != 'V';
      s
  }

  /** Different integers print differently: the sign shows in the first
      character and the digits read back as the magnitude. */
  lemma IntToStringInjective(a: int, b: int)
    requires IntToString(a) == IntToString(b)
    ensures a == b
  {
    var s := IntToString(a);
    assert (a >= 0) == IsDigit(s[0]) == (b >= 0);
  }

  /** Different attribute codes get different labels, so footprints whose
      codes differ never share a group. */
  lemma AttrLabelInjective(a: int, b: int)
    requires AttrLabel(a) == AttrLabel(b)
    ensures a == b
  {
    if a !in AttrNames && b !in AttrNames {
      IntToStringInjective(a, b);
    }
  }

  // ---------------------------------------------------------------------
  // Grouping

  /** The layer filter: no filter keeps every footprint. */
  predicate Selected(m: Module, filter: Option<Layer>) {
    filter.None? || filter.value == m.layer
  }

  /** `(norm_value, footprint, attr)`. */
  datatype GroupKey = GroupKey(normValue: string, footprint: string, attr: string)

  /** `[value, refs]`: the raw value of the group's first footprint and the group's references. */
  datatype ValRefs = ValRefs(value: string, refs: seq<string>)

  function KeyOf(m: Module, cv: string -> string): GroupKey {
    GroupKey(cv(m.value), m.footprintName, AttrLabel(m.attributes))
  }

  /** `part_groups` after the grouping loop: `setdefault(key, [value, []])`
      followed by appending the reference. Every group has a reference. */
  function PartGroups(ms: seq<Module>, filter: Option<Layer>, cv: string -> string): (g: map<GroupKey, ValRefs>)
    ensures forall k :: k in g ==> g[k].refs != []
  {
    if ms == [] then map[]
    else
      var g := PartGroups(ms[..|ms| - 1], filter, cv);
      var m := ms[|ms| - 1];
      if !Selected(m, filter) then g
      else
        var k := KeyOf(m, cv);
        var vr := if k in g then g[k] else ValRefs(m.value, []);
        g[k := ValRefs(vr.value, vr.refs + [m.reference])]
  }

  predicate Distinct<T(==)>(s: seq<T>) {
    forall i, j :: 0 <= i < j < |s| ==> s[i] != s[j]
  }

  /** The group keys in the order first seen (GroupOrderKeys). */
  function GroupOrder(ms: seq<Module>, filter: Option<Layer>, cv: string -> string): seq<GroupKey> {
    if ms == [] then []
    else
      var order := GroupOrder(ms[..|ms| - 1], filter, cv);
      var m := ms[|ms| - 1];
      if Selected(m, filter) && KeyOf(m, cv) !in order then order + [KeyOf(m, cv)] else order
  }

  /** Each key of PartGroups appears in GroupOrder exactly once, and nothing else does. */
  lemma {:induction false} GroupOrderKeys(ms: seq<Module>, filter: Option<Layer>, cv: string -> string)
    ensures forall k :: k in GroupOrder(ms, filter, cv) <==> k in PartGroups(ms, filter, cv)
    ensures Distinct(GroupOrder(ms, filter, cv))
    decreases |ms|
  {
    if ms != [] {
      var p := ms[..|ms| - 1];
      GroupOrderKeys(p, filter, cv);
      var order := GroupOrder(p, filter, cv);
      var m := ms[|ms| - 1];
      if Selected(m, filter) && KeyOf(m, cv) !in order {
        var order' := order + [KeyOf(m, cv)];
        forall i, j | 0 <= i < j < |order'| ensures order'[i] != order'[j] {
          if j < |order| { assert order'[i] == order[i] && order'[j] == order[j]; }
          else { assert order'[i] == order[i]; }
        }
      }
    }
  }

  /** One more footprint `m` after `ms`, whose groups are `g` in first-seen
      order `order`: `m` is skipped, or joins the group of its key `k`,
      opening the group if it is new. */
  lemma GroupStep(ms: seq<Module>, m: Module, filter: Option<Layer>, cv: string -> string,
                  g: map<GroupKey, ValRefs>, order: seq<GroupKey>, k: GroupKey)
    requires g == PartGroups(ms, filter, cv) && order == GroupOrder(ms, filter, cv) && k == KeyOf(m, cv)
    ensures !Selected(m, filter) ==>
              PartGroups(ms + [m], filter, cv) == g && GroupOrder(ms + [m], filter, cv) == order
    ensures Selected(m, filter) && k in g ==>
              && PartGroups(ms + [m], filter, cv) == g[k := ValRefs(g[k].value, g[k].refs + [m.reference])]
              && GroupOrder(ms + [m], filter, cv) == order
    ensures Selected(m, filter) && k !in g ==>
              && PartGroups(ms + [m], filter, cv) == g[k := ValRefs(m.value, [m.reference])]
              && GroupOrder(ms + [m], filter, cv) == order + [k]
  {
    assert (ms + [m])[..|ms|] == ms;
    GroupOrderKeys(ms, filter, cv);
    assert [] + [m.reference] == [m.reference];
  }

  /** GroupStep for the last footprint of `ms`. */
  lemma GroupLast(ms: seq<Module>, filter: Option<Layer>, cv: string -> string,
                  g: map<GroupKey, ValRefs>, order: seq<GroupKey>, m: Module, k: GroupKey)
    requires ms != [] && m == ms[|ms| - 1] && k == KeyOf(m, cv)
    requires g == PartGroups(ms[..|ms| - 1], filter, cv) && order == GroupOrder(ms[..|ms| - 1], filter, cv)
    ensures !Selected(m, filter) ==> PartGroups(ms, filter, cv) == g && GroupOrder(ms, filter, cv) == order
    ensures Selected(m, filter) && k in g ==>
              && PartGroups(ms, filter, cv) == g[k := ValRefs(g[k].value, g[k].refs + [m.reference])]
              && GroupOrder(ms, filter, cv) == order
    ensures Selected(m, filter) && k !in g ==>
              && PartGroups(ms, filter, cv) == g[k := ValRefs(m.value, [m.reference])]
              && GroupOrder(ms, filter, cv) == order + [k]
  {
    InitLast(ms);
    GroupStep(ms[..|ms| - 1], m, filter, cv, g, order, k);
  }

  // ---------------------------------------------------------------------
  // Rows

  /** A row of the table: `(qty, value, footprint, refs)`. */
  datatype BomRow = BomRow(qty: nat, value: string, footprint: string, refs: seq<string>)

  /** Rows always hold a reference (`sort_func` reads `rf[0]`). */
  type Row = r: BomRow | r.refs != [] witness BomRow(1, "", "", [""])

  /** `natural_sort`: the references ordered by their natural keys, stably
      (NaturalSortSpec). */
  function NaturalSort(refs: seq<string>): (r: seq<string>)
    ensures |r| == |refs|
  {
    SortBy(refs, NatKey)
  }

  /** The sorted references are the same references, in natural-key order,
      and references with equal keys keep their order. */
  lemma NaturalSortSpec(refs: seq<string>)
    ensures multiset(NaturalSort(refs)) == multiset(refs)
    ensures SortedBy(NaturalSort(refs), NatKey)
    ensures forall k :: WithKey(NaturalSort(refs), NatKey, k) == WithKey(refs, NatKey, k)
  {
    SortBySpec(refs, NatKey);
  }

  /** The row built for one group. */
  function RowOf(k: GroupKey, vr: ValRefs): Row
    requires vr.refs != []
  {
    BomRow(|vr.refs|, vr.value, k.footprint, NaturalSort(vr.refs))
  }

  /** `bom_table` before sorting: one row per non-virtual group, in `order`. */
  function RowsFor(g: map<GroupKey, ValRefs>, order: seq<GroupKey>): seq<Row>
    requires forall k :: k in order ==> k in g && g[k].refs != []
  {
    if order == [] then []
    else
      var k := order[|order| - 1];
      RowsFor(g, order[..|order| - 1]) + (if k.attr == "Virtual" then [] else [RowOf(k, g[k])])
  }

  /** One more group key: its row is appended unless the group is virtual. */
  lemma RowsStep(g: map<GroupKey, ValRefs>, order: seq<GroupKey>, k: GroupKey)
    requires forall k' :: k' in order + [k] ==> k' in g && g[k'].refs != []
    ensures RowsFor(g, order + [k]) == RowsFor(g, order) + (if k.attr == "Virtual" then [] else [RowOf(k, g[k])])
  {
    assert (order + [k])[..|order|] == order;
  }

  // ---------------------------------------------------------------------
  // Row order

  /** `re.findall('^[A-Z]*', s)[0]`: the longest leading run of capital letters. */
  function Prefix(s: string): (p: string)
    ensures |p| <= |s| && p == s[..|p|]
    ensures forall i :: 0 <= i < |p| ==> IsUpper(p[i])
    ensures |p| < |s| ==> !IsUpper(s[|p|])
  {
    if s == [] || !IsUpper(s[0]) then [] else [s[0]] + Prefix(s[1..])
  }

  /** `ref_ord`. */
  const RefOrder: map<string, int> := map[
    "C" := 1, "R" := 2, "L" := 3, "D" := 4, "Q" := 5, "U" := 6, "Y" := 7, "X" := 8,
    "F" := 9, "SW" := 10, "A" := 11, "HS" := 1996, "CNN" := 1997, "J" := 1998,
    "P" := 1999, "NT" := 2000, "MH" := 2001]

  /** `ref_ord.get(prefix, 1000)`. */
  function Rank(prefix: string): int {
    if prefix in RefOrder then RefOrder[prefix] else 1000
  }

  /** `sort_func(row)`, the tuple `(ref_ord, fp, -qty, alphanum_key(rf[0]))`
      flattened into one key (RowKeyOrder shows the two orders agree). */
  function RowKey(row: Row): Key {
    var first := row.refs[0];
    [Num(Rank(Prefix(first))), Txt(row.footprint), Num(-(row.qty as int))] + NatKey(first)
  }

  /** Python's comparison of two `sort_func` tuples, component by component. */
  predicate SortFuncLess(a: Row, b: Row) {
    var ra, rb := Rank(Prefix(a.refs[0])), Rank(Prefix(b.refs[0]));
    || ra < rb
    || (ra == rb && StrLess(a.footprint, b.footprint))
    || (ra == rb && a.footprint == b.footprint && -(a.qty as int) < -(b.qty as int))
    || (ra == rb && a.footprint == b.footprint && a.qty == b.qty && KeyLess(NatKey(a.refs[0]), NatKey(b.refs[0])))
  }

  // ---------------------------------------------------------------------
  // The table

  /** What `generate_bom(pcb, filter)` returns for the footprints `ms`. */
  function BomTable(ms: seq<Module>, filter: Option<Layer>, cv: string -> string): seq<Row> {
    SortBy(Rows(ms, filter, cv), RowKey)
  }

  /** `bom_table` before sorting: the rows of the groups of `ms`, in first-seen order. */
  function Rows(ms: seq<Module>, filter: Option<Layer>, cv: string -> string): seq<Row> {
    GroupOrderKeys(ms, filter, cv);
    RowsFor(PartGroups(ms, filter, cv), GroupOrder(ms, filter, cv))
  }

  /** GroupStep for the footprint at index `i` of `ms`, stated on prefixes. */
  lemma GroupStepAt(ms: seq<Module>, i: nat, filter: Option<Layer>, cv: string -> string,
                    g: map<GroupKey, ValRefs>, order: seq<GroupKey>, m: Module, k: GroupKey)
    requires i < |ms| && m == ms[i] && k == KeyOf(m, cv)
    requires g == PartGroups(ms[..i], filter, cv) && order == GroupOrder(ms[..i], filter, cv)
    ensures !Selected(m, filter) ==>
              PartGroups(ms[..i + 1], filter, cv) == g && GroupOrder(ms[..i + 1], filter, cv) == order
    ensures Selected(m, filter) && k in g ==>
              && PartGroups(ms[..i + 1], filter, cv) == g[k := ValRefs(g[k].value, g[k].refs + [m.reference])]
              && GroupOrder(ms[..i + 1], filter, cv) == order
    ensures Selected(m, filter) && k !in g ==>
              && PartGroups(ms[..i + 1], filter, cv) == g[k := ValRefs(m.value, [m.reference])]
              && GroupOrder(ms[..i + 1], filter, cv) == order + [k]
  {
    TakeSnoc(ms, i);
    GroupStep(ms[..i], m, filter, cv, g, order, k);
  }

  /** The grouping loop of `generate_bom` ("build grouped part list"). */
  method GroupParts(pcb: Pcb, filter: Option<Layer>, cv: string -> string)
    returns (partGroups: map<GroupKey, ValRefs>, order: seq<GroupKey>)
    ensures partGroups == PartGroups(pcb.modules, filter, cv)
    ensures order == GroupOrder(pcb.modules, filter, cv)
  {
    partGroups, order := map[], [];
    var i := 0;
    while i < |pcb.modules|
      invariant 0 <= i <= |pcb.modules|
      invariant partGroups == PartGroups(pcb.modules[..i], filter, cv)
      invariant order == GroupOrder(pcb.modules[..i], filter, cv)
    {
      var m := pcb.modules[i];
      if filter.None? || filter.value == m.layer {
        var value := m.value;
        var normValue := cv(value);
        var footprint := m.footprintName;
        var attr := AttrLabel(m.attributes);
        var groupKey := GroupKey(normValue, footprint, attr);
        GroupStepAt(pcb.modules, i, filter, cv, partGroups, order, m, groupKey);
        if groupKey in partGroups {
          partGroups := partGroups[groupKey := ValRefs(partGroups[groupKey].value, partGroups[groupKey].refs + [m.reference])];
        } else {
          order := order + [groupKey];
          partGroups := partGroups[groupKey := ValRefs(value, [m.reference])];
        }
      } else {
        GroupStepAt(pcb.modules, i, filter, cv, partGroups, order, m, KeyOf(m, cv));
      }
      i := i + 1;
    }
    assert pcb.modules[..i] == pcb.modules;
  }

  /** `generate_bom`: group, build one row per non-virtual group, sort the rows. */
  method GenerateBom(pcb: Pcb, filter: Option<Layer>, cv: string -> string) returns (table: seq<Row>)
    ensures table == BomTable(pcb.modules, filter, cv)
    ensures multiset(table) == multiset(Rows(pcb.modules, filter, cv))
    ensures SortedBy(table, RowKey)
  {
    var partGroups, order := GroupParts(pcb, filter, cv);
    GroupOrderKeys(pcb.modules, filter, cv);
    var bomTable: seq<Row> := [];
    var j := 0;
    while j < |order|
      invariant 0 <= j <= |order|
      invariant bomTable == RowsFor(partGroups, order[..j])
    {
      var groupKey := order[j];
      TakeSnoc(order, j);
      RowsStep(partGroups, order[..j], groupKey);
      var valrefs := partGroups[groupKey];
      if groupKey.attr != "Virtual" {
        bomTable := bomTable + [BomRow(|valrefs.refs|, valrefs.value, groupKey.footprint, NaturalSort(valrefs.refs))];
      }
      j := j + 1;
    }
    assert order[..j] == order;
    table := SortBy(bomTable, RowKey);
    SortBySpec(bomTable, RowKey);
  }

  // ---------------------------------------------------------------------
  // Properties of the grouping

  /** The last footprint of `ms` adds its key to the groups of the footprints before it, if selected. */
  lemma DomainStep(ms: seq<Module>, filter: Option<Layer>, cv: string -> string, k: GroupKey)
    requires ms != []
    ensures k in PartGroups(ms, filter, cv) <==>
            k in PartGroups(ms[..|ms| - 1], filter, cv) || (Selected(ms[|ms| - 1], filter) && KeyOf(ms[|ms| - 1], cv) == k)
  {
  }

  /** Every group comes from a selected footprint with its key. */
  lemma {:induction false} GroupHasSource(ms: seq<Module>, filter: Option<Layer>, cv: string -> string, k: GroupKey)
    requires k in PartGroups(ms, filter, cv)
    ensures exists i :: 0 <= i < |ms| && Selected(ms[i], filter) && KeyOf(ms[i], cv) == k
    decreases |ms|
  {
    var n := |ms| - 1;
    DomainStep(ms, filter, cv, k);
    if !(Selected(ms[n], filter) && KeyOf(ms[n], cv) == k) {
      GroupHasSource(ms[..n], filter, cv, k);
      var i :| 0 <= i < n && Selected(ms[..n][i], filter) && KeyOf(ms[..n][i], cv) == k;
      assert ms[..n][i] == ms[i];
    }
  }

  /** Every selected footprint's key has a group. */
  lemma SourceHasGroup(ms: seq<Module>, filter: Option<Layer>, cv: string -> string, i: nat)
    requires i < |ms| && Selected(ms[i], filter)
    ensures KeyOf(ms[i], cv) in PartGroups(ms, filter, cv)
  {
    RefsWithKeyHas(ms, filter, cv, i);
    PartGroupsRefs(ms, filter, cv, KeyOf(ms[i], cv));
  }

  /** A group exists exactly for the keys of the selected footprints. */
  lemma PartGroupsDomain(ms: seq<Module>, filter: Option<Layer>, cv: string -> string, k: GroupKey)
    ensures k in PartGroups(ms, filter, cv) <==>
            exists i :: 0 <= i < |ms| && Selected(ms[i], filter) && KeyOf(ms[i], cv) == k
  {
    if k in PartGroups(ms, filter, cv) {
      GroupHasSource(ms, filter, cv, k);
    } else if exists i :: 0 <= i < |ms| && Selected(ms[i], filter) && KeyOf(ms[i], cv) == k {
      var i :| 0 <= i < |ms| && Selected(ms[i], filter) && KeyOf(ms[i], cv) == k;
      SourceHasGroup(ms, filter, cv, i);
    }
  }

  /** The references of the selected footprints whose key is `k`, in footprint order. */
  function RefsWithKey(ms: seq<Module>, filter: Option<Layer>, cv: string -> string, k: GroupKey): seq<string> {
    if ms == [] then []
    else
      var m := ms[|ms| - 1];
      RefsWithKey(ms[..|ms| - 1], filter, cv, k) + (if Selected(m, filter) && KeyOf(m, cv) == k then [m.reference] else [])
  }

  /** A group holds the references of its footprints, in footprint order. */
  lemma {:induction false} PartGroupsRefs(ms: seq<Module>, filter: Option<Layer>, cv: string -> string, k: GroupKey)
    ensures k in PartGroups(ms, filter, cv) ==> PartGroups(ms, filter, cv)[k].refs == RefsWithKey(ms, filter, cv, k)
    ensures k !in PartGroups(ms, filter, cv) ==> RefsWithKey(ms, filter, cv, k) == []
    decreases |ms|
  {
    if ms != [] {
      PartGroupsRefs(ms[..|ms| - 1], filter, cv, k);
    }
  }

  /** `ms[i]` is the first selected footprint whose key is `k`. */
  predicate FirstWithKey(ms: seq<Module>, filter: Option<Layer>, cv: string -> string, k: GroupKey, i: int) {
    && 0 <= i < |ms| && Selected(ms[i], filter) && KeyOf(ms[i], cv) == k
    && forall j :: 0 <= j < i ==> !(Selected(ms[j], filter) && KeyOf(ms[j], cv) == k)
  }

  /** Every selected footprint's reference is in the group of its own key. */
  lemma {:induction false} FootprintInItsGroup(ms: seq<Module>, filter: Option<Layer>, cv: string -> string, i: nat)
    requires i < |ms| && Selected(ms[i], filter)
    ensures KeyOf(ms[i], cv) in PartGroups(ms, filter, cv)
    ensures ms[i].reference in PartGroups(ms, filter, cv)[KeyOf(ms[i], cv)].refs
    decreases |ms|
  {
    var k := KeyOf(ms[i], cv);
    SourceHasGroup(ms, filter, cv, i);
    PartGroupsRefs(ms, filter, cv, k);
    RefsWithKeyHas(ms, filter, cv, i);
  }

  lemma {:induction false} RefsWithKeyHas(ms: seq<Module>, filter: Option<Layer>, cv: string -> string, i: nat)
    requires i < |ms| && Selected(ms[i], filter)
    ensures ms[i].reference in RefsWithKey(ms, filter, cv, KeyOf(ms[i], cv))
    decreases |ms|
  {
    var n := |ms| - 1;
    if i < n {
      assert ms[..n][i] == ms[i];
      RefsWithKeyHas(ms[..n], filter, cv, i);
    }
  }

  /** The last footprint of `ms` keeps an existing group's value and gives a new group its own. */
  lemma ValueStep(ms: seq<Module>, filter: Option<Layer>, cv: string -> string, k: GroupKey)
    requires ms != []
    ensures k in PartGroups(ms[..|ms| - 1], filter, cv) ==>
              PartGroups(ms, filter, cv)[k].value == PartGroups(ms[..|ms| - 1], filter, cv)[k].value
    ensures k !in PartGroups(ms[..|ms| - 1], filter, cv) && k in PartGroups(ms, filter, cv) ==>
              PartGroups(ms, filter, cv)[k].value == ms[|ms| - 1].value
  {
  }

  /** `setdefault` keeps the first value: a group's value is the raw value of
      the first selected footprint with that key. */
  lemma {:induction false} PartGroupsValue(ms: seq<Module>, filter: Option<Layer>, cv: string -> string, k: GroupKey)
    requires k in PartGroups(ms, filter, cv)
    ensures exists i :: FirstWithKey(ms, filter, cv, k, i) && PartGroups(ms, filter, cv)[k].value == ms[i].value
    decreases |ms|
  {
    var n := |ms| - 1;
    var p := ms[..n];
    DomainStep(ms, filter, cv, k);
    ValueStep(ms, filter, cv, k);
    if k in PartGroups(p, filter, cv) {
      PartGroupsValue(p, filter, cv, k);
      var i :| FirstWithKey(p, filter, cv, k, i) && PartGroups(p, filter, cv)[k].value == p[i].value;
      FirstWithKeyExtends(ms, n, filter, cv, k, i);
    } else {
      forall j | 0 <= j < n
        ensures !(Selected(ms[j], filter) && KeyOf(ms[j], cv) == k)
      {
        assert p[j] == ms[j];
        if Selected(p[j], filter) {
          SourceHasGroup(p, filter, cv, j);
        }
      }
      assert FirstWithKey(ms, filter, cv, k, n);
    }
  }

  /** The first footprint with a key in a prefix is still the first in the whole sequence. */
  lemma FirstWithKeyExtends(ms: seq<Module>, n: nat, filter: Option<Layer>, cv: string -> string, k: GroupKey, i: int)
    requires n <= |ms| && FirstWithKey(ms[..n], filter, cv, k, i)
    ensures FirstWithKey(ms, filter, cv, k, i) && ms[..n][i] == ms[i]
  {
    assert forall j :: 0 <= j < n ==> ms[..n][j] == ms[j];
  }

  // ---------------------------------------------------------------------
  // Properties of the rows

  /** Every row comes from a non-virtual key in `order`. */
  lemma {:induction false} RowHasKey(g: map<GroupKey, ValRefs>, order: seq<GroupKey>, r: Row)
    requires forall k :: k in order ==> k in g && g[k].refs != []
    requires r in RowsFor(g, order)
    ensures exists k :: k in order && k.attr != "Virtual" && r == RowOf(k, g[k])
    decreases |order|
  {
    var n := |order| - 1;
    var prefix, last := order[..n], order[n];
    var tail := if last.attr == "Virtual" then [] else [RowOf(last, g[last])];
    assert RowsFor(g, order) == RowsFor(g, prefix) + tail;
    if r in RowsFor(g, prefix) {
      RowHasKey(g, prefix, r);
      var k :| k in prefix && k.attr != "Virtual" && r == RowOf(k, g[k]);
      var i :| 0 <= i < n && prefix[i] == k;
      assert order[i] == k;
    } else {
      assert r in tail && r == RowOf(last, g[last]);
    }
  }

  /** Every non-virtual key in `order` has its row. */
  lemma {:induction false} KeyHasRow(g: map<GroupKey, ValRefs>, order: seq<GroupKey>, k: GroupKey)
    requires forall k' :: k' in order ==> k' in g && g[k'].refs != []
    requires k in order && k.attr != "Virtual"
    ensures RowOf(k, g[k]) in RowsFor(g, order)
    decreases |order|
  {
    var n := |order| - 1;
    var prefix, last := order[..n], order[n];
    var tail := if last.attr == "Virtual" then [] else [RowOf(last, g[last])];
    assert RowsFor(g, order) == RowsFor(g, prefix) + tail;
    if k != last {
      InInit(order, k);
      KeyHasRow(g, prefix, k);
    }
  }

  /** The rows are exactly the rows of the non-virtual keys in `order`. */
  lemma RowsForMember(g: map<GroupKey, ValRefs>, order: seq<GroupKey>, r: Row)
    requires forall k :: k in order ==> k in g && g[k].refs != []
    ensures r in RowsFor(g, order) <==> exists k :: k in order && k.attr != "Virtual" && r == RowOf(k, g[k])
  {
    if r in RowsFor(g, order) {
      RowHasKey(g, order, r);
    } else if exists k :: k in order && k.attr != "Virtual" && r == RowOf(k, g[k]) {
      var k :| k in order && k.attr != "Virtual" && r == RowOf(k, g[k]);
      KeyHasRow(g, order, k);
    }
  }

  /** Every row of the table is the row of one non-virtual group, and every
      non-virtual group has its row in the table. */
  lemma TableRows(ms: seq<Module>, filter: Option<Layer>, cv: string -> string, r: Row)
    ensures r in BomTable(ms, filter, cv) <==>
            exists k :: k in PartGroups(ms, filter, cv) && k.attr != "Virtual" && r == RowOf(k, PartGroups(ms, filter, cv)[k])
  {
    var g, order := PartGroups(ms, filter, cv), GroupOrder(ms, filter, cv);
    GroupOrderKeys(ms, filter, cv);
    var rows := RowsFor(g, order);
    assert Rows(ms, filter, cv) == rows;
    SortBySpec(rows, RowKey);
    assert r in BomTable(ms, filter, cv) <==> r in multiset(rows);
    RowsForMember(g, order, r);
  }

  /** Each row counts its references, holds them in natural order, and no
      row comes from a virtual group. */
  lemma RowsWellFormed(ms: seq<Module>, filter: Option<Layer>, cv: string -> string, r: Row)
    requires r in BomTable(ms, filter, cv)
    ensures r.qty == |r.refs|
    ensures SortedBy(r.refs, NatKey)
    ensures exists k :: k in PartGroups(ms, filter, cv) && k.attr != "Virtual" && k.footprint == r.footprint
                        && multiset(r.refs) == multiset(PartGroups(ms, filter, cv)[k].refs)
  {
    TableRows(ms, filter, cv, r);
    var g := PartGroups(ms, filter, cv);
    var k :| k in g && k.attr != "Virtual" && r == RowOf(k, g[k]);
    NaturalSortSpec(g[k].refs);
  }

  // ---------------------------------------------------------------------
  // Every non-virtual reference is listed once

  /** All references in the rows, counted with multiplicity. */
  function RowRefs(rows: seq<Row>): multiset<string> {
    if rows == [] then multiset{} else multiset(rows[0].refs) + RowRefs(rows[1..])
  }

  /** The references of the selected footprints that are not virtual (attribute code 2). */
  function BomRefs(ms: seq<Module>, filter: Option<Layer>): seq<string> {
    if ms == [] then []
    else
      var m := ms[|ms| - 1];
      BomRefs(ms[..|ms| - 1], filter) + (if Selected(m, filter) && m.attributes != 2 then [m.reference] else [])
  }

  lemma {:induction false} RowRefsAppend(a: seq<Row>, b: seq<Row>)
    ensures RowRefs(a + b) == RowRefs(a) + RowRefs(b)
    decreases |a|
  {
    if a == [] {
      assert a + b == b;
    } else {
      assert (a + b)[1..] == a[1..] + b;
      RowRefsAppend(a[1..], b);
    }
  }

  lemma {:induction false} RowRefsInsert(x: Row, s: seq<Row>)
    ensures RowRefs(Insert(x, s, RowKey)) == multiset(x.refs) + RowRefs(s)
    decreases |s|
  {
    if s == [] || !KeyLess(RowKey(s[0]), RowKey(x)) {
      assert ([x] + s)[1..] == s;
    } else {
      RowRefsInsert(x, s[1..]);
      assert ([s[0]] + Insert(x, s[1..], RowKey))[1..] == Insert(x, s[1..], RowKey);
    }
  }

  /** Sorting the rows moves references between positions, never between rows. */
  lemma {:induction false} RowRefsSorted(s: seq<Row>)
    ensures RowRefs(SortBy(s, RowKey)) == RowRefs(s)
    decreases |s|
  {
    if s != [] {
      RowRefsSorted(s[1..]);
      RowRefsInsert(s[0], SortBy(s[1..], RowKey));
    }
  }

  /** RowsFor reads the map only at the keys in `order`. */
  lemma {:induction false} RowsForFrame(g: map<GroupKey, ValRefs>, g': map<GroupKey, ValRefs>, order: seq<GroupKey>)
    requires forall k :: k in order ==> k in g && g[k].refs != [] && k in g' && g'[k] == g[k]
    ensures RowsFor(g', order) == RowsFor(g, order)
    decreases |order|
  {
    if order != [] {
      RowsForFrame(g, g', order[..|order| - 1]);
    }
  }

  /** Without its last key, a sequence of distinct keys is still distinct and does not hold that key. */
  lemma DistinctInit<T>(s: seq<T>)
    requires Distinct(s) && s != []
    ensures Distinct(s[..|s| - 1]) && s[|s| - 1] !in s[..|s| - 1]
  {
    var prefix := s[..|s| - 1];
    forall i, j | 0 <= i < j < |prefix| ensures prefix[i] != prefix[j] {
      assert prefix[i] == s[i] && prefix[j] == s[j];
    }
    forall i | 0 <= i < |prefix| ensures prefix[i] != s[|s| - 1] {
      assert prefix[i] == s[i];
    }
  }

  /** A member of a sequence other than its last element is in the sequence without it. */
  lemma InInit<T>(s: seq<T>, x: T)
    requires x in s && s != [] && x != s[|s| - 1]
    ensures x in s[..|s| - 1]
  {
    var i :| 0 <= i < |s| && s[i] == x;
    assert s[..|s| - 1][i] == x;
  }

  /** A group's row lists its references: one more reference, one more in the row. */
  lemma RowRefsOfRow(k: GroupKey, vr: ValRefs, ref: string)
    requires vr.refs != []
    ensures RowRefs([RowOf(k, vr)]) == multiset(vr.refs)
    ensures RowRefs([RowOf(k, ValRefs(vr.value, vr.refs + [ref]))]) == multiset(vr.refs) + multiset{ref}
  {
    assert [RowOf(k, vr)][1..] == [];
    assert [RowOf(k, ValRefs(vr.value, vr.refs + [ref]))][1..] == [];
    NaturalSortSpec(vr.refs);
    NaturalSortSpec(vr.refs + [ref]);
  }

  lemma BagAssoc(a: multiset<string>, b: multiset<string>, c: multiset<string>)
    ensures a + (b + c) == (a + b) + c
  {
  }

  lemma BagSwap(a: multiset<string>, b: multiset<string>, c: multiset<string>)
    ensures (a + b) + c == (a + c) + b
  {
  }

  /** Appending a reference to one group adds it to the rows once, unless the group is virtual. */
  lemma {:induction false} RowsForExtend(g: map<GroupKey, ValRefs>, g': map<GroupKey, ValRefs>, order: seq<GroupKey>, k: GroupKey, ref: string)
    requires forall k' :: k' in order ==> k' in g && g[k'].refs != []
    requires Distinct(order) && k in order
    requires g' == g[k := ValRefs(g[k].value, g[k].refs + [ref])]
    ensures RowRefs(RowsFor(g', order)) == RowRefs(RowsFor(g, order)) + (if k.attr == "Virtual" then multiset{} else multiset{ref})
    decreases |order|
  {
    var n := |order| - 1;
    var prefix, last := order[..n], order[n];
    DistinctInit(order);
    var tail := if last.attr == "Virtual" then [] else [RowOf(last, g[last])];
    var tail' := if last.attr == "Virtual" then [] else [RowOf(last, g'[last])];
    assert RowsFor(g, order) == RowsFor(g, prefix) + tail;
    assert RowsFor(g', order) == RowsFor(g', prefix) + tail';
    RowRefsAppend(RowsFor(g, prefix), tail);
    RowRefsAppend(RowsFor(g', prefix), tail');
    var bump: multiset<string> := if k.attr == "Virtual" then multiset{} else multiset{ref};
    var before, before' := RowRefs(RowsFor(g, prefix)), RowRefs(RowsFor(g', prefix));
    if last == k {
      RowsForFrame(g, g', prefix);
      RowRefsOfRow(k, g[k], ref);
      assert RowRefs(tail') == RowRefs(tail) + bump;
      BagAssoc(before, RowRefs(tail), bump);
    } else {
      InInit(order, k);
      RowsForExtend(g, g', prefix, k, ref);
      assert tail' == tail;
      BagSwap(before, bump, RowRefs(tail));
    }
  }

  /** Opening a group with one reference adds it to the rows once, unless the group is virtual. */
  lemma NewGroupRows(g: map<GroupKey, ValRefs>, g': map<GroupKey, ValRefs>, order: seq<GroupKey>, k: GroupKey, value: string, ref: string)
    requires forall k' :: k' in order ==> k' in g && g[k'].refs != []
    requires k !in order && g' == g[k := ValRefs(value, [ref])]
    ensures RowRefs(RowsFor(g', order + [k])) == RowRefs(RowsFor(g, order)) + (if k.attr == "Virtual" then multiset{} else multiset{ref})
  {
    assert forall k' :: k' in order + [k] ==> k' in g' && g'[k'].refs != [];
    RowsStep(g', order, k);
    RowsForFrame(g, g', order);
    var tail := if k.attr == "Virtual" then [] else [RowOf(k, g'[k])];
    RowRefsAppend(RowsFor(g, order), tail);
    RowRefsOfRow(k, g'[k], ref);
  }

  /** The rows before sorting list each non-virtual selected reference once. */
  lemma {:induction false} GroupRowRefs(ms: seq<Module>, filter: Option<Layer>, cv: string -> string)
    ensures RowRefs(Rows(ms, filter, cv)) == multiset(BomRefs(ms, filter))
    decreases |ms|
  {
    if ms != [] {
      var n := |ms| - 1;
      var p, m := ms[..n], ms[n];
      GroupRowRefs(p, filter, cv);
      var g, order := PartGroups(p, filter, cv), GroupOrder(p, filter, cv);
      GroupLast(ms, filter, cv, g, order, m, KeyOf(m, cv));
      GroupOrderKeys(p, filter, cv);
      GroupOrderKeys(ms, filter, cv);
      assert Rows(p, filter, cv) == RowsFor(g, order);
      assert Rows(ms, filter, cv) == RowsFor(PartGroups(ms, filter, cv), GroupOrder(ms, filter, cv));
      if Selected(m, filter) {
        var k := KeyOf(m, cv);
        assert k.attr == "Virtual" <==> m.attributes == 2;
        if k in g {
          RowsForExtend(g, PartGroups(ms, filter, cv), order, k, m.reference);
        } else {
          assert [] + [m.reference] == [m.reference];
          NewGroupRows(g, PartGroups(ms, filter, cv), order, k, m.value, m.reference);
        }
      }
    }
  }

  /** Every reference of a selected, non-virtual footprint appears in the
      table exactly as often as it occurs on the board; no other reference appears. */
  lemma BomCoversParts(ms: seq<Module>, filter: Option<Layer>, cv: string -> string)
    ensures RowRefs(BomTable(ms, filter, cv)) == multiset(BomRefs(ms, filter))
  {
    GroupRowRefs(ms, filter, cv);
    RowRefsSorted(Rows(ms, filter, cv));
  }

  /** The references BomRefs lists: of selected footprints whose attribute is not virtual. */
  lemma {:induction false} BomRefsMember(ms: seq<Module>, filter: Option<Layer>, x: string)
    ensures x in BomRefs(ms, filter) <==>
            exists i :: 0 <= i < |ms| && Selected(ms[i], filter) && ms[i].attributes != 2 && ms[i].reference == x
    decreases |ms|
  {
    if ms != [] {
      var n := |ms| - 1;
      BomRefsMember(ms[..n], filter, x);
      assert forall i :: 0 <= i < n ==> ms[..n][i] == ms[i];
    }
  }

  // ---------------------------------------------------------------------
  // Properties of the row order

  lemma LexStep(x: Atom, y: Atom, s: Key, t: Key)
    ensures KeyLess([x] + s, [y] + t) <==> (if x == y then KeyLess(s, t) else AtomLess(x, y))
  {
    assert ([x] + s)[1..] == s;
    assert ([y] + t)[1..] == t;
  }

  /** The flattened key orders rows as Python orders the `sort_func` tuples. */
  lemma RowKeyOrder(a: Row, b: Row)
    ensures KeyLess(RowKey(a), RowKey(b)) <==> SortFuncLess(a, b)
  {
    var ra, rb := Rank(Prefix(a.refs[0])), Rank(Prefix(b.refs[0]));
    var ka, kb := NatKey(a.refs[0]), NatKey(b.refs[0]);
    var ta := [Txt(a.footprint)] + ([Num(-(a.qty as int))] + ka);
    var tb := [Txt(b.footprint)] + ([Num(-(b.qty as int))] + kb);
    assert RowKey(a) == [Num(ra)] + ta;
    assert RowKey(b) == [Num(rb)] + tb;
    LexStep(Num(ra), Num(rb), ta, tb);
    LexStep(Txt(a.footprint), Txt(b.footprint), [Num(-(a.qty as int))] + ka, [Num(-(b.qty as int))] + kb);
    LexStep(Num(-(a.qty as int)), Num(-(b.qty as int)), ka, kb);
    LexIrreflexive(a.footprint, CharLess);
  }

  /** Capacitors come before resistors, whatever their footprints and quantities. */
  lemma CapacitorsBeforeResistors(a: Row, b: Row)
    requires Prefix(a.refs[0]) == "C" && Prefix(b.refs[0]) == "R"
    ensures KeyLess(RowKey(a), RowKey(b))
  {
    RowKeyOrder(a, b);
  }

  /** Unlisted prefixes rank between the listed parts and the mechanical ones
      (`A` before them, `HS` after). */
  lemma UnknownPrefixRank(a: Row, b: Row, c: Row)
    requires Prefix(a.refs[0]) == "A" && Prefix(b.refs[0]) == "" && Prefix(c.refs[0]) == "HS"
    ensures KeyLess(RowKey(a), RowKey(b)) && KeyLess(RowKey(b), RowKey(c))
  {
    RowKeyOrder(a, b);
    RowKeyOrder(b, c);
  }

  /** Between rows of one prefix rank and footprint, the larger group comes first. */
  lemma LargerGroupsFirst(a: Row, b: Row)
    requires Rank(Prefix(a.refs[0])) == Rank(Prefix(b.refs[0])) && a.footprint == b.footprint
    requires a.qty > b.qty
    ensures KeyLess(RowKey(a), RowKey(b))
  {
    RowKeyOrder(a, b);
  }

  lemma ReferenceKeysOrdered()
    ensures KeyLess(NatKey("R1"), NatKey("R2"))
    ensures KeyLess(NatKey("R1"), NatKey("R10"))
    ensures KeyLess(NatKey("R2"), NatKey("R10"))
  {
    KeyOfR1();
    KeyOfR2();
    KeyOfR10();
    LexStep(Txt("r"), Txt("r"), [Num(1), Txt("")], [Num(2), Txt("")]);
    LexStep(Txt("r"), Txt("r"), [Num(1), Txt("")], [Num(10), Txt("")]);
    LexStep(Txt("r"), Txt("r"), [Num(2), Txt("")], [Num(10), Txt("")]);
  }

  lemma SortTwoRefs()
    ensures SortBy(["R2", "R1"], NatKey) == ["R1", "R2"]
  {
    ReferenceKeysOrdered();
    assert ["R2", "R1"][1..] == ["R1"];
    assert SortBy(["R1"], NatKey) == ["R1"] by {
      assert ["R1"][1..] == [];
    }
    assert Insert("R2", ["R1"], NatKey) == ["R1", "R2"] by {
      assert ["R1"][1..] == [];
    }
  }

  /** Natural order on concrete references: R1, R2, R10 (plain string order
      would put R10 before R2). */
  lemma NaturalSortExample()
    ensures NaturalSort(["R10", "R2", "R1"]) == ["R1", "R2", "R10"]
  {
    ReferenceKeysOrdered();
    SortTwoRefs();
    assert ["R10", "R2", "R1"][1..] == ["R2", "R1"];
    assert Insert("R10", ["R1", "R2"], NatKey) == ["R1", "R2", "R10"] by {
      assert ["R1", "R2"][1..] == ["R2"];
      assert ["R2"][1..] == [];
    }
  }
}
