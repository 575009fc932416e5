/** Folding the IPv4 and IPv6 halves of each rule into one entry. */
module UfwFold {
  import opened Options
  import opened UfwRules

  predicate IsV6(r: UfwRule) {
    r.ipVersion == "v6"
  }

  // ---------------- the fold, on values ----------------

  /** A rule met for the first time: a v6 number goes to the v6 field. */
  function Half(r: UfwRule): UfwRule {
    if IsV6(r) then r.(position := None, positionV6 := r.position) else r
  }

  function Merge(existing: UfwRule, r: UfwRule): UfwRule {
    if IsV6(r) then existing.(positionV6 := r.position, ipVersion := "both")
    else existing.(position := r.position, ipVersion := "both")
  }

  function KeyIndex(out: seq<UfwRule>, key: Columns): (k: nat)
    ensures k <= |out|
    ensures k < |out| ==> out[k].columns == key
    ensures forall j :: 0 <= j < k ==> out[j].columns != key
  {
    if out == [] || out[0].columns == key then 0 else 1 + KeyIndex(out[1..], key)
  }

  function FoldStep(out: seq<UfwRule>, r: UfwRule): seq<UfwRule> {
    var k := KeyIndex(out, r.columns);
    if k == |out| then out + [Half(r)] else out[k := Merge(out[k], r)]
  }

  function Fold(rules: seq<UfwRule>): seq<UfwRule> {
    if rules == [] then []
    else FoldStep(Fold(rules[..|rules| - 1]), rules[|rules| - 1])
  }

  // ---------------- keys: distinct, complete, in order of first occurrence ----------------

  function Keys(rules: seq<UfwRule>): seq<Columns> {
    seq(|rules|, i requires 0 <= i < |rules| => rules[i].columns)
  }

  /** A list with every repetition after the first occurrence dropped. */
  function FirstSeen(keys: seq<Columns>): seq<Columns> {
    if keys == [] then []
    else
      var before, last := FirstSeen(keys[..|keys| - 1]), keys[|keys| - 1];
      if last in before then before else before + [last]
  }

  function FirstAt(keys: seq<Columns>, key: Columns): (k: nat)
    ensures k <= |keys|
    ensures k < |keys| ==> keys[k] == key
    ensures key !in keys[..k]
  {
    if keys == [] || keys[0] == key then 0 else 1 + FirstAt(keys[1..], key)
  }

  lemma FirstAtPrefix(keys: seq<Columns>, last: Columns, key: Columns)
    ensures key in keys ==> FirstAt(keys + [last], key) == FirstAt(keys, key) < |keys|
    ensures key !in keys && key == last ==> FirstAt(keys + [last], key) == |keys|
  {
    if keys != [] && keys[0] != key {
      assert (keys + [last])[1..] == keys[1..] + [last];
      FirstAtPrefix(keys[1..], last, key);
    }
  }

  /** Dropping repetitions keeps each key once, in the order of first occurrence. */
  lemma {:induction false} FirstSeenOrder(keys: seq<Columns>)
    ensures forall k :: k in FirstSeen(keys) <==> k in keys
    ensures forall i, j :: 0 <= i < j < |FirstSeen(keys)| ==>
              FirstAt(keys, FirstSeen(keys)[i]) < FirstAt(keys, FirstSeen(keys)[j])
  {
    if keys != [] {
      var prefix, last := keys[..|keys| - 1], keys[|keys| - 1];
      var d, d' := FirstSeen(prefix), FirstSeen(keys);
      FirstSeenOrder(prefix);
      assert keys == prefix + [last];
      forall i, j | 0 <= i < j < |d'| ensures FirstAt(keys, d'[i]) < FirstAt(keys, d'[j]) {
        FirstAtPrefix(prefix, last, d'[i]);
        FirstAtPrefix(prefix, last, d'[j]);
      }
    }
  }

  ghost predicate DistinctKeys(out: seq<UfwRule>) {
    forall i, j :: 0 <= i < j < |out| ==> out[i].columns != out[j].columns
  }

  lemma KeyIndexMember(rules: seq<UfwRule>, key: Columns)
    ensures KeyIndex(rules, key) < |rules| <==> key in Keys(rules)
    ensures KeyIndex(rules, key) < |rules| ==> Keys(rules)[KeyIndex(rules, key)] == key
  {
    var k := KeyIndex(rules, key);
    if k < |rules| {
      assert Keys(rules)[k] == key;
    }
  }

  lemma KeysAppend(out: seq<UfwRule>, r: UfwRule)
    ensures Keys(out + [r]) == Keys(out) + [r.columns]
  {
  }

  lemma KeysUpdate(out: seq<UfwRule>, k: nat, r: UfwRule)
    requires k < |out| && r.columns == out[k].columns
    ensures Keys(out[k := r]) == Keys(out)
  {
  }

  lemma {:induction false} FoldStepKeys(out: seq<UfwRule>, r: UfwRule)
    ensures Keys(FoldStep(out, r)) == if r.columns in Keys(out) then Keys(out) else Keys(out) + [r.columns]
    ensures KeyIndex(out, r.columns) < |out| <==> r.columns in Keys(out)
    ensures KeyIndex(out, r.columns) < |out| ==> Keys(out)[KeyIndex(out, r.columns)] == r.columns
  {
    KeyIndexMember(out, r.columns);
    var k := KeyIndex(out, r.columns);
    if k == |out| {
      KeysAppend(out, Half(r));
    } else {
      KeysUpdate(out, k, Merge(out[k], r));
    }
  }

  /** Folding leaves one entry per key, in the order the keys first appear. */
  lemma {:induction false} FoldKeys(rules: seq<UfwRule>)
    ensures Keys(Fold(rules)) == FirstSeen(Keys(rules))
  {
    if rules != [] {
      var prefix, last := rules[..|rules| - 1], rules[|rules| - 1];
      FoldKeys(prefix);
      assert Keys(rules)[..|rules| - 1] == Keys(prefix);
      FoldStepKeys(Fold(prefix), last);
    }
  }

  lemma FoldHasKey(rules: seq<UfwRule>, key: Columns)
    ensures KeyIndex(Fold(rules), key) < |Fold(rules)| <==> KeyIndex(rules, key) < |rules|
    ensures DistinctKeys(Fold(rules))
  {
    FoldKeys(rules);
    FirstSeenOrder(Keys(rules));
    KeyIndexMember(Fold(rules), key);
    KeyIndexMember(rules, key);
    var out := Fold(rules);
    assert forall i :: 0 <= i < |out| ==> out[i].columns == Keys(out)[i];
  }

  lemma {:induction false} KeyIndexAppend(a: seq<UfwRule>, r: UfwRule, key: Columns)
    ensures KeyIndex(a + [r], key)
            == if KeyIndex(a, key) < |a| then KeyIndex(a, key)
               else if r.columns == key then |a| else |a| + 1
  {
    if a == [] {
      assert [r][1..] == [];
    } else if a[0].columns != key {
      assert (a + [r])[1..] == a[1..] + [r];
      KeyIndexAppend(a[1..], r, key);
    }
  }

  // ---------------- the verdict does not change ----------------

  lemma {:induction false} SameKeysSameVerdict(net: Containment, a: seq<UfwRule>, b: seq<UfwRule>, path: ManagementPath)
    requires |a| == |b| && forall i :: 0 <= i < |a| ==> a[i].columns == b[i].columns
    ensures PathVerdict(net, a, path) == PathVerdict(net, b, path)
  {
    if a != [] {
      SameKeysSameVerdict(net, a[1..], b[1..], path);
    }
  }

  /** Folding preserves meaning: the folded list gives every management path the
      verdict the full list gives it. */
  lemma {:induction false} FoldPreservesVerdict(net: Containment, rules: seq<UfwRule>, path: ManagementPath)
    ensures PathVerdict(net, Fold(rules), path) == PathVerdict(net, rules, path)
  {
    if rules != [] {
      var prefix, last := rules[..|rules| - 1], rules[|rules| - 1];
      var before := Fold(prefix);
      FoldPreservesVerdict(net, prefix, path);
      assert rules == prefix + [last];
      VerdictConcat(net, prefix, [last], path);
      var k := KeyIndex(before, last.columns);
      if k == |before| {
        VerdictConcat(net, before, [Half(last)], path);
        SameKeysSameVerdict(net, [last], [Half(last)], path);
      } else {
        SameKeysSameVerdict(net, before, Fold(rules), path);
        if PathVerdict(net, before, path) == Default {
          VerdictIsFirstMatch(net, before, path);
          assert !RuleMatches(net, before[k], path);
        }
      }
    }
  }

  // ---------------- positions ----------------

  /** The position of the last entry with this key in this family. */
  function LastPosition(rules: seq<UfwRule>, key: Columns, v6: bool): Option<int> {
    if rules == [] then None
    else
      var last := rules[|rules| - 1];
      if last.columns == key && IsV6(last) == v6 then last.position
      else LastPosition(rules[..|rules| - 1], key, v6)
  }

  function Occurrences(rules: seq<UfwRule>, key: Columns): nat {
    if rules == [] then 0
    else Occurrences(rules[..|rules| - 1], key) + if rules[|rules| - 1].columns == key then 1 else 0
  }

  lemma AbsentKey(rules: seq<UfwRule>, key: Columns, v6: bool)
    requires KeyIndex(rules, key) == |rules|
    ensures LastPosition(rules, key, v6) == None && Occurrences(rules, key) == 0
  {
    if rules != [] {
      var prefix := rules[..|rules| - 1];
      assert rules == prefix + [rules[|rules| - 1]];
      KeyIndexAppend(prefix, rules[|rules| - 1], key);
      AbsentKey(prefix, key, v6);
    }
  }

  /** The table rows as parsed: each carries one number, of its own family. */
  ghost predicate Parsed(rules: seq<UfwRule>) {
    forall i :: 0 <= i < |rules| ==> rules[i].positionV6 == None && rules[i].ipVersion in {"v4", "v6"}
  }

  /** Each folded entry holds, per family, the last number its key had there, and
      says "both" exactly when the key occurred more than once. */
  lemma {:induction false} FoldPositions(rules: seq<UfwRule>, j: nat)
    requires Parsed(rules) && j < |Fold(rules)|
    ensures Fold(rules)[j].position == LastPosition(rules, Fold(rules)[j].columns, false)
    ensures Fold(rules)[j].positionV6 == LastPosition(rules, Fold(rules)[j].columns, true)
    ensures Fold(rules)[j].ipVersion == "both" <==> Occurrences(rules, Fold(rules)[j].columns) > 1
  {
    var prefix, last := rules[..|rules| - 1], rules[|rules| - 1];
    var before := Fold(prefix);
    assert rules == prefix + [last];
    if j < |before| {
      FoldPositions(prefix, j);
      FoldHasKey(prefix, before[j].columns);
      assert KeyIndex(before, before[j].columns) < |before|;
      KeyOccurs(prefix, before[j].columns);
    } else {
      FoldHasKey(prefix, last.columns);
      AbsentKey(prefix, last.columns, true);
      AbsentKey(prefix, last.columns, false);
    }
  }

  lemma KeyOccurs(rules: seq<UfwRule>, key: Columns)
    requires KeyIndex(rules, key) < |rules|
    ensures Occurrences(rules, key) > 0
  {
    var prefix := rules[..|rules| - 1];
    assert rules == prefix + [rules[|rules| - 1]];
    if rules[|rules| - 1].columns != key {
      KeyIndexAppend(prefix, rules[|rules| - 1], key);
      KeyOccurs(prefix, key);
    }
  }

  /** Each entry is the first row with its key, in all but the numbers; a row that
      found no partner keeps its own family. */
  lemma {:induction false} EntryIsFirstRow(rules: seq<UfwRule>, j: nat)
    requires j < |Fold(rules)|
    ensures var i := KeyIndex(rules, Fold(rules)[j].columns);
            && i < |rules| && Fold(rules)[j].columns == rules[i].columns && Fold(rules)[j].spec == rules[i].spec
            && (Occurrences(rules, rules[i].columns) == 1 ==> Fold(rules)[j].ipVersion == rules[i].ipVersion)
  {
    var prefix, last := rules[..|rules| - 1], rules[|rules| - 1];
    var before := Fold(prefix);
    assert rules == prefix + [last];
    if j < |before| {
      EntryIsFirstRow(prefix, j);
      KeyIndexAppend(prefix, last, before[j].columns);
      FoldHasKey(prefix, before[j].columns);
      KeyOccurs(prefix, before[j].columns);
    } else {
      FoldHasKey(prefix, last.columns);
      KeyIndexAppend(prefix, last, last.columns);
    }
  }

  ghost predicate LaterTwin(rules: seq<UfwRule>, i: nat) {
    exists m :: i < m < |rules| && rules[m].columns == rules[i].columns && IsV6(rules[m]) == IsV6(rules[i])
  }

  lemma {:induction false} LastPositionOf(rules: seq<UfwRule>, i: nat)
    requires i < |rules|
    ensures !LaterTwin(rules, i) ==> LastPosition(rules, rules[i].columns, IsV6(rules[i])) == rules[i].position
    ensures LaterTwin(rules, i) ==>
              exists m :: i < m < |rules| && LastPosition(rules, rules[i].columns, IsV6(rules[i])) == rules[m].position
  {
    var prefix, last := rules[..|rules| - 1], rules[|rules| - 1];
    if i < |prefix| {
      assert prefix[i] == rules[i];
      if last.columns == rules[i].columns && IsV6(last) == IsV6(rules[i]) {
        assert LaterTwin(rules, i);
      } else {
        LastPositionOf(prefix, i);
        if LaterTwin(rules, i) {
          var m :| i < m < |rules| && rules[m].columns == rules[i].columns && IsV6(rules[m]) == IsV6(rules[i]);
          assert prefix[m] == rules[m] && LaterTwin(prefix, i);
        }
        if LaterTwin(prefix, i) {
          var n :| i < n < |prefix| && LastPosition(prefix, prefix[i].columns, IsV6(prefix[i])) == prefix[n].position;
          assert rules[n] == prefix[n];
        }
      }
    }
  }

  function PositionIn(r: UfwRule, v6: bool): Option<int> {
    if v6 then r.positionV6 else r.position
  }

  /** A row's number survives the fold exactly when no later row has its key and
      family. Then it is in one entry only, the one with the row's key, in the
      field of the row's own family. */
  lemma PositionSurvivesExactly(rules: seq<UfwRule>, i: nat)
    requires Parsed(rules) && i < |rules|
    requires forall a, b :: 0 <= a < b < |rules| ==> rules[a].position != rules[b].position
    ensures var j := KeyIndex(Fold(rules), rules[i].columns);
            && j < |Fold(rules)|
            && (PositionIn(Fold(rules)[j], IsV6(rules[i])) == rules[i].position <==> !LaterTwin(rules, i))
    ensures rules[i].position.Some? ==>
              forall j, v6 :: 0 <= j < |Fold(rules)| && PositionIn(Fold(rules)[j], v6) == rules[i].position ==>
                j == KeyIndex(Fold(rules), rules[i].columns) && v6 == IsV6(rules[i]) && !LaterTwin(rules, i)
  {
    FoldHasKey(rules, rules[i].columns);
    assert KeyIndex(rules, rules[i].columns) <= i;
    var j := KeyIndex(Fold(rules), rules[i].columns);
    FoldPositions(rules, j);
    LastPositionOf(rules, i);
    forall j, v6 | 0 <= j < |Fold(rules)| && PositionIn(Fold(rules)[j], v6) == rules[i].position
        && rules[i].position.Some?
      ensures Fold(rules)[j].columns == rules[i].columns && v6 == IsV6(rules[i])
    {
      PositionNamesRow(rules, i, j, v6);
    }
  }

  /** A number found in a folded entry names the one row it came from. */
  lemma PositionNamesRow(rules: seq<UfwRule>, i: nat, j: nat, v6: bool)
    requires Parsed(rules) && i < |rules| && j < |Fold(rules)|
    requires forall a, b :: 0 <= a < b < |rules| ==> rules[a].position != rules[b].position
    requires PositionIn(Fold(rules)[j], v6) == rules[i].position && rules[i].position.Some?
    ensures Fold(rules)[j].columns == rules[i].columns && v6 == IsV6(rules[i])
  {
    FoldPositions(rules, j);
    LastPositionNamesRow(rules, i, Fold(rules)[j].columns, v6);
  }

  lemma LastPositionNamesRow(rules: seq<UfwRule>, i: nat, key: Columns, v6: bool)
    requires Parsed(rules) && i < |rules| && LastPosition(rules, key, v6) == rules[i].position
             && rules[i].position.Some?
    requires forall a, b :: 0 <= a < b < |rules| ==> rules[a].position != rules[b].position
    ensures key == rules[i].columns && v6 == IsV6(rules[i])
  {
    PositionHasSource(rules, key, v6);
  }

  /** Conversely every number in a folded entry is some input row's, of that key
      and that family: the fold invents no position. */
  lemma {:induction false} PositionHasSource(rules: seq<UfwRule>, key: Columns, v6: bool)
    requires LastPosition(rules, key, v6).Some?
    ensures exists i :: 0 <= i < |rules| && rules[i].columns == key && IsV6(rules[i]) == v6
                        && rules[i].position == LastPosition(rules, key, v6)
  {
    var prefix, last := rules[..|rules| - 1], rules[|rules| - 1];
    if !(last.columns == key && IsV6(last) == v6) {
      PositionHasSource(prefix, key, v6);
      var i :| 0 <= i < |prefix| && prefix[i].columns == key && IsV6(prefix[i]) == v6
               && prefix[i].position == LastPosition(prefix, key, v6);
      assert rules[i] == prefix[i];
    }
  }

  // ---------------- the loop over rule objects ----------------

  /** A parsed row: an object whose fields the fold writes in place. */
  class Row {
    var rule: UfwRule

    constructor (rule: UfwRule)
      ensures this.rule == rule
    {
      this.rule := rule;
    }

    /** A v6 row met first keeps its number in the v6 field. */
    method TakeOwnField()
      modifies this
      ensures rule == Half(old(rule))
    {
      if rule.ipVersion == "v6" {
        rule := rule.(position := None, positionV6 := rule.position);
      }
    }

    /** The other half of this row has turned up. */
    method Absorb(other: UfwRule)
      modifies this
      ensures rule == Merge(old(rule), other)
    {
      if other.ipVersion == "v6" {
        rule := rule.(positionV6 := other.position);
      } else {
        rule := rule.(position := other.position);
      }
      rule := rule.(ipVersion := "both");
    }
  }

  /** Rows and values correspond, one to one and in order. */
  ghost predicate Shows(rows: seq<Row>, values: seq<UfwRule>)
    reads rows
  {
    |rows| == |values| && forall i :: 0 <= i < |rows| ==> rows[i].rule == values[i]
  }

  ghost predicate DistinctRows(rows: seq<Row>) {
    forall i, j :: 0 <= i < j < |rows| ==> rows[i] != rows[j]
  }

  /** `seen` finds each row of `out` by its key, and nothing else. */
  ghost predicate Indexes(seen: map<Columns, Row>, out: seq<Row>, keys: seq<Columns>) {
    && |out| == |keys|
    && (forall j :: 0 <= j < |keys| ==> keys[j] in seen && seen[keys[j]] == out[j])
    && (forall k :: k in seen ==> k in keys)
  }

  /** One turn of the loop: append a row not seen before, or merge into the one
      already kept. */
  method FoldRow(row: Row, out: seq<Row>, seen: map<Columns, Row>, ghost folded: seq<UfwRule>)
    returns (out': seq<Row>, seen': map<Columns, Row>)
    requires row !in out && DistinctRows(out)
    requires Shows(out, folded) && Indexes(seen, out, Keys(folded))
    modifies row, out
    ensures Shows(out', FoldStep(folded, old(row.rule)))
    ensures Indexes(seen', out', Keys(FoldStep(folded, old(row.rule))))
    ensures DistinctRows(out') && (out' == out || out' == out + [row])
  {
    var key := row.rule.columns;
    ghost var k := KeyIndex(folded, key);
    FoldStepKeys(folded, row.rule);
    out', seen' := out, seen;
    if key !in seen {
      seen' := seen[key := row];
      out' := out + [row];
      row.TakeOwnField();
    } else {
      assert seen[key] == out[k];
      seen[key].Absorb(row.rule);
    }
  }

  /** The first rows are folded into `out`, the later ones are as they came. */
  ghost predicate Folded(
    rows: seq<Row>, values: seq<UfwRule>, i: nat, out: seq<Row>, seen: map<Columns, Row>, folded: seq<UfwRule>)
    reads rows, out
  {
    && |rows| == |values| && DistinctRows(out) && Shows(out, folded) && Indexes(seen, out, Keys(folded))
    && (forall j :: i <= j < |rows| ==> rows[j] !in out && rows[j].rule == values[j])
    && (forall j :: 0 <= j < |out| ==> out[j] in rows)
  }

  method FoldNext(
    rows: seq<Row>, ghost values: seq<UfwRule>, i: nat, out: seq<Row>, seen: map<Columns, Row>,
    ghost folded: seq<UfwRule>)
    returns (out': seq<Row>, seen': map<Columns, Row>)
    requires i < |rows| && DistinctRows(rows) && Folded(rows, values, i, out, seen, folded)
    modifies rows
    ensures Folded(rows, values, i + 1, out', seen', FoldStep(folded, values[i]))
  {
    out', seen' := FoldRow(rows[i], out, seen, folded);
  }

  /** The fold in place: the surviving rows are mutated, kept in order and
      returned; what they show is the fold of what the input showed. */
  method PairRules(rows: seq<Row>, ghost values: seq<UfwRule>) returns (out: seq<Row>)
    requires DistinctRows(rows) && Shows(rows, values)
    modifies rows
    ensures Shows(out, Fold(values))
    ensures forall j :: 0 <= j < |out| ==> out[j] in rows
  {
    out := [];
    var seen: map<Columns, Row> := map[];
    for i := 0 to |rows|
      invariant Folded(rows, values, i, out, seen, Fold(values[..i]))
    {
      FoldSnoc(values, i);
      out, seen := FoldNext(rows, values, i, out, seen, Fold(values[..i]));
    }
    assert values[..|rows|] == values;
  }

  lemma FoldSnoc(values: seq<UfwRule>, i: nat)
    requires i < |values|
    ensures Fold(values[..i + 1]) == FoldStep(Fold(values[..i]), values[i])
  {
    assert values[..i + 1][..i] == values[..i];
  }
}
