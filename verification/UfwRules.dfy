/** ufw rulesets: what a ruleset does with NetFleet's own connection, and the
    projections that predict the ruleset a change leaves behind. */
module UfwRules {
  import opened Options
  import opened Text
  import opened UfwPorts

  /** What a rule says, in ufw's own columns. */
  datatype Columns = Columns(
    action: string,
    direction: string,
    destination: string,
    source: string,
    iface: Option<string>,
    comment: Option<string>)

  /** A rule as reported: its columns, its numbers per address family, and the
      command line that identifies it. */
  datatype UfwRule = UfwRule(
    columns: Columns,
    ipVersion: string,
    position: Option<int>,
    positionV6: Option<int>,
    spec: Option<string>)

  /** How the host sees NetFleet arriving. */
  datatype ManagementPath = ManagementPath(clientAddress: Option<string>, serverPort: Option<int>) {

    predicate Known() {
      && clientAddress.Some? && clientAddress.value != ""
      && serverPort.Some? && serverPort.value != 0
    }

    function Client(): string {
      if clientAddress.Some? then clientAddress.value else ""
    }

    function Port(): int {
      if serverPort.Some? then serverPort.value else 0
    }
  }

  /** `address in network`, false when either text does not parse. Kept as a
      parameter: every result below holds whatever it answers. */
  type Containment = (string, string) -> bool

  datatype Verdict = Allow | Deny | Default

  // ---------------- first match ----------------

  predicate SourceMatches(net: Containment, source: string, address: string) {
    var value := Strip(source);
    value == "" || Lower(value) in {"anywhere", "any"} || net(value, address)
  }

  predicate RuleMatches(net: Containment, rule: UfwRule, path: ManagementPath) {
    && path.Known() && rule.columns.direction == "in"
    && (var selector := PortOf(rule.columns.destination);
        selector.None? || PortMatches(selector.value, path.Port()))
    && SourceMatches(net, rule.columns.source, path.Client())
  }

  predicate Permits(action: string) {
    action in {"allow", "limit"}
  }

  predicate RuleCoversPath(net: Containment, rule: UfwRule, path: ManagementPath) {
    Permits(rule.columns.action) && RuleMatches(net, rule, path)
  }

  function PathVerdict(net: Containment, rules: seq<UfwRule>, path: ManagementPath): Verdict {
    if rules == [] then Default
    else if !RuleMatches(net, rules[0], path) then PathVerdict(net, rules[1..], path)
    else if Permits(rules[0].columns.action) then Allow
    else Deny
  }

  predicate WouldLockOut(net: Containment, rules: seq<UfwRule>, path: ManagementPath, incoming: Option<string>) {
    path.Known() &&
    match PathVerdict(net, rules, path)
    case Allow => false
    case Deny => true
    case Default => incoming.None? || incoming.value == "" || Lower(incoming.value) == "deny"
  }

  /** The verdict is the first matching rule's, and Default says there is none. */
  lemma {:induction false} VerdictIsFirstMatch(net: Containment, rules: seq<UfwRule>, path: ManagementPath)
    ensures PathVerdict(net, rules, path) == Default
            <==> forall i :: 0 <= i < |rules| ==> !RuleMatches(net, rules[i], path)
    ensures PathVerdict(net, rules, path) != Default ==>
              exists i :: 0 <= i < |rules| && RuleMatches(net, rules[i], path)
                          && (forall j :: 0 <= j < i ==> !RuleMatches(net, rules[j], path))
                          && (PathVerdict(net, rules, path) == Allow <==> Permits(rules[i].columns.action))
  {
    if rules != [] {
      if RuleMatches(net, rules[0], path) {
        assert !(forall i :: 0 <= i < |rules| ==> !RuleMatches(net, rules[i], path));
      } else {
        var rest := rules[1..];
        VerdictIsFirstMatch(net, rest, path);
        assert forall i :: 0 < i < |rules| ==> rules[i] == rest[i - 1];
        if PathVerdict(net, rules, path) != Default {
          var k :| 0 <= k < |rest| && RuleMatches(net, rest[k], path)
                   && (forall j :: 0 <= j < k ==> !RuleMatches(net, rest[j], path))
                   && (PathVerdict(net, rest, path) == Allow <==> Permits(rest[k].columns.action));
          assert RuleMatches(net, rules[k + 1], path);
        }
      }
    }
  }

  /** The four actions: allow and limit let in, deny and reject shut out. */
  lemma FirstMatchDecides(net: Containment, rules: seq<UfwRule>, i: nat, path: ManagementPath)
    requires i < |rules| && RuleMatches(net, rules[i], path)
    requires forall j :: 0 <= j < i ==> !RuleMatches(net, rules[j], path)
    ensures rules[i].columns.action in {"allow", "limit"} ==>
              forall incoming :: !WouldLockOut(net, rules, path, incoming)
    ensures rules[i].columns.action in {"deny", "reject"} ==>
              forall incoming :: WouldLockOut(net, rules, path, incoming)
  {
    VerdictIsFirstMatch(net, rules, path);
    assert "deny"[0] == 'd' && "reject"[0] == 'r' && "allow"[0] == 'a' && "limit"[0] == 'l';
  }

  /** A known path that no rule matches is left to the default policy: shut out by
      deny, in any letter case, and when none is reported; let in by allow. A
      default of reject, which shuts out as well, is not counted as a lockout. */
  lemma FallThroughExactly(net: Containment, rules: seq<UfwRule>, path: ManagementPath)
    requires path.Known() && forall i :: 0 <= i < |rules| ==> !RuleMatches(net, rules[i], path)
    ensures WouldLockOut(net, rules, path, None) && WouldLockOut(net, rules, path, Some(""))
    ensures forall s: string :: WouldLockOut(net, rules, path, Some(s)) <==> s == "" || SpellsDeny(s)
    ensures WouldLockOut(net, rules, path, Some("deny")) && WouldLockOut(net, rules, path, Some("DENY"))
    ensures !WouldLockOut(net, rules, path, Some("allow")) && !WouldLockOut(net, rules, path, Some("reject"))
  {
    VerdictIsFirstMatch(net, rules, path);
    forall s: string ensures Lower(s) == "deny" <==> SpellsDeny(s) {
      LowerIsDeny(s);
    }
    assert SpellsDeny("deny") && SpellsDeny("DENY");
    assert |"allow"| == 5 && |"reject"| == 6;
  }

  /** The word deny, in capital or small letters. */
  predicate SpellsDeny(s: string) {
    |s| == 4 && s[0] in "dD" && s[1] in "eE" && s[2] in "nN" && s[3] in "yY"
  }

  lemma LowerIsDeny(s: string)
    ensures Lower(s) == "deny" <==> SpellsDeny(s)
  {
    if |s| == 4 {
      var t := Lower(s);
      assert t == "deny" <==> t[0] == 'd' && t[1] == 'e' && t[2] == 'n' && t[3] == 'y';
    }
  }

  /** Nothing is judged of a path that was not observed. */
  lemma UnknownPathIsNoLockout(net: Containment, rules: seq<UfwRule>, path: ManagementPath, incoming: Option<string>)
    requires path.clientAddress in {None, Some("")} || path.serverPort in {None, Some(0)}
    ensures !WouldLockOut(net, rules, path, incoming)
  {
  }

  /** A rule for a port and a network matches exactly the incoming connections to
      that port from that network. */
  lemma RuleMatchesExactly(
    net: Containment, columns: Columns, rule: UfwRule, path: ManagementPath, items: seq<Item>, network: string)
    requires rule.columns == columns && path.Known() && ValidItems(items) && IsWord(network)
    requires Lower(network) !in {"any", "anywhere"}
    requires columns.source == network && columns.destination in {ItemsText(items), ItemsText(items) + "/tcp"}
    ensures RuleMatches(net, rule, path) <==>
            columns.direction == "in" && InUnion(items, path.serverPort.value) && net(network, path.clientAddress.value)
  {
    SelectorExactly(items, columns.destination, path.serverPort.value);
    SourceExactly(net, network, path.clientAddress.value);
  }

  lemma SelectorExactly(items: seq<Item>, destination: string, port: int)
    requires ValidItems(items) && destination in {ItemsText(items), ItemsText(items) + "/tcp"}
    ensures PortOf(destination).Some? && (PortMatches(PortOf(destination).value, port) <==> InUnion(items, port))
  {
    var text := ItemsText(items);
    VisibleWord("tcp");
    DestinationRoundTrip(items, "", "tcp", port);
    PortMatchesUnion(items, "", port);
    NothingAdded(text);
    assert PortOf(text) == Some(text) && PortOf(text + "/tcp") == Some(text);
  }

  lemma NothingAdded(text: string)
    ensures text + "" == text && text + "" + "/" + "tcp" == text + "/tcp"
  {
    assert "/" + "tcp" == "/tcp";
  }

  lemma SourceExactly(net: Containment, network: string, address: string)
    requires IsWord(network) && Lower(network) !in {"any", "anywhere"}
    ensures SourceMatches(net, network, address) <==> net(network, address)
  {
    StripWord(network);
  }

  lemma {:induction false} VerdictConcat(net: Containment, a: seq<UfwRule>, b: seq<UfwRule>, path: ManagementPath)
    ensures PathVerdict(net, a + b, path)
            == if PathVerdict(net, a, path) == Default then PathVerdict(net, b, path) else PathVerdict(net, a, path)
  {
    if a == [] {
      assert a + b == b;
    } else {
      assert (a + b)[1..] == a[1..] + b;
      VerdictConcat(net, a[1..], b, path);
    }
  }

  // ---------------- projections ----------------

  function ProjectDeleted(rules: seq<UfwRule>, spec: string): seq<UfwRule> {
    if rules == [] then []
    else if rules[0].spec == Some(spec) then ProjectDeleted(rules[1..], spec)
    else [rules[0]] + ProjectDeleted(rules[1..], spec)
  }

  function Clamp(x: int, low: int, high: int): int {
    var raised := if x < low then low else x;
    if raised > high then high else raised
  }

  function InsertAt(rules: seq<UfwRule>, rule: UfwRule, index: nat): seq<UfwRule>
    requires index <= |rules|
  {
    rules[..index] + [rule] + rules[index..]
  }

  function ProjectedIndex(count: nat, position: Option<int>): (index: nat)
    ensures index <= count
  {
    if position.None? then count else Clamp(position.value - 1, 0, count)
  }

  function ProjectInserted(rules: seq<UfwRule>, rule: UfwRule, position: Option<int>): seq<UfwRule> {
    InsertAt(rules, rule, ProjectedIndex(|rules|, position))
  }

  /** The index of the first rule carrying this spec, or the length. */
  function SlotOf(rules: seq<UfwRule>, spec: string): (k: nat)
    ensures k <= |rules|
    ensures k < |rules| ==> rules[k].spec == Some(spec)
    ensures forall i :: 0 <= i < k ==> rules[i].spec != Some(spec)
  {
    if rules == [] || rules[0].spec == Some(spec) then 0 else 1 + SlotOf(rules[1..], spec)
  }

  function ProjectReplaced(rules: seq<UfwRule>, oldSpec: string, new_: UfwRule, position: Option<int>): seq<UfwRule> {
    var remaining := ProjectDeleted(rules, oldSpec);
    if position.Some? then ProjectInserted(remaining, new_, position)
    else
      var slot := SlotOf(rules, oldSpec);
      if slot == |rules| then remaining + [new_]
      else
        DeletedKeepsPrefix(rules, oldSpec);
        remaining[..slot] + [new_] + remaining[slot..]
  }

  function ProjectMoved(rules: seq<UfwRule>, spec: string, position: int): seq<UfwRule> {
    var slot := SlotOf(rules, spec);
    if slot == |rules| then rules
    else ProjectInserted(ProjectDeleted(rules, spec), rules[slot], Some(position))
  }

  lemma {:induction false} DeletedConcat(a: seq<UfwRule>, b: seq<UfwRule>, spec: string)
    ensures ProjectDeleted(a + b, spec) == ProjectDeleted(a, spec) + ProjectDeleted(b, spec)
  {
    if a == [] {
      assert a + b == b;
    } else {
      assert (a + b)[1..] == a[1..] + b;
      DeletedConcat(a[1..], b, spec);
    }
  }

  lemma {:induction false} DeletedUntouched(rules: seq<UfwRule>, spec: string)
    requires forall i :: 0 <= i < |rules| ==> rules[i].spec != Some(spec)
    ensures ProjectDeleted(rules, spec) == rules
  {
    if rules != [] {
      DeletedUntouched(rules[1..], spec);
    }
  }

  lemma DeletedKeepsPrefix(rules: seq<UfwRule>, spec: string)
    ensures SlotOf(rules, spec) <= |ProjectDeleted(rules, spec)|
  {
    var k := SlotOf(rules, spec);
    assert rules == rules[..k] + rules[k..];
    DeletedConcat(rules[..k], rules[k..], spec);
    DeletedUntouched(rules[..k], spec);
  }

  /** Deleting only removes rules, so it cannot make anything match earlier. */
  lemma {:induction false} DeletedStaysDefault(
    net: Containment, rules: seq<UfwRule>, spec: string, path: ManagementPath)
    requires PathVerdict(net, rules, path) == Default
    ensures PathVerdict(net, ProjectDeleted(rules, spec), path) == Default
  {
    if rules != [] {
      DeletedStaysDefault(net, rules[1..], spec, path);
      VerdictConcat(net, [rules[0]], ProjectDeleted(rules[1..], spec), path);
    }
  }

  // ---------------- an edit never opens a lockout of its own ----------------

  /** While both rules of an edit are present, the verdict is the one from before
      or the one from after: the overlap never decides anything new. */
  lemma OverlapVerdict(
    net: Containment, rules: seq<UfwRule>, new_: UfwRule, index: nat, oldSpec: string, path: ManagementPath)
    requires index <= |rules|
    requires new_.spec != Some(oldSpec)
    ensures var overlap := InsertAt(rules, new_, index);
            var after := ProjectDeleted(overlap, oldSpec);
            || PathVerdict(net, overlap, path) == PathVerdict(net, rules, path)
            || PathVerdict(net, overlap, path) == PathVerdict(net, after, path)
  {
    var a, b := rules[..index], rules[index..];
    assert rules == a + b;
    assert a + [new_] + b == a + ([new_] + b);
    VerdictConcat(net, a, b, path);
    VerdictConcat(net, a, [new_] + b, path);
    VerdictConcat(net, [new_], b, path);
    DeletedConcat(a, [new_] + b, oldSpec);
    DeletedConcat([new_], b, oldSpec);
    DeletedUntouched([new_], oldSpec);
    var da, db := ProjectDeleted(a, oldSpec), ProjectDeleted(b, oldSpec);
    VerdictConcat(net, da, [new_] + db, path);
    VerdictConcat(net, [new_], db, path);
    if PathVerdict(net, a, path) == Default {
      DeletedStaysDefault(net, a, oldSpec, path);
    }
  }

  /** Insert-then-delete: if neither the ruleset before nor the one after cuts
      NetFleet off, the overlapping one in between does not either. */
  lemma OverlapNeverLocksOut(
    net: Containment, rules: seq<UfwRule>, new_: UfwRule, index: nat, oldSpec: string,
    path: ManagementPath, incoming: Option<string>)
    requires index <= |rules|
    requires new_.spec != Some(oldSpec)
    requires !WouldLockOut(net, rules, path, incoming)
    requires !WouldLockOut(net, ProjectDeleted(InsertAt(rules, new_, index), oldSpec), path, incoming)
    ensures !WouldLockOut(net, InsertAt(rules, new_, index), path, incoming)
  {
    OverlapVerdict(net, rules, new_, index, oldSpec, path);
  }

  /** Delete-then-insert gives no such promise. Between the two commands of a
      move that is safe before and after, NetFleet is cut off only if the moved
      rule was itself the rule letting it in at both ends. */
  lemma MoveWindow(
    net: Containment, rules: seq<UfwRule>, slot: nat, index: nat,
    path: ManagementPath, incoming: Option<string>)
    requires slot < |rules| && index < |rules|
    requires var rest := rules[..slot] + rules[slot + 1..];
             && !WouldLockOut(net, rules, path, incoming)
             && !WouldLockOut(net, InsertAt(rest, rules[slot], index), path, incoming)
             && WouldLockOut(net, rest, path, incoming)
    ensures var rest := rules[..slot] + rules[slot + 1..];
            && RuleCoversPath(net, rules[slot], path)
            && PathVerdict(net, rules[..slot], path) == Default
            && PathVerdict(net, rest[..index], path) == Default
  {
    var a, r, b := rules[..slot], rules[slot], rules[slot + 1..];
    var rest := a + b;
    assert rules == a + ([r] + b);
    VerdictConcat(net, a, [r] + b, path);
    VerdictConcat(net, [r], b, path);
    VerdictConcat(net, a, b, path);
    var c, d := rest[..index], rest[index..];
    assert rest == c + d && InsertAt(rest, r, index) == c + ([r] + d);
    VerdictConcat(net, c, d, path);
    VerdictConcat(net, c, [r] + d, path);
    VerdictConcat(net, [r], d, path);
  }

  /** Exactly when the gap of a move cuts NetFleet off, from a ruleset that does not:
      the moved rule was the one letting it in, nothing above decides, and the rest
      below, with the default, shuts it out. */
  lemma MoveGapExactly(net: Containment, rules: seq<UfwRule>, slot: nat, path: ManagementPath, incoming: Option<string>)
    requires slot < |rules| && !WouldLockOut(net, rules, path, incoming)
    ensures WouldLockOut(net, rules[..slot] + rules[slot + 1..], path, incoming) <==>
            && RuleCoversPath(net, rules[slot], path) && PathVerdict(net, rules[..slot], path) == Default
            && WouldLockOut(net, rules[slot + 1..], path, incoming)
  {
    var p, r, q := rules[..slot], rules[slot], rules[slot + 1..];
    assert rules == p + ([r] + q);
    assert ([r] + q)[1..] == q;
    VerdictConcat(net, p, [r] + q, path);
    VerdictConcat(net, p, q, path);
  }

  // ---------------- projections against the commands ----------------

  ghost predicate DistinctSpecs(rules: seq<UfwRule>) {
    forall i, j :: 0 <= i < j < |rules| ==> rules[i].spec != rules[j].spec
  }

  ghost predicate Untouched(rules: seq<UfwRule>, spec: string) {
    forall i :: 0 <= i < |rules| ==> rules[i].spec != Some(spec)
  }

  lemma DeletedAround(x: seq<UfwRule>, r: UfwRule, y: seq<UfwRule>, spec: string)
    requires Untouched(x, spec) && r.spec == Some(spec) && Untouched(y, spec)
    ensures ProjectDeleted(x + [r] + y, spec) == x + y
  {
    assert x + [r] + y == x + ([r] + y);
    DeletedConcat(x, [r] + y, spec);
    DeletedUntouched(x, spec);
    DeletedUntouched(y, spec);
    assert ([r] + y)[1..] == y;
  }

  /** With distinct specs, deleting by spec removes one rule and no other. */
  lemma {:induction false} DeletedIsOneRule(rules: seq<UfwRule>, slot: nat, spec: string)
    requires DistinctSpecs(rules) && slot < |rules| && rules[slot].spec == Some(spec)
    ensures SlotOf(rules, spec) == slot
    ensures ProjectDeleted(rules, spec) == rules[..slot] + rules[slot + 1..]
    ensures Untouched(rules[..slot] + rules[slot + 1..], spec)
  {
    var a, r, b := rules[..slot], rules[slot], rules[slot + 1..];
    assert rules == a + [r] + b;
    DeletedAround(a, r, b, spec);
  }

  lemma InsertAtAddsOne(rest: seq<UfwRule>, r: UfwRule, index: nat)
    requires index <= |rest|
    ensures multiset(InsertAt(rest, r, index)) == multiset(rest) + multiset{r}
    ensures InsertAt(rest, r, index)[index] == r
  {
    assert rest == rest[..index] + rest[index..];
  }

  lemma InsertThenDelete(rest: seq<UfwRule>, r: UfwRule, index: nat, spec: string)
    requires index <= |rest| && Untouched(rest, spec) && r.spec == Some(spec)
    ensures ProjectDeleted(InsertAt(rest, r, index), spec) == rest
  {
    DeletedAround(rest[..index], r, rest[index..], spec);
    assert rest[..index] + rest[index..] == rest;
  }

  /** A move is delete, then insert at the slot asked for. */
  lemma MoveIsDeleteThenInsert(rules: seq<UfwRule>, slot: nat, spec: string, position: int)
    requires DistinctSpecs(rules) && slot < |rules| && rules[slot].spec == Some(spec)
    requires 1 <= position <= |rules|
    ensures ProjectMoved(rules, spec, position)
            == InsertAt(rules[..slot] + rules[slot + 1..], rules[slot], position - 1)
  {
    DeletedIsOneRule(rules, slot, spec);
  }

  lemma MultisetWithout(rules: seq<UfwRule>, slot: nat)
    requires slot < |rules|
    ensures multiset(rules[..slot] + rules[slot + 1..]) + multiset{rules[slot]} == multiset(rules)
  {
    assert rules == rules[..slot] + [rules[slot]] + rules[slot + 1..];
  }

  /** A move permutes the ruleset and puts the rule at the slot asked for. */
  lemma MovePermutes(rules: seq<UfwRule>, slot: nat, spec: string, position: int)
    requires DistinctSpecs(rules) && slot < |rules| && rules[slot].spec == Some(spec)
    requires 1 <= position <= |rules|
    ensures |ProjectMoved(rules, spec, position)| == |rules|
    ensures multiset(ProjectMoved(rules, spec, position)) == multiset(rules)
    ensures ProjectMoved(rules, spec, position)[position - 1] == rules[slot]
  {
    MoveIsDeleteThenInsert(rules, slot, spec, position);
    InsertAtAddsOne(rules[..slot] + rules[slot + 1..], rules[slot], position - 1);
    MultisetWithout(rules, slot);
  }

  /** A move leaves every other rule in its old order. */
  lemma {:induction false} MoveKeepsTheRest(rules: seq<UfwRule>, slot: nat, spec: string, position: int)
    requires DistinctSpecs(rules) && slot < |rules| && rules[slot].spec == Some(spec)
    requires 1 <= position <= |rules|
    ensures ProjectDeleted(ProjectMoved(rules, spec, position), spec) == ProjectDeleted(rules, spec)
  {
    MoveIsDeleteThenInsert(rules, slot, spec, position);
    DeletedIsOneRule(rules, slot, spec);
    InsertThenDelete(rules[..slot] + rules[slot + 1..], rules[slot], position - 1, spec);
  }

  /** What an edit's two commands leave: the replacement inserted where the driver
      asks (or appended), then the original removed. */
  function EditCommands(rules: seq<UfwRule>, oldSpec: string, new_: UfwRule, position: Option<int>): seq<UfwRule> {
    ProjectDeleted(ProjectInserted(rules, new_, position), oldSpec)
  }

  lemma EditAbove(a: seq<UfwRule>, m: seq<UfwRule>, r: UfwRule, q: seq<UfwRule>, spec: string, new_: UfwRule)
    requires Untouched(a + m, spec) && r.spec == Some(spec) && Untouched(q, spec)
    requires new_.spec != Some(spec)
    ensures ProjectDeleted(InsertAt(a + m + [r] + q, new_, |a|), spec) == InsertAt(a + m + q, new_, |a|)
  {
    assert forall i :: 0 <= i < |m| ==> m[i] == (a + m)[|a| + i];
    assert forall i :: 0 <= i < |a| ==> a[i] == (a + m)[i];
    assert InsertAt(a + m + [r] + q, new_, |a|) == (a + [new_] + m) + [r] + q;
    DeletedAround(a + [new_] + m, r, q, spec);
    assert InsertAt(a + m + q, new_, |a|) == (a + [new_] + m) + q;
  }

  lemma EditBelow(a: seq<UfwRule>, r: UfwRule, m: seq<UfwRule>, q: seq<UfwRule>, spec: string, new_: UfwRule)
    requires Untouched(a, spec) && r.spec == Some(spec) && Untouched(m + q, spec)
    requires new_.spec != Some(spec)
    ensures ProjectDeleted(InsertAt(a + [r] + m + q, new_, |a| + 1 + |m|), spec)
            == InsertAt(a + m + q, new_, |a| + |m|)
  {
    assert forall i :: 0 <= i < |m| ==> m[i] == (m + q)[i];
    assert forall i :: 0 <= i < |q| ==> q[i] == (m + q)[|m| + i];
    assert InsertAt(a + [r] + m + q, new_, |a| + 1 + |m|) == a + [r] + (m + [new_] + q);
    DeletedAround(a, r, m + [new_] + q, spec);
    assert InsertAt(a + m + q, new_, |a| + |m|) == a + (m + [new_] + q);
  }

  lemma EditCommandsAt(rules: seq<UfwRule>, slot: nat, oldSpec: string, new_: UfwRule, index: nat)
    requires slot < |rules| && rules[slot].spec == Some(oldSpec)
    requires Untouched(rules[..slot], oldSpec) && Untouched(rules[slot + 1..], oldSpec)
    requires new_.spec != Some(oldSpec) && index <= |rules|
    ensures var rest := rules[..slot] + rules[slot + 1..];
            ProjectDeleted(InsertAt(rules, new_, index), oldSpec)
            == InsertAt(rest, new_, if index <= slot then index else index - 1)
  {
    var p, r, q := rules[..slot], rules[slot], rules[slot + 1..];
    assert rules == p + [r] + q;
    if index <= slot {
      var a, m := p[..index], p[index..];
      assert p == a + m;
      EditAbove(a, m, r, q, oldSpec, new_);
    } else {
      var m, n := q[..index - slot - 1], q[index - slot - 1..];
      assert q == m + n && p + [r] + q == p + [r] + m + n && p + q == p + m + n;
      EditBelow(p, r, m, n, oldSpec, new_);
    }
  }

  lemma InsertedWhere(rest: seq<UfwRule>, new_: UfwRule, i: nat, j: nat)
    requires i <= |rest| && j <= |rest|
    requires new_ !in rest
    ensures InsertAt(rest, new_, i) == InsertAt(rest, new_, j) <==> i == j
  {
    if i != j {
      assert InsertAt(rest, new_, i)[i] == new_;
      assert InsertAt(rest, new_, j)[i] != new_;
    }
  }

  /** When the edit projection predicts what the commands leave, for a rule not
      yet present: with a position, exactly when it is at or above the rule's own
      slot or past the end; without one, exactly when the edited rule is last. */
  lemma EditProjectionExact(
    rules: seq<UfwRule>, slot: nat, oldSpec: string, new_: UfwRule, position: Option<int>)
    requires DistinctSpecs(rules) && slot < |rules| && rules[slot].spec == Some(oldSpec)
    requires new_.spec != Some(oldSpec) && new_ !in rules
    requires position.Some? ==> 1 <= position.value <= |rules| + 1
    ensures ProjectReplaced(rules, oldSpec, new_, position) == EditCommands(rules, oldSpec, new_, position)
            <==> if position.None? then slot == |rules| - 1
                 else position.value <= slot + 1 || position.value == |rules| + 1
  {
    DeletedIsOneRule(rules, slot, oldSpec);
    var rest := rules[..slot] + rules[slot + 1..];
    var index := ProjectedIndex(|rules|, position);
    EditCommandsAt(rules, slot, oldSpec, new_, index);
    var projected := if position.None? then slot else ProjectedIndex(|rest|, position);
    InsertedWhere(rest, new_, projected, if index <= slot then index else index - 1);
  }

  /** Switching a rule off and restoring it at the slot it held is the identity. */
  lemma DisableThenEnable(rules: seq<UfwRule>, slot: nat, spec: string)
    requires DistinctSpecs(rules) && slot < |rules| && rules[slot].spec == Some(spec)
    ensures ProjectInserted(ProjectDeleted(rules, spec), rules[slot], Some(slot + 1)) == rules
  {
    DeletedIsOneRule(rules, slot, spec);
    var rest := rules[..slot] + rules[slot + 1..];
    assert rest[..slot] == rules[..slot] && rest[slot..] == rules[slot + 1..];
    assert InsertAt(rest, rules[slot], slot) == rules;
  }

  /** The 1-based slot `ufw_rule_restore` asks ufw for. */
  function LandingSlot(count: nat, position: Option<int>): (slot: int)
    ensures 1 <= slot <= count + 1
    ensures slot == ProjectedIndex(count, position) + 1
  {
    if position.None? then count + 1 else Clamp(position.value, 1, count + 1)
  }
}
