/** The driver's rule writes, command by command, against a host whose
    connection can fail at any command. */
module UfwHost {
  import opened Options
  import opened Text
  import opened UfwRules

  /** What became of one command: the connection died before it ran, or after it
      ran but before its status came back, or ufw refused it, or it ran. */
  datatype Fate = NeverRan | RanUnheard | Refused | Ran

  predicate HasSpec(rules: seq<UfwRule>, spec: Option<string>) {
    exists i :: 0 <= i < |rules| && rules[i].spec == spec
  }

  predicate TookEffect(fate: Fate) {
    fate.Ran? || fate.RanUnheard?
  }

  /** `ufw [insert N] RULE`: a rule already present is skipped, and a position
      past the end is refused. */
  predicate Accepts(rules: seq<UfwRule>, rule: UfwRule, position: Option<int>) {
    HasSpec(rules, rule.spec) || position.None? || position.value <= |rules| + 1
  }

  function AfterInsert(rules: seq<UfwRule>, rule: UfwRule, position: Option<int>, fate: Fate): seq<UfwRule> {
    if TookEffect(fate) && Accepts(rules, rule, position) && !HasSpec(rules, rule.spec)
    then ProjectInserted(rules, rule, position)
    else rules
  }

  class Host {
    var rules: seq<UfwRule>
    /** Every ruleset the host has enforced, oldest first. */
    ghost var enforced: seq<seq<UfwRule>>

    constructor (rules: seq<UfwRule>)
      ensures this.rules == rules && enforced == [rules]
    {
      this.rules := rules;
      enforced := [rules];
    }

    /** One insert command. True is exit status 0. */
    method Insert(rule: UfwRule, position: Option<int>, fate: Fate) returns (reply: Result<bool>)
      requires position.Some? ==> position.value >= 1
      modifies this
      ensures rules == AfterInsert(old(rules), rule, position, fate)
      ensures reply == if fate.NeverRan? || fate.RanUnheard? then Raised
                       else Ok(fate.Ran? && Accepts(old(rules), rule, position))
      ensures enforced == old(enforced) + [rules]
      ensures reply == Ok(true) ==> HasSpec(rules, rule.spec)
      ensures reply == Ok(false) ==> rules == old(rules)
      ensures rule.spec.Some? ==> ProjectDeleted(rules, rule.spec.value) == ProjectDeleted(old(rules), rule.spec.value)
    {
      InsertedOnly(rules, rule, position, fate);
      reply := if fate.NeverRan? || fate.RanUnheard? then Raised else Ok(fate.Ran? && Accepts(rules, rule, position));
      rules := AfterInsert(rules, rule, position, fate);
      enforced := enforced + [rules];
    }

    /** `ufw delete RULE`, by specification and never by number. */
    method Delete(spec: string, fate: Fate) returns (reply: Result<bool>)
      modifies this
      ensures rules == if TookEffect(fate) then ProjectDeleted(old(rules), spec) else old(rules)
      ensures reply == if fate.NeverRan? || fate.RanUnheard? then Raised else Ok(fate.Ran?)
      ensures enforced == old(enforced) + [rules]
      ensures reply == Ok(true) ==> !HasSpec(rules, Some(spec))
      ensures reply == Ok(false) ==> rules == old(rules)
      ensures forall r :: r in rules ==> r in old(rules)
      ensures forall r :: r in old(rules) && r.spec != Some(spec) ==> r in rules
    {
      DeletedHasNone(rules, spec);
      DeletedMembers(rules, spec);
      if TookEffect(fate) {
        rules := ProjectDeleted(rules, spec);
      }
      enforced := enforced + [rules];
      reply := if fate.NeverRan? || fate.RanUnheard? then Raised else Ok(fate.Ran?);
    }

    /** The edit's commands: every ruleset they enforce is the old one, the overlap
        or the intended last one. */
    method ReplaceCommands(
      oldSpec: string, new_: UfwRule, position: Option<int>, counted: bool, add: Fate, recounted: bool, remove: Fate)
      returns (res: Result<()>)
      modifies this
      ensures res.Ok? <==> && counted && add.Ran? && recounted && remove.Ran?
                           && (position.Some? ==> 1 <= position.value <= |old(rules)| + 1)
                           && !HasSpec(old(rules), new_.spec)
      ensures res.Ok? ==> rules == EditCommands(old(rules), oldSpec, new_, position)
      ensures HasSpec(old(rules), new_.spec) ==> rules == old(rules)
      ensures EditStage(old(rules), oldSpec, new_, position, rules)
      ensures old(enforced) <= enforced
      ensures forall k :: |old(enforced)| <= k < |enforced| ==>
                EditStage(old(rules), oldSpec, new_, position, enforced[k])
    {
      if position.Some? && position.value < 1 {
        return Raised;
      }
      if !counted {
        return Raised;
      }
      var before := |rules|;
      var added := Insert(new_, position, add);
      if added != Ok(true) || !recounted {
        return Raised;
      }
      if |rules| <= before {
        return Raised;
      }
      var removed := Delete(oldSpec, remove);
      return if removed == Ok(true) then Ok(()) else Raised;
    }

    /** Edit a rule: insert the replacement, check that it landed by counting, and
        only then delete the original. Whatever fails, no ruleset enforced on the
        way locks NetFleet out unless the first or the intended last one does; and
        where the projection is right, checking it beforehand is enough. */
    method RuleReplace(
      oldSpec: string, new_: UfwRule, position: Option<int>,
      counted: bool, add: Fate, recounted: bool, remove: Fate,
      ghost net: Containment, ghost path: ManagementPath, ghost incoming: Option<string>)
      returns (res: Result<()>)
      modifies this
      ensures res.Ok? <==> && counted && add.Ran? && recounted && remove.Ran?
                           && (position.Some? ==> 1 <= position.value <= |old(rules)| + 1)
                           && !HasSpec(old(rules), new_.spec)
      ensures res.Ok? ==> rules == EditCommands(old(rules), oldSpec, new_, position)
      ensures HasSpec(old(rules), new_.spec) ==> rules == old(rules)
      ensures EditStage(old(rules), oldSpec, new_, position, rules)
      ensures old(enforced) <= enforced
      ensures EditIsSafe(net, old(rules), oldSpec, new_, position, path, incoming)
              || ProjectedSafely(net, old(rules), oldSpec, new_, position, path, incoming)
              ==> forall k :: |old(enforced)| <= k < |enforced| ==> !WouldLockOut(net, enforced[k], path, incoming)
    {
      ghost var start := rules;
      if ProjectedSafely(net, rules, oldSpec, new_, position, path, incoming) {
        ProjectionSuffices(net, rules, oldSpec, new_, position, path, incoming);
      }
      res := ReplaceCommands(oldSpec, new_, position, counted, add, recounted, remove);
      if EditIsSafe(net, start, oldSpec, new_, position, path, incoming) {
        forall k | |old(enforced)| <= k < |enforced| ensures !WouldLockOut(net, enforced[k], path, incoming) {
          StageIsSafe(net, start, oldSpec, new_, position, enforced[k], path, incoming);
        }
      }
    }

    /** The commands of a move, over one connection, both statuses checked only at
        the end. Every ruleset they enforce is the old one, the gap or the new one. */
    method MoveCommands(rule: UfwRule, position: int, remove: Fate, insert: Fate) returns (res: Result<()>)
      requires rule.spec.Some? && position >= 1
      modifies this
      ensures old(enforced) <= enforced
      ensures Movable(old(rules), rule) ==>
                && (res.Ok? <==> remove.Ran? && insert.Ran? && position <= |old(rules)|)
                && (res.Ok? ==> rules == ProjectMoved(old(rules), rule.spec.value, position))
                && (res.Raised? && insert != RanUnheard ==>
                      rules == if TookEffect(remove) then ProjectDeleted(old(rules), rule.spec.value) else old(rules))
                && MoveStage(old(rules), rule, position, rules)
      ensures Movable(old(rules), rule) ==>
                forall k :: |old(enforced)| <= k < |enforced| ==> MoveStage(old(rules), rule, position, enforced[k])
      ensures TookEffect(remove) ==>
                |enforced| > |old(enforced)| && enforced[|old(enforced)|] == ProjectDeleted(old(rules), rule.spec.value)
    {
      var spec := rule.spec.value;
      if Movable(rules, rule) {
        MovesOne(rules, rule, position);
      }
      var removed := Delete(spec, remove);
      if removed.Raised? {
        return Raised;
      }
      var inserted := Insert(rule, Some(position), insert);
      if inserted.Raised? {
        return Raised;
      }
      return if removed == Ok(true) && inserted == Ok(true) then Ok(()) else Raised;
    }

    /** Move a rule. A raise may leave it gone: exactly when the delete took effect
        and the insert did not. From a safe ruleset to a safe one, a ruleset that
        cuts NetFleet off is enforced exactly when the gap does. */
    method RuleMove(
      rule: UfwRule, position: int, remove: Fate, insert: Fate,
      ghost net: Containment, ghost path: ManagementPath, ghost incoming: Option<string>)
      returns (res: Result<()>)
      requires rule.spec.Some?
      modifies this
      ensures position < 1 ==> res.Raised? && rules == old(rules) && enforced == old(enforced)
      ensures old(enforced) <= enforced
      ensures Movable(old(rules), rule) ==>
                && (res.Ok? <==> remove.Ran? && insert.Ran? && 1 <= position <= |old(rules)|)
                && (res.Ok? ==> rules == ProjectMoved(old(rules), rule.spec.value, position))
                && MoveStage(old(rules), rule, position, rules)
                && (res.Raised? && insert != RanUnheard ==>
                    (rules == old(rules) <==> position < 1 || !TookEffect(remove)))
      ensures MoveIsSafe(net, old(rules), rule, position, path, incoming) && position >= 1 && TookEffect(remove) ==>
                ((exists k :: |old(enforced)| <= k < |enforced| && WouldLockOut(net, enforced[k], path, incoming))
                 <==> GapCutsOff(net, old(rules), SlotOf(old(rules), rule.spec.value), path, incoming))
    {
      if position < 1 {
        return Raised;
      }
      ghost var start := rules;
      if Movable(rules, rule) {
        RuleIsMissed(rules, rule);
      }
      res := MoveCommands(rule, position, remove, insert);
      if MoveIsSafe(net, start, rule, position, path, incoming) && TookEffect(remove) {
        GapDecides(net, start, rule, position, enforced, |old(enforced)|, path, incoming);
      }
    }

    /** Put a switched-off rule back, clamping the remembered slot to what exists. */
    method RuleRestore(rule: UfwRule, position: Option<int>, counted: bool, insert: Fate) returns (res: Result<int>)
      modifies this
      ensures res.Ok? ==> res.value == LandingSlot(|old(rules)|, position)
      ensures res.Ok? && !HasSpec(old(rules), rule.spec) ==>
                && rules == ProjectInserted(old(rules), rule, position)
                && rules[res.value - 1] == rule
      ensures HasSpec(old(rules), rule.spec) ==> rules == old(rules)
      ensures counted && insert.Ran? ==> res.Ok?
      ensures res.Raised? && insert != RanUnheard ==> rules == old(rules)
    {
      if !counted {
        return Raised;
      }
      var landed := LandingSlot(|rules|, position);
      ghost var start := rules;
      InsertAtAddsOne(start, rule, landed - 1);
      var inserted := Insert(rule, Some(landed), insert);
      res := if inserted == Ok(true) then Ok(landed) else Raised;
    }
  }

  lemma {:induction false} DeletedHasNone(rules: seq<UfwRule>, spec: string)
    ensures !HasSpec(ProjectDeleted(rules, spec), Some(spec))
  {
    if rules != [] {
      var rest := ProjectDeleted(rules[1..], spec);
      DeletedHasNone(rules[1..], spec);
      forall i | 0 <= i < |ProjectDeleted(rules, spec)|
        ensures ProjectDeleted(rules, spec)[i].spec != Some(spec)
      {
        if rules[0].spec == Some(spec) {
          assert HasSpec(rest, Some(spec)) || rest[i].spec != Some(spec);
        } else if i > 0 {
          assert HasSpec(rest, Some(spec)) || rest[i - 1].spec != Some(spec);
        }
      }
    }
  }

  lemma {:induction false} DeletedMembers(rules: seq<UfwRule>, spec: string)
    ensures forall r :: r in ProjectDeleted(rules, spec) <==> r in rules && r.spec != Some(spec)
  {
    if rules != [] {
      DeletedMembers(rules[1..], spec);
      assert rules == [rules[0]] + rules[1..];
    }
  }

  /** An insert adds its own rule or nothing. */
  lemma InsertedOnly(rules: seq<UfwRule>, rule: UfwRule, position: Option<int>, fate: Fate)
    ensures TookEffect(fate) && Accepts(rules, rule, position) ==>
              HasSpec(AfterInsert(rules, rule, position, fate), rule.spec)
    ensures rule.spec.Some? ==>
              ProjectDeleted(AfterInsert(rules, rule, position, fate), rule.spec.value)
                  == ProjectDeleted(rules, rule.spec.value)
  {
    if TookEffect(fate) && Accepts(rules, rule, position) && !HasSpec(rules, rule.spec) {
      var index := ProjectedIndex(|rules|, position);
      InsertAtAddsOne(rules, rule, index);
      assert AfterInsert(rules, rule, position, fate)[index].spec == rule.spec;
      if rule.spec.Some? {
        InsertThenDelete(rules, rule, index, rule.spec.value);
        DeletedUntouched(rules, rule.spec.value);
      }
    }
  }

  // ---------------- the stages of a move ----------------

  /** The rule is one of a ruleset whose specs tell its rules apart. */
  ghost predicate Movable(rules: seq<UfwRule>, rule: UfwRule) {
    rule.spec.Some? && DistinctSpecs(rules) && rule in rules
  }

  /** A ruleset the host enforces in the course of a move. */
  predicate MoveStage(rules: seq<UfwRule>, rule: UfwRule, position: int, stage: seq<UfwRule>)
    requires rule.spec.Some?
  {
    || stage == rules || stage == ProjectDeleted(rules, rule.spec.value)
    || (position >= 1 && stage == ProjectMoved(rules, rule.spec.value, position))
  }

  /** Both ends of the move let NetFleet in. */
  ghost predicate MoveIsSafe(
    net: Containment, rules: seq<UfwRule>, rule: UfwRule, position: int, path: ManagementPath, incoming: Option<string>)
    requires rule.spec.Some?
  {
    && Movable(rules, rule) && !WouldLockOut(net, rules, path, incoming)
    && !WouldLockOut(net, ProjectMoved(rules, rule.spec.value, position), path, incoming)
  }

  /** The rule at the slot lets NetFleet in, nothing above it decides, and the rest
      shuts NetFleet out. */
  predicate GapCutsOff(
    net: Containment, rules: seq<UfwRule>, slot: nat, path: ManagementPath, incoming: Option<string>)
  {
    && slot < |rules| && RuleCoversPath(net, rules[slot], path)
    && PathVerdict(net, rules[..slot], path) == Default && WouldLockOut(net, rules[slot + 1..], path, incoming)
  }

  lemma GapDecides(
    net: Containment, rules: seq<UfwRule>, rule: UfwRule, position: int, enforced: seq<seq<UfwRule>>, from: nat,
    path: ManagementPath, incoming: Option<string>)
    requires rule.spec.Some? && MoveIsSafe(net, rules, rule, position, path, incoming) && from < |enforced|
    requires forall k :: from <= k < |enforced| ==> MoveStage(rules, rule, position, enforced[k])
    requires enforced[from] == ProjectDeleted(rules, rule.spec.value)
    ensures (exists k :: from <= k < |enforced| && WouldLockOut(net, enforced[k], path, incoming))
            <==> GapCutsOff(net, rules, SlotOf(rules, rule.spec.value), path, incoming)
  {
    var slot := SlotOf(rules, rule.spec.value);
    RuleIsMissed(rules, rule);
    MoveGapExactly(net, rules, slot, path, incoming);
  }

  /** Deleting a rule that is there leaves a different ruleset, without its slot. */
  lemma {:induction false} RuleIsMissed(rules: seq<UfwRule>, rule: UfwRule)
    requires Movable(rules, rule)
    ensures var slot := SlotOf(rules, rule.spec.value);
            && slot < |rules| && rules[slot] == rule
            && ProjectDeleted(rules, rule.spec.value) == rules[..slot] + rules[slot + 1..]
            && ProjectDeleted(rules, rule.spec.value) != rules
  {
    var at :| 0 <= at < |rules| && rules[at] == rule;
    DeletedIsOneRule(rules, at, rule.spec.value);
  }

  /** What the two commands of a move do to the ruleset, one by one. */
  lemma MovesOne(rules: seq<UfwRule>, rule: UfwRule, position: int)
    requires Movable(rules, rule) && position >= 1
    ensures HasSpec(rules, rule.spec) && !HasSpec(ProjectDeleted(rules, rule.spec.value), rule.spec)
    ensures |ProjectDeleted(rules, rule.spec.value)| == |rules| - 1
    ensures position <= |rules| ==>
              ProjectInserted(ProjectDeleted(rules, rule.spec.value), rule, Some(position))
              == ProjectMoved(rules, rule.spec.value, position)
  {
    RuleIsMissed(rules, rule);
    DeletedHasNone(rules, rule.spec.value);
    var slot := SlotOf(rules, rule.spec.value);
    if position <= |rules| {
      MoveIsDeleteThenInsert(rules, slot, rule.spec.value, position);
    }
  }

  // ---------------- when the projection of an edit misleads ----------------

  /** Where an edit's projection is what its commands leave. */
  predicate ProjectionHolds(count: nat, slot: nat, position: Option<int>) {
    if position.None? then slot + 1 == count
    else 1 <= position.value <= slot + 1 || position.value == count + 1
  }

  lemma ProjectionThere(rules: seq<UfwRule>, slot: nat, oldSpec: string, new_: UfwRule, position: Option<int>)
    requires DistinctSpecs(rules) && slot < |rules| && rules[slot].spec == Some(oldSpec) && new_.spec != Some(oldSpec)
    requires ProjectionHolds(|rules|, slot, position)
    ensures ProjectReplaced(rules, oldSpec, new_, position) == EditCommands(rules, oldSpec, new_, position)
  {
    DeletedIsOneRule(rules, slot, oldSpec);
    EditCommandsAt(rules, slot, oldSpec, new_, ProjectedIndex(|rules|, position));
  }

  /** Neither end of the edit locks NetFleet out. */
  predicate EditIsSafe(
    net: Containment, rules: seq<UfwRule>, oldSpec: string, new_: UfwRule, position: Option<int>,
    path: ManagementPath, incoming: Option<string>)
  {
    && new_.spec != Some(oldSpec) && !WouldLockOut(net, rules, path, incoming)
    && !WouldLockOut(net, EditCommands(rules, oldSpec, new_, position), path, incoming)
  }

  /** A ruleset the host enforces in the course of an edit. */
  predicate EditStage(rules: seq<UfwRule>, oldSpec: string, new_: UfwRule, position: Option<int>, stage: seq<UfwRule>) {
    stage == rules || stage == ProjectInserted(rules, new_, position)
        || stage == EditCommands(rules, oldSpec, new_, position)
  }

  lemma StageIsSafe(
    net: Containment, rules: seq<UfwRule>, oldSpec: string, new_: UfwRule, position: Option<int>, stage: seq<UfwRule>,
    path: ManagementPath, incoming: Option<string>)
    requires EditIsSafe(net, rules, oldSpec, new_, position, path, incoming)
    requires EditStage(rules, oldSpec, new_, position, stage)
    ensures !WouldLockOut(net, stage, path, incoming)
  {
    OverlapNeverLocksOut(net, rules, new_, ProjectedIndex(|rules|, position), oldSpec, path, incoming);
  }

  /** What the service checks before an edit, where the projection is right. */
  ghost predicate ProjectedSafely(
    net: Containment, rules: seq<UfwRule>, oldSpec: string, new_: UfwRule, position: Option<int>,
    path: ManagementPath, incoming: Option<string>)
  {
    && new_.spec != Some(oldSpec) && DistinctSpecs(rules) && SlotOf(rules, oldSpec) < |rules|
    && ProjectionHolds(|rules|, SlotOf(rules, oldSpec), position)
    && !WouldLockOut(net, rules, path, incoming)
    && !WouldLockOut(net, ProjectReplaced(rules, oldSpec, new_, position), path, incoming)
  }

  lemma ProjectionSuffices(
    net: Containment, rules: seq<UfwRule>, oldSpec: string, new_: UfwRule, position: Option<int>,
    path: ManagementPath, incoming: Option<string>)
    requires ProjectedSafely(net, rules, oldSpec, new_, position, path, incoming)
    ensures EditIsSafe(net, rules, oldSpec, new_, position, path, incoming)
  {
    ProjectionThere(rules, SlotOf(rules, oldSpec), oldSpec, new_, position);
  }

  /** The edit is called safe and its commands lock NetFleet out. An edit into a rule
      already present is left undone, so it is none of these. */
  predicate Misjudged(
    net: Containment, rules: seq<UfwRule>, oldSpec: string, new_: UfwRule, position: Option<int>,
    path: ManagementPath, incoming: Option<string>)
  {
    && !HasSpec(rules, new_.spec)
    && !WouldLockOut(net, ProjectReplaced(rules, oldSpec, new_, position), path, incoming)
    && WouldLockOut(net, EditCommands(rules, oldSpec, new_, position), path, incoming)
  }

  /** A rule put in later than predicted. */
  lemma {:induction false} LateInsert(
    net: Containment, p: seq<UfwRule>, m: seq<UfwRule>, q: seq<UfwRule>, r: UfwRule, path: ManagementPath,
    incoming: Option<string>)
    ensures !WouldLockOut(net, p + ([r] + (m + q)), path, incoming)
            && WouldLockOut(net, p + (m + ([r] + q)), path, incoming)
            <==> path.Known() && PathVerdict(net, p, path) == Default && RuleCoversPath(net, r, path)
                 && PathVerdict(net, m, path) == Deny
  {
    OneRule(net, r, path);
    VerdictConcat(net, p, [r] + (m + q), path);
    VerdictConcat(net, [r], m + q, path);
    VerdictConcat(net, m, q, path);
    VerdictConcat(net, p, m + ([r] + q), path);
    VerdictConcat(net, m, [r] + q, path);
    VerdictConcat(net, [r], q, path);
  }

  /** A rule put in earlier than predicted. */
  lemma {:induction false} EarlyInsert(
    net: Containment, p: seq<UfwRule>, m: seq<UfwRule>, q: seq<UfwRule>, r: UfwRule, path: ManagementPath,
    incoming: Option<string>)
    ensures !WouldLockOut(net, p + (m + ([r] + q)), path, incoming)
            && WouldLockOut(net, p + ([r] + (m + q)), path, incoming)
            <==> path.Known() && PathVerdict(net, p, path) == Default && RuleMatches(net, r, path)
                 && !Permits(r.columns.action) && PathVerdict(net, m, path) == Allow
  {
    OneRule(net, r, path);
    VerdictConcat(net, p, [r] + (m + q), path);
    VerdictConcat(net, [r], m + q, path);
    VerdictConcat(net, m, q, path);
    VerdictConcat(net, p, m + ([r] + q), path);
    VerdictConcat(net, m, [r] + q, path);
    VerdictConcat(net, [r], q, path);
  }

  lemma OneRule(net: Containment, r: UfwRule, path: ManagementPath)
    ensures PathVerdict(net, [r], path)
            == if !RuleMatches(net, r, path) then Default else if Permits(r.columns.action) then Allow else Deny
  {
    assert [r][1..] == [];
  }

  /** Exactly when an edit without a position is misjudged: the new rule lets
      NetFleet in, nothing above the old one decides, and what is below shuts it
      out. The projection keeps the old slot; the command appends. */
  lemma UnplacedEditMisjudgedExactly(
    net: Containment, rules: seq<UfwRule>, slot: nat, oldSpec: string, new_: UfwRule, path: ManagementPath,
    incoming: Option<string>)
    requires DistinctSpecs(rules) && slot < |rules| && rules[slot].spec == Some(oldSpec) && new_.spec != Some(oldSpec)
    ensures Misjudged(net, rules, oldSpec, new_, None, path, incoming) <==>
            && !HasSpec(rules, new_.spec) && path.Known() && RuleCoversPath(net, new_, path)
            && PathVerdict(net, rules[..slot], path) == Default && PathVerdict(net, rules[slot + 1..], path) == Deny
  {
    var p, m := rules[..slot], rules[slot + 1..];
    DeletedIsOneRule(rules, slot, oldSpec);
    EditCommandsAt(rules, slot, oldSpec, new_, |rules|);
    assert ProjectReplaced(rules, oldSpec, new_, None) == p + ([new_] + (m + []));
    assert EditCommands(rules, oldSpec, new_, None) == p + (m + ([new_] + []));
    LateInsert(net, p, m, [], new_, path, incoming);
  }

  /** Exactly when an edit sent to a position is misjudged: the position is below
      the rule's own slot, the new rule shuts NetFleet out, the rule now at that
      position lets it in, and nothing above decides. */
  lemma PlacedEditMisjudgedExactly(
    net: Containment, rules: seq<UfwRule>, slot: nat, oldSpec: string, new_: UfwRule, position: int,
    path: ManagementPath, incoming: Option<string>)
    requires DistinctSpecs(rules) && slot < |rules| && rules[slot].spec == Some(oldSpec) && new_.spec != Some(oldSpec)
    requires 1 <= position <= |rules| + 1
    ensures Misjudged(net, rules, oldSpec, new_, Some(position), path, incoming) <==>
            && !HasSpec(rules, new_.spec) && slot + 1 < position <= |rules| && path.Known()
            && RuleMatches(net, new_, path) && !Permits(new_.columns.action)
            && PathVerdict(net, rules[..slot] + rules[slot + 1..position - 1], path) == Default
            && RuleCoversPath(net, rules[position - 1], path)
  {
    if ProjectionHolds(|rules|, slot, Some(position)) {
      ProjectionThere(rules, slot, oldSpec, new_, Some(position));
    } else {
      BelowOwnSlot(rules, slot, oldSpec, new_, position);
      var p, r := rules[..slot] + rules[slot + 1..position - 1], rules[position - 1];
      EarlyInsert(net, p, [r], rules[position..], new_, path, incoming);
      OneRule(net, r, path);
    }
  }

  lemma BelowOwnSlot(rules: seq<UfwRule>, slot: nat, oldSpec: string, new_: UfwRule, position: int)
    requires DistinctSpecs(rules) && slot < |rules| && rules[slot].spec == Some(oldSpec) && new_.spec != Some(oldSpec)
    requires slot + 1 < position <= |rules|
    ensures var p, r, q := rules[..slot] + rules[slot + 1..position - 1], rules[position - 1], rules[position..];
            && ProjectReplaced(rules, oldSpec, new_, Some(position)) == p + ([r] + ([new_] + q))
            && EditCommands(rules, oldSpec, new_, Some(position)) == p + ([new_] + ([r] + q))
  {
    var p, r, q := rules[..slot] + rules[slot + 1..position - 1], rules[position - 1], rules[position..];
    DeletedIsOneRule(rules, slot, oldSpec);
    WithoutSlot(rules, slot, position);
    InsertAround(p, r, q, new_);
    CommandsBelow(rules, slot, oldSpec, new_, position);
  }

  lemma CommandsBelow(rules: seq<UfwRule>, slot: nat, oldSpec: string, new_: UfwRule, position: int)
    requires DistinctSpecs(rules) && slot < |rules| && rules[slot].spec == Some(oldSpec) && new_.spec != Some(oldSpec)
    requires slot + 1 < position <= |rules|
    ensures EditCommands(rules, oldSpec, new_, Some(position))
            == InsertAt(rules[..slot] + rules[slot + 1..], new_, position - 2)
  {
    EditCommandsAt(rules, slot, oldSpec, new_, position - 1);
  }

  lemma WithoutSlot(rules: seq<UfwRule>, slot: nat, position: int)
    requires slot + 1 < position <= |rules|
    ensures rules[..slot] + rules[slot + 1..]
            == rules[..slot] + rules[slot + 1..position - 1] + ([rules[position - 1]] + rules[position..])
  {
  }

  lemma InsertAround(p: seq<UfwRule>, r: UfwRule, q: seq<UfwRule>, new_: UfwRule)
    ensures InsertAt(p + ([r] + q), new_, |p|) == p + ([new_] + ([r] + q))
    ensures InsertAt(p + ([r] + q), new_, |p| + 1) == p + ([r] + ([new_] + q))
  {
    var all := p + ([r] + q);
    assert all[..|p|] == p && all[|p|..] == [r] + q;
    assert all[..|p| + 1] == p + [r] && all[|p| + 1..] == q;
  }

  /** An edit sent below its own slot: for every such pair of rules the projection
      says NetFleet stays reachable, and the commands cut it off. */
  lemma EditBelowOwnSlotMisjudged(
    net: Containment, own: UfwRule, open_: UfwRule, new_: UfwRule, oldSpec: string, path: ManagementPath,
    incoming: Option<string>)
    requires own.spec == Some(oldSpec) && open_.spec != Some(oldSpec) && new_.spec !in {Some(oldSpec), open_.spec}
    requires RuleCoversPath(net, open_, path) && RuleMatches(net, new_, path) && !Permits(new_.columns.action)
    ensures Misjudged(net, [own, open_], oldSpec, new_, Some(2), path, incoming)
  {
    var rules := [own, open_];
    assert rules[..0] + rules[1..1] == [];
    PlacedEditMisjudgedExactly(net, rules, 0, oldSpec, new_, 2, path, incoming);
  }

  /** The same for an edit without a position, of the rule that lets NetFleet in
      while a rule below it shuts NetFleet out. */
  lemma UnplacedEditMisjudged(
    net: Containment, own: UfwRule, shut: UfwRule, new_: UfwRule, oldSpec: string, path: ManagementPath,
    incoming: Option<string>)
    requires own.spec == Some(oldSpec) && shut.spec != Some(oldSpec) && new_.spec !in {Some(oldSpec), shut.spec}
    requires RuleCoversPath(net, new_, path) && RuleMatches(net, shut, path) && !Permits(shut.columns.action)
    ensures Misjudged(net, [own, shut], oldSpec, new_, None, path, incoming)
  {
    var rules := [own, shut];
    assert rules[..0] == [] && rules[1..] == [shut];
    OneRule(net, shut, path);
    UnplacedEditMisjudgedExactly(net, rules, 0, oldSpec, new_, path, incoming);
  }

  /** Both failing families are inhabited: an outgoing rule edited into a deny above
      the rule that lets NetFleet in, and the rule that lets it in edited while a
      deny stands below it. */
  lemma MisjudgedEditExists(net: Containment)
    returns (out: UfwRule, open_: UfwRule, wide: UfwRule, shut: UfwRule, path: ManagementPath)
    ensures out.spec.Some? && open_.spec.Some? && DistinctSpecs([out, open_, wide, shut])
    ensures Misjudged(net, [out, open_], out.spec.value, shut, Some(2), path, Some("deny"))
    ensures Misjudged(net, [open_, shut], open_.spec.value, wide, None, path, Some("deny"))
  {
    var any := Columns("allow", "in", "any", "any", None, None);
    out := UfwRule(any.(direction := "out"), "v4", None, None, Some("0"));
    open_ := UfwRule(any, "v4", None, None, Some("1"));
    wide := UfwRule(any.(comment := Some("wide")), "v4", None, None, Some("2"));
    shut := UfwRule(any.(action := "deny"), "v4", None, None, Some("3"));
    path := ManagementPath(Some("10.20.0.4"), Some(22));
    FourSpecs();
    AnyMatches(net, open_, path);
    AnyMatches(net, wide, path);
    AnyMatches(net, shut, path);
    EditBelowOwnSlotMisjudged(net, out, open_, shut, "0", path, Some("deny"));
    UnplacedEditMisjudged(net, open_, shut, wide, "1", path, Some("deny"));
  }

  lemma FourSpecs()
    ensures "0" != "1" && "0" != "2" && "0" != "3" && "1" != "2" && "1" != "3" && "2" != "3"
  {
    assert "0"[0] != "1"[0] && "0"[0] != "2"[0] && "0"[0] != "3"[0];
    assert "1"[0] != "2"[0] && "1"[0] != "3"[0] && "2"[0] != "3"[0];
  }

  lemma {:induction false} AnyMatches(net: Containment, r: UfwRule, path: ManagementPath)
    requires path.Known() && r.columns.direction == "in"
    requires r.columns.destination == "any" && r.columns.source == "any"
    ensures RuleMatches(net, r, path)
  {
    VisibleWord("any");
    StripWord("any");
    assert Lower("any") == "any";
  }
}
