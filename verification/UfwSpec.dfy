/** Printing a requested rule as a ufw command line, and reading such lines back. */
module UfwSpec {
  import opened Options
  import opened Text
  import opened UfwPorts
  import opened UfwRules

  /** A rule to install, as an operator asked for it. */
  datatype UfwRuleSpec = UfwRuleSpec(
    action: string,
    direction: string,
    fromAddress: Option<string>,
    toAddress: Option<string>,
    port: Option<string>,
    protocol: Option<string>,
    iface: Option<string>,
    comment: Option<string>)

  const ACTIONS: set<string> := {"allow", "deny", "reject", "limit"}

  // ---------------- validation ----------------

  predicate IfaceChar(c: char) {
    'A' <= c <= 'Z' || 'a' <= c <= 'z' || '0' <= c <= '9' || c in "_.:-"
  }

  predicate ValidIface(s: string) {
    var name := Chomp(s);
    1 <= |name| <= 15 && forall i :: 0 <= i < |name| ==> IfaceChar(name[i])
  }

  /** `value or default` for a string: absent and empty both fall back. */
  function Or(value: Option<string>, default: string): string {
    if value.Some? && value.value != "" then value.value else default
  }

  predicate Given(value: Option<string>) {
    value.Some? && value.value != ""
  }

  /** `isNetwork` is the address parser: which texts name an address or a range. */
  predicate ValidSpec(isNetwork: string -> bool, spec: UfwRuleSpec) {
    && spec.action in ACTIONS
    && spec.direction in {"in", "out", "fwd"}
    && (spec.protocol.Some? ==> spec.protocol.value in {"tcp", "udp"})
    && (spec.port.Some? ==> ReadPort(spec.port.value).Some?)
    && (spec.iface.Some? ==> ValidIface(spec.iface.value))
    && (Given(spec.fromAddress) ==> spec.fromAddress.value == "any" || isNetwork(spec.fromAddress.value))
    && (Given(spec.toAddress) ==> spec.toAddress.value == "any" || isNetwork(spec.toAddress.value))
    && (spec.comment.Some? ==>
          && '\r' !in spec.comment.value && '\n' !in spec.comment.value && '\0' !in spec.comment.value
          && |spec.comment.value| <= 255)
    && (spec.protocol.Some? ==> spec.port.Some?)
  }

  // ---------------- the printer ----------------

  function Decimal(n: nat): (s: string)
    ensures AllDigits(s)
  {
    var digit := [('0' as int + n % 10) as char];
    if n < 10 then digit else Decimal(n / 10) + digit
  }

  function Clause(keyword: string, value: Option<string>): seq<string> {
    if Given(value) then [keyword, value.value] else []
  }

  /** `route`, which goes before an `insert N`. */
  function RouteWord(spec: UfwRuleSpec): seq<string> {
    if spec.direction == "fwd" then ["route"] else []
  }

  function DirectionWord(spec: UfwRuleSpec): seq<string> {
    if spec.direction == "fwd" then [] else [spec.direction]
  }

  function PortWords(spec: UfwRuleSpec): seq<string> {
    Clause("port", spec.port) + Clause("proto", spec.protocol)
  }

  /** The clauses after the action and the direction, in ufw's extended grammar. */
  function ColumnWords(spec: UfwRuleSpec): seq<string> {
    Clause("on", spec.iface)
    + (["from", Or(spec.fromAddress, "any")] + (["to", Or(spec.toAddress, "any")] + PortWords(spec)))
  }

  /** The rule itself, without its comment: what identifies it to ufw. */
  function RuleWords(spec: UfwRuleSpec): seq<string> {
    [spec.action] + (DirectionWord(spec) + ColumnWords(spec))
  }

  function InsertWord(position: Option<int>): seq<string>
    requires position.Some? ==> position.value >= 1
  {
    if position.Some? then ["insert", Decimal(position.value)] else []
  }

  function BuildArgv(isNetwork: string -> bool, spec: UfwRuleSpec, position: Option<int>): Result<seq<string>> {
    if !ValidSpec(isNetwork, spec) || (position.Some? && position.value < 1) then Raised
    else
      Ok(["ufw"] + RouteWord(spec) + InsertWord(position) + (RuleWords(spec) + Clause("comment", spec.comment)))
  }

  // ---------------- the readers ----------------

  function IndexOfWord(words: seq<string>, word: string): (k: nat)
    ensures k <= |words|
    ensures k < |words| <==> word in words
    ensures word !in words[..k]
    ensures k < |words| ==> words[k] == word
  {
    if words == [] || words[0] == word then 0 else 1 + IndexOfWord(words[1..], word)
  }

  /** The words after `ufw`, if the line names a rule. */
  function AfterUfw(text: string): Option<seq<string>> {
    var tokens := Words(text);
    if tokens == [] || tokens[0] != "ufw" || tokens[1..] == [] then None else Some(tokens[1..])
  }

  function InsertArgvFromSpec(text: string, position: Option<int>): Result<seq<string>> {
    var tokens := AfterUfw(text);
    if tokens.None? then Raised
    else
      var routed := tokens.value[0] == "route";
      var rest := if routed then tokens.value[1..] else tokens.value;
      if (position.Some? && position.value < 1) || rest == [] || rest[0] !in ACTIONS then Raised
      else
        Ok(["ufw"] + (if routed then ["route"] else []) + InsertWord(position) + rest)
  }

  function DeleteArgvFromSpec(text: string): Result<seq<string>> {
    var tokens := AfterUfw(text);
    if tokens.None? then Raised
    else
      var routed := tokens.value[0] == "route";
      var rest := if routed then tokens.value[1..] else tokens.value;
      if rest == [] || rest[0] !in ACTIONS then Raised
      else
        Ok(["ufw", "--force"] + (if routed then ["route"] else []) + ["delete"] + rest[..IndexOfWord(rest, "comment")])
  }

  /** The locals of the column reader. */
  datatype Reading = Reading(
    iface: Option<string>, source: Option<string>, destination: Option<string>, proto: Option<string>)

  /** One turn: a keyword takes the word after it, anything else is a destination. */
  function ReadStep(tok: string, next: Option<string>, r: Reading): (Reading, nat) {
    if tok == "on" && next.Some? then (r.(iface := next), 2)
    else if tok == "from" && next.Some? then (r.(source := next), 2)
    else if tok == "to" && next.Some? then (r.(destination := next), 2)
    else if tok == "port" && next.Some? then
      (r.(destination := if r.destination in {None, Some("any")} then next
                         else Some(r.destination.value + " port " + next.value)), 2)
    else if tok == "proto" && next.Some? then (r.(proto := next), 2)
    else (r.(destination := Some(tok)), 1)
  }

  function Next(tokens: seq<string>): Option<string> {
    if |tokens| > 1 then Some(tokens[1]) else None
  }

  function ReadColumns(tokens: seq<string>, r: Reading): Reading
    decreases |tokens|
  {
    if tokens == [] then r
    else
      var (r', n) := ReadStep(tokens[0], Next(tokens), r);
      ReadColumns(tokens[n..], r')
  }

  function StripQuotes(s: string): string {
    if s != "" && s[0] in "'\"" then StripQuotes(s[1..])
    else if s != "" && s[|s| - 1] in "'\"" then StripQuotes(s[..|s| - 1])
    else s
  }

  const NOTHING_READ := Reading(None, None, None, None)

  /** The parts of a line: its comment, and its words without `ufw` and comment. */
  function SplitComment(text: string): (Option<string>, seq<string>) {
    var all := Words(text);
    SplitAtComment(if all != [] && all[0] == "ufw" then all[1..] else all)
  }

  function SplitAtComment(tokens: seq<string>): (Option<string>, seq<string>) {
    var i := IndexOfWord(tokens, "comment");
    if i == |tokens| then (None, tokens) else (CommentOf(tokens[i + 1..]), tokens[..i])
  }

  /** The comment made of the words after `comment`. */
  function CommentOf(words: seq<string>): Option<string> {
    var text := StripQuotes(Strip(Join(words)));
    if text == "" then None else Some(text)
  }

  /** The direction and action in front of a rule, and what is left after them. */
  function SplitHead(tokens: seq<string>): (string, string, seq<string>) {
    var routed := tokens != [] && tokens[0] == "route";
    var t1 := if routed then tokens[1..] else tokens;
    var action := if t1 != [] then Lower(t1[0]) else "allow";
    var t2 := if t1 != [] then t1[1..] else t1;
    if t2 != [] && t2[0] in {"in", "out"} then (t2[0], action, t2[1..])
    else (if routed then "fwd" else "in", action, t2)
  }

  function Assemble(text: string, comment: Option<string>, direction: string, action: string, r: Reading): UfwRule {
    var destination :=
      if r.proto.Some? && r.destination.Some? && '/' !in r.destination.value
      then Some(r.destination.value + "/" + r.proto.value) else r.destination;
    var v6 := ':' in Or(r.source, "") + Or(destination, "");
    UfwRule(Columns(action, direction, Or(destination, "Anywhere"), Or(r.source, "Anywhere"), r.iface, comment),
            if v6 then "v6" else "v4", None, None, Some(text))
  }

  function RuleFromSpec(text: string): UfwRule {
    var (comment, tokens) := SplitComment(text);
    var (direction, action, rest) := SplitHead(tokens);
    Assemble(text, comment, direction, action, ReadColumns(rest, NOTHING_READ))
  }

  /** The reader as it runs: an index over the words, updating four locals. */
  method ReadRule(text: string) returns (rule: UfwRule)
    ensures rule == RuleFromSpec(text)
  {
    var (comment, tokens) := SplitComment(text);
    var (direction, action, rest) := SplitHead(tokens);
    var r := NOTHING_READ;
    var i := 0;
    while i < |rest|
      invariant 0 <= i <= |rest|
      invariant ReadColumns(rest[i..], r) == ReadColumns(rest, NOTHING_READ)
    {
      var next := if i + 1 < |rest| then Some(rest[i + 1]) else None;
      assert next == Next(rest[i..]);
      var (r', n) := ReadStep(rest[i], next, r);
      assert rest[i..][n..] == rest[i + n..];
      r, i := r', i + n;
    }
    assert rest[i..] == [];
    return Assemble(text, comment, direction, action, r);
  }

  /** The rule a spec would become, as far as the verdict reads it. */
  function ProjectedRule(spec: UfwRuleSpec): UfwRule {
    var destination :=
      if Given(spec.port) && Given(spec.protocol) then spec.port.value + "/" + spec.protocol.value
      else Or(spec.port, "Anywhere");
    UfwRule(Columns(spec.action, spec.direction, destination, Or(spec.fromAddress, "Anywhere"), spec.iface,
                    spec.comment),
            "v4", None, None, None)
  }

  predicate SpecCoversPath(net: Containment, spec: UfwRuleSpec, path: ManagementPath) {
    && path.Known() && spec.direction == "in" && Permits(spec.action)
    && (spec.port.Some? ==> PortMatches(spec.port.value, path.Port()))
    && SourceMatches(net, Or(spec.fromAddress, "any"), path.Client())
  }
}
