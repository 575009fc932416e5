/** Printer and readers agree: what `BuildArgv` prints, the readers read back. */
module UfwRoundTrip {
  import opened Options
  import opened Text
  import opened UfwPorts
  import opened UfwRules
  import opened UfwSpec

  /** Both patterns let one final newline through; splitting drops it. */
  function Clean(spec: UfwRuleSpec): UfwRuleSpec {
    spec.(port := if spec.port.Some? then Some(Chomp(spec.port.value)) else None,
          iface := if spec.iface.Some? then Some(Chomp(spec.iface.value)) else None)
  }

  /** Address texts are single words, and none is the word `comment`. */
  ghost predicate PlainAddresses(spec: UfwRuleSpec) {
    && (Given(spec.fromAddress) ==> IsWord(spec.fromAddress.value) && spec.fromAddress.value != "comment")
    && (Given(spec.toAddress) ==> IsWord(spec.toAddress.value) && spec.toAddress.value != "comment")
  }

  function CommentWords(spec: UfwRuleSpec): seq<string> {
    if Given(spec.comment) then ["comment"] + Words(spec.comment.value) else []
  }

  /** The line `ufw show added` shows for the rule. */
  function Printed(spec: UfwRuleSpec): seq<string> {
    ["ufw"] + (RouteWord(spec) + (RuleWords(spec) + Clause("comment", spec.comment)))
  }

  // ---------------- words ----------------

  lemma ActionWord(a: string)
    requires a in ACTIONS
    ensures IsWord(a) && Lower(a) == a
    ensures a != "route" && a != "comment"
  {
    VisibleWord(a);
    assert Lower("allow") == "allow" && Lower("deny") == "deny";
    assert Lower("reject") == "reject" && Lower("limit") == "limit";
    assert "route"[0] == 'r' && "reject"[1] == 'e' && "comment"[0] == 'c';
  }

  ghost predicate Selector(s: string) {
    IsWord(s) && IsDigit(s[0]) && '/' !in s
  }

  /** What the readers need of a valid spec, without its grammars. */
  ghost predicate Printable(spec: UfwRuleSpec) {
    && spec.action in ACTIONS && spec.direction in {"in", "out", "fwd"}
    && PlainAddresses(spec)
    && (spec.iface.Some? ==> spec.iface.value != "" && IsWord(Chomp(spec.iface.value)))
    && (spec.port.Some? ==> spec.port.value != "" && Selector(Chomp(spec.port.value)))
    && (spec.protocol.Some? ==> spec.port.Some? && spec.protocol.value in {"tcp", "udp"})
  }

  lemma PortIsSelector(s: string)
    requires ReadPort(s).Some?
    ensures s != "" && Selector(Chomp(s))
  {
    AcceptedPortMeansItsUnion(s, 0);
    ItemsTextIsWord(ReadPort(s).value);
  }

  lemma IfaceIsWord(s: string)
    requires ValidIface(s)
    ensures s != "" && IsWord(Chomp(s))
  {
    var name := Chomp(s);
    assert forall i :: 0 <= i < |name| ==> IfaceChar(name[i]) && Visible(name[i]);
    VisibleWord(name);
  }

  lemma ValidIsPrintable(isNetwork: string -> bool, spec: UfwRuleSpec)
    requires ValidSpec(isNetwork, spec) && PlainAddresses(spec)
    ensures Printable(spec)
  {
    if spec.port.Some? {
      PortIsSelector(spec.port.value);
    }
    if spec.iface.Some? {
      IfaceIsWord(spec.iface.value);
    }
  }

  const KEYWORDS: set<string> := {"ufw", "route", "on", "from", "to", "port", "proto", "comment"}

  lemma KeywordIsWord(word: string)
    requires word in KEYWORDS
    ensures IsWord(word)
  {
    VisibleWord(word);
  }

  lemma {:induction false} Keyword(word: string)
    requires word in KEYWORDS
    ensures Words(word) == [word]
  {
    KeywordIsWord(word);
    WordsOfWord(word);
  }

  lemma PairWords(keyword: string, value: string)
    requires keyword in KEYWORDS
    ensures WordsOfAll([keyword, value]) == [keyword] + Words(value)
  {
    Keyword(keyword);
    assert [keyword, value][1..] == [value] && [value][1..] == [];
    assert WordsOfAll([value]) == Words(value) + WordsOfAll([]);
  }

  lemma ClauseWords(keyword: string, value: Option<string>)
    requires keyword in KEYWORDS && (Given(value) ==> IsWord(Chomp(value.value)))
    ensures WordsOfAll(Clause(keyword, value))
            == if Given(value) then [keyword, Chomp(value.value)] else []
  {
    if Given(value) {
      PairWords(keyword, value.value);
      WordsOfChomped(value.value);
    }
  }

  lemma {:induction false} ProtocolWord(spec: UfwRuleSpec)
    requires spec.protocol.Some? ==> spec.protocol.value in {"tcp", "udp"}
    ensures WordsOfAll(Clause("proto", spec.protocol)) == Clause("proto", spec.protocol)
  {
    if spec.protocol.Some? {
      assert Chomp(spec.protocol.value) == spec.protocol.value;
      VisibleWord(spec.protocol.value);
    }
    ClauseWords("proto", spec.protocol);
  }

  lemma PortTokens(spec: UfwRuleSpec)
    requires Printable(spec)
    ensures WordsOfAll(PortWords(spec)) == PortWords(Clean(spec))
  {
    ClauseWords("port", spec.port);
    ProtocolWord(spec);
    WordsOfAllConcat(Clause("port", spec.port), Clause("proto", spec.protocol));
  }

  lemma AddressWords(keyword: string, address: Option<string>)
    requires keyword in KEYWORDS && (Given(address) ==> IsWord(address.value))
    ensures WordsOfAll([keyword, Or(address, "any")]) == [keyword, Or(address, "any")]
  {
    VisibleWord("any");
    PairWords(keyword, Or(address, "any"));
    WordsOfWord(Or(address, "any"));
  }

  lemma FourParts(
    on: seq<string>, on': seq<string>, from: seq<string>, to: seq<string>, ports: seq<string>, ports': seq<string>)
    requires WordsOfAll(on) == on' && WordsOfAll(from) == from
    requires WordsOfAll(to) == to && WordsOfAll(ports) == ports'
    ensures WordsOfAll(on + (from + (to + ports))) == on' + (from + (to + ports'))
  {
    WordsOfAllConcat(on, from + (to + ports));
    WordsOfAllConcat(from, to + ports);
    WordsOfAllConcat(to, ports);
  }

  ghost predicate PiecesSplit(spec: UfwRuleSpec) {
    && WordsOfAll(Clause("on", spec.iface)) == Clause("on", Clean(spec).iface)
    && WordsOfAll(["from", Or(spec.fromAddress, "any")]) == ["from", Or(spec.fromAddress, "any")]
    && WordsOfAll(["to", Or(spec.toAddress, "any")]) == ["to", Or(spec.toAddress, "any")]
    && WordsOfAll(PortWords(spec)) == PortWords(Clean(spec))
  }

  lemma Pieces(spec: UfwRuleSpec)
    requires Printable(spec)
    ensures PiecesSplit(spec)
  {
    PortTokens(spec);
    AddressWords("to", spec.toAddress);
    AddressWords("from", spec.fromAddress);
    ClauseWords("on", spec.iface);
  }

  lemma ColumnTokens(spec: UfwRuleSpec)
    requires PiecesSplit(spec)
    ensures WordsOfAll(ColumnWords(spec)) == ColumnWords(Clean(spec))
  {
    FourParts(
      Clause("on", spec.iface), Clause("on", Clean(spec).iface), ["from", Or(spec.fromAddress, "any")],
      ["to", Or(spec.toAddress, "any")], PortWords(spec), PortWords(Clean(spec)));
  }

  lemma ThreeParts(
    head: string, extra: seq<string>, rest: seq<string>, rest': seq<string>)
    requires Words(head) == [head] && WordsOfAll(extra) == extra && WordsOfAll(rest) == rest'
    ensures WordsOfAll([head] + (extra + rest)) == [head] + (extra + rest')
  {
    assert ([head] + (extra + rest))[1..] == extra + rest;
    WordsOfAllConcat(extra, rest);
  }

  lemma DirectionTokens(spec: UfwRuleSpec)
    requires spec.direction in {"in", "out", "fwd"}
    ensures WordsOfAll(DirectionWord(spec)) == DirectionWord(spec)
  {
    VisibleWord(spec.direction);
    WordsOfWords(DirectionWord(spec));
  }

  lemma RuleTokens(spec: UfwRuleSpec)
    requires Printable(spec)
    ensures WordsOfAll(RuleWords(spec)) == RuleWords(Clean(spec))
  {
    ActionWord(spec.action);
    WordsOfWord(spec.action);
    Pieces(spec);
    ColumnTokens(spec);
    DirectionTokens(spec);
    ThreeParts(spec.action, DirectionWord(spec), ColumnWords(spec), ColumnWords(Clean(spec)));
  }

  lemma RuleAndComment(spec: UfwRuleSpec)
    requires WordsOfAll(RuleWords(spec)) == RuleWords(Clean(spec))
    ensures WordsOfAll(RuleWords(spec) + Clause("comment", spec.comment))
            == RuleWords(Clean(spec)) + CommentWords(spec)
  {
    if Given(spec.comment) {
      PairWords("comment", spec.comment.value);
    }
    WordsOfAllConcat(RuleWords(spec), Clause("comment", spec.comment));
  }

  lemma LineTokens(route: seq<string>, rule: seq<string>, rule': seq<string>)
    requires route == [] || route == ["route"]
    requires WordsOfAll(rule) == rule'
    ensures Words(Join(["ufw"] + (route + rule))) == ["ufw"] + (route + rule')
  {
    WordsOfJoin(["ufw"] + (route + rule));
    Keyword("ufw");
    Keyword("route");
    assert ["route"][1..] == [] && WordsOfAll(["route"]) == ["route"] + WordsOfAll([]);
    ThreeParts("ufw", route, rule, rule');
  }

  /** Joining a printed rule and splitting it gives its words back, final newlines
      dropped and the comment broken into words. */
  lemma PrintedTokens(spec: UfwRuleSpec)
    requires Printable(spec)
    ensures Words(Join(Printed(spec)))
            == ["ufw"] + (RouteWord(spec) + (RuleWords(Clean(spec)) + CommentWords(spec)))
  {
    RuleTokens(spec);
    RuleAndComment(spec);
    LineTokens(RouteWord(spec), RuleWords(spec) + Clause("comment", spec.comment),
               RuleWords(Clean(spec)) + CommentWords(spec));
  }

  // ---------------- the shape of a line ----------------

  function Route(routed: bool): seq<string> {
    if routed then ["route"] else []
  }

  /** A line that names a rule: `ufw`, perhaps `route`, and words led by an action. */
  ghost predicate Line(text: string, routed: bool, rule: seq<string>) {
    && rule != [] && rule[0] in ACTIONS
    && Words(text) == ["ufw"] + (Route(routed) + rule)
  }

  lemma PrintedLine(spec: UfwRuleSpec)
    requires Printable(spec)
    ensures Line(Join(Printed(spec)), spec.direction == "fwd", RuleWords(Clean(spec)) + CommentWords(spec))
  {
    PrintedTokens(spec);
  }

  lemma LineAfterUfw(text: string, routed: bool, rule: seq<string>)
    requires Line(text, routed, rule)
    ensures AfterUfw(text) == Some(Route(routed) + rule)
    ensures (Route(routed) + rule)[0] == "route" <==> routed
    ensures routed ==> (Route(routed) + rule)[1..] == rule
    ensures !routed ==> Route(routed) + rule == rule
  {
    ActionWord(rule[0]);
    assert (["ufw"] + (Route(routed) + rule))[1..] == Route(routed) + rule;
  }

  lemma LineInserts(text: string, routed: bool, rule: seq<string>, position: Option<int>)
    requires Line(text, routed, rule) && (position.Some? ==> position.value >= 1)
    ensures InsertArgvFromSpec(text, position) == Ok(["ufw"] + Route(routed) + InsertWord(position) + rule)
  {
    LineAfterUfw(text, routed, rule);
  }

  lemma LineDeletes(text: string, routed: bool, rule: seq<string>)
    requires Line(text, routed, rule)
    ensures DeleteArgvFromSpec(text)
            == Ok(["ufw", "--force"] + Route(routed) + ["delete"] + rule[..IndexOfWord(rule, "comment")])
  {
    LineAfterUfw(text, routed, rule);
  }

  // ---------------- re-inserting ----------------

  lemma AllWords(spec: UfwRuleSpec)
    requires Printable(spec)
    ensures forall w :: w in RuleWords(Clean(spec)) + CommentWords(spec) ==> IsWord(w)
  {
    RuleTokens(spec);
    RuleAndComment(spec);
    WordsOfAllAreWords(RuleWords(spec) + Clause("comment", spec.comment));
  }

  ghost predicate NoLooseEnds(spec: UfwRuleSpec) {
    Clean(spec) == spec && (Given(spec.comment) ==> IsWord(spec.comment.value))
  }

  lemma LooseWord(spec: UfwRuleSpec)
    requires Printable(spec) && !NoLooseEnds(spec)
    ensures exists w :: w in RuleWords(spec) + Clause("comment", spec.comment) && !IsWord(w)
  {
    var rule, comment := RuleWords(spec), Clause("comment", spec.comment);
    if Given(spec.comment) && !IsWord(spec.comment.value) {
      assert comment[1] == spec.comment.value;
      assert spec.comment.value in rule + comment;
    } else if spec.iface.Some? && Chomp(spec.iface.value) != spec.iface.value {
      EndsInSpace(spec.iface.value);
      assert Clause("on", spec.iface)[1] == spec.iface.value;
      assert spec.iface.value in rule;
    } else {
      EndsInSpace(spec.port.value);
      assert Clause("port", spec.port)[1] == spec.port.value;
      assert spec.port.value in rule;
    }
  }

  lemma EndsInSpace(s: string)
    requires Chomp(s) != s
    ensures !IsWord(s)
  {
    Spaces();
    assert s[|s| - 1] == '\n';
  }

  lemma ReadIsAsked(spec: UfwRuleSpec)
    requires Printable(spec)
    ensures RuleWords(Clean(spec)) + CommentWords(spec) == RuleWords(spec) + Clause("comment", spec.comment)
            <==> NoLooseEnds(spec)
  {
    if NoLooseEnds(spec) {
      if Given(spec.comment) {
        WordsOfWord(spec.comment.value);
      }
    } else {
      AllWords(spec);
      LooseWord(spec);
    }
  }

  lemma SameFront(front: seq<string>, a: seq<string>, b: seq<string>)
    ensures front + a == front + b <==> a == b
  {
    assert (front + a)[|front|..] == a && (front + b)[|front|..] == b;
  }

  /** Re-inserting the printed text at a position rebuilds the positioned command
      exactly when the comment is one word and no field ends in a newline. */
  lemma ReinsertRebuilds(isNetwork: string -> bool, spec: UfwRuleSpec, position: Option<int>)
    requires ValidSpec(isNetwork, spec) && PlainAddresses(spec)
    requires position.Some? ==> position.value >= 1
    ensures InsertArgvFromSpec(Join(Printed(spec)), position) == BuildArgv(isNetwork, spec, position)
            <==> Clean(spec) == spec && (Given(spec.comment) ==> IsWord(spec.comment.value))
  {
    ValidIsPrintable(isNetwork, spec);
    PrintedLine(spec);
    var read, asked := RuleWords(Clean(spec)) + CommentWords(spec), RuleWords(spec) + Clause("comment", spec.comment);
    LineInserts(Join(Printed(spec)), spec.direction == "fwd", read, position);
    var front := ["ufw"] + RouteWord(spec) + InsertWord(position);
    assert BuildArgv(isNetwork, spec, position).value == front + asked;
    ReadIsAsked(spec);
    SameFront(front, read, asked);
  }

  // ---------------- deleting ----------------

  lemma RuleWordsMention(spec: UfwRuleSpec)
    requires Printable(spec) && Clean(spec) == spec
    ensures "comment" in RuleWords(spec) <==> spec.iface == Some("comment")
  {
    ActionWord(spec.action);
    NoKeyword();
    assert !IsDigit("comment"[0]);
    assert "comment" !in PortWords(spec);
    assert "comment" !in DirectionWord(spec);
    assert "comment" in Clause("on", spec.iface) <==> spec.iface == Some("comment") by {
      if spec.iface == Some("comment") {
        assert Clause("on", spec.iface)[1] == "comment";
      }
    }
    var ends := ["to", Or(spec.toAddress, "any")] + PortWords(spec);
    assert "comment" !in ends;
    assert "comment" !in ["from", Or(spec.fromAddress, "any")] + ends;
  }

  lemma NoKeyword()
    ensures "comment" !in {"on", "from", "to", "port", "proto", "any", "in", "out", "tcp", "udp"}
  {
    assert |"comment"| == 7;
  }

  lemma CleanIsClean(spec: UfwRuleSpec)
    requires Printable(spec)
    ensures Printable(Clean(spec)) && Clean(Clean(spec)) == Clean(spec)
  {
    if spec.iface.Some? {
      ChompWord(spec.iface.value);
    }
    if spec.port.Some? {
      ChompWord(spec.port.value);
    }
  }

  lemma ChompWord(s: string)
    requires IsWord(Chomp(s))
    ensures Chomp(Chomp(s)) == Chomp(s)
  {
    Spaces();
  }

  lemma WordBefore(a: seq<string>, b: seq<string>, word: string)
    requires word !in a && (b == [] || b[0] == word)
    ensures (a + b)[..IndexOfWord(a + b, word)] == a
  {
    var t := a + b;
    var k := IndexOfWord(t, word);
    assert t[..|a|] == a;
    forall i | 0 <= i < |a| ensures t[i] != word {
      assert t[i] == a[i];
    }
    assert b != [] ==> t[|a|] == word;
  }

  /** The delete command for a printed rule names the rule and drops its comment,
      exactly when the rule's interface is not called `comment`. */
  lemma {:induction false} DeleteNamesTheRule(isNetwork: string -> bool, spec: UfwRuleSpec)
    requires ValidSpec(isNetwork, spec) && PlainAddresses(spec)
    ensures DeleteArgvFromSpec(Join(Printed(spec)))
            == Ok(["ufw", "--force"] + RouteWord(spec) + ["delete"] + RuleWords(Clean(spec)))
            <==> Clean(spec).iface != Some("comment")
  {
    ValidIsPrintable(isNetwork, spec);
    PrintedLine(spec);
    CleanIsClean(spec);
    RuleWordsMention(Clean(spec));
    var rule := RuleWords(Clean(spec)) + CommentWords(spec);
    LineDeletes(Join(Printed(spec)), spec.direction == "fwd", rule);
    var kept := rule[..IndexOfWord(rule, "comment")];
    SameFront(["ufw", "--force"] + RouteWord(spec) + ["delete"], kept, RuleWords(Clean(spec)));
    if Clean(spec).iface != Some("comment") {
      WordBefore(RuleWords(Clean(spec)), CommentWords(spec), "comment");
    }
  }

  // ---------------- reading back ----------------

  /** The "To" column a spec is read back as: the port, the address, or both, and
      the protocol unless a slash is there already. */
  function ReadDestination(spec: UfwRuleSpec): string {
    var place := ReadPlace(Or(spec.toAddress, "any"), spec.port);
    if spec.protocol.Some? && '/' !in place then place + "/" + spec.protocol.value else place
  }

  function ReadPlace(address: string, port: Option<string>): string {
    if port.None? then address
    else if address == "any" then port.value
    else address + " port " + port.value
  }

  lemma ReadPair(keyword: string, value: string, rest: seq<string>, r: Reading)
    requires keyword in {"on", "from", "to", "port", "proto"}
    ensures ReadColumns([keyword, value] + rest, r)
            == ReadColumns(rest, ReadStep(keyword, Some(value), r).0)
  {
    var tokens := [keyword, value] + rest;
    assert tokens[2..] == rest;
    assert "on"[0] == 'o' && "from"[0] == 'f' && "to"[0] == 't' && "port"[1] == 'o' && "proto"[1] == 'r';
  }

  lemma ReadPorts(port: Option<string>, protocol: Option<string>, r: Reading)
    requires r.destination.Some? && r.proto == None
    requires (port.Some? ==> port.value != "") && (protocol.Some? ==> protocol.value != "" && port.Some?)
    ensures ReadColumns(Clause("port", port) + Clause("proto", protocol), r)
            == r.(destination := Some(ReadPlace(r.destination.value, port)), proto := protocol)
  {
    var protos := Clause("proto", protocol);
    if port.Some? {
      ReadPair("port", port.value, protos, r);
      if protocol.Some? {
        assert protos == ["proto", protocol.value] + [];
        ReadPair("proto", protocol.value, [], r.(destination := Some(ReadPlace(r.destination.value, port))));
      }
    }
  }

  lemma ReadRuleColumns(spec: UfwRuleSpec)
    requires Printable(spec)
    ensures ReadColumns(ColumnWords(spec), NOTHING_READ)
            == Reading(spec.iface, Some(Or(spec.fromAddress, "any")),
                       Some(ReadPlace(Or(spec.toAddress, "any"), spec.port)), spec.protocol)
  {
    var source, target := Or(spec.fromAddress, "any"), Or(spec.toAddress, "any");
    var ports := PortWords(spec);
    var ends := ["from", source] + (["to", target] + ports);
    if spec.iface.Some? {
      ReadPair("on", spec.iface.value, ends, NOTHING_READ);
    } else {
      assert ColumnWords(spec) == ends;
    }
    var r := Reading(spec.iface, None, None, None);
    ReadPair("from", source, ["to", target] + ports, r);
    ReadPair("to", target, ports, r.(source := Some(source)));
    ReadPorts(spec.port, spec.protocol, r.(source := Some(source), destination := Some(target)));
  }

  lemma HeadSplits(direction: string, action: string, columns: seq<string>)
    requires action in ACTIONS && direction in {"in", "out", "fwd"}
    requires columns != [] && columns[0] in {"on", "from"}
    ensures var dir := if direction == "fwd" then [] else [direction];
            SplitHead(Route(direction == "fwd") + ([action] + (dir + columns))) == (direction, action, columns)
  {
    ActionWord(action);
    var dir := if direction == "fwd" then [] else [direction];
    var t1 := [action] + (dir + columns);
    assert t1[1..] == dir + columns;
    assert "on"[1] == 'n' && "from"[0] == 'f' && "in"[0] == 'i' && "out"[1] == 'u' && "out"[0] == 'o';
    if direction == "fwd" {
      assert (Route(true) + t1)[1..] == t1 && dir + columns == columns;
    } else {
      assert Route(false) + t1 == t1 && (dir + columns)[1..] == columns;
    }
  }

  lemma SplitsAtComment(body: seq<string>, comment: seq<string>)
    requires "comment" !in body && (comment == [] || comment[0] == "comment")
    ensures SplitAtComment(body + comment) == (if comment == [] then None else CommentOf(comment[1..]), body)
  {
    WordBefore(body, comment, "comment");
    if comment == [] {
      assert body + comment == body;
    } else {
      assert (body + comment)[|body|] == "comment";
      assert (body + comment)[|body| + 1..] == comment[1..];
    }
  }

  lemma LineBody(text: string, routed: bool, rule: seq<string>, comment: seq<string>)
    requires Line(text, routed, rule + comment) && rule != []
    requires "comment" !in rule && (comment == [] || comment[0] == "comment")
    ensures SplitComment(text) == (if comment == [] then None else CommentOf(comment[1..]), Route(routed) + rule)
  {
    var body := Route(routed) + rule;
    assert Route(routed) + (rule + comment) == body + comment;
    assert (["ufw"] + (body + comment))[1..] == body + comment;
    assert "comment" !in Route(routed) by { assert "route"[0] == 'r' && "comment"[0] == 'c'; }
    SplitsAtComment(body, comment);
  }

  /** The comment a spec is read back with: its words joined by single spaces,
      without quotes around them. */
  function ReadBackComment(spec: UfwRuleSpec): Option<string> {
    if Given(spec.comment) then CommentOf(Words(spec.comment.value)) else None
  }

  /** Reading a printed rule recovers its action, direction, interface, source,
      destination and port selector, and its comment up to spacing and quotes. */
  lemma PrintThenRead(isNetwork: string -> bool, spec: UfwRuleSpec)
    requires ValidSpec(isNetwork, spec) && PlainAddresses(spec)
    requires Clean(spec).iface != Some("comment")
    ensures var c := RuleFromSpec(Join(Printed(spec))).columns;
            && c.action == spec.action && c.direction == spec.direction
            && c.iface == Clean(spec).iface
            && c.source == Or(spec.fromAddress, "any")
            && c.destination == ReadDestination(Clean(spec))
            && c.comment == ReadBackComment(spec)
    ensures var r := RuleFromSpec(Join(Printed(spec)));
            && r.spec == Some(Join(Printed(spec))) && r.position.None? && r.positionV6.None?
            && r.ipVersion == (if ':' in r.columns.source || ':' in r.columns.destination then "v6" else "v4")
  {
    ValidIsPrintable(isNetwork, spec);
    PrintThenReadClean(spec, Clean(spec));
  }

  lemma PrintThenReadClean(spec: UfwRuleSpec, clean: UfwRuleSpec)
    requires Printable(spec) && clean == Clean(spec)
    requires clean.iface != Some("comment")
    ensures var c := RuleFromSpec(Join(Printed(spec))).columns;
            && c.action == spec.action && c.direction == spec.direction
            && c.iface == clean.iface
            && c.source == Or(spec.fromAddress, "any")
            && c.destination == ReadDestination(clean)
            && c.comment == ReadBackComment(spec)
    ensures var r := RuleFromSpec(Join(Printed(spec)));
            && r.spec == Some(Join(Printed(spec))) && r.position.None? && r.positionV6.None?
            && r.ipVersion == (if ':' in r.columns.source || ':' in r.columns.destination then "v6" else "v4")
  {
    var text := Join(Printed(spec));
    CleanIsClean(spec);
    RuleWordsMention(clean);
    PrintedLine(spec);
    LineBody(text, spec.direction == "fwd", RuleWords(clean), CommentWords(spec));
    HeadSplits(spec.direction, spec.action, ColumnWords(clean));
    CommentWordsRead(spec);
    ColumnsAssemble(text, clean, ReadBackComment(spec));
  }

  /** The columns a rule's words are assembled into. */
  lemma ColumnsAssemble(text: string, spec: UfwRuleSpec, comment: Option<string>)
    requires Printable(spec)
    ensures Assemble(text, comment, spec.direction, spec.action, ReadColumns(ColumnWords(spec), NOTHING_READ)).columns
            == Columns(spec.action, spec.direction, ReadDestination(spec), Or(spec.fromAddress, "any"),
                       spec.iface, comment)
    ensures var r := Assemble(text, comment, spec.direction, spec.action, ReadColumns(ColumnWords(spec), NOTHING_READ));
            && r.spec == Some(text) && r.position.None? && r.positionV6.None?
            && r.ipVersion == (if ':' in r.columns.source || ':' in r.columns.destination then "v6" else "v4")
  {
    ReadRuleColumns(spec);
  }

  lemma CommentWordsRead(spec: UfwRuleSpec)
    ensures ReadBackComment(spec) == if CommentWords(spec) == [] then None else CommentOf(CommentWords(spec)[1..])
  {
    if Given(spec.comment) {
      assert CommentWords(spec)[1..] == Words(spec.comment.value);
    }
  }

  /** A comment of one word without quotes at its ends is recovered as it is. */
  lemma PlainCommentSurvives(spec: UfwRuleSpec)
    requires spec.comment.Some? && IsWord(spec.comment.value)
    requires var s := spec.comment.value; s[0] !in "'\"" && s[|s| - 1] !in "'\""
    ensures ReadBackComment(spec) == spec.comment
  {
    WordsOfWord(spec.comment.value);
    StripWord(spec.comment.value);
  }

  /** The interface is recovered exactly when it is not called `comment`; one that is
      takes every column after it away. */
  lemma InterfaceReadExactly(isNetwork: string -> bool, spec: UfwRuleSpec)
    requires ValidSpec(isNetwork, spec) && PlainAddresses(spec)
    ensures var c := RuleFromSpec(Join(Printed(spec))).columns;
            && (c.iface == Clean(spec).iface <==> Clean(spec).iface != Some("comment"))
            && (Clean(spec).iface == Some("comment") ==>
                c.iface.None? && c.source == "Anywhere" && c.destination == "on")
  {
    ValidIsPrintable(isNetwork, spec);
    if Clean(spec).iface == Some("comment") {
      LostInterface(spec, Clean(spec));
    } else {
      PrintThenReadClean(spec, Clean(spec));
    }
  }

  lemma LostInterface(spec: UfwRuleSpec, clean: UfwRuleSpec)
    requires Printable(spec) && clean == Clean(spec) && clean.iface == Some("comment")
    ensures var c := RuleFromSpec(Join(Printed(spec))).columns;
            c.iface.None? && c.source == "Anywhere" && c.destination == "on"
  {
    var text, routed := Join(Printed(spec)), spec.direction == "fwd";
    var kept := [spec.action] + (DirectionWord(clean) + ["on"]);
    var rest := ["from", Or(clean.fromAddress, "any")] + (["to", Or(clean.toAddress, "any")] + PortWords(clean));
    var lost := ["comment"] + (rest + CommentWords(spec));
    PrintedLine(spec);
    CutAtInterface(spec.action, DirectionWord(clean), rest, CommentWords(spec));
    NotMentioned(clean);
    LineBody(text, routed, kept, lost);
    HeadSplits(spec.direction, spec.action, ["on"]);
    LoneOn();
  }

  lemma LoneOn()
    ensures ReadColumns(["on"], NOTHING_READ) == NOTHING_READ.(destination := Some("on"))
  {
    assert ["on"][1..] == [];
  }

  lemma NotMentioned(spec: UfwRuleSpec)
    requires spec.action in ACTIONS && spec.direction in {"in", "out", "fwd"}
    ensures "comment" !in [spec.action] + (DirectionWord(spec) + ["on"])
  {
    ActionWord(spec.action);
    NoKeyword();
  }

  lemma CutAtInterface(action: string, dir: seq<string>, rest: seq<string>, comment: seq<string>)
    ensures [action] + (dir + (["on", "comment"] + rest)) + comment
            == [action] + (dir + ["on"]) + (["comment"] + (rest + comment))
  {
  }

  lemma AnySource(net: Containment, address: string)
    ensures SourceMatches(net, "any", address) && SourceMatches(net, "Anywhere", address)
    ensures PortOf("any") == None && PortOf("Anywhere") == None
  {
    VisibleWord("any");
    VisibleWord("Anywhere");
    StripWord("any");
    StripWord("Anywhere");
    assert Lower("any") == "any" && Lower("Anywhere") == "anywhere";
  }

  lemma ColumnsReadBack(s: string, protocol: string)
    requires Selector(Chomp(s)) && IsWord(protocol)
    ensures PortOf(s) == Some(Chomp(s))
    ensures PortOf(s + "/" + protocol) == Some(Chomp(s))
  {
    var t := Chomp(s);
    var tail := if s == t then "" else "\n";
    assert s == t + tail;
    PortOfPlain(t, tail);
    PortOfWithProtocol(t, tail, protocol);
  }

  lemma SelectorReadsBack(s: string, protocol: string, port: int)
    requires ReadPort(s).Some? && IsWord(protocol)
    ensures PortOf(s) == PortOf(Chomp(s)) == Some(Chomp(s))
    ensures PortOf(s + "/" + protocol) == PortOf(Chomp(s) + "/" + protocol) == Some(Chomp(s))
    ensures PortMatches(Chomp(s), port) <==> PortMatches(s, port)
  {
    AcceptedPortMeansItsUnion(s, port);
    PortIsSelector(s);
    ChompWord(s);
    ColumnsReadBack(s, protocol);
    ColumnsReadBack(Chomp(s), protocol);
    PortMatchesUnion(ReadPort(s).value, "", port);
    assert Chomp(s) + "" == Chomp(s);
  }

  /** A spec's port clause, however it is written down, selects the same ports. */
  lemma {:induction false} DestinationsAgree(spec: UfwRuleSpec, port: int)
    requires spec.port.Some? ==> ReadPort(spec.port.value).Some? && spec.port.value != ""
    requires spec.protocol.Some? ==> spec.port.Some? && spec.protocol.value in {"tcp", "udp"}
    requires Or(spec.toAddress, "any") == "any"
    ensures var read, projected := PortOf(ReadDestination(Clean(spec))),
            PortOf(ProjectedRule(spec).columns.destination);
            && read == projected
            && (read.None? || PortMatches(read.value, port) <==>
                (spec.port.Some? ==> PortMatches(spec.port.value, port)))
  {
    if spec.port.Some? {
      var protocol := if spec.protocol.Some? then spec.protocol.value else "tcp";
      VisibleWord(protocol);
      PortIsSelector(spec.port.value);
      SelectorReadsBack(spec.port.value, protocol, port);
    } else {
      AnySource((x, y) => false, "");
    }
  }

  /** The rule read back, the rule projected and the spec itself agree, for every
      management path, on whether they match it and whether they let it in. */
  lemma CoverageAgrees(isNetwork: string -> bool, net: Containment, spec: UfwRuleSpec, path: ManagementPath)
    requires ValidSpec(isNetwork, spec) && PlainAddresses(spec)
    requires Or(spec.toAddress, "any") == "any"
    requires Clean(spec).iface != Some("comment")
    ensures var read := RuleFromSpec(Join(Printed(spec)));
            && (RuleMatches(net, read, path) <==> RuleMatches(net, ProjectedRule(spec), path))
            && ProjectedRule(spec).columns.action == read.columns.action
            && ProjectedRule(spec).columns.direction == read.columns.direction
            && Clean(spec.(iface := ProjectedRule(spec).columns.iface)).iface == read.columns.iface
            && (RuleCoversPath(net, read, path) <==> SpecCoversPath(net, spec, path))
            && (RuleCoversPath(net, ProjectedRule(spec), path) <==> SpecCoversPath(net, spec, path))
  {
    PrintThenRead(isNetwork, spec);
    ValidIsPrintable(isNetwork, spec);
    AnySource(net, path.Client());
    DestinationsAgree(spec, path.Port());
  }

  // ---------------- positions and refusals ----------------

  /** A printed number reads back as itself. */
  lemma {:induction false} DecimalReads(n: nat)
    ensures Number(Decimal(n)) == n
  {
    var digit := [('0' as int + n % 10) as char];
    if n >= 10 {
      DecimalReads(n / 10);
      assert (Decimal(n / 10) + digit)[..|Decimal(n / 10)|] == Decimal(n / 10);
    } else {
      assert digit[..0] == "";
    }
  }

  /** Numbers are read in base ten, so ports mean what they say. */
  lemma NumbersAreDecimal(s: string, d: char)
    requires IsDigit(d)
    ensures Number("") == 0 && Number(s + [d]) == 10 * Number(s) + (d as int - 48)
  {
    assert (s + [d])[..|s|] == s;
  }

  /** Where a command has its position: after `ufw`, and `route` for a routed rule. */
  ghost predicate SaysPosition(argv: seq<string>, routed: bool, position: Option<int>) {
    var at := if routed then 2 else 1;
    && |argv| > at && argv[0] == "ufw" && (routed ==> argv[1] == "route")
    && (position.None? ==> argv[at] in ACTIONS)
    && (position.Some? ==>
          && |argv| > at + 2 && argv[at] == "insert" && argv[at + 2] in ACTIONS
          && AllDigits(argv[at + 1]) && Number(argv[at + 1]) == position.value)
  }

  lemma PositionSaid(routed: bool, position: Option<int>, rule: seq<string>)
    requires (position.Some? ==> position.value >= 1) && rule != [] && rule[0] in ACTIONS
    ensures SaysPosition(["ufw"] + Route(routed) + InsertWord(position) + rule, routed, position)
  {
    if position.Some? {
      DecimalReads(position.value);
    }
  }

  /** A built command asks for the position it was given. */
  lemma BuiltPosition(isNetwork: string -> bool, spec: UfwRuleSpec, position: Option<int>)
    ensures BuildArgv(isNetwork, spec, position).Ok? <==>
            ValidSpec(isNetwork, spec) && (position.Some? ==> position.value >= 1)
    ensures BuildArgv(isNetwork, spec, position).Ok? ==>
              SaysPosition(BuildArgv(isNetwork, spec, position).value, spec.direction == "fwd", position)
  {
    if BuildArgv(isNetwork, spec, position).Ok? {
      var rule := RuleWords(spec) + Clause("comment", spec.comment);
      assert rule[0] == spec.action;
      PositionSaid(spec.direction == "fwd", position, rule);
    }
  }

  /** The line names a rule that ufw can install or delete. */
  ghost predicate NamesRule(text: string) {
    exists routed, rule :: Line(text, routed, rule)
  }

  lemma AfterUfwIsLine(text: string)
    ensures var tokens := AfterUfw(text);
            NamesRule(text) <==>
            && tokens.Some?
            && var rest := if tokens.value[0] == "route" then tokens.value[1..] else tokens.value;
               rest != [] && rest[0] in ACTIONS
  {
    var tokens := AfterUfw(text);
    if routed, rule :| Line(text, routed, rule) {
      LineAfterUfw(text, routed, rule);
    } else if tokens.Some? {
      var routed := tokens.value[0] == "route";
      var rest := if routed then tokens.value[1..] else tokens.value;
      if rest != [] && rest[0] in ACTIONS {
        assert Words(text) == ["ufw"] + tokens.value && tokens.value == Route(routed) + rest;
        assert Line(text, routed, rest);
      }
    }
  }

  /** A stored line is turned into an insert or a delete exactly when it names a
      rule; the insert asks for the position it was given. */
  lemma StoredLineCommands(text: string, position: Option<int>)
    ensures InsertArgvFromSpec(text, position).Ok? <==> NamesRule(text) && (position.Some? ==> position.value >= 1)
    ensures DeleteArgvFromSpec(text).Ok? <==> NamesRule(text)
    ensures forall routed, rule :: Line(text, routed, rule) && InsertArgvFromSpec(text, position).Ok? ==>
              SaysPosition(InsertArgvFromSpec(text, position).value, routed, position)
  {
    AfterUfwIsLine(text);
    forall routed, rule | Line(text, routed, rule) && InsertArgvFromSpec(text, position).Ok?
      ensures SaysPosition(InsertArgvFromSpec(text, position).value, routed, position)
    {
      LineInserts(text, routed, rule, position);
      PositionSaid(routed, position, rule);
    }
  }

  /** The clauses of a rule that asks for everything, written out in ufw's order, */
  lemma FullClauses(spec: UfwRuleSpec)
    requires Given(spec.fromAddress) && Given(spec.toAddress) && Given(spec.port) && Given(spec.protocol)
    requires Given(spec.iface) && Given(spec.comment)
    ensures ColumnWords(spec) + Clause("comment", spec.comment)
            == ["on", spec.iface.value, "from", spec.fromAddress.value, "to", spec.toAddress.value,
                "port", spec.port.value, "proto", spec.protocol.value, "comment", spec.comment.value]
  {
  }

  /** and of one that asks for nothing but its action. */
  lemma BareClauses(spec: UfwRuleSpec)
    requires !Given(spec.fromAddress) && !Given(spec.toAddress) && !Given(spec.port) && !Given(spec.protocol)
    requires !Given(spec.iface) && !Given(spec.comment)
    ensures ColumnWords(spec) + Clause("comment", spec.comment) == ["from", "any", "to", "any"]
  {
  }

  lemma Regroup(a: string, b: seq<string>, c: seq<string>, d: seq<string>)
    ensures [a] + (b + c) + d == [a] + (b + (c + d))
  {
  }

  /** A command is `ufw`, perhaps `route`, perhaps a position, then the action, the
      direction unless routed, and the clauses. */
  lemma CommandWrittenOut(isNetwork: string -> bool, spec: UfwRuleSpec, position: Option<int>)
    requires ValidSpec(isNetwork, spec) && (position.Some? ==> position.value >= 1)
    ensures var clauses := ColumnWords(spec) + Clause("comment", spec.comment);
            var place := if position.Some? then ["insert", Decimal(position.value)] else [];
            BuildArgv(isNetwork, spec, position).value
            == if spec.direction == "fwd" then ["ufw"] + ["route"] + place + ([spec.action] + ([] + clauses))
               else ["ufw"] + [] + place + ([spec.action] + ([spec.direction] + clauses))
  {
    Regroup(spec.action, DirectionWord(spec), ColumnWords(spec), Clause("comment", spec.comment));
  }

  /** One of A to Z, a to z, 0 to 9, underscore, dot, colon and hyphen. */
  predicate InterfaceChar(c: char) {
    || 65 <= c as int <= 90 || 97 <= c as int <= 122 || 48 <= c as int <= 57
    || c == '_' || c == '.' || c == ':' || c == '-'
  }

  /** What is accepted, said without the validator: the four actions, the three
      directions, tcp or udp and only with a port, an interface name of 1 to 15
      characters (and a final newline), addresses that are `any` or parse, and a
      comment of at most 255 characters without line breaks. */
  lemma AcceptedExactly(isNetwork: string -> bool, spec: UfwRuleSpec)
    ensures BuildArgv(isNetwork, spec, None).Ok? <==>
            && (spec.action == "allow" || spec.action == "deny" || spec.action == "reject" || spec.action == "limit")
            && (spec.direction == "in" || spec.direction == "out" || spec.direction == "fwd")
            && (spec.protocol.Some? ==>
                  spec.port.Some? && (spec.protocol.value == "tcp" || spec.protocol.value == "udp"))
            && (spec.port.Some? ==> ReadPort(spec.port.value).Some?)
            && (spec.iface.Some? ==>
                  exists name :: (spec.iface.value == name || spec.iface.value == name + "\n") && InterfaceName(name))
            && (forall a :: a in {spec.fromAddress, spec.toAddress} && a.Some? && a.value != "" ==>
                              a.value == "any" || isNetwork(a.value))
            && (spec.comment.Some? ==>
                  |spec.comment.value| <= 255 && '\r' !in spec.comment.value && '\n' !in spec.comment.value
                  && '\0' !in spec.comment.value)
  {
    if spec.iface.Some? {
      IfaceExactly(spec.iface.value);
    }
  }

  /** An interface name of 1 to 15 such characters. */
  predicate InterfaceName(name: string) {
    1 <= |name| <= 15 && forall i :: 0 <= i < |name| ==> InterfaceChar(name[i])
  }

  lemma IfaceExactly(s: string)
    ensures ValidIface(s) <==> exists name :: (s == name || s == name + "\n") && InterfaceName(name)
  {
    if ValidIface(s) {
      ChompedEnd(s);
      assert InterfaceName(Chomp(s));
    }
    if name :| (s == name || s == name + "\n") && InterfaceName(name) {
      NameIsChomped(name);
      assert forall i :: 0 <= i < |name| ==> IfaceChar(name[i]);
    }
  }

  lemma ChompedEnd(s: string)
    ensures s == Chomp(s) || s == Chomp(s) + "\n"
  {
    if s != "" && s[|s| - 1] == '\n' {
      assert s == s[..|s| - 1] + [s[|s| - 1]];
    }
  }

  lemma NameIsChomped(name: string)
    requires InterfaceName(name)
    ensures Chomp(name) == name && Chomp(name + "\n") == name
  {
    assert InterfaceChar(name[|name| - 1]);
    assert (name + "\n")[..|name|] == name;
  }

  /** The action of a stored line is read in small letters, whatever follows it. */
  lemma ActionReadInSmall(text: string, word: string, rest: seq<string>)
    requires Words(text) == ["ufw", word] + rest && word != "route" && word != "comment"
    ensures RuleFromSpec(text).columns.action == Lower(word)
  {
    var tokens := [word] + rest;
    assert (["ufw", word] + rest)[1..] == tokens;
    var i := IndexOfWord(tokens, "comment");
    assert i > 0 && tokens[..i][0] == word;
  }

  predicate IsQuote(c: char) {
    c as int == 39 || c as int == 34
  }

  predicate OnlyQuotes(s: string) {
    forall i :: 0 <= i < |s| ==> IsQuote(s[i])
  }

  lemma FrontPut(s: string, a: string, b: string)
    requires s != "" && s[1..] == a + StripQuotes(s[1..]) + b
    ensures s == [s[0]] + a + StripQuotes(s[1..]) + b
  {
    assert s == [s[0]] + s[1..];
  }

  lemma BackPut(s: string, a: string, t: string, b: string)
    requires s != "" && s[..|s| - 1] == a + t + b
    ensures s == a + t + (b + [s[|s| - 1]])
  {
    assert s == s[..|s| - 1] + [s[|s| - 1]];
  }

  /** Stripping takes the quotes at both ends away, all of them and nothing else. */
  lemma {:induction false} QuotesStripped(s: string) returns (a: string, b: string)
    ensures s == a + StripQuotes(s) + b && OnlyQuotes(a) && OnlyQuotes(b)
    ensures var t := StripQuotes(s); t == "" || (!IsQuote(t[0]) && !IsQuote(t[|t| - 1]))
    decreases |s|
  {
    if s != "" && IsQuote(s[0]) {
      var a', b' := QuotesStripped(s[1..]);
      a, b := [s[0]] + a', b';
      FrontPut(s, a', b');
    } else if s != "" && IsQuote(s[|s| - 1]) {
      var a', b' := QuotesStripped(s[..|s| - 1]);
      a, b := a', b' + [s[|s| - 1]];
      BackPut(s, a', StripQuotes(s), b');
    } else {
      a, b := "", "";
    }
  }
}
