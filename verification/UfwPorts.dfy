/** ufw's port selectors: the accepted grammar, and the matcher that decides
    whether a selector covers a port. */
module UfwPorts {
  import opened Options
  import opened Text

  // ---------------- the matcher, as the driver computes it ----------------

  predicate PartMatches(part: string, port: int) {
    if ':' in part then
      var k := IndexOf(part, ':');
      var low := ParseInt(part[..k]);
      var high := ParseInt(part[k + 1..]);
      low.Some? && low.value <= port && high.Some? && port <= high.value
    else
      AllDigits(part) && ParseInt(part) == Some(port)
  }

  predicate AnyPartMatches(parts: seq<string>, port: int) {
    parts != [] && (PartMatches(Strip(parts[0]), port) || AnyPartMatches(parts[1..], port))
  }

  /** Does the selector text cover this port? */
  predicate PortMatches(selector: string, port: int) {
    AnyPartMatches(SplitOn(selector, ','), port)
  }

  /** The port a "To" column names, or None when it names everything. */
  function PortOf(destination: string): Option<string> {
    var value := Strip(destination);
    if value == "" || Lower(value) in {"anywhere", "any"} then None
    else
      var head := Strip(value[..IndexOf(value, '/')]);
      if head == "" then None else Some(head)
  }

  // ---------------- the grammar, as a language of ranges ----------------

  /** One entry of a selector list: a number or an inclusive range, each bound
      written with one to five digits. */
  datatype Item = One(digits: string) | Range(low: string, high: string) {

    predicate Valid() {
      match this
      case One(d) => PortDigits(d)
      case Range(l, h) => PortDigits(l) && PortDigits(h)
    }

    function Text(): string {
      match this
      case One(d) => d
      case Range(l, h) => l + ":" + h
    }

    predicate Covers(port: int) {
      match this
      case One(d) => Number(d) == port
      case Range(l, h) => Number(l) <= port <= Number(h)
    }
  }

  predicate PortDigits(s: string) {
    AllDigits(s) && |s| <= 5
  }

  function ItemsText(items: seq<Item>): string {
    if |items| == 0 then ""
    else if |items| == 1 then items[0].Text()
    else items[0].Text() + "," + ItemsText(items[1..])
  }

  predicate ValidItems(items: seq<Item>) {
    items != [] && forall i :: 0 <= i < |items| ==> items[i].Valid()
  }

  function ReadItem(part: string): Option<Item> {
    var k := IndexOf(part, ':');
    var item := if k == |part| then One(part) else Range(part[..k], part[k + 1..]);
    if item.Valid() then Some(item) else None
  }

  function ReadItems(parts: seq<string>): Option<seq<Item>> {
    if parts == [] then Some([])
    else
      var head, rest := ReadItem(parts[0]), ReadItems(parts[1..]);
      if head.Some? && rest.Some? then Some([head.value] + rest.value) else None
  }

  /** The port pattern: entries separated by commas. Its `$` also matches before
      one final newline, so an accepted selector may carry one. */
  function ReadPort(s: string): Option<seq<Item>> {
    ReadItems(SplitOn(Chomp(s), ','))
  }

  /** The set of ports a list of entries means: the union of its entries. */
  ghost predicate InUnion(items: seq<Item>, port: int) {
    exists i :: 0 <= i < |items| && items[i].Covers(port)
  }

  // ---------------- the matcher computes the union ----------------

  lemma ItemIsWord(item: Item)
    requires item.Valid()
    ensures IsWord(item.Text())
    ensures ',' !in item.Text() && '/' !in item.Text()
  {
    match item
    case One(d) => DigitsAreWords(d);
    case Range(l, h) =>
      DigitsAreWords(l);
      DigitsAreWords(h);
      VisibleIsNoSpace(':');
  }

  lemma PartMatchesItem(item: Item, raw: string, port: int)
    requires item.Valid()
    requires raw == item.Text() || raw == item.Text() + "\n"
    ensures PartMatches(Strip(raw), port) <==> item.Covers(port)
  {
    ItemIsWord(item);
    StripWord(item.Text());
    match item
    case One(d) =>
      DigitsAreWords(d);
    case Range(l, h) =>
      RangeMatches(l, h, port);
  }

  lemma {:induction false} RangeMatches(l: string, h: string, port: int)
    requires AllDigits(l) && AllDigits(h)
    ensures PartMatches(l + ":" + h, port) <==> Number(l) <= port <= Number(h)
  {
    DigitsAreWords(l);
    DigitsAreWords(h);
    IndexOfSeparator(l, ':', h);
    assert l + ":" + h == l + [':'] + h;
  }

  lemma SplitsAtComma(head: string, rest: string, port: int)
    requires ',' !in head
    ensures PortMatches(head, port) <==> PartMatches(Strip(head), port)
    ensures PortMatches(head + "," + rest, port) <==> PartMatches(Strip(head), port) || PortMatches(rest, port)
  {
    assert SplitOn(head, ',') == [head];
    assert [head][1..] == [] && !AnyPartMatches([], port);
    SplitCons(head, rest);
    assert ([head] + SplitOn(rest, ','))[1..] == SplitOn(rest, ',');
  }

  /** A selector accepted by the grammar matches exactly the ports of its union. */
  lemma {:induction false} PortMatchesUnion(items: seq<Item>, tail: string, port: int)
    requires ValidItems(items)
    requires tail == "" || tail == "\n"
    ensures PortMatches(ItemsText(items) + tail, port) <==> InUnion(items, port)
    decreases |items|
  {
    var head := items[0].Text();
    ItemIsWord(items[0]);
    InUnionSplit(items, port);
    if |items| == 1 {
      assert tail == "" ==> head + tail == head;
      SplitsAtComma(head + tail, "", port);
      PartMatchesItem(items[0], head + tail, port);
    } else {
      var rest := ItemsText(items[1..]) + tail;
      assert ItemsText(items) + tail == head + "," + rest;
      SplitsAtComma(head, rest, port);
      PartMatchesItem(items[0], head, port);
      PortMatchesUnion(items[1..], tail, port);
    }
  }

  lemma InUnionSplit(items: seq<Item>, port: int)
    requires items != []
    ensures InUnion(items, port) <==> items[0].Covers(port) || InUnion(items[1..], port)
  {
    if InUnion(items, port) {
      var i :| 0 <= i < |items| && items[i].Covers(port);
      assert i > 0 ==> items[1..][i - 1].Covers(port);
    }
    if InUnion(items[1..], port) {
      var i :| 0 <= i < |items[1..]| && items[1..][i].Covers(port);
      assert items[i + 1].Covers(port);
    }
  }

  // ---------------- the pattern accepts exactly that language ----------------

  lemma ReadItemSound(part: string)
    requires ReadItem(part).Some?
    ensures ReadItem(part).value.Valid() && ReadItem(part).value.Text() == part
  {
    var k := IndexOf(part, ':');
    if k < |part| {
      assert part == part[..k] + ":" + part[k + 1..];
    }
  }

  function JoinCommas(parts: seq<string>): string {
    if |parts| == 0 then ""
    else if |parts| == 1 then parts[0]
    else parts[0] + "," + JoinCommas(parts[1..])
  }

  lemma JoinCons(head: string, rest: seq<string>)
    requires rest != []
    ensures JoinCommas([head] + rest) == head + "," + JoinCommas(rest)
  {
    assert ([head] + rest)[1..] == rest;
  }

  lemma {:induction false} SplitCons(head: string, rest: string)
    requires ',' !in head
    ensures SplitOn(head + "," + rest, ',') == [head] + SplitOn(rest, ',')
  {
    assert head + "," + rest == head + [','] + rest;
    IndexOfSeparator(head, ',', rest);
  }

  lemma {:induction false} SplitThenJoin(s: string)
    ensures JoinCommas(SplitOn(s, ',')) == s
    decreases |s|
  {
    var k := IndexOf(s, ',');
    if k < |s| {
      var head, rest := s[..k], s[k + 1..];
      assert s == head + "," + rest;
      SplitCons(head, rest);
      JoinCons(head, SplitOn(rest, ','));
      SplitThenJoin(rest);
    }
  }

  lemma {:induction false} ReadItemsSound(parts: seq<string>)
    requires parts != [] && ReadItems(parts).Some?
    ensures |ReadItems(parts).value| == |parts| && ValidItems(ReadItems(parts).value)
    ensures ItemsText(ReadItems(parts).value) == JoinCommas(parts)
  {
    var head, items := ReadItem(parts[0]).value, ReadItems(parts).value;
    ReadItemSound(parts[0]);
    assert items[0] == head && items[1..] == ReadItems(parts[1..]).value;
    if |parts| == 1 {
      assert parts[1..] == [];
    } else {
      ReadItemsSound(parts[1..]);
    }
  }

  lemma SplitIsNotEmpty(s: string)
    ensures SplitOn(s, ',') != []
  {
  }

  lemma ReadPortSound(s: string)
    requires ReadPort(s).Some?
    ensures ValidItems(ReadPort(s).value) && ItemsText(ReadPort(s).value) == Chomp(s)
  {
    var parts := SplitOn(Chomp(s), ',');
    SplitIsNotEmpty(Chomp(s));
    ReadItemsSound(parts);
    SplitThenJoin(Chomp(s));
  }

  /** Reading a selector and writing it again gives the selector, so an accepted
      selector always matches exactly the union of the entries it was read as. */
  lemma AcceptedPortMeansItsUnion(s: string, port: int)
    requires ReadPort(s).Some?
    ensures ValidItems(ReadPort(s).value) && ItemsText(ReadPort(s).value) == Chomp(s)
    ensures PortMatches(s, port) <==> InUnion(ReadPort(s).value, port)
  {
    ReadPortSound(s);
    ChompedTail(s, ReadPort(s).value, port);
  }

  lemma ChompedTail(s: string, items: seq<Item>, port: int)
    requires ValidItems(items) && ItemsText(items) == Chomp(s)
    ensures PortMatches(s, port) <==> InUnion(items, port)
  {
    var tail := if s == Chomp(s) then "" else "\n";
    assert s == Chomp(s) + tail;
    PortMatchesUnion(items, tail, port);
  }

  /** One to five digits, written out. */
  predicate IsPort(s: string) {
    1 <= |s| <= 5 && forall i :: 0 <= i < |s| ==> '0' <= s[i] <= '9'
  }

  /** The grammar, without its reader: a port alone is one to five digits, */
  lemma PortGrammar(s: string)
    requires ',' !in s && ':' !in s && '\n' !in s
    ensures ReadPort(s).Some? <==> IsPort(s)
  {
    OnePart(s);
  }

  /** a range is two of them with a colon between, */
  lemma {:induction false} RangeGrammar(l: string, h: string)
    requires ',' !in l + h && ':' !in l + h && '\n' !in l + h
    ensures ReadPort(l + ":" + h).Some? <==> IsPort(l) && IsPort(h)
  {
    var s := l + ":" + h;
    assert ',' !in s && '\n' !in s;
    OnePart(s);
    assert s == l + [':'] + h;
    IndexOfSeparator(l, ':', h);
  }

  /** and a list is accepted exactly when its parts are. */
  lemma {:induction false} ListGrammar(a: string, b: string)
    requires ',' !in a && '\n' !in a + b
    ensures ReadPort(a + "," + b).Some? <==> ReadPort(a).Some? && ReadPort(b).Some?
  {
    var s := a + "," + b;
    assert '\n' !in s;
    OnePart(a);
    assert Chomp(b) == b && Chomp(s) == s;
    SplitCons(a, b);
    ReadItemsCons(a, SplitOn(b, ','));
  }

  lemma OnePart(s: string)
    requires ',' !in s && '\n' !in s
    ensures ReadPort(s).Some? <==> ReadItem(s).Some?
  {
    assert Chomp(s) == s && SplitOn(s, ',') == [s];
    ReadItemsCons(s, []);
    assert [s] + [] == [s];
  }

  lemma ReadItemComplete(item: Item)
    requires item.Valid()
    ensures ReadItem(item.Text()) == Some(item)
  {
    match item
    case One(d) => DigitsAreWords(d);
    case Range(l, h) =>
      DigitsAreWords(l);
      IndexOfSeparator(l, ':', h);
      assert l + ":" + h == l + [':'] + h;
  }

  lemma ReadItemsCons(part: string, rest: seq<string>)
    ensures ReadItems([part] + rest)
            == if ReadItem(part).Some? && ReadItems(rest).Some?
               then Some([ReadItem(part).value] + ReadItems(rest).value) else None
  {
    assert ([part] + rest)[1..] == rest;
  }

  /** Every list of valid entries is read back from its text: nothing in the
      language is refused. */
  lemma {:induction false} ReadItemsComplete(items: seq<Item>)
    requires ValidItems(items)
    ensures ReadItems(SplitOn(ItemsText(items), ',')) == Some(items)
    decreases |items|
  {
    var head, others := items[0].Text(), items[1..];
    ItemIsWord(items[0]);
    ReadItemComplete(items[0]);
    assert items == [items[0]] + others;
    if |items| == 1 {
      assert SplitOn(head, ',') == [head] + [];
      ReadItemsCons(head, []);
    } else {
      SplitCons(head, ItemsText(others));
      ReadItemsCons(head, SplitOn(ItemsText(others), ','));
      ReadItemsComplete(others);
    }
  }

  // ---------------- through the "port/proto" column and back ----------------

  lemma {:induction false} ItemsTextIsWord(items: seq<Item>)
    requires ValidItems(items)
    ensures IsWord(ItemsText(items)) && '/' !in ItemsText(items)
    ensures IsDigit(ItemsText(items)[0])
    decreases |items|
  {
    ItemIsWord(items[0]);
    VisibleIsNoSpace(',');
    if |items| > 1 {
      ItemsTextIsWord(items[1..]);
    }
  }

  lemma NotAnywhere(value: string)
    requires value != "" && IsDigit(value[0])
    ensures Lower(value) !in {"anywhere", "any"}
  {
    assert Lower(value)[0] == value[0];
  }

  lemma PortOfPlain(t: string, tail: string)
    requires IsWord(t) && '/' !in t && IsDigit(t[0])
    requires tail == "" || tail == "\n"
    ensures PortOf(t + tail) == Some(t)
  {
    StripWord(t);
    assert t + "" == t;
    NotAnywhere(t);
    assert IndexOf(t, '/') == |t| && t[..|t|] == t;
  }

  lemma PortOfWithProtocol(t: string, tail: string, protocol: string)
    requires IsWord(t) && '/' !in t && IsDigit(t[0])
    requires tail == "" || tail == "\n"
    requires IsWord(protocol)
    ensures PortOf(t + tail + "/" + protocol) == Some(t)
  {
    var head := t + tail;
    var full := head + "/" + protocol;
    assert full[0] == t[0] && full[|full| - 1] == protocol[|protocol| - 1];
    assert Strip(full) == full;
    NotAnywhere(full);
    IndexOfSeparator(head, '/', protocol);
    assert full == head + ['/'] + protocol;
    StripWord(t);
    assert t + "" == t;
  }

  /** Writing an accepted selector as a "port" or "port/proto" column and reading
      it back with PortOf returns the selector, so no answer changes. */
  lemma DestinationRoundTrip(items: seq<Item>, tail: string, protocol: string, port: int)
    requires ValidItems(items)
    requires tail == "" || tail == "\n"
    requires IsWord(protocol)
    ensures PortOf(ItemsText(items) + tail) == Some(ItemsText(items))
    ensures PortOf(ItemsText(items) + tail + "/" + protocol) == Some(ItemsText(items))
    ensures PortMatches(ItemsText(items), port) <==> PortMatches(ItemsText(items) + tail, port)
  {
    var t := ItemsText(items);
    ItemsTextIsWord(items);
    PortOfPlain(t, tail);
    PortOfWithProtocol(t, tail, protocol);
    PortMatchesUnion(items, "", port);
    PortMatchesUnion(items, tail, port);
    assert t + "" == t;
  }
}
