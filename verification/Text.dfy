/** The string primitives the ufw code leans on: `str.split`, `str.strip`,
    `str.join`, `str.partition` and `int`. */
module Text {
  import opened Options

  /** Everything `str.isspace` accepts, which is what `split` and `strip` cut on. */
  const SPACE_RANGES: seq<(int, int)> := [
    (0x20, 0x20), (0x09, 0x0D), (0x1C, 0x1F), (0x85, 0x85), (0xA0, 0xA0), (0x1680, 0x1680),
    (0x2000, 0x200A), (0x2028, 0x2029), (0x202F, 0x202F), (0x205F, 0x205F), (0x3000, 0x3000)]

  predicate InRanges(n: int, ranges: seq<(int, int)>) {
    ranges != [] && (ranges[0].0 <= n <= ranges[0].1 || InRanges(n, ranges[1..]))
  }

  predicate IsSpace(c: char) {
    InRanges(c as int, SPACE_RANGES)
  }

  lemma {:induction false} InRangesExactly(n: int, ranges: seq<(int, int)>)
    ensures InRanges(n, ranges) <==> exists i :: 0 <= i < |ranges| && ranges[i].0 <= n <= ranges[i].1
  {
    if ranges != [] {
      InRangesExactly(n, ranges[1..]);
      assert forall i :: 0 < i < |ranges| ==> ranges[i] == ranges[1..][i - 1];
    }
  }

  lemma Spaces()
    ensures IsSpace(' ') && IsSpace('\n')
  {
    InRangesExactly(0x20, SPACE_RANGES);
    InRangesExactly(0x0A, SPACE_RANGES);
    assert SPACE_RANGES[0] == (0x20, 0x20) && SPACE_RANGES[1] == (0x09, 0x0D);
  }

  /** Visible ASCII. */
  predicate Visible(c: char) {
    '!' <= c <= '~'
  }

  lemma VisibleIsNoSpace(c: char)
    requires Visible(c)
    ensures !IsSpace(c)
  {
    InRangesExactly(c as int, SPACE_RANGES);
  }

  lemma VisibleWord(s: string)
    requires s != "" && forall i :: 0 <= i < |s| ==> Visible(s[i])
    ensures IsWord(s)
  {
    forall i | 0 <= i < |s| ensures !IsSpace(s[i]) {
      VisibleIsNoSpace(s[i]);
    }
  }

  predicate NoSpace(s: string) {
    forall i :: 0 <= i < |s| ==> !IsSpace(s[i])
  }

  /** A string that survives `split()` as exactly one token. */
  predicate IsWord(s: string) {
    s != "" && NoSpace(s)
  }

  function LowerChar(c: char): char {
    if 'A' <= c <= 'Z' then (c as int + 32) as char else c
  }

  /** ASCII lower-casing; the source only compares the result with ASCII words. */
  function Lower(s: string): string {
    seq(|s|, i requires 0 <= i < |s| => LowerChar(s[i]))
  }

  // ---------------- strip ----------------

  function StripLeft(s: string): string {
    if s != "" && IsSpace(s[0]) then StripLeft(s[1..]) else s
  }

  function StripRight(s: string): string {
    if s != "" && IsSpace(s[|s| - 1]) then StripRight(s[..|s| - 1]) else s
  }

  function Strip(s: string): string {
    StripRight(StripLeft(s))
  }

  /** Stripping leaves a word alone, with or without one newline after it. */
  lemma StripWord(s: string)
    requires IsWord(s)
    ensures Strip(s) == s
    ensures Strip(s + "\n") == s
  {
    Spaces();
    assert (s + "\n")[..|s|] == s;
  }

  // ---------------- split on whitespace ----------------

  function WordLen(s: string): (n: nat)
    ensures n <= |s|
  {
    if s == "" || IsSpace(s[0]) then 0 else 1 + WordLen(s[1..])
  }

  /** `s.split()`: the maximal runs of non-space characters. */
  function Words(s: string): seq<string>
    decreases |s|
  {
    if s == "" then []
    else if IsSpace(s[0]) then Words(s[1..])
    else
      var n := WordLen(s);
      [s[..n]] + Words(s[n..])
  }

  lemma {:induction false} WordLenStops(s: string)
    ensures NoSpace(s[..WordLen(s)])
    ensures WordLen(s) < |s| ==> IsSpace(s[WordLen(s)])
  {
    if s != "" && !IsSpace(s[0]) {
      WordLenStops(s[1..]);
      var n := WordLen(s);
      assert forall i :: 0 < i < n ==> s[..n][i] == s[1..][..n - 1][i - 1];
    }
  }

  /** Splitting yields words only. */
  lemma {:induction false} WordsAreWords(s: string)
    ensures forall w :: w in Words(s) ==> IsWord(w)
    decreases |s|
  {
    if s != "" {
      if IsSpace(s[0]) {
        WordsAreWords(s[1..]);
      } else {
        WordLenStops(s);
        WordsAreWords(s[WordLen(s)..]);
      }
    }
  }

  lemma WordLenOfPrefix(a: string, b: string)
    requires b == "" || IsSpace(b[0])
    ensures WordLen(a + b) == WordLen(a)
  {
    if a != "" && !IsSpace(a[0]) {
      assert (a + b)[1..] == a[1..] + b;
      WordLenOfPrefix(a[1..], b);
    }
  }

  /** A space separates: splitting distributes over it. */
  lemma {:induction false} WordsConcat(a: string, b: string)
    ensures Words(a + " " + b) == Words(a) + Words(b)
    decreases |a|
  {
    var t := a + " " + b;
    Spaces();
    if a == "" {
      assert t[1..] == b;
    } else if IsSpace(a[0]) {
      assert t[1..] == a[1..] + " " + b;
      WordsConcat(a[1..], b);
    } else {
      var n := WordLen(a);
      assert t == a + (" " + b);
      WordLenOfPrefix(a, " " + b);
      assert t[..n] == a[..n] && t[n..] == a[n..] + " " + b;
      WordsConcat(a[n..], b);
    }
  }

  lemma {:induction false} WordsOfWord(s: string)
    requires IsWord(s)
    ensures Words(s) == [s]
    ensures Words(s + "\n") == [s]
  {
    var t := s + "\n";
    Spaces();
    assert s[0] == t[0];
    WordLenStops(s);
    assert WordLen(s) == |s|;
    WordLenOfPrefix(s, "\n");
    assert s[|s|..] == "" && s[..|s|] == s;
    assert t[..|s|] == s && t[|s|..] == "\n";
    assert Words("\n") == [] by { assert "\n"[1..] == ""; }
  }

  // ---------------- join ----------------

  /** `" ".join(parts)` */
  function Join(parts: seq<string>): string {
    if |parts| == 0 then ""
    else if |parts| == 1 then parts[0]
    else parts[0] + " " + Join(parts[1..])
  }

  /** The tokens of every part, one after the other. */
  function WordsOfAll(parts: seq<string>): seq<string> {
    if parts == [] then [] else Words(parts[0]) + WordsOfAll(parts[1..])
  }

  /** Joining with spaces and splitting again tokenises each part on its own. */
  lemma {:induction false} WordsOfJoin(parts: seq<string>)
    ensures Words(Join(parts)) == WordsOfAll(parts)
  {
    if |parts| == 1 {
      assert WordsOfAll(parts[1..]) == [];
    } else if |parts| > 1 {
      WordsConcat(parts[0], Join(parts[1..]));
      WordsOfJoin(parts[1..]);
    }
  }

  lemma {:induction false} WordsOfAllConcat(a: seq<string>, b: seq<string>)
    ensures WordsOfAll(a + b) == WordsOfAll(a) + WordsOfAll(b)
  {
    if a == [] {
      assert a + b == b;
    } else {
      assert (a + b)[1..] == a[1..] + b;
      WordsOfAllConcat(a[1..], b);
    }
  }

  lemma {:induction false} WordsOfAllAreWords(parts: seq<string>)
    ensures forall w :: w in WordsOfAll(parts) ==> IsWord(w)
  {
    if parts != [] {
      WordsAreWords(parts[0]);
      WordsOfAllAreWords(parts[1..]);
    }
  }

  lemma {:induction false} WordsOfWords(ws: seq<string>)
    requires forall i :: 0 <= i < |ws| ==> IsWord(ws[i])
    ensures WordsOfAll(ws) == ws
  {
    if ws != [] {
      WordsOfWord(ws[0]);
      WordsOfWords(ws[1..]);
    }
  }

  // ---------------- split on a character ----------------

  function IndexOf(s: string, c: char): (k: nat)
    ensures k <= |s|
    ensures forall i :: 0 <= i < k ==> s[i] != c
    ensures k < |s| ==> s[k] == c
    ensures k < |s| <==> c in s
  {
    if s == "" || s[0] == c then 0 else 1 + IndexOf(s[1..], c)
  }

  /** `s.split(c)` for a one-character separator. */
  function SplitOn(s: string, c: char): (parts: seq<string>)
    ensures |parts| >= 1
    decreases |s|
  {
    var k := IndexOf(s, c);
    if k == |s| then [s] else [s[..k]] + SplitOn(s[k + 1..], c)
  }

  /** The first separator is where the left part ends, if that part has none. */
  lemma IndexOfSeparator(a: string, c: char, b: string)
    requires c !in a
    ensures var t := a + [c] + b;
            && IndexOf(t, c) == |a| && c in t
            && t[..|a|] == a && t[|a| + 1..] == b
  {
    var t := a + [c] + b;
    assert t[|a|] == c;
    assert forall i :: 0 <= i < |a| ==> t[i] == a[i];
  }

  /** What a pattern ending in `$` leaves unread: one final newline. */
  function Chomp(s: string): string {
    if s != "" && s[|s| - 1] == '\n' then s[..|s| - 1] else s
  }

  lemma WordsOfChomped(s: string)
    requires IsWord(Chomp(s))
    ensures Words(s) == [Chomp(s)]
  {
    WordsOfWord(Chomp(s));
    assert s == Chomp(s) || s == Chomp(s) + "\n";
  }

  // ---------------- digits and int() ----------------

  predicate IsDigit(c: char) {
    '0' <= c <= '9'
  }

  /** `s.isdigit()` over ASCII. */
  predicate AllDigits(s: string) {
    s != "" && forall i :: 0 <= i < |s| ==> IsDigit(s[i])
  }

  /** The number a run of digits names; underscores, which `int` allows
      between digits, add nothing. */
  function Number(s: string): nat {
    if s == "" then 0
    else if IsDigit(s[|s| - 1]) then
      Number(s[..|s| - 1]) * 10 + (s[|s| - 1] as int - '0' as int)
    else Number(s[..|s| - 1])
  }

  predicate IntBody(s: string) {
    && s != "" && IsDigit(s[0]) && IsDigit(s[|s| - 1])
    && forall i :: 0 <= i < |s| ==> IsDigit(s[i]) || (s[i] == '_' && 0 < i && IsDigit(s[i - 1]))
  }

  /** `int(s)`, with None for the ValueError. */
  function ParseInt(s: string): Option<int> {
    var t := Strip(s);
    var signed := t != "" && t[0] in "+-";
    var body := if signed then t[1..] else t;
    var n: int := Number(body);
    if !IntBody(body) then None else Some(if signed && t[0] == '-' then -n else n)
  }

  lemma DigitsAreWords(s: string)
    requires AllDigits(s)
    ensures IsWord(s)
    ensures ParseInt(s) == Some(Number(s))
    ensures ':' !in s && ',' !in s && '/' !in s
  {
    assert forall i :: 0 <= i < |s| ==> Visible(s[i]);
    VisibleWord(s);
    StripWord(s);
  }
}
