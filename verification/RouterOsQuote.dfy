/** Escaping a value for use inside a double-quoted RouterOS script string. */
module RouterOsQuote {
  import opened Options

  predicate IsControl(c: char) {
    c as int <= 0x1F || c as int == 0x7F
  }

  /** `s.replace(c, by)` for a one-character pattern. */
  function Replace(s: string, c: char, text: string): string {
    if s == "" then "" else (if s[0] == c then text else [s[0]]) + Replace(s[1..], c, text)
  }

  /** `_CONTROL_CHARS.sub("", s)` */
  function DropControls(s: string): string {
    if s == "" then "" else (if IsControl(s[0]) then "" else [s[0]]) + DropControls(s[1..])
  }

  /** The chain of replacements, in the order they are applied. */
  function Quote(value: string): string {
    var s1 := Replace(value, '\\', "\\\\");
    var s2 := Replace(s1, '"', "\\\"");
    var s3 := Replace(s2, '$', "\\$");
    DropControls(Replace(Replace(s3, '\r', ""), '\n', ""))
  }

  // ---------------- one pass ----------------

  predicate Meta(c: char) {
    c in "\\\"$"
  }

  function EscapeChar(c: char): string {
    if IsControl(c) then "" else if Meta(c) then ['\\', c] else [c]
  }

  function Escape(value: string): string {
    if value == "" then "" else EscapeChar(value[0]) + Escape(value[1..])
  }

  lemma {:induction false} ReplaceConcat(a: string, b: string, c: char, text: string)
    ensures Replace(a + b, c, text) == Replace(a, c, text) + Replace(b, c, text)
  {
    if a == "" {
      assert a + b == b;
    } else {
      assert (a + b)[1..] == a[1..] + b;
      ReplaceConcat(a[1..], b, c, text);
    }
  }

  lemma {:induction false} DropConcat(a: string, b: string)
    ensures DropControls(a + b) == DropControls(a) + DropControls(b)
  {
    if a == "" {
      assert a + b == b;
    } else {
      assert (a + b)[1..] == a[1..] + b;
      DropConcat(a[1..], b);
    }
  }

  lemma ReplaceOne(x: char, c: char, text: string)
    ensures Replace([x], c, text) == if x == c then text else [x]
  {
    assert [x][1..] == "";
  }

  /** A replacement of a two-character text that starts with a backslash. */
  lemma ReplacePair(x: char, c: char, text: string)
    requires c != '\\'
    ensures Replace(['\\', x], c, text) == ['\\'] + if x == c then text else [x]
  {
    assert ['\\', x] == ['\\'] + [x];
    ReplaceConcat(['\\'], [x], c, text);
    ReplaceOne('\\', c, text);
    ReplaceOne(x, c, text);
  }

  lemma DropOne(x: char)
    ensures DropControls([x]) == if IsControl(x) then "" else [x]
  {
    assert [x][1..] == "";
  }

  lemma DropPair(x: char)
    requires !IsControl(x)
    ensures DropControls(['\\', x]) == ['\\', x]
  {
    assert ['\\', x] == ['\\'] + [x];
    DropConcat(['\\'], [x]);
    DropOne('\\');
    DropOne(x);
  }

  lemma QuoteConcat(a: string, b: string)
    ensures Quote(a + b) == Quote(a) + Quote(b)
  {
    ReplaceConcat(a, b, '\\', "\\\\");
    var a1, b1 := Replace(a, '\\', "\\\\"), Replace(b, '\\', "\\\\");
    ReplaceConcat(a1, b1, '"', "\\\"");
    var a2, b2 := Replace(a1, '"', "\\\""), Replace(b1, '"', "\\\"");
    ReplaceConcat(a2, b2, '$', "\\$");
    var a3, b3 := Replace(a2, '$', "\\$"), Replace(b2, '$', "\\$");
    ReplaceConcat(a3, b3, '\r', "");
    var a4, b4 := Replace(a3, '\r', ""), Replace(b3, '\r', "");
    ReplaceConcat(a4, b4, '\n', "");
    DropConcat(Replace(a4, '\n', ""), Replace(b4, '\n', ""));
  }

  /** On one character the chain is the per-character escape: a later replacement
      never rewrites what an earlier one produced. */
  lemma QuoteOne(x: char)
    ensures Quote([x]) == EscapeChar(x)
  {
    ReplaceOne(x, '\\', "\\\\");
    if x == '\\' {
      ReplacePair('\\', '"', "\\\"");
      ReplacePair('\\', '$', "\\$");
    } else {
      ReplaceOne(x, '"', "\\\"");
      if x == '"' {
        ReplacePair('"', '$', "\\$");
      } else {
        ReplaceOne(x, '$', "\\$");
      }
    }
    if Meta(x) {
      ReplacePair(x, '\r', "");
      ReplacePair(x, '\n', "");
      DropPair(x);
    } else {
      ReplaceOne(x, '\r', "");
      if x != '\r' {
        ReplaceOne(x, '\n', "");
        DropOne(x);
      }
    }
  }

  /** The chained replacements equal a single pass over the characters. */
  lemma {:induction false} QuoteIsOnePass(value: string)
    ensures Quote(value) == Escape(value)
  {
    if value != "" {
      assert value == [value[0]] + value[1..];
      QuoteConcat([value[0]], value[1..]);
      QuoteOne(value[0]);
      QuoteIsOnePass(value[1..]);
    }
  }

  // ---------------- reading the string back ----------------

  /** How the interpreter reads the inside of a quoted string: a backslash takes
      the metacharacter after it. A quote would end the string, a dollar sign
      would expand a variable and a control character would end the statement;
      None says the text contains one of these unescaped. */
  function ReadQuoted(text: string): Option<string> {
    if text == "" then Some("")
    else if IsControl(text[0]) || text[0] in "\"$" then None
    else if text[0] == '\\' then
      if |text| == 1 || !Meta(text[1]) then None
      else
        var rest := ReadQuoted(text[2..]);
        if rest.None? then None else Some([text[1]] + rest.value)
    else
      var rest := ReadQuoted(text[1..]);
      if rest.None? then None else Some([text[0]] + rest.value)
  }

  lemma {:induction false} ReadEscaped(value: string)
    ensures ReadQuoted(Escape(value)) == Some(DropControls(value))
  {
    if value != "" {
      var c, rest := value[0], Escape(value[1..]);
      ReadEscaped(value[1..]);
      if IsControl(c) {
        assert Escape(value) == rest && DropControls(value) == DropControls(value[1..]);
      } else if Meta(c) {
        assert Escape(value) == ['\\', c] + rest;
        assert (['\\', c] + rest)[2..] == rest;
      } else {
        assert Escape(value) == [c] + rest;
        assert ([c] + rest)[1..] == rest;
      }
    }
  }

  /** For every value: the quoted text holds no unescaped quote, dollar sign or
      control character, and reads back as the value without its control
      characters. */
  lemma QuoteThenRead(value: string)
    ensures ReadQuoted(Quote(value)) == Some(DropControls(value))
  {
    QuoteIsOnePass(value);
    ReadEscaped(value);
  }

  /** Values that differ in more than control characters stay different. */
  lemma {:induction false} QuoteIsInjective(a: string, b: string)
    ensures Quote(a) == Quote(b) <==> DropControls(a) == DropControls(b)
  {
    QuoteThenRead(a);
    QuoteThenRead(b);
    if DropControls(a) == DropControls(b) {
      QuoteIgnoresControls(a);
      QuoteIgnoresControls(b);
    }
  }

  lemma QuoteIgnoresControls(value: string)
    ensures Quote(DropControls(value)) == Quote(value)
  {
    QuoteIsOnePass(value);
    QuoteIsOnePass(DropControls(value));
    EscapeIgnoresControls(value);
  }

  lemma {:induction false} EscapeIgnoresControls(value: string)
    ensures Escape(DropControls(value)) == Escape(value)
  {
    if value != "" {
      EscapeIgnoresControls(value[1..]);
      if IsControl(value[0]) {
        assert DropControls(value) == DropControls(value[1..]) && Escape(value) == Escape(value[1..]);
      } else {
        assert ([value[0]] + DropControls(value[1..]))[1..] == DropControls(value[1..]);
      }
    }
  }

  /** What is dropped: the characters below a space and the delete character. */
  lemma {:induction false} DroppedExactly(value: string, c: char)
    ensures c in DropControls(value) <==> c in value && c as int >= 32 && c as int != 127
    ensures (forall i :: 0 <= i < |value| ==> value[i] as int >= 32 && value[i] as int != 127) ==>
              DropControls(value) == value
  {
    if value != "" {
      DroppedExactly(value[1..], c);
      assert value == [value[0]] + value[1..];
    }
  }

  /** A value without such characters is read back as it is. */
  lemma PlainValueSurvives(value: string)
    requires forall i :: 0 <= i < |value| ==> value[i] as int >= 32 && value[i] as int != 127
    ensures ReadQuoted(Quote(value)) == Some(value)
  {
    QuoteThenRead(value);
    DroppedExactly(value, ' ');
  }
}
