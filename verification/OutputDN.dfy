// Escaping of distinguished names for output (dscmd/dsutil.cpp, GetOutputDN).

module OutputDN {
  import opened Wrappers
  import opened Characters

  predicate IsControl(c: char) {
    c < ' '
  }

  const HEX_DIGITS := "0123456789ABCDEF"

  /** How one character is written: a backslash and two hex digits, a backslash and the character, or itself. */
  function EscapeChar(c: char): string {
    if IsControl(c) then
      ['\\', if c as int >= 0x10 then '1' else '0', HEX_DIGITS[c as int % 0x10]]
    else if c == ',' || c == '\\' then ['\\', c]
    else [c]
  }

  function Escape(element: string): string {
    if element == "" then "" else Escape(element[..|element| - 1]) + EscapeChar(element[|element| - 1])
  }

  /** The escaped elements with commas between them. */
  function Join(elements: seq<string>): string {
    if elements == [] then ""
    else if |elements| == 1 then Escape(elements[0])
    else Escape(elements[0]) + ("," + Join(elements[1..]))
  }

  lemma Associative(a: string, b: string, c: string)
    ensures (a + b) + c == a + (b + c)
  {
  }

  /** An element as the path parser can deliver it: not empty, without a terminator inside. */
  predicate IsElement(element: string) {
    element != "" && NUL !in element
  }

  /**
   * Re-escapes one element into a zeroed buffer of three times its length plus terminator.
   * All writes stay inside, a terminator is left behind the text, and the text is the escaped element.
   */
  method EscapeElement(element: string) returns (buffer: array<char>, length: nat)
    ensures fresh(buffer) && buffer.Length == 3 * (|element| + 1)
    ensures length < buffer.Length && buffer[length] == NUL
    ensures buffer[..length] == Escape(element)
  {
    buffer := new char[3 * (|element| + 1)](_ => NUL);
    length := 0;
    for i := 0 to |element|
      invariant length <= 3 * i
      invariant buffer[..length] == Escape(element[..i])
      invariant forall k :: length <= k < buffer.Length ==> buffer[k] == NUL
    {
      length := WriteChar(buffer, length, element[i]);
      assert element[..i + 1][..i] == element[..i];
    }
    assert element[..|element|] == element;
  }

  /** Writes one escaped character behind the first `start` ones. */
  method WriteChar(buffer: array<char>, start: nat, c: char) returns (length: nat)
    requires start + 3 <= buffer.Length
    modifies buffer
    ensures start < length <= start + 3
    ensures buffer[..length] == old(buffer[..start]) + EscapeChar(c)
    ensures forall k :: length <= k < buffer.Length ==> buffer[k] == old(buffer[k])
  {
    length := start;
    if c < ' ' {
      buffer[length] := '\\';
      length := length + 1;
      buffer[length] := if c as int >= 0x10 then '1' else '0';
      length := length + 1;
      buffer[length] := HEX_DIGITS[c as int % 0x10];
      length := length + 1;
    } else {
      if c == ',' || c == '\\' {
        buffer[length] := '\\';
        length := length + 1;
      }
      buffer[length] := c;
      length := length + 1;
    }
    assert buffer[..start] == old(buffer[..start]);
    assert buffer[start..length] == EscapeChar(c);
    assert buffer[..length] == buffer[..start] + buffer[start..length];
  }

  /** Reads a zero-terminated buffer. */
  method TextOf(buffer: array<char>, ghost length: nat) returns (text: string)
    requires length < buffer.Length && buffer[length] == NUL && NUL !in buffer[..length]
    ensures text == buffer[..length]
  {
    var n := 0;
    while buffer[n] != NUL
      invariant n <= length
      decreases length - n
    {
      n := n + 1;
    }
    text := buffer[..n];
  }

  method GetOutputDN(elements: seq<string>) returns (out: string)
    requires forall e :: e in elements ==> IsElement(e)
    ensures out == Join(elements)
  {
    var built: Option<string> := None;
    for i := 0 to |elements|
      invariant i == 0 ==> built == None
      invariant 0 < i ==> built == Some(Join(elements[..i]))
    {
      assert elements[i] in elements;
      var buffer, length := EscapeElement(elements[i]);
      EscapeHasNoNul(elements[i]);
      var escaped := TextOf(buffer, length);
      JoinedSoFar(elements, i);
      if built.Some? {
        built := Some(built.value + ",");
      }
      built := Some(built.GetOr("") + escaped);
    }
    assert elements[..|elements|] == elements;
    out := built.GetOr("");
  }

  lemma JoinedSoFar(elements: seq<string>, i: nat)
    requires i < |elements|
    ensures Join(elements[..i + 1]) == (if i == 0 then "" else Join(elements[..i]) + ",") + Escape(elements[i])
  {
    assert elements[..i + 1] == elements[..i] + [elements[i]];
    if i != 0 {
      JoinConcat(elements[..i], [elements[i]]);
    }
  }

  lemma {:induction false} EscapeHasNoNul(element: string)
    ensures NUL !in Escape(element)
  {
    if element != "" {
      EscapeHasNoNul(element[..|element| - 1]);
      assert NUL !in HEX_DIGITS;
    }
  }

  // ----- What is written, character by character.

  lemma EscapeMore(text: string, front: string, last: char)
    requires text == front + [last]
    ensures Escape(text) == Escape(front) + EscapeChar(last)
  {
    assert text[..|text| - 1] == front;
  }

  /** Every character is written in its place, whatever stands around it. */
  lemma {:induction false} EscapeConcat(a: string, b: string)
    ensures Escape(a + b) == Escape(a) + Escape(b)
  {
    if b == "" {
      assert a + b == a;
    } else {
      var front, last := b[..|b| - 1], b[|b| - 1];
      assert b == front + [last];
      calc {
        Escape(a + b);
        { Associative(a, front, [last]); EscapeMore(a + b, a + front, last); }
        Escape(a + front) + EscapeChar(last);
        { EscapeConcat(a, front); }
        (Escape(a) + Escape(front)) + EscapeChar(last);
        { Associative(Escape(a), Escape(front), EscapeChar(last)); EscapeMore(b, front, last); }
        Escape(a) + Escape(b);
      }
    }
  }

  /** How each character is written. */
  lemma EscapedCharacter(c: char)
    ensures IsPlain(c) ==> Escape([c]) == [c]
    ensures c == ',' || c == '\\' ==> Escape([c]) == ['\\', c]
    ensures c < ' ' ==>
      Escape([c]) == ['\\', "0123456789ABCDEF"[c as int / 0x10], "0123456789ABCDEF"[c as int % 0x10]]
  {
    assert [c][..0] == "";
  }

  predicate IsPlain(c: char) {
    ' ' <= c && c != ',' && c != '\\'
  }

  predicate AllPlain(text: string) {
    forall i :: 0 <= i < |text| ==> IsPlain(text[i])
  }

  /** Text without control characters, commas and backslashes is written as it is. */
  lemma {:induction false} PlainStays(text: string)
    requires AllPlain(text)
    ensures Escape(text) == text
  {
    if text != "" {
      var n := |text| - 1;
      PlainStays(text[..n]);
      assert EscapeChar(text[n]) == [text[n]] && text == text[..n] + [text[n]];
    }
  }

  /** Each comma and backslash takes one character more, and each control character two. */
  function ExtraLength(element: string): nat {
    if element == "" then 0
    else (if element[0] < ' ' then 2 else if element[0] in {',', '\\'} then 1 else 0) + ExtraLength(element[1..])
  }

  lemma {:induction false} EscapedLength(element: string)
    ensures |Escape(element)| == |element| + ExtraLength(element)
  {
    if element != "" {
      EscapeConcat(element[..1], element[1..]);
      assert element == element[..1] + element[1..] && element[..1][..0] == "";
      EscapedLength(element[1..]);
    }
  }

  /** Names are joined by a comma alone. */
  lemma {:induction false} JoinConcat(a: seq<string>, b: seq<string>)
    requires a != [] && b != []
    ensures Join(a + b) == Join(a) + "," + Join(b)
  {
    assert a + b == [a[0]] + (a[1..] + b);
    if |a| == 1 {
      assert a + b == [a[0]] + b;
      Associative(Join(a), ",", Join(b));
    } else {
      JoinConcat(a[1..], b);
      Associative(",", Join(a[1..]), "," + Join(b));
      Associative(Escape(a[0]), "," + Join(a[1..]), "," + Join(b));
      Associative(Join(a[1..]), ",", Join(b));
      Associative(Join(a), ",", Join(b));
    }
  }

  /** A name whose elements are plain is written as it is: the elements with commas between them. */
  lemma {:induction false} PlainName(elements: seq<string>)
    requires elements != []
    requires forall e :: e in elements ==> AllPlain(e)
    ensures Join(elements) ==
            if |elements| == 1 then elements[0]
            else Join(elements[..|elements| - 1]) + "," + elements[|elements| - 1]
  {
    var n := |elements| - 1;
    assert elements[n] in elements;
    PlainStays(elements[n]);
    if 0 < n {
      assert elements == elements[..n] + [elements[n]];
      JoinConcat(elements[..n], [elements[n]]);
    }
  }

  // ----- Reading an escaped name back.

  function HexValue(c: char): Option<int> {
    if '0' <= c <= '9' then Some(c as int - '0' as int)
    else if 'A' <= c <= 'F' then Some(c as int - 'A' as int + 10)
    else None
  }

  /** The first character an escaped text stands for, and how much of the text it takes. */
  function ReadChar(s: string): Option<(char, nat)>
    requires s != ""
  {
    if s[0] != '\\' then Some((s[0], 1))
    else if |s| >= 2 && (s[1] == ',' || s[1] == '\\') then Some((s[1], 2))
    else if |s| >= 3 && HexValue(s[1]).Some? && HexValue(s[2]).Some? then
      Some(((HexValue(s[1]).value * 0x10 + HexValue(s[2]).value) as char, 3))
    else None
  }

  /** Splits at unescaped commas and undoes the escapes; `partial` is the element read so far. */
  function Parse(s: string, partial: string): (r: Option<seq<string>>)
    decreases |s|
  {
    if s == "" then Some([partial])
    else if s[0] == ',' then
      var rest := Parse(s[1..], "");
      if rest.None? then None else Some([partial] + rest.value)
    else
      var first := ReadChar(s);
      if first.None? || |s| < first.value.1 then None
      else Parse(s[first.value.1..], partial + [first.value.0])
  }

  function ParseDN(s: string): Option<seq<string>> {
    if s == "" then Some([]) else Parse(s, "")
  }

  lemma ParseEscapeChar(c: char, rest: string, partial: string)
    ensures Parse(EscapeChar(c) + rest, partial) == Parse(rest, partial + [c])
  {
  }

  lemma HexDigitValue(n: nat)
    requires n < 0x10
    ensures HexValue(HEX_DIGITS[n]) == Some(n)
  {
  }

  lemma {:induction false} ParseEscape(element: string, rest: string, partial: string)
    ensures Parse(Escape(element) + rest, partial) == Parse(rest, partial + element)
  {
    if element == "" {
      assert Escape(element) + rest == rest && partial + element == partial;
    } else {
      var front, c := element[..|element| - 1], element[|element| - 1];
      Associative(Escape(front), EscapeChar(c), rest);
      ParseEscape(front, EscapeChar(c) + rest, partial);
      ParseEscapeChar(c, rest, partial + front);
      assert partial + front + [c] == partial + element;
    }
  }

  /** Reading back recovers every list of elements from what was written for it. */
  lemma {:induction false} ParseJoin(elements: seq<string>)
    requires elements != []
    ensures Parse(Join(elements), "") == Some(elements)
  {
    var e := elements[0];
    if |elements| == 1 {
      ParseEscape(e, "", "");
      assert Escape(e) + "" == Join(elements) && "" + e == e && elements == [e];
    } else {
      var rest := "," + Join(elements[1..]);
      ParseEscape(e, rest, "");
      ParseJoin(elements[1..]);
      assert Escape(e) + rest == Join(elements) && "" + e == e && rest[1..] == Join(elements[1..]);
      assert [e] + elements[1..] == elements;
    }
  }

  lemma JoinEmpty(elements: seq<string>)
    requires forall e :: e in elements ==> IsElement(e)
    ensures Join(elements) == "" <==> elements == []
  {
    if elements != [] {
      assert elements[0] in elements;
      assert Escape(elements[0]) != "";
    }
  }

  /** The written name determines the elements: ParseDN is a left inverse of GetOutputDN. */
  lemma ParseDNInverts(elements: seq<string>)
    requires forall e :: e in elements ==> IsElement(e)
    ensures ParseDN(Join(elements)) == Some(elements)
  {
    JoinEmpty(elements);
    if elements != [] {
      ParseJoin(elements);
    }
  }

  /** No control character is left, and a comma of an element is behind a backslash: other commas separate. */
  lemma {:induction false} EscapedText(element: string, k: nat)
    requires k < |Escape(element)|
    ensures !IsControl(Escape(element)[k])
    ensures Escape(element)[k] == ',' ==> 0 < k && Escape(element)[k - 1] == '\\'
  {
    var front := element[..|element| - 1];
    if k < |Escape(front)| {
      EscapedText(front, k);
    } else {
      var c := element[|element| - 1];
      if IsControl(c) {
        HexDigitValue(c as int % 0x10);
      }
    }
  }
}
