// List splitting and password entry of the command-line parser (dscmd/parserutil.cpp).

module SeparatedList {

  /** A doubled separator at position k ends the list. */
  predicate IsDouble(s: string, c: char, k: int) {
    0 <= k < |s| - 1 && s[k] == c && s[k + 1] == c
  }

  /** The text has a doubled separator, as every list must. */
  ghost predicate Terminated(s: string, c: char) {
    exists k :: IsDouble(s, c, k)
  }

  /** Places after the single separators met from position t up to the doubled one. */
  function StartsFrom(s: string, c: char, t: nat): (r: seq<nat>)
    ensures forall i :: 0 <= i < |r| ==> r[i] <= |s|
    decreases |s| - t
  {
    if |s| <= t + 1 || IsDouble(s, c, t) then []
    else (if s[t] == c then [t + 1] else []) + StartsFrom(s, c, t + 1)
  }

  /** The first separator at or after position p, or the end of the text. */
  function NextSeparator(s: string, c: char, p: nat): (n: nat)
    requires p <= |s|
    ensures p <= n <= |s| && (forall k :: p <= k < n ==> s[k] != c) && (n < |s| ==> s[n] == c)
    decreases |s| - p
  {
    if p == |s| || s[p] == c then p else NextSeparator(s, c, p + 1)
  }

  /** The texts that start at the given positions, each up to the next separator. */
  function Texts(s: string, c: char, starts: seq<nat>): seq<string>
    requires forall i :: 0 <= i < |starts| ==> starts[i] <= |s|
  {
    if starts == [] then []
    else [s[starts[0]..NextSeparator(s, c, starts[0])]] + Texts(s, c, starts[1..])
  }

  /** Counts the strings of the list; the walk never passes the first doubled separator. */
  method CountStrings(s: string, c: char, ghost stop: nat) returns (count: nat)
    requires IsDouble(s, c, stop)
    ensures count == 1 + |StartsFrom(s, c, 0)|
  {
    count := 0;
    var t := 0;
    while true
      invariant t <= stop
      invariant count + |StartsFrom(s, c, t)| == |StartsFrom(s, c, 0)|
      decreases |s| - t
    {
      if s[t] == c && s[t + 1] == c {
        count := count + 1;
        break;
      } else if s[t] == c && s[t + 1] != c {
        count := count + 1;
        t := t + 1;
      } else {
        t := t + 1;
      }
    }
  }

  /** Counts the strings, allocates that many pointers, and fills them in a second walk over the text. */
  method ParseStringByChar(s: string, c: char, memory: bool) returns (starts: array?<nat>, count: nat)
    requires Terminated(s, c)
    ensures count == 1 + |StartsFrom(s, c, 0)|
    ensures !memory ==> starts == null
    ensures memory ==> starts != null && starts.Length == count && starts[..] == [0] + StartsFrom(s, c, 0)
  {
    ghost var stop: nat :| IsDouble(s, c, stop);
    count := CountStrings(s, c, stop);
    if !memory {
      return null, count;
    }
    starts := new nat[count];
    FillStarts(s, c, starts, stop);
  }

  /** The second walk: stores the places where the strings start. */
  method FillStarts(s: string, c: char, starts: array<nat>, ghost stop: nat)
    requires IsDouble(s, c, stop) && starts.Length == 1 + |StartsFrom(s, c, 0)|
    modifies starts
    ensures starts[..] == [0] + StartsFrom(s, c, 0)
  {
    var idx := 0;
    var t := 0;
    starts[idx] := t;
    idx := idx + 1;
    ghost var filled: seq<nat> := [0];
    while true
      invariant t <= stop && idx == |filled| && idx + |StartsFrom(s, c, t)| == starts.Length
      invariant starts[..idx] == filled
      invariant filled + StartsFrom(s, c, t) == [0] + StartsFrom(s, c, 0)
      decreases |s| - t
    {
      if s[t] == c && s[t + 1] == c {
        break;
      } else if s[t] == c && s[t + 1] != c {
        ghost var later := StartsFrom(s, c, t + 1);
        assert StartsFrom(s, c, t) == [t + 1] + later;
        assert filled + ([t + 1] + later) == (filled + [t + 1]) + later;
        starts[idx] := t + 1;
        idx := idx + 1;
        filled := filled + [t + 1];
        t := t + 1;
      } else {
        assert StartsFrom(s, c, t) == StartsFrom(s, c, t + 1);
        t := t + 1;
      }
    }
    assert starts[..] == starts[..idx];
  }

  // ----- What the pointers mean.

  /** The walk meets nothing to record inside a field. */
  lemma {:induction false} SkipField(s: string, c: char, p: nat, n: nat)
    requires p <= n < |s| && forall k :: p <= k < n ==> s[k] != c
    ensures StartsFrom(s, c, p) == StartsFrom(s, c, n)
    decreases n - p
  {
    if p < n {
      SkipField(s, c, p + 1, n);
    }
  }

  lemma TextsOfCons(s: string, c: char, p: nat, starts: seq<nat>)
    requires p <= |s| && forall i :: 0 <= i < |starts| ==> starts[i] <= |s|
    ensures Texts(s, c, [p] + starts) == [s[p..NextSeparator(s, c, p)]] + Texts(s, c, starts)
  {
    assert ([p] + starts)[1..] == starts;
  }

  /** Each string followed by the separator, and one separator more. */
  function Encoded(list: seq<string>, c: char): string {
    if list == [] then [c] else list[0] + [c] + Encoded(list[1..], c)
  }

  ghost predicate SeparatorFree(list: seq<string>, c: char) {
    forall i :: 0 <= i < |list| ==> c !in list[i]
  }

  /** How many strings come before the first empty one behind the head. */
  function BeforeEmpty(list: seq<string>): (n: nat)
    ensures n <= |list| && (list != [] ==> 1 <= n)
    ensures forall i :: 1 <= i < n ==> list[i] != ""
    ensures 1 <= n < |list| ==> list[n] == ""
  {
    if |list| <= 1 then |list|
    else if list[1] == "" then 1
    else 1 + BeforeEmpty(list[1..])
  }

  function UpToEmpty(list: seq<string>): seq<string>
    requires list != []
  {
    [list[0]] + if |list| > 1 && list[1] != "" then UpToEmpty(list[1..]) else []
  }

  lemma {:induction false} UpToEmptyIsPrefix(list: seq<string>)
    requires list != []
    ensures UpToEmpty(list) == list[..BeforeEmpty(list)]
  {
    if |list| > 1 && list[1] != "" {
      UpToEmptyIsPrefix(list[1..]);
    }
  }

  /** The text from position p on encodes the list. */
  ghost predicate EncodedAt(s: string, p: nat, list: seq<string>, c: char) {
    p <= |s| && s[p..] == Encoded(list, c)
  }

  /** An encoded list begins with its head and the separator; the next character tells whether a field follows. */
  lemma EncodedParts(s: string, p: nat, list: seq<string>, c: char)
    requires list != [] && SeparatorFree(list, c) && EncodedAt(s, p, list, c)
    ensures var n := p + |list[0]|;
      && n + 1 < |s| && s[p..n] == list[0] && s[n] == c && (forall k :: p <= k < n ==> s[k] != c)
      && EncodedAt(s, n + 1, list[1..], c)
      && (s[n + 1] == c <==> |list| == 1 || list[1] == "")
  {
  }

  lemma {:induction false} EncodedTerminated(s: string, p: nat, list: seq<string>, c: char)
    requires list != [] && SeparatorFree(list, c) && EncodedAt(s, p, list, c)
    ensures Terminated(s, c)
    decreases |list|
  {
    var n := p + |list[0]|;
    EncodedParts(s, p, list, c);
    if s[n + 1] == c {
      assert IsDouble(s, c, n);
    } else {
      EncodedTerminated(s, n + 1, list[1..], c);
    }
  }

  /** The strings that the walk from position p on finds. */
  function TextsFrom(s: string, c: char, p: nat): seq<string>
    requires p <= |s|
  {
    Texts(s, c, [p] + StartsFrom(s, c, p))
  }

  /** The field at p ends at n: its text comes first, then those of the fields behind it. */
  lemma TextsStep(s: string, c: char, p: nat, n: nat)
    requires p <= n < |s| - 1 && s[n] == c && forall k :: p <= k < n ==> s[k] != c
    ensures TextsFrom(s, c, p) == [s[p..n]] + if s[n + 1] == c then [] else TextsFrom(s, c, n + 1)
  {
    SkipField(s, c, p, n);
    TextsOfCons(s, c, p, StartsFrom(s, c, n));
    assert NextSeparator(s, c, p) == n;
  }

  lemma EncodedStep(s: string, p: nat, list: seq<string>, c: char)
    requires list != [] && SeparatorFree(list, c) && EncodedAt(s, p, list, c)
    ensures EncodedAt(s, p + |list[0]| + 1, list[1..], c)
    ensures TextsFrom(s, c, p) ==
            [list[0]] + if |list| > 1 && list[1] != "" then TextsFrom(s, c, p + |list[0]| + 1) else []
  {
    EncodedParts(s, p, list, c);
    TextsStep(s, c, p, p + |list[0]|);
  }

  /** Walking over an encoded list gives the strings up to the first empty one behind the head. */
  lemma {:induction false} TextsOfEncoded(s: string, p: nat, list: seq<string>, c: char)
    requires list != [] && SeparatorFree(list, c) && EncodedAt(s, p, list, c)
    ensures TextsFrom(s, c, p) == UpToEmpty(list)
    decreases |list|
  {
    EncodedStep(s, p, list, c);
    if |list| > 1 && list[1] != "" {
      TextsOfEncoded(s, p + |list[0]| + 1, list[1..], c);
    }
  }

  /** The list comes back complete exactly when no string after the first is empty. */
  lemma RoundTrip(list: seq<string>, c: char)
    requires list != [] && SeparatorFree(list, c)
    ensures Terminated(Encoded(list, c), c)
    ensures TextsFrom(Encoded(list, c), c, 0) == list[..BeforeEmpty(list)]
    ensures TextsFrom(Encoded(list, c), c, 0) == list <==> forall i :: 1 <= i < |list| ==> list[i] != ""
  {
    EncodedTerminated(Encoded(list, c), 0, list, c);
    TextsOfEncoded(Encoded(list, c), 0, list, c);
    UpToEmptyIsPrefix(list);
    var n := BeforeEmpty(list);
    if n < |list| {
      assert |list[..n]| < |list|;
    } else {
      assert list[..n] == list;
    }
  }
}

module PasswordLine {
  import opened Characters

  const CR: char := '\U{0D}'
  const BACKSPACE: char := '\U{08}'
  const READ_FAILED: char := '\U{FFFF}'

  datatype Result = Ok | InsufficientBuffer

  predicate Ends(ch: char) {
    ch == CR || ch == READ_FAILED
  }

  /** The keys typed before the line ends; a console that delivers nothing more ends it too. */
  function Line(keys: seq<char>): seq<char> {
    if keys == [] || Ends(keys[0]) then [] else [keys[0]] + Line(keys[1..])
  }

  /** The line as the user sees it: every backspace takes away the character before it. */
  function Edited(line: seq<char>): string {
    if line == [] then ""
    else
      var before, ch := Edited(line[..|line| - 1]), line[|line| - 1];
      if ch != BACKSPACE then before + [ch]
      else if before == "" then ""
      else before[..|before| - 1]
  }

  /** The user never holds more than `room` characters. */
  predicate AlwaysFits(line: seq<char>, room: nat) {
    forall n :: 0 <= n <= |line| ==> |Edited(line[..n])| <= room
  }

  /** The text in front of the buffer pointer, and the length that is counted beside it. */
  datatype Editor = Editor(text: string, len: int)

  function Type(e: Editor, ch: char, room: nat): Editor {
    if ch == BACKSPACE then
      if e.text == "" then e else Editor(e.text[..|e.text| - 1], e.len - 1)
    else
      Editor(if e.len < room then e.text + [ch] else e.text, e.len + 1)
  }

  function Typed(line: seq<char>, room: nat): (e: Editor)
    ensures |e.text| <= e.len && |e.text| <= room
  {
    if line == [] then Editor("", 0) else Type(Typed(line[..|line| - 1], room), line[|line| - 1], room)
  }

  /** Reads keys without echo until the line ends; every write stays inside the first buflen characters. */
  method GetPasswdStr(buf: array<char>, buflen: nat, keys: seq<char>) returns (r: Result, len: nat)
    requires 1 <= buflen <= buf.Length
    modifies buf
    ensures var e := Typed(Line(keys), buflen - 1);
      && len == e.len && |e.text| < buflen && buf[..|e.text|] == e.text && buf[|e.text|] == NUL
      && r == if e.len <= buflen - 1 then Ok else InsufficientBuffer
    ensures buf[buflen..] == old(buf[buflen..])
  {
    var room := buflen - 1;
    var ptr: nat := 0;
    len := 0;
    var next: nat := 0;
    ghost var line := [];
    while true
      invariant next <= |keys| && Line(keys) == line + Line(keys[next..])
      invariant ptr <= room && Typed(line, room) == Editor(buf[..ptr], len)
      invariant buf[buflen..] == old(buf[buflen..])
      decreases |keys| - next
    {
      var ch := if next < |keys| then keys[next] else READ_FAILED;
      if ch == CR || ch == READ_FAILED {
        break;
      }
      next := next + 1;
      ptr, len := EnterKey(buf, ptr, len, ch, room);
      ghost var longer := line + [ch];
      assert longer[..|longer| - 1] == line;
      line := longer;
    }
    assert line == Line(keys);
    ghost var text := buf[..ptr];
    buf[ptr] := NUL;
    assert buf[..ptr] == text;
    r := if len <= room then Ok else InsufficientBuffer;
  }

  /** Enters one key at the buffer pointer; a character always goes into the buffer, even one that is not kept. */
  method EnterKey(buf: array<char>, ptr: nat, len: nat, ch: char, room: nat) returns (newPtr: nat, newLen: nat)
    requires ptr <= len && ptr <= room < buf.Length
    modifies buf
    ensures newPtr <= room && Editor(buf[..newPtr], newLen) == Type(old(Editor(buf[..ptr], len)), ch, room)
    ensures buf[room + 1..] == old(buf[room + 1..])
  {
    newPtr, newLen := ptr, len;
    if ch == BACKSPACE {
      if ptr != 0 {
        newPtr := ptr - 1;
        newLen := len - 1;
      }
    } else {
      buf[ptr] := ch;
      if len < room {
        newPtr := ptr + 1;
      }
      newLen := len + 1;
    }
    assert buf[..ptr] == old(buf[..ptr]);
  }

  /** The text, its length and the result are the edited line exactly when it never outgrew the buffer. */
  lemma {:induction false} ExactWhenItAlwaysFits(line: seq<char>, room: nat)
    ensures AlwaysFits(line, room) <==> Typed(line, room) == Editor(Edited(line), |Edited(line)|)
    ensures !AlwaysFits(line, room) ==> |Typed(line, room).text| < Typed(line, room).len
  {
    if line == [] {
      assert line[..0] == line;
    } else {
      var before := line[..|line| - 1];
      ExactWhenItAlwaysFits(before, room);
      FitsOneMore(line, room);
    }
  }

  lemma FitsOneMore(line: seq<char>, room: nat)
    requires line != []
    ensures AlwaysFits(line, room) <==> AlwaysFits(line[..|line| - 1], room) && |Edited(line)| <= room
  {
    var before := line[..|line| - 1];
    assert line[..|line|] == line;
    assert forall n :: 0 <= n <= |before| ==> before[..n] == line[..n];
  }

  /** The characters that found the counted length at the end of the room, and so were never kept. */
  function Forgotten(line: seq<char>, room: nat): nat {
    if line == [] then 0
    else
      var before, ch := line[..|line| - 1], line[|line| - 1];
      Forgotten(before, room) + if ch != BACKSPACE && room <= Typed(before, room).len then 1 else 0
  }

  /** The length counts the text and every character that was never kept: no backspace takes one of those back. */
  lemma {:induction false} LengthCountsForgotten(line: seq<char>, room: nat)
    ensures Typed(line, room).len == |Typed(line, room).text| + Forgotten(line, room)
  {
    if line != [] {
      LengthCountsForgotten(line[..|line| - 1], room);
    }
  }

  /** Without backspaces the text is the line as far as there is room, and the length that of the line. */
  lemma {:induction false} PlainLine(line: seq<char>, room: nat)
    requires BACKSPACE !in line
    ensures Edited(line) == line
    ensures Typed(line, room) == Editor(if |line| <= room then line else line[..room], |line|)
  {
    if line != [] {
      var n := |line| - 1;
      PlainLine(line[..n], room);
      assert line == line[..n] + [line[n]];
    }
  }

  /** Every word is taken back by as many backspaces. */
  lemma {:induction false} TakenBack(line: seq<char>, word: string, backspaces: seq<char>)
    requires BACKSPACE !in word && |backspaces| == |word|
    requires forall i :: 0 <= i < |backspaces| ==> backspaces[i] == '\U{08}'
    ensures Edited(line + word + backspaces) == Edited(line)
    decreases |word|
  {
    if word == "" {
      assert line + word + backspaces == line;
    } else {
      var n := |word| - 1;
      var whole := line + word + backspaces;
      TakenBack(line + [word[0]], word[1..], backspaces[..n]);
      assert whole[..|whole| - 1] == line + [word[0]] + word[1..] + backspaces[..n];
      assert (line + [word[0]])[..|line|] == line;
    }
  }

  /** The line is what comes before the first carriage return, failed read, or end of the keys. */
  lemma {:induction false} LineExactly(keys: seq<char>, n: nat)
    requires n <= |keys| && (n < |keys| ==> keys[n] == '\U{0D}' || keys[n] == '\U{FFFF}')
    requires forall k :: 0 <= k < n ==> keys[k] != '\U{0D}' && keys[k] != '\U{FFFF}'
    ensures Line(keys) == keys[..n]
  {
    if 0 < n {
      LineExactly(keys[1..], n - 1);
    }
  }

  /** Typing one character too many and taking it back: success is reported with a length that is too large. */
  lemma ForgottenCharacter(a: char, b: char)
    requires a != BACKSPACE && b != BACKSPACE
    ensures var line := [a, b, BACKSPACE];
            Typed(line, 1) == Editor("", 1) && Edited(line) == [a]
  {
    var line := [a, b, BACKSPACE];
    assert line[..2] == [a, b] && line[..2][..1] == [a] && line[..2][..1][..0] == [];
    assert Typed([a], 1) == Editor([a], 1) && Typed([a, b], 1) == Editor([a], 2);
    assert Edited([a]) == [a] && Edited([a, b]) == [a, b];
  }
}
