// Down-level account names for computers (dscmd/dsutil.cpp).

module SamName {
  import opened Wrappers
  import opened Characters

  const REPLACEMENT: char := '_'
  const MAX_COMPUTERNAME_LENGTH := 15

  /** The zero-terminated text at the start of a buffer. */
  ghost predicate Holds(buffer: seq<char>, text: string) {
    |text| < |buffer| && buffer[..|text|] == text && NUL !in text && buffer[|text|] == NUL
  }

  /** The name with every forbidden character replaced. */
  function Cleaned(name: string, invalid: string): string {
    seq(|name|, i requires 0 <= i < |name| => if name[i] in invalid then REPLACEMENT else name[i])
  }

  ghost function Count(s: string, c: char): nat {
    multiset(s)[c]
  }

  /** The first place of c in the text, or its end. */
  method FindChar(buffer: array<char>, c: char, ghost text: string) returns (n: nat)
    requires Holds(buffer[..], text) && c != NUL
    ensures n <= |text| && c !in text[..n] && (n < |text| ==> text[n] == c)
  {
    n := 0;
    while buffer[n] != NUL && buffer[n] != c
      invariant n <= |text| && c !in text[..n]
      decreases |text| - n
    {
      assert buffer[n] == buffer[..|text|][n];
      n := n + 1;
    }
    assert n < |text| ==> buffer[n] == buffer[..|text|][n];
  }

  /** Replaces every occurrence of one character, searching from the front after every replacement. */
  method ReplaceAll(buffer: array<char>, c: char, ghost text: string) returns (replaced: bool)
    requires Holds(buffer[..], text) && c != NUL && c != REPLACEMENT
    modifies buffer
    ensures Holds(buffer[..], Cleaned(text, [c]))
    ensures buffer[|text|..] == old(buffer[|text|..])
    ensures replaced <==> c in text
  {
    replaced := false;
    ghost var current := text;
    while true
      invariant |current| == |text| && Holds(buffer[..], current)
      invariant buffer[|text|..] == old(buffer[|text|..])
      invariant forall i :: 0 <= i < |text| ==>
        current[i] == text[i] || (text[i] == c && current[i] == REPLACEMENT)
      invariant replaced <==> current != text
      decreases Count(current, c)
    {
      var n := FindChar(buffer, c, current);
      if buffer[n] == NUL {
        break;
      }
      assert n < |current|;
      CountAfterReplacing(current, c, n);
      buffer[n] := REPLACEMENT;
      current := current[n := REPLACEMENT];
      replaced := true;
      assert current[n] != text[n];
    }
    assert current == Cleaned(text, [c]);
  }

  lemma CountAfterReplacing(s: string, c: char, n: nat)
    requires n < |s| && s[n] == c && c != REPLACEMENT
    ensures Count(s[n := REPLACEMENT], c) < Count(s, c)
  {
  }

  /** Replaces every forbidden character in place; tells whether there was one. */
  method ValidateAndModifySAMName(buffer: array<char>, invalid: string, ghost name: string) returns (hr: Hresult)
    requires Holds(buffer[..], name)
    requires NUL !in invalid && REPLACEMENT !in invalid
    modifies buffer
    ensures Holds(buffer[..], Cleaned(name, invalid))
    ensures forall i :: 0 <= i < |name| ==> buffer[i] == if name[i] in invalid then '_' else name[i]
    ensures buffer[|name|..] == old(buffer[|name|..])
    ensures hr == if exists c :: c in name && c in invalid then SFalse else Ok
  {
    hr := Ok;
    assert Cleaned(name, invalid[..0]) == name;
    for idx := 0 to |invalid|
      invariant Holds(buffer[..], Cleaned(name, invalid[..idx]))
      invariant buffer[|name|..] == old(buffer[|name|..])
      invariant hr == if exists c :: c in name && c in invalid[..idx] then SFalse else Ok
    {
      ghost var before := Cleaned(name, invalid[..idx]);
      var c := invalid[idx];
      var replaced := ReplaceAll(buffer, c, before);
      if replaced {
        hr := SFalse;
      }
      CleanedOneMore(name, invalid[..idx], c);
      assert invalid[..idx + 1] == invalid[..idx] + [c];
    }
    assert invalid[..|invalid|] == invalid;
    assert forall i :: 0 <= i < |name| ==> buffer[i] == buffer[..|name|][i];
  }

  lemma CleanedOneMore(name: string, invalid: string, c: char)
    requires c != REPLACEMENT
    ensures Cleaned(Cleaned(name, invalid), [c]) == Cleaned(name, invalid + [c])
    ensures c in Cleaned(name, invalid) <==> c in name && c !in invalid
  {
    var cleaned := Cleaned(name, invalid);
    if c in name && c !in invalid {
      var i :| 0 <= i < |name| && name[i] == c;
      assert cleaned[i] == c;
    }
  }

  lemma CleanedIsClean(name: string, invalid: string)
    requires REPLACEMENT !in invalid
    ensures forall c :: c in Cleaned(name, invalid) ==> c !in invalid
  {
  }

  /** The account name made of a down-level name: its first fourteen clean characters and a '$'. */
  function ComputerAccountName(downLevel: string, invalid: string): string {
    var clean := Cleaned(downLevel, invalid);
    clean[..if |clean| < MAX_COMPUTERNAME_LENGTH then |clean| else MAX_COMPUTERNAME_LENGTH - 1] + "$"
  }

  /** Up to fourteen characters are kept, each in its place and the forbidden ones replaced; a '$' follows. */
  lemma AccountNameExactly(downLevel: string, invalid: string)
    ensures var samName := ComputerAccountName(downLevel, invalid);
      && |samName| == (if |downLevel| < 15 then |downLevel| + 1 else 15)
      && samName[|samName| - 1] == '$'
      && forall i :: 0 <= i < |samName| - 1 ==> samName[i] == if downLevel[i] in invalid then '_' else downLevel[i]
  {
  }

  /** Builds the account name in the sixteen-character buffer that holds the down-level name, if there is one. */
  method BuildComputerSAMName(downLevel: Option<string>, invalid: string) returns (hr: Hresult, samName: string)
    requires NUL !in invalid && REPLACEMENT !in invalid && '$' !in invalid
    requires downLevel.Some? ==> 1 <= |downLevel.value| <= MAX_COMPUTERNAME_LENGTH && NUL !in downLevel.value
    ensures downLevel == None ==> hr == Failed && samName == ""
    ensures downLevel.Some? ==> hr == Ok && samName == ComputerAccountName(downLevel.value, invalid)
    ensures downLevel.Some? ==>
      && 2 <= |samName| <= MAX_COMPUTERNAME_LENGTH && samName[|samName| - 1] == '$'
      && forall c :: c in samName ==> c !in invalid && c != NUL
  {
    if downLevel == None {
      return Failed, "";
    }
    var name := downLevel.value;
    var len := |name|;
    var buffer := new char[MAX_COMPUTERNAME_LENGTH + 1](_ => NUL);
    for i := 0 to len
      invariant buffer[..i] == name[..i]
      invariant forall k :: i <= k < buffer.Length ==> buffer[k] == NUL
    {
      buffer[i] := name[i];
    }
    assert buffer[..][..len] == name;
    var _ := ValidateAndModifySAMName(buffer, invalid, name);
    ghost var clean := Cleaned(name, invalid);
    assert buffer[..][..len] == clean;
    if len == MAX_COMPUTERNAME_LENGTH {
      buffer[len - 1] := '$';
    } else {
      buffer[len] := '$';
      buffer[len + 1] := NUL;
    }
    ghost var expected := ComputerAccountName(name, invalid);
    CleanedIsClean(name, invalid);
    assert buffer[..][..|expected|] == expected;
    var n := FindEnd(buffer, expected);
    samName := buffer[..n];
    hr := Ok;
  }

  method FindEnd(buffer: array<char>, ghost text: string) returns (n: nat)
    requires Holds(buffer[..], text)
    ensures n == |text|
  {
    n := 0;
    while buffer[n] != NUL
      invariant n <= |text|
      decreases |text| - n
    {
      n := n + 1;
    }
  }
}
