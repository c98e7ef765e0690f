// Expansion of $username$ in attribute values (dscmd/dsutil.cpp, ExpandUsername).

module ExpandUsername {
  import opened Wrappers
  import opened Characters

  const USER_TOKEN := "$username$"
  const TOKEN_LENGTH := 10

  /** s begins with the token, letter case aside. */
  predicate StartsWithToken(s: string) {
    && TOKEN_LENGTH <= |s|
    && forall k :: 0 <= k < TOKEN_LENGTH ==> LowerChar(s[k]) == LowerChar(USER_TOKEN[k])
  }

  /** Position of the first '$', or |s| when there is none. */
  function FirstDollar(s: string): (n: nat)
    ensures n <= |s| && '$' !in s[..n] && (n < |s| ==> s[n] == '$')
  {
    if s == "" || s[0] == '$' then 0 else 1 + FirstDollar(s[1..])
  }

  /** The value's first '$' starts a token, so that there is something to expand. */
  predicate NeedsExpansion(value: string) {
    FirstDollar(value) < |value| && StartsWithToken(value[FirstDollar(value)..])
  }

  /** One pass from left to right: tokens become the name, up to the first '$' that does not start a token. */
  function Expanded(value: string, samName: string): string {
    if value == "" then ""
    else if value[0] != '$' then [value[0]] + Expanded(value[1..], samName)
    else if StartsWithToken(value) then samName + Expanded(value[TOKEN_LENGTH..], samName)
    else value
  }

  /** Replaces the token at the first '$'. */
  function ReplaceFirst(value: string, samName: string): string
    requires NeedsExpansion(value)
  {
    value[..FirstDollar(value)] + samName + value[FirstDollar(value) + TOKEN_LENGTH..]
  }

  lemma {:induction false} FirstDollarBehind(prefix: string, rest: string)
    requires '$' !in prefix
    ensures FirstDollar(prefix + rest) == |prefix| + FirstDollar(rest)
  {
    if prefix == "" {
      assert prefix + rest == rest;
    } else {
      assert (prefix + rest)[1..] == prefix[1..] + rest;
      FirstDollarBehind(prefix[1..], rest);
    }
  }

  lemma {:induction false} ExpandedPlainPrefix(prefix: string, rest: string, samName: string)
    requires '$' !in prefix
    ensures Expanded(prefix + rest, samName) == prefix + Expanded(rest, samName)
  {
    if prefix == "" {
      assert prefix + rest == rest && prefix + Expanded(rest, samName) == Expanded(rest, samName);
    } else {
      assert prefix + rest == [prefix[0]] + (prefix[1..] + rest);
      ExpandedPlainPrefix(prefix[1..], rest, samName);
      assert [prefix[0]] + (prefix[1..] + Expanded(rest, samName)) == prefix + Expanded(rest, samName);
    }
  }

  lemma ExpandedToken(token: string, after: string, samName: string)
    requires |token| == TOKEN_LENGTH && token[0] == '$' && StartsWithToken(token + after)
    ensures Expanded(token + after, samName) == samName + Expanded(after, samName)
  {
    assert (token + after)[TOKEN_LENGTH..] == after;
  }

  lemma ExpandedAcrossToken(before: string, token: string, after: string, samName: string)
    requires '$' !in before && '$' !in samName
    requires |token| == TOKEN_LENGTH && token[0] == '$' && StartsWithToken(token + after)
    ensures Expanded((before + samName) + after, samName) == Expanded(before + (token + after), samName)
  {
    calc {
      Expanded(before + (token + after), samName);
      { ExpandedPlainPrefix(before, token + after, samName); }
      before + Expanded(token + after, samName);
      { ExpandedToken(token, after, samName); }
      before + (samName + Expanded(after, samName));
      { assert before + (samName + Expanded(after, samName)) == (before + samName) + Expanded(after, samName); }
      (before + samName) + Expanded(after, samName);
      { ExpandedPlainPrefix(before + samName, after, samName); }
      Expanded((before + samName) + after, samName);
    }
  }

  /** Replacing the first token and starting again from the front gives what the single pass gives. */
  lemma ReplaceFirstKeepsExpansion(value: string, samName: string)
    requires '$' !in samName && NeedsExpansion(value)
    ensures Expanded(ReplaceFirst(value, samName), samName) == Expanded(value, samName)
  {
    var n := FirstDollar(value);
    var before, token, after := value[..n], value[n..n + TOKEN_LENGTH], value[n + TOKEN_LENGTH..];
    assert value[n..] == token + after && value == before + (token + after);
    ExpandedAcrossToken(before, token, after, samName);
  }

  /** A token is the ten characters $username$ in any letter case. */
  lemma TokenExactly(s: string)
    ensures StartsWithToken(s) <==> 10 <= |s| && SameButCase(s[..10], "$username$")
  {
    if 10 <= |s| {
      assert forall k :: 0 <= k < 10 ==>
        (LowerChar(s[k]) == LowerChar(USER_TOKEN[k]) <==> SameLetter(s[k], USER_TOKEN[k]));
    }
  }

  /** Texts with the same separator between them. */
  function Woven(texts: seq<string>, separator: string): string
    requires texts != []
  {
    if |texts| == 1 then texts[0] else texts[0] + separator + Woven(texts[1..], separator)
  }

  /** Text without '$' stays, a token becomes the name, and the expansion goes on behind it. */
  lemma ExpandedBehindText(text: string, token: string, rest: string, name: string)
    requires '$' !in text && SameButCase(token, "$username$")
    ensures Expanded(text + token + rest, name) == text + name + Expanded(rest, name)
  {
    assert (token + rest)[..10] == token && SameLetter(token[0], '$');
    TokenExactly(token + rest);
    ExpandedToken(token, rest, name);
    ExpandedPlainPrefix(text, token + rest, name);
    assert text + token + rest == text + (token + rest);
    assert text + name + Expanded(rest, name) == text + (name + Expanded(rest, name));
  }

  /** Texts without '$' that have the token between them come out with the name in every place of it. */
  lemma {:induction false} ExpandedWoven(texts: seq<string>, token: string, name: string)
    requires texts != [] && forall t :: t in texts ==> '$' !in t
    requires SameButCase(token, "$username$")
    ensures Expanded(Woven(texts, token), name) == Woven(texts, name)
  {
    var t := texts[0];
    assert t in texts;
    if |texts| == 1 {
      ExpandedPlainPrefix(t, "", name);
      assert t + "" == t;
    } else {
      var rest := Woven(texts[1..], token);
      ExpandedWoven(texts[1..], token, name);
      ExpandedBehindText(t, token, rest, name);
    }
  }

  // ----- Which names the restarting loop ends for.

  /** The value after at most n replacements, each from the front. */
  ghost function Iterate(value: string, name: string, n: nat): string
    decreases n
  {
    if n == 0 || !NeedsExpansion(value) then value else Iterate(ReplaceFirst(value, name), name, n - 1)
  }

  ghost predicate LoopEnds(value: string, name: string) {
    exists n: nat :: !NeedsExpansion(Iterate(value, name, n))
  }

  /** What is left from the first '$' on. */
  function Remainder(value: string): nat {
    |value| - FirstDollar(value)
  }

  lemma FirstDollarAtTail(before: string, head: string, tail: string, after: string)
    requires '$' !in before && '$' !in head && tail != "" && tail[0] == '$'
    ensures FirstDollar(before + (head + tail) + after) == |before| + |head|
    ensures (before + (head + tail) + after)[|before| + |head|..] == tail + after
  {
    FirstDollarBehind(before + head, tail + after);
    assert before + (head + tail) + after == (before + head) + (tail + after);
  }

  lemma FirstDollarInName(before: string, name: string, after: string)
    requires '$' !in before && FirstDollar(name) < |name|
    ensures FirstDollar(before + name + after) == |before| + FirstDollar(name)
    ensures (before + name + after)[|before| + FirstDollar(name)..] == name[FirstDollar(name)..] + after
  {
    var n := FirstDollar(name);
    FirstDollarAtTail(before, name[..n], name[n..], after);
    assert name[..n] + name[n..] == name;
  }

  lemma FirstDollarBehindName(before: string, name: string, after: string)
    requires '$' !in before && FirstDollar(name) == |name|
    ensures FirstDollar(before + name + after) == |before + name| + FirstDollar(after)
  {
    assert name[..|name|] == name;
    FirstDollarBehind(before + name, after);
  }

  /** A name that itself needs expansion leaves a value that needs it too. */
  lemma NeedyNameStays(value: string, name: string)
    requires NeedsExpansion(value) && NeedsExpansion(name)
    ensures NeedsExpansion(ReplaceFirst(value, name))
  {
    var n := FirstDollar(value);
    var before, after := value[..n], value[n + TOKEN_LENGTH..];
    FirstDollarInName(before, name, after);
  }

  /** With any other name there is less left, and never further to the front, whenever another token shows up. */
  lemma RemainderFalls(value: string, name: string)
    requires NeedsExpansion(value) && !NeedsExpansion(name)
    ensures FirstDollar(value) <= FirstDollar(ReplaceFirst(value, name))
    ensures NeedsExpansion(ReplaceFirst(value, name)) ==> Remainder(ReplaceFirst(value, name)) < Remainder(value)
  {
    var n, k := FirstDollar(value), FirstDollar(name);
    var before, after := value[..n], value[n + TOKEN_LENGTH..];
    if k == |name| {
      FirstDollarBehindName(before, name, after);
    } else {
      FirstDollarInName(before, name, after);
      if TOKEN_LENGTH <= |name[k..]| {
        TokenWithin(name[k..], after);
      }
    }
  }

  lemma TokenWithin(s: string, more: string)
    requires TOKEN_LENGTH <= |s|
    ensures StartsWithToken(s + more) == StartsWithToken(s)
  {
    assert forall k :: 0 <= k < TOKEN_LENGTH ==> (s + more)[k] == s[k];
  }

  lemma {:induction false} NeedyNameNeverEnds(value: string, name: string, n: nat)
    requires NeedsExpansion(value) && NeedsExpansion(name)
    ensures NeedsExpansion(Iterate(value, name, n))
    decreases n
  {
    if n != 0 {
      NeedyNameStays(value, name);
      NeedyNameNeverEnds(ReplaceFirst(value, name), name, n - 1);
    }
  }

  /** What the loop leaves: the first iterate without a token at its first '$'. */
  ghost function Settled(value: string, name: string): string
    requires !NeedsExpansion(name)
    decreases Remainder(value)
  {
    if !NeedsExpansion(value) then value
    else
      var next := ReplaceFirst(value, name);
      RemainderFalls(value, name);
      if NeedsExpansion(next) then Settled(next, name) else next
  }

  lemma SettledStep(value: string, name: string)
    requires NeedsExpansion(value) && !NeedsExpansion(name)
    ensures Settled(ReplaceFirst(value, name), name) == Settled(value, name)
  {
  }

  lemma {:induction false} SettledIsAnIterate(value: string, name: string) returns (n: nat)
    requires !NeedsExpansion(name)
    ensures Iterate(value, name, n) == Settled(value, name) && !NeedsExpansion(Settled(value, name))
    decreases Remainder(value)
  {
    if !NeedsExpansion(value) {
      n := 0;
    } else {
      var next := ReplaceFirst(value, name);
      RemainderFalls(value, name);
      if NeedsExpansion(next) {
        n := SettledIsAnIterate(next, name);
        n := n + 1;
      } else {
        n := 1;
        assert Iterate(next, name, 0) == next;
      }
    }
  }

  /** The loop ends exactly when there is nothing to expand, or the name does not need expansion itself. */
  lemma LoopEndsExactly(value: string, name: string)
    ensures LoopEnds(value, name) <==> !NeedsExpansion(value) || !NeedsExpansion(name)
  {
    if !NeedsExpansion(value) {
      assert !NeedsExpansion(Iterate(value, name, 0));
    } else if !NeedsExpansion(name) {
      var n := SettledIsAnIterate(value, name);
      assert !NeedsExpansion(Iterate(value, name, n));
    } else {
      forall n: nat
        ensures NeedsExpansion(Iterate(value, name, n))
      {
        NeedyNameNeverEnds(value, name, n);
      }
    }
  }

  /** For a name without '$' the loop leaves what the single pass gives. */
  lemma {:induction false} SettledIsExpanded(value: string, name: string)
    requires '$' !in name
    ensures !NeedsExpansion(name) && Settled(value, name) == Expanded(value, name)
    decreases Remainder(value)
  {
    if !NeedsExpansion(value) {
      ExpandedWithoutToken(value, name);
    } else {
      var next := ReplaceFirst(value, name);
      ReplaceFirstKeepsExpansion(value, name);
      RemainderFalls(value, name);
      if NeedsExpansion(next) {
        SettledIsExpanded(next, name);
      } else {
        ExpandedWithoutToken(next, name);
      }
    }
  }

  lemma ExpandedWithoutToken(value: string, samName: string)
    requires !NeedsExpansion(value)
    ensures Expanded(value, samName) == value
  {
    var n := FirstDollar(value);
    var before, rest := value[..n], value[n..];
    assert value == before + rest;
    ExpandedPlainPrefix(before, rest, samName);
    assert rest == "" || (rest[0] == '$' && !StartsWithToken(rest));
    assert Expanded(rest, samName) == rest;
  }

  /** Where the first '$' is, found by search. */
  method FindDollar(s: string) returns (n: nat)
    ensures n == FirstDollar(s)
  {
    n := 0;
    while n < |s| && s[n] != '$'
      invariant n <= |s| && FirstDollar(s) == n + FirstDollar(s[n..])
    {
      n := n + 1;
    }
  }

  /** Whether the first '$' starts a token, and where it is. */
  method FindToken(value: string) returns (start: nat, found: bool)
    ensures start == FirstDollar(value) && (found <==> NeedsExpansion(value))
  {
    start := FindDollar(value);
    found := start < |value| && |value[start..]| >= TOKEN_LENGTH && StartsWithToken(value[start..]);
  }

  /**
   * Expands the value, restarting from its front after every replacement.  Without a name the call only
   * tells whether there is something to expand; a name that needs expansion itself would never be used up.
   */
  method Expand(value: string, samName: Option<string>) returns (ok: bool, expanded: bool, result: string)
    requires samName.Some? && NeedsExpansion(value) ==> !NeedsExpansion(samName.value)
    ensures expanded <==> NeedsExpansion(value)
    ensures !expanded ==> ok && result == value
    ensures expanded && samName == None ==> !ok && result == value
    // An empty name fails just when nothing stands before the first token.
    ensures expanded && samName.Some? ==> (ok <==> samName.value != "" || value[0] != '$')
    ensures expanded && samName.Some? && ok ==> result == Settled(value, samName.value)
    ensures expanded && samName.Some? && ok && '$' !in samName.value ==> result == Expanded(value, samName.value)
  {
    var start, found := FindToken(value);
    expanded := found;
    if !found {
      return true, false, value;
    }
    if samName == None {
      return false, true, value;
    }
    ok, result := ExpandFrom(value, start, samName.value);
    if '$' !in samName.value {
      SettledIsExpanded(value, samName.value);
    }
  }

  /** The replacement loop: the token at `start` is the first '$' of the value. */
  method ExpandFrom(value: string, start: nat, name: string) returns (ok: bool, result: string)
    requires !NeedsExpansion(name) && start == FirstDollar(value) && NeedsExpansion(value)
    ensures ok <==> name != "" || start != 0
    ensures ok ==> result == Settled(value, name)
  {
    result := value;
    ok := false;
    var tokenStart := start;
    while true
      invariant start <= tokenStart == FirstDollar(result) && NeedsExpansion(result)
      invariant name == "" && start == 0 ==> tokenStart == 0
      invariant Settled(result, name) == Settled(value, name)
      decreases Remainder(result)
    {
      RemainderFalls(result, name);
      SettledStep(result, name);
      var text := result[..tokenStart];
      var afterToken := result[tokenStart + TOKEN_LENGTH..];
      text := text + name;
      if text == "" {
        ok := false;
        break;
      }
      text := text + afterToken;
      assert text == ReplaceFirst(result, name);
      result := text;
      var found;
      tokenStart, found := FindToken(result);
      if !found {
        ok := true;
        break;
      }
    }
  }

  /** After expansion the first '$' that is left, if any, does not start a token. */
  lemma {:induction false} ExpandedIsFinal(value: string, samName: string)
    requires '$' !in samName
    ensures !NeedsExpansion(Expanded(value, samName))
    decreases |value|
  {
    if value != "" && value[0] != '$' {
      ExpandedIsFinal(value[1..], samName);
      SamePlainPrefix([value[0]], Expanded(value[1..], samName));
    } else if value != "" && StartsWithToken(value) {
      ExpandedIsFinal(value[TOKEN_LENGTH..], samName);
      SamePlainPrefix(samName, Expanded(value[TOKEN_LENGTH..], samName));
    } else {
      assert value[0..] == value;
    }
  }

  lemma SamePlainPrefix(prefix: string, rest: string)
    requires '$' !in prefix
    ensures NeedsExpansion(prefix + rest) == NeedsExpansion(rest)
  {
    FirstDollarBehind(prefix, rest);
    assert (prefix + rest)[|prefix| + FirstDollar(rest)..] == rest[FirstDollar(rest)..];
  }
}
