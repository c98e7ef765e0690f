/** The usual optional value, and the result codes of the evaluators. */
module Wrappers {
  datatype Option<+T> = None | Some(value: T) {
    function GetOr(default: T): T {
      if Some? then value else default
    }
  }

  datatype Hresult = Ok | SFalse | InvalidArg | OutOfMemory | Failed
}

/** The terminator of strings, and letter case. */
module Characters {
  const NUL: char := '\0'

  function LowerChar(c: char): char {
    if 'A' <= c <= 'Z' then c - 'A' + 'a' else c
  }

  function UpperChar(c: char): char {
    if 'a' <= c <= 'z' then c - 'a' + 'A' else c
  }

  /** The same character, or the two cases of one letter. */
  predicate SameLetter(a: char, b: char) {
    || a == b
    || ('a' <= a <= 'z' && b as int == a as int - 0x20)
    || ('A' <= a <= 'Z' && b as int == a as int + 0x20)
  }

  predicate SameButCase(a: string, b: string) {
    |a| == |b| && forall i :: 0 <= i < |a| ==> SameLetter(a[i], b[i])
  }

  /** Folding either way identifies just the texts that are the same but for letter case. */
  lemma FoldingIsExact(a: string, b: string)
    ensures Lower(a) == Lower(b) <==> SameButCase(a, b)
    ensures Upper(a) == Upper(b) <==> SameButCase(a, b)
  {
    if SameButCase(a, b) {
      assert forall i :: 0 <= i < |a| ==> SameLetter(a[i], b[i]) ==> Lower(a)[i] == Lower(b)[i];
      assert forall i :: 0 <= i < |a| ==> SameLetter(a[i], b[i]) ==> Upper(a)[i] == Upper(b)[i];
    } else if |a| == |b| {
      var i :| 0 <= i < |a| && !SameLetter(a[i], b[i]);
      assert Lower(a)[i] != Lower(b)[i] && Upper(a)[i] != Upper(b)[i];
    } else {
      assert |Lower(a)| == |a| == |Upper(a)| && |Lower(b)| == |b| == |Upper(b)|;
    }
  }

  function Lower(s: string): string {
    seq(|s|, i requires 0 <= i < |s| => LowerChar(s[i]))
  }

  function Upper(s: string): string {
    seq(|s|, i requires 0 <= i < |s| => UpperChar(s[i]))
  }
}
