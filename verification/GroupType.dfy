// The groupType evaluators and the scope check of the parser (dscmd/dsutil.cpp, dscmd/parserutil.cpp).

module GroupType {
  import opened Wrappers
  import opened Characters
  import opened AttributeDescriptors

  const GROUP_TYPE_ACCOUNT_GROUP: Word := {1}      // 0x2
  const GROUP_TYPE_RESOURCE_GROUP: Word := {2}     // 0x4
  const GROUP_TYPE_UNIVERSAL_GROUP: Word := {3}    // 0x8
  const GROUP_TYPE_SECURITY_ENABLED: Word := {31}  // 0x80000000

  /** The scope bit a scope letter stands for. */
  function ScopeBit(scope: string): Option<Word> {
    var s := Lower(scope);
    if s == "l" then Some(GROUP_TYPE_RESOURCE_GROUP)
    else if s == "g" then Some(GROUP_TYPE_ACCOUNT_GROUP)
    else if s == "u" then Some(GROUP_TYPE_UNIVERSAL_GROUP)
    else None
  }

  /** Each scope letter, in either case, stands for its own bit, and nothing else stands for one. */
  lemma ScopeLetters(scope: string)
    ensures scope in {"g", "G"} <==> ScopeBit(scope) == Some({1})
    ensures scope in {"l", "L"} <==> ScopeBit(scope) == Some({2})
    ensures scope in {"u", "U"} <==> ScopeBit(scope) == Some({3})
    ensures ScopeBit(scope).Some? ==> scope in {"g", "G", "l", "L", "u", "U"}
  {
    LetterInEitherCase(scope, 'l', 'L');
    LetterInEitherCase(scope, 'g', 'G');
    LetterInEitherCase(scope, 'u', 'U');
    var one, two, three: Bit := 1, 2, 3;
    assert one in GROUP_TYPE_ACCOUNT_GROUP && two in GROUP_TYPE_RESOURCE_GROUP && three in GROUP_TYPE_UNIVERSAL_GROUP;
    assert one !in GROUP_TYPE_RESOURCE_GROUP && one !in GROUP_TYPE_UNIVERSAL_GROUP;
    assert two !in GROUP_TYPE_UNIVERSAL_GROUP;
  }

  lemma LetterInEitherCase(s: string, lower: char, upper: char)
    requires 'a' <= lower <= 'z' && upper as int == lower as int - 0x20
    ensures Lower(s) == [lower] <==> s == [lower] || s == [upper]
  {
    FoldingIsExact(s, [lower]);
    assert Lower([lower]) == [lower];
    if |s| == 1 {
      assert s == [s[0]];
    }
  }

  /** The parser accepts exactly the scopes that stand for a bit. */
  method ValidateGroupScope(scope: string) returns (valid: bool)
    ensures valid <==> ScopeBit(scope).Some?
    ensures valid <==> scope in {"l", "L", "g", "G", "u", "U"}
  {
    ScopeLetters(scope);
    var s := Lower(scope);
    valid := s == "l" || s == "g" || s == "u";
  }

  datatype Request = Scope(scope: string) | Security(on: bool) {
    predicate Accepted() {
      Scope? ==> ScopeBit(scope).Some?
    }
  }

  predicate IsSecurity(word: Word) {
    word * GROUP_TYPE_SECURITY_ENABLED != {}
  }

  function Updated(word: Word, r: Request): Word
    requires r.Accepted()
  {
    match r
    case Scope(scope) => ScopeBit(scope).value + if IsSecurity(word) then GROUP_TYPE_SECURITY_ENABLED else {}
    case Security(on) => Put(word, GROUP_TYPE_SECURITY_ENABLED, on)
  }

  function Folded(word: Word, requests: seq<Request>): Word
    requires forall r :: r in requests ==> r.Accepted()
  {
    if requests == [] then word
    else Updated(Folded(word, requests[..|requests| - 1]), requests[|requests| - 1])
  }

  function LastScope(requests: seq<Request>): Option<string> {
    if requests == [] then None
    else if requests[|requests| - 1].Scope? then Some(requests[|requests| - 1].scope)
    else LastScope(requests[..|requests| - 1])
  }

  function LastSecurity(requests: seq<Request>): Option<bool> {
    if requests == [] then None
    else if requests[|requests| - 1].Security? then Some(requests[|requests| - 1].on)
    else LastSecurity(requests[..|requests| - 1])
  }

  /**
   * Any interleaving of scope and security requests ends in just the last scope bit and the last security
   * setting, or the one read; without a scope request the other bits stay as read.
   */
  lemma {:induction false} LastScopeAndSecurityWin(word: Word, requests: seq<Request>)
    requires forall r :: r in requests ==> r.Accepted()
    ensures LastScope(requests).Some? ==> ScopeBit(LastScope(requests).value).Some?
    ensures Folded(word, requests) ==
            Put(if LastScope(requests).Some? then ScopeBit(LastScope(requests).value).value else word,
                GROUP_TYPE_SECURITY_ENABLED,
                LastSecurity(requests).GetOr(IsSecurity(word)))
  {
    if requests == [] {
      SecurityIsOneBit(word);
    } else {
      var n := |requests| - 1;
      assert requests[n] in requests;
      LastScopeAndSecurityWin(word, requests[..n]);
      SecurityIsOneBit(Folded(word, requests[..n]));
    }
  }

  lemma SecurityIsOneBit(word: Word)
    ensures IsSecurity(word) <==> GROUP_TYPE_SECURITY_ENABLED <= word
  {
    var bit: Bit := 31;
    assert bit in word <==> bit in word * GROUP_TYPE_SECURITY_ENABLED;
  }

  /** Reads the group type the first time; a failed read counts as a value without flags. */
  function LoadedFrom(answer: Option<Word>): Word {
    answer.GetOr({})
  }

  /** After a scope request there are its bit and the old security flag alone; one for the flag keeps the rest. */
  lemma UpdatedExactly(word: Word, r: Request, m: Bit)
    requires r.Accepted()
    ensures r.Scope? ==>
      (m in Updated(word, r) <==> if m == 31 then 31 in word else
         (m == 1 && r.scope in {"g", "G"}) || (m == 2 && r.scope in {"l", "L"}) || (m == 3 && r.scope in {"u", "U"}))
    ensures r.Security? ==> (m in Updated(word, r) <==> if m == 31 then r.on else m in word)
  {
    SecurityIsOneBit(word);
    if r.Scope? {
      ScopeLetters(r.scope);
    }
  }

  /** Sets the scope and keeps the security flag. */
  method SetGroupScope(desc: AttributeDescription, scope: string, answer: Option<Word>, memory: bool)
    returns (hr: Hresult, entry: AttributeDescription?)
    requires Read in desc.flags && Dirty in desc.flags ==> desc.values != null
    modifies desc, desc.values
    // A first call reads and allocates; afterwards the same value object is updated in place.
    ensures Read !in old(desc.flags) && memory ==>
      && desc.values != null && fresh(desc.values)
      && (if ScopeBit(scope).Some? then
            hr == Ok && entry == desc && desc.flags == old(desc.flags) + {Read} + {Dirty}
            && desc.values.integer == Updated(LoadedFrom(answer), Scope(scope))
          else
            hr == InvalidArg && entry == null && desc.flags == old(desc.flags) + {Read})
    ensures Read in old(desc.flags) && Dirty in old(desc.flags) ==>
      && desc.values == old(desc.values) && entry == null && desc.flags == old(desc.flags)
      && (if ScopeBit(scope).Some? then
            hr == Ok && desc.values.integer == Updated(old(desc.values.integer), Scope(scope))
          else
            hr == InvalidArg && desc.values.integer == old(desc.values.integer))
    // A value that was read but never set is thrown away for a new one.
    ensures Read in old(desc.flags) && Dirty !in old(desc.flags) && memory ==>
      && desc.values != null && fresh(desc.values) && entry == null
      && hr == (if ScopeBit(scope).Some? then Ok else InvalidArg)
      && desc.flags == (if ScopeBit(scope).Some? then old(desc.flags) + {Dirty} else old(desc.flags))
    ensures !memory && !(Read in old(desc.flags) && Dirty in old(desc.flags)) ==>
      hr == OutOfMemory && desc.values == null && desc.flags == old(desc.flags) + {Read}
  {
    hr, entry := Ok, desc;
    var useExisting := false;
    var groupType := {};
    if Read !in desc.flags {
      groupType := LoadedFrom(answer);
      desc.flags := desc.flags + {Read};
      if !memory {
        desc.values := null;
        return OutOfMemory, entry;
      }
      desc.values := new AdsValue();
    } else {
      if Dirty !in desc.flags {
        if !memory {
          desc.values := null;
          return OutOfMemory, entry;
        }
        desc.values := new AdsValue();
      }
      groupType := desc.values.integer;
      useExisting := true;
    }
    var isSecurityEnabled := IsSecurity(groupType);
    var input := Lower(scope);
    if input == "l" {
      groupType := GROUP_TYPE_RESOURCE_GROUP;
    } else if input == "g" {
      groupType := GROUP_TYPE_ACCOUNT_GROUP;
    } else if input == "u" {
      groupType := GROUP_TYPE_UNIVERSAL_GROUP;
    } else {
      return InvalidArg, null;
    }
    if isSecurityEnabled {
      groupType := groupType + GROUP_TYPE_SECURITY_ENABLED;
    }
    desc.values.integer := groupType;
    desc.flags := desc.flags + {Dirty};
    if useExisting {
      entry := null;
    }
  }

  /** Sets or clears the security flag and keeps the rest; a value that was read is always there to be updated. */
  method SetGroupSecurity(desc: AttributeDescription, on: bool, answer: Option<Word>, memory: bool)
    returns (hr: Hresult, entry: AttributeDescription?)
    requires Read in desc.flags ==> desc.values != null
    modifies desc, desc.values
    ensures Read !in old(desc.flags) && memory ==>
      && desc.values != null && fresh(desc.values)
      && hr == Ok && entry == desc && desc.flags == old(desc.flags) + {Read} + {Dirty}
      && desc.values.integer == Updated(LoadedFrom(answer), Security(on))
    ensures Read in old(desc.flags) ==>
      && desc.values == old(desc.values) && entry == null && hr == Ok && desc.flags == old(desc.flags) + {Dirty}
      && desc.values.integer == Updated(old(desc.values.integer), Security(on))
    ensures hr == Ok ==> desc.values != null && (31 in desc.values.integer <==> on)
    ensures !memory && Read !in old(desc.flags) ==>
      hr == OutOfMemory && desc.values == null && desc.flags == old(desc.flags) + {Read}
  {
    hr, entry := Ok, desc;
    var useExisting := false;
    var groupType := {};
    if Read !in desc.flags {
      groupType := LoadedFrom(answer);
      desc.flags := desc.flags + {Read};
      if !memory {
        desc.values := null;
        return OutOfMemory, entry;
      }
      desc.values := new AdsValue();
    } else {
      groupType := desc.values.integer;
      useExisting := true;
    }
    groupType := Put(groupType, GROUP_TYPE_SECURITY_ENABLED, on);
    desc.values.integer := groupType;
    desc.flags := desc.flags + {Dirty};
    if useExisting {
      entry := null;
    }
  }

  /**
   * Any interleaving of accepted requests on a fresh descriptor: read and set go together between calls, so that
   * no value is thrown away; one entry is handed back; and it holds the last scope and the last security setting.
   */
  method EvaluateAll(desc: AttributeDescription, requests: seq<Request>, answers: seq<Option<Word>>)
    returns (committed: seq<AdsValue>)
    requires Read !in desc.flags && Dirty !in desc.flags && |answers| == |requests|
    requires forall r :: r in requests ==> r.Accepted()
    modifies desc, desc.values
    ensures Read in desc.flags <==> Dirty in desc.flags
    ensures requests == [] ==> committed == []
    ensures LastScope(requests).Some? ==> ScopeBit(LastScope(requests).value).Some?
    ensures requests != [] ==>
      && |committed| == 1
      && committed[0].integer ==
         Put(if LastScope(requests).Some? then ScopeBit(LastScope(requests).value).value else LoadedFrom(answers[0]),
             GROUP_TYPE_SECURITY_ENABLED,
             LastSecurity(requests).GetOr(IsSecurity(LoadedFrom(answers[0]))))
  {
    committed := [];
    for i := 0 to |requests|
      invariant desc.values == old(desc.values) || fresh(desc.values)
      invariant i == 0 ==> committed == [] && Read !in desc.flags && Dirty !in desc.flags
      invariant 0 < i ==>
        && desc.values != null && committed == [desc.values]
        && Read in desc.flags && Dirty in desc.flags
        && desc.values.integer == Folded(LoadedFrom(answers[0]), requests[..i])
    {
      var hr, entry;
      assert requests[i] in requests;
      match requests[i] {
        case Scope(scope) => hr, entry := SetGroupScope(desc, scope, answers[i], true);
        case Security(on) => hr, entry := SetGroupSecurity(desc, on, answers[i], true);
      }
      assert requests[..i + 1][..i] == requests[..i];
      if entry != null {
        committed := committed + [entry.values];
      }
    }
    assert requests[..|requests|] == requests;
    LastScopeAndSecurityWin(if requests == [] then {} else LoadedFrom(answers[0]), requests);
  }
}
