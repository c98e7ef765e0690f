// Evaluators that share one attribute descriptor (dscmd/dsutil.cpp, dscmd/dsutil.h).

module AttributeDescriptors {
  import opened Wrappers

  /** The bits of a descriptor's dwFlags that the evaluators use. */
  datatype Flag = Dirty | Read

  /** A 32-bit word, as the set of its one bits: | is union, and & with a complement is difference. */
  newtype Bit = x: int | 0 <= x < 32
  type Word = set<Bit>

  function Put(word: Word, mask: Word, on: bool): Word {
    if on then word + mask else word - mask
  }

  /** A heap-allocated ADSVALUE; a new one holds anything. */
  class AdsValue {
    var integer: Word

    constructor () {
    }
  }

  /** What the descriptor shows: its flags and, once allocated, its value. */
  datatype Attribute = Attribute(flags: set<Flag>, value: Option<Word>)

  /** An attribute that several table entries share: it is read once and set once. */
  class AttributeDescription {
    var flags: set<Flag>
    var values: AdsValue?

    constructor ()
      ensures flags == {} && values == null
    {
      flags, values := {}, null;
    }

    function View(): Attribute
      reads this, values
    {
      Attribute(flags, if values == null then None else Some(values.integer))
    }
  }
}

module UserAccountControl {
  import opened Wrappers
  import opened AttributeDescriptors

  const UF_ACCOUNTDISABLE: Word := {1}                    // 0x2
  const UF_PASSWD_NOTREQD: Word := {5}                    // 0x20
  const UF_ENCRYPTED_TEXT_PASSWORD_ALLOWED: Word := {7}   // 0x80
  const UF_WORKSTATION_TRUST_ACCOUNT: Word := {12}        // 0x1000
  const UF_DONT_EXPIRE_PASSWD: Word := {16}               // 0x10000

  datatype Evaluator = PasswordNotRequired | DisableAccount | PwdNeverExpires | ReversiblePwd | SetComputerAccountType

  /** One evaluator call: the identifier of its table entry and its command-line argument. */
  datatype Request = Request(evaluator: Evaluator, attributeId: nat, defined: bool, value: bool) {
    /** The flags the call is about, and what it asks for them. */
    function Flags(): Word {
      match evaluator
      case PasswordNotRequired => UF_PASSWD_NOTREQD
      case DisableAccount => UF_ACCOUNTDISABLE
      case PwdNeverExpires => UF_DONT_EXPIRE_PASSWD
      case ReversiblePwd => UF_ENCRYPTED_TEXT_PASSWORD_ALLOWED
      case SetComputerAccountType => UF_WORKSTATION_TRUST_ACCOUNT + UF_ACCOUNTDISABLE + UF_PASSWD_NOTREQD
    }

    predicate Asks() {
      match evaluator
      case PasswordNotRequired => attributeId != 0 && defined && value
      case DisableAccount => attributeId != 0 && defined && value
      case PwdNeverExpires => value
      case ReversiblePwd => value
      case SetComputerAccountType => true
    }
  }

  function Updated(word: Word, r: Request): Word {
    match r.evaluator
    case PasswordNotRequired => Put(word, UF_PASSWD_NOTREQD, r.Asks())
    case DisableAccount => Put(word, UF_ACCOUNTDISABLE, r.Asks())
    case PwdNeverExpires => Put(word, UF_DONT_EXPIRE_PASSWD, r.Asks())
    case ReversiblePwd => Put(word, UF_ENCRYPTED_TEXT_PASSWORD_ALLOWED, r.Asks())
    case SetComputerAccountType => word + (UF_WORKSTATION_TRUST_ACCOUNT + UF_ACCOUNTDISABLE + UF_PASSWD_NOTREQD)
  }

  /** Each evaluator decides its own flags, by number, as its argument says, and leaves all others as they are. */
  lemma UpdatedExactly(word: Word, r: Request, m: Bit)
    ensures m in Updated(word, r) <==>
      match r.evaluator
      case PasswordNotRequired => if m == 5 then r.attributeId != 0 && r.defined && r.value else m in word
      case DisableAccount => if m == 1 then r.attributeId != 0 && r.defined && r.value else m in word
      case PwdNeverExpires => if m == 16 then r.value else m in word
      case ReversiblePwd => if m == 7 then r.value else m in word
      case SetComputerAccountType => m in {1, 5, 12} || m in word
  {
  }

  /** What the last request about flag m asked for. */
  function LastRequest(requests: seq<Request>, m: Bit): Option<bool> {
    if requests == [] then None
    else
      var last := requests[|requests| - 1];
      if m in last.Flags() then Some(last.Asks()) else LastRequest(requests[..|requests| - 1], m)
  }

  /** The value after a sequence of requests on one loaded value. */
  function Folded(word: Word, requests: seq<Request>): Word {
    if requests == [] then word
    else Updated(Folded(word, requests[..|requests| - 1]), requests[|requests| - 1])
  }

  /** Each flag ends as its last request asked, and every other flag as it was loaded, in any order of requests. */
  lemma {:induction false} LastRequestWins(word: Word, requests: seq<Request>, m: Bit)
    ensures m in Folded(word, requests) <==> LastRequest(requests, m).GetOr(m in word)
  {
    if requests != [] {
      var n := |requests| - 1;
      LastRequestWins(word, requests[..n], m);
    }
  }

  /** One evaluator call on a descriptor. */
  function Step(a: Attribute, r: Request, answer: Option<Word>, memory: bool): (Attribute, Hresult) {
    if Read in a.flags then
      if a.value.None? then (a, InvalidArg)
      else (Attribute(a.flags + {Dirty}, Some(Updated(a.value.value, r))), Ok)
    else if !r.evaluator.SetComputerAccountType? && answer.None? then (a, Failed)
    else if !memory then (Attribute(a.flags + {Read}, None), OutOfMemory)
    else
      var loaded := if r.evaluator.SetComputerAccountType? then {} else answer.value;
      (Attribute(a.flags + {Read} + {Dirty}, Some(Updated(loaded, r))), Ok)
  }

  /** The directory object; `readCount` counts how often it was asked for its userAccountControl. */
  class DirectoryObject {
    var readCount: nat

    constructor ()
      ensures readCount == 0
    {
      readCount := 0;
    }

    method ReadUserAccountControl(answer: Option<Word>) returns (hr: Hresult, bits: Word)
      modifies this
      ensures readCount == old(readCount) + 1
      ensures if answer.Some? then hr == Ok && bits == answer.value else hr == Failed && bits == {}
    {
      readCount := readCount + 1;
      if answer.None? {
        return Failed, {};
      }
      return Ok, answer.value;
    }
  }

  /** Loads the value, from the directory the first time; `entry` is what the caller must add to its array. */
  method Load(desc: AttributeDescription, directory: DirectoryObject?, answer: Option<Word>, memory: bool)
    returns (hr: Hresult, bits: Word, entry: AttributeDescription?)
    modifies desc, directory
    ensures directory != null ==>
      directory.readCount == old(directory.readCount) + if Read in old(desc.flags) then 0 else 1
    ensures Read in old(desc.flags) ==>
      && entry == null && desc.View() == old(desc.View()) && desc.values == old(desc.values)
      && (if desc.values == null then hr == InvalidArg else hr == Ok && bits == desc.values.integer)
    ensures Read !in old(desc.flags) && directory != null && answer.None? ==>
      hr == Failed && entry == null && desc.View() == old(desc.View()) && desc.values == old(desc.values)
    ensures Read !in old(desc.flags) && (directory == null || answer.Some?) ==>
      && entry == desc && desc.flags == old(desc.flags) + {Read}
      && bits == (if directory == null then {} else answer.value)
      && if memory then hr == Ok && desc.values != null && fresh(desc.values)
         else hr == OutOfMemory && desc.values == null
  {
    hr, bits, entry := Ok, {}, null;
    if Read !in desc.flags {
      if directory != null {
        hr, bits := directory.ReadUserAccountControl(answer);
        if hr != Ok {
          return;
        }
      }
      desc.flags := desc.flags + {Read};
      entry := desc;
      if !memory {
        desc.values := null;
        return OutOfMemory, bits, entry;
      }
      desc.values := new AdsValue();
    } else {
      if desc.values == null {
        return InvalidArg, bits, null;
      }
      bits := desc.values.integer;
    }
  }

  method Store(desc: AttributeDescription, bits: Word)
    requires desc.values != null
    modifies desc`flags, desc.values
    ensures desc.View() == Attribute(old(desc.flags) + {Dirty}, Some(bits)) && desc.values == old(desc.values)
  {
    desc.values.integer := bits;
    desc.flags := desc.flags + {Dirty};
  }

  /** What the evaluators share: the step, the entry handed back, the directory reads, the value object. */
  twostate predicate Evaluated(desc: AttributeDescription, r: Request, directory: DirectoryObject,
                               answer: Option<Word>, memory: bool, hr: Hresult, new entry: AttributeDescription?)
    reads desc, desc.values, directory
  {
    && (desc.View(), hr) == Step(old(desc.View()), r, answer, memory)
    && entry == (if Read in old(desc.flags) || hr == Failed then null else desc)
    && directory.readCount == old(directory.readCount)
       + (if Read in old(desc.flags) || r.evaluator.SetComputerAccountType? then 0 else 1)
    && (desc.values == old(desc.values) || desc.values == null || (fresh(desc.values) && Read !in old(desc.flags)))
  }

  method PasswordNotRequired(desc: AttributeDescription, r: Request, directory: DirectoryObject,
                             answer: Option<Word>, memory: bool)
    returns (hr: Hresult, entry: AttributeDescription?)
    requires r.evaluator.PasswordNotRequired?
    modifies desc, desc.values, directory
    ensures Evaluated(desc, r, directory, answer, memory, hr, entry)
    ensures hr == Ok ==> (5 in desc.values.integer <==> r.attributeId != 0 && r.defined && r.value)
  {
    var bits;
    hr, bits, entry := Load(desc, directory, answer, memory);
    if hr == Ok {
      Store(desc, Put(bits, UF_PASSWD_NOTREQD, r.attributeId != 0 && r.defined && r.value));
    }
  }

  method DisableAccount(desc: AttributeDescription, r: Request, directory: DirectoryObject,
                        answer: Option<Word>, memory: bool)
    returns (hr: Hresult, entry: AttributeDescription?)
    requires r.evaluator.DisableAccount?
    modifies desc, desc.values, directory
    ensures Evaluated(desc, r, directory, answer, memory, hr, entry)
    ensures hr == Ok ==> (1 in desc.values.integer <==> r.attributeId != 0 && r.defined && r.value)
  {
    var bits;
    hr, bits, entry := Load(desc, directory, answer, memory);
    if hr == Ok {
      Store(desc, Put(bits, UF_ACCOUNTDISABLE, r.attributeId != 0 && r.defined && r.value));
    }
  }

  method PwdNeverExpires(desc: AttributeDescription, r: Request, directory: DirectoryObject,
                         answer: Option<Word>, memory: bool)
    returns (hr: Hresult, entry: AttributeDescription?)
    requires r.evaluator.PwdNeverExpires?
    modifies desc, desc.values, directory
    ensures Evaluated(desc, r, directory, answer, memory, hr, entry)
    ensures hr == Ok ==> (16 in desc.values.integer <==> r.value)
  {
    var bits;
    hr, bits, entry := Load(desc, directory, answer, memory);
    if hr == Ok {
      Store(desc, Put(bits, UF_DONT_EXPIRE_PASSWD, r.value));
    }
  }

  method ReversiblePwd(desc: AttributeDescription, r: Request, directory: DirectoryObject,
                       answer: Option<Word>, memory: bool)
    returns (hr: Hresult, entry: AttributeDescription?)
    requires r.evaluator.ReversiblePwd?
    modifies desc, desc.values, directory
    ensures Evaluated(desc, r, directory, answer, memory, hr, entry)
    ensures hr == Ok ==> (7 in desc.values.integer <==> r.value)
  {
    var bits;
    hr, bits, entry := Load(desc, directory, answer, memory);
    if hr == Ok {
      Store(desc, Put(bits, UF_ENCRYPTED_TEXT_PASSWORD_ALLOWED, r.value));
    }
  }

  method SetComputerAccountType(desc: AttributeDescription, r: Request, directory: DirectoryObject,
                                answer: Option<Word>, memory: bool)
    returns (hr: Hresult, entry: AttributeDescription?)
    requires r.evaluator.SetComputerAccountType?
    modifies desc, desc.values, directory
    ensures Evaluated(desc, r, directory, answer, memory, hr, entry)
    ensures hr == Ok ==> {1, 5, 12} <= desc.values.integer
  {
    var bits;
    hr, bits, entry := Load(desc, null, answer, memory);
    if hr == Ok {
      Store(desc, bits + (UF_WORKSTATION_TRUST_ACCOUNT + UF_ACCOUNTDISABLE + UF_PASSWD_NOTREQD));
    }
  }

  /** Calls the evaluator of one table entry. */
  method Evaluate(desc: AttributeDescription, r: Request, directory: DirectoryObject,
                  answer: Option<Word>, memory: bool)
    returns (hr: Hresult, entry: AttributeDescription?)
    modifies desc, desc.values, directory
    ensures Evaluated(desc, r, directory, answer, memory, hr, entry)
  {
    match r.evaluator
    case PasswordNotRequired => hr, entry := PasswordNotRequired(desc, r, directory, answer, memory);
    case DisableAccount => hr, entry := DisableAccount(desc, r, directory, answer, memory);
    case PwdNeverExpires => hr, entry := PwdNeverExpires(desc, r, directory, answer, memory);
    case ReversiblePwd => hr, entry := ReversiblePwd(desc, r, directory, answer, memory);
    case SetComputerAccountType => hr, entry := SetComputerAccountType(desc, r, directory, answer, memory);
  }

  /** What the first request loads: the directory's value, or no flags for a new computer account. */
  function Loaded(first: Request, answer: Option<Word>): Word {
    if first.evaluator.SetComputerAccountType? then {} else answer.GetOr({})
  }

  /** How the first request ends; once a value is there, no later one can fail. */
  function FirstResult(first: Request, answer: Option<Word>, memory: bool): Hresult {
    if !first.evaluator.SetComputerAccountType? && answer.None? then Failed
    else if !memory then OutOfMemory
    else Ok
  }

  /**
   * Evaluates the requests for one object, up to the first that fails, and copies each returned entry's value
   * pointer to the array that is committed afterwards.  For all answers and allocations there is at most one
   * directory read, only the first request can fail, and on success one entry holds the last request for every flag.
   */
  method EvaluateAll(desc: AttributeDescription, directory: DirectoryObject,
                     requests: seq<Request>, answers: seq<Option<Word>>, memory: seq<bool>)
    returns (hr: Hresult, committed: seq<AdsValue>)
    requires Read !in desc.flags && |answers| == |memory| == |requests|
    modifies desc, desc.values, directory
    ensures requests == [] ==> hr == Ok && committed == [] && directory.readCount == old(directory.readCount)
    ensures requests != [] ==>
      && hr == FirstResult(requests[0], answers[0], memory[0])
      && directory.readCount == old(directory.readCount)
         + (if requests[0].evaluator.SetComputerAccountType? then 0 else 1)
      && |committed| == (if hr == Ok then 1 else 0)
    ensures requests != [] && hr == Ok ==>
      forall m :: m in committed[0].integer <==>
        LastRequest(requests, m).GetOr(m in Loaded(requests[0], answers[0]))
  {
    hr, committed := Ok, [];
    for i := 0 to |requests|
      invariant hr == Ok && (desc.values == old(desc.values) || fresh(desc.values))
      invariant i == 0 ==> committed == [] && Read !in desc.flags && directory.readCount == old(directory.readCount)
      invariant 0 < i ==>
        && FirstResult(requests[0], answers[0], memory[0]) == Ok
        && desc.values != null && committed == [desc.values] && Read in desc.flags
        && desc.View().value == Some(Folded(Loaded(requests[0], answers[0]), requests[..i]))
        && directory.readCount == old(directory.readCount)
           + (if requests[0].evaluator.SetComputerAccountType? then 0 else 1)
    {
      var entry;
      hr, entry := Evaluate(desc, requests[i], directory, answers[i], memory[i]);
      if hr != Ok {
        return;
      }
      assert requests[..i + 1][..i] == requests[..i];
      assert i == 0 ==> requests[..i] == [];
      if entry != null {
        committed := committed + [entry.values];
      }
    }
    assert requests[..|requests|] == requests;
    if requests != [] {
      forall m: Bit
        ensures m in committed[0].integer <==>
          LastRequest(requests, m).GetOr(m in Loaded(requests[0], answers[0]))
      {
        LastRequestWins(Loaded(requests[0], answers[0]), requests, m);
      }
    }
  }
}
