// The "user cannot change password" entries of a user's access list (dscmd/dsutil.cpp).

module ExplicitEntries {
  datatype Guid = UserChangePassword | OtherGuid(id: int)
  datatype Sid = Self | World | OtherSid(id: int)
  datatype Trustee = ObjectsAndSid(objectType: Guid, sid: Sid) | OtherTrustee(id: int)
  datatype AccessMode = Grant | Deny | OtherMode(id: int)

  /** One EXPLICIT_ACCESS entry. */
  datatype Entry = Entry(permissions: int, mode: AccessMode, inheritance: int, trustee: Trustee)

  const CONTROL_ACCESS := 0x100  // ACTRL_DS_CONTROL_ACCESS
  const NO_INHERITANCE := 0

  function ChangePasswordEntry(mode: AccessMode, sid: Sid): Entry {
    Entry(CONTROL_ACCESS, mode, NO_INHERITANCE, ObjectsAndSid(UserChangePassword, sid))
  }

  /** The entry is about changing the password, with the given mode and subject. */
  predicate Concerns(e: Entry, mode: AccessMode, sid: Sid) {
    e.mode == mode && e.trustee == ObjectsAndSid(UserChangePassword, sid)
  }

  predicate IsDeny(e: Entry) {
    Concerns(e, Deny, Self) || Concerns(e, Deny, World)
  }

  predicate IsGrant(e: Entry) {
    Concerns(e, Grant, Self) || Concerns(e, Grant, World)
  }

  predicate IsOther(e: Entry) {
    !IsDeny(e) && !IsGrant(e)
  }

  /** The classes of entries that are picked out of a list. */
  datatype Class = Grants | Others | AllButDenies {
    predicate Holds(e: Entry) {
      match this
      case Grants => IsGrant(e)
      case Others => IsOther(e)
      case AllButDenies => !IsDeny(e)
    }
  }

  predicate Has(entries: seq<Entry>, mode: AccessMode, sid: Sid) {
    exists i :: 0 <= i < |entries| && Concerns(entries[i], mode, sid)
  }

  predicate HasDeny(entries: seq<Entry>) {
    exists i :: 0 <= i < |entries| && IsDeny(entries[i])
  }

  function Filter(keep: Class, entries: seq<Entry>): seq<Entry> {
    if entries == [] then []
    else Filter(keep, entries[..|entries| - 1]) + If(keep.Holds(entries[|entries| - 1]), entries[|entries| - 1])
  }

  function If(c: bool, e: Entry): seq<Entry> {
    if c then [e] else []
  }

  lemma {:induction false} FilterConcat(keep: Class, a: seq<Entry>, b: seq<Entry>)
    ensures Filter(keep, a + b) == Filter(keep, a) + Filter(keep, b)
  {
    if b == [] {
      assert a + b == a;
    } else {
      FilterConcat(keep, a, b[..|b| - 1]);
      assert (a + b)[..|a + b| - 1] == a + b[..|b| - 1];
    }
  }

  lemma {:induction false} FilterMembers(keep: Class, s: seq<Entry>, e: Entry)
    ensures e in Filter(keep, s) <==> e in s && keep.Holds(e)
  {
    if s != [] {
      FilterMembers(keep, s[..|s| - 1], e);
      assert s == s[..|s| - 1] + [s[|s| - 1]];
    }
  }

  lemma {:induction false} FilterCounts(keep: Class, s: seq<Entry>, e: Entry)
    ensures multiset(Filter(keep, s))[e] == if keep.Holds(e) then multiset(s)[e] else 0
  {
    if s != [] {
      FilterCounts(keep, s[..|s| - 1], e);
      assert s == s[..|s| - 1] + [s[|s| - 1]];
    }
  }

  lemma FilterNext(keep: Class, s: seq<Entry>, n: nat)
    requires n < |s|
    ensures Filter(keep, s[..n + 1]) == Filter(keep, s[..n]) + If(keep.Holds(s[n]), s[n])
  {
    assert s[..n + 1][..n] == s[..n];
  }

  lemma FilterOne(keep: Class, e: Entry)
    ensures Filter(keep, [e]) == If(keep.Holds(e), e)
  {
    assert [e][..0] == [];
  }

  lemma {:induction false} FilterNothing(f: Class, s: seq<Entry>)
    requires forall e :: e in s ==> !f.Holds(e)
    ensures Filter(f, s) == []
  {
    if s != [] {
      FilterNothing(f, s[..|s| - 1]);
    }
  }

  /** Filtering by a weaker test first makes no difference. */
  lemma {:induction false} FilterWeakerFirst(f: Class, weaker: Class, s: seq<Entry>)
    requires forall e :: f.Holds(e) ==> weaker.Holds(e)
    ensures Filter(f, Filter(weaker, s)) == Filter(f, s)
  {
    if s != [] {
      var x := s[|s| - 1];
      FilterWeakerFirst(f, weaker, s[..|s| - 1]);
      FilterConcat(f, Filter(weaker, s[..|s| - 1]), If(weaker.Holds(x), x));
      FilterOne(f, x);
    }
  }

  lemma {:induction false} FilterAll(f: Class, s: seq<Entry>)
    requires forall e :: e in s ==> f.Holds(e)
    ensures Filter(f, s) == s
  {
    if s != [] {
      FilterAll(f, s[..|s| - 1]);
      assert s == s[..|s| - 1] + [s[|s| - 1]];
    }
  }
}

module ChangePasswordAcl {
  import opened ExplicitEntries

  /** The grant to add for a subject that has none yet. */
  function Missing(entries: seq<Entry>, sid: Sid): seq<Entry> {
    If(!Has(entries, Grant, sid), ChangePasswordEntry(Grant, sid))
  }

  /** The list that gives (or denies) the right to change the password and keeps every other entry. */
  function Rewritten(entries: seq<Entry>, canChange: bool): seq<Entry> {
    if canChange then
      Filter(AllButDenies, entries)
      + Missing(entries, Self)
      + Missing(entries, World)
    else
      [ChangePasswordEntry(Deny, Self), ChangePasswordEntry(Deny, World)] + Filter(Others, entries)
  }

  /** What the first entry about changing the password says; true when there is none. */
  function FirstSays(entries: seq<Entry>): bool {
    if entries == [] then true
    else if IsDeny(entries[0]) then false
    else if IsGrant(entries[0]) then true
    else FirstSays(entries[1..])
  }

  /** Builds the new list in a buffer with room for two more entries than the old one has. */
  method SetCanChangePassword(entries: seq<Entry>, canChange: bool) returns (newEntries: array<Entry>, current: nat)
    ensures fresh(newEntries) && newEntries.Length == |entries| + 2
    ensures current <= newEntries.Length && newEntries[..current] == Rewritten(entries, canChange)
  {
    newEntries := new Entry[|entries| + 2];
    current := 0;
    if !canChange {
      newEntries[current] := ChangePasswordEntry(Deny, Self);
      current := current + 1;
      newEntries[current] := ChangePasswordEntry(Deny, World);
      current := current + 1;
    }
    ghost var start := newEntries[..current];
    var selfAllowPresent, worldAllowPresent;
    current, selfAllowPresent, worldAllowPresent := CopyEntries(entries, canChange, newEntries, current);
    ghost var copied := newEntries[..current];
    if canChange {
      if !selfAllowPresent {
        newEntries[current] := ChangePasswordEntry(Grant, Self);
        current := current + 1;
      }
      ghost var withSelf := newEntries[..current];
      assert withSelf == copied + Missing(entries, Self);
      if !worldAllowPresent {
        newEntries[current] := ChangePasswordEntry(Grant, World);
        current := current + 1;
      }
      assert newEntries[..current] == withSelf + Missing(entries, World);
    }
  }

  /** Copies the entries to keep behind the first `start` ones, and notes which grants there are. */
  method CopyEntries(entries: seq<Entry>, canChange: bool, newEntries: array<Entry>, start: nat)
    returns (current: nat, selfAllowPresent: bool, worldAllowPresent: bool)
    requires start + |entries| <= newEntries.Length
    modifies newEntries
    ensures start <= current <= start + |entries|
    ensures newEntries[..current] ==
            old(newEntries[..start]) + Filter(if canChange then AllButDenies else Others, entries)
    ensures selfAllowPresent == Has(entries, Grant, Self) && worldAllowPresent == Has(entries, Grant, World)
  {
    selfAllowPresent, worldAllowPresent := false, false;
    current := start;
    ghost var keep := if canChange then AllButDenies else Others;
    for j := 0 to |entries|
      invariant start <= current <= start + j
      invariant newEntries[..current] == old(newEntries[..start]) + Filter(keep, entries[..j])
      invariant selfAllowPresent == Has(entries[..j], Grant, Self)
      invariant worldAllowPresent == Has(entries[..j], Grant, World)
    {
      var copy := true;
      var e := entries[j];
      if e.trustee.ObjectsAndSid? && e.mode == Deny {
        if e.trustee.objectType == UserChangePassword {
          if e.trustee.sid == Self {
            copy := false;
          } else if e.trustee.sid == World {
            copy := false;
          }
        }
      } else if e.trustee.ObjectsAndSid? && e.mode == Grant {
        if e.trustee.objectType == UserChangePassword {
          if e.trustee.sid == Self {
            selfAllowPresent := true;
            if !canChange {
              copy := false;
            }
          } else if e.trustee.sid == World {
            worldAllowPresent := true;
            if !canChange {
              copy := false;
            }
          }
        }
      }
      assert copy == keep.Holds(e);
      HasExtends(entries, j);
      FilterNext(keep, entries, j);
      ghost var was := newEntries[..current];
      if copy {
        newEntries[current] := e;
        current := current + 1;
      }
      assert newEntries[..current] == was + If(keep.Holds(e), e);
    }
    assert entries[..|entries|] == entries;
  }

  lemma HasExtends(entries: seq<Entry>, j: nat)
    requires j < |entries|
    ensures Has(entries[..j + 1], Grant, Self) == (Has(entries[..j], Grant, Self) || Concerns(entries[j], Grant, Self))
    ensures Has(entries[..j + 1], Grant, World) ==
            (Has(entries[..j], Grant, World) || Concerns(entries[j], Grant, World))
  {
  }

  /** Scans the list and stops at the first entry about changing the password. */
  method EvaluateCanChangePasswordAces(entries: seq<Entry>) returns (canChange: bool)
    ensures canChange == FirstSays(entries)
  {
    var selfAllow, worldAllow, selfDeny, worldDeny := false, false, false, false;
    for j := 0 to |entries|
      invariant !selfAllow && !worldAllow && !selfDeny && !worldDeny
      invariant FirstSays(entries) == FirstSays(entries[j..])
    {
      var e := entries[j];
      if e.trustee.ObjectsAndSid? && e.mode == Deny {
        if e.trustee.objectType == UserChangePassword {
          if e.trustee.sid == Self {
            selfDeny := true;
            break;
          } else if e.trustee.sid == World {
            worldDeny := true;
            break;
          }
        }
      } else if e.trustee.ObjectsAndSid? && e.mode == Grant {
        if e.trustee.objectType == UserChangePassword {
          if e.trustee.sid == Self {
            selfAllow := true;
            break;
          } else if e.trustee.sid == World {
            worldAllow := true;
            break;
          }
        }
      }
    }
    if selfDeny || worldDeny {
      canChange := false;
    } else if (!selfDeny && !worldDeny) && (selfAllow || worldAllow) {
      canChange := true;
    } else {
      canChange := true;
    }
  }

  /** Entry i is a grant that comes before every deny, and entry j is a deny behind it. */
  ghost predicate Hides(entries: seq<Entry>, i: int, j: int) {
    && 0 <= i < j < |entries| && IsGrant(entries[i]) && IsDeny(entries[j])
    && forall k :: 0 <= k < i ==> !IsDeny(entries[k])
  }

  ghost predicate GrantHidesDeny(entries: seq<Entry>) {
    exists i, j :: Hides(entries, i, j)
  }

  /** The early exit answers the full question, "is there no deny", except when a grant hides a deny. */
  lemma {:induction false} ScanIsExact(entries: seq<Entry>)
    ensures FirstSays(entries) == !HasDeny(entries) <==> !GrantHidesDeny(entries)
  {
    if entries != [] {
      var rest := entries[1..];
      if IsDeny(entries[0]) {
        assert HasDeny(entries);
      } else if IsGrant(entries[0]) {
        if HasDeny(entries) {
          var j :| 0 <= j < |entries| && IsDeny(entries[j]);
          assert Hides(entries, 0, j);
        }
      } else {
        ScanIsExact(rest);
        HasDenyOfRest(entries);
        HidesOfRest(entries);
      }
    }
  }

  lemma HasDenyOfRest(entries: seq<Entry>)
    requires entries != [] && !IsDeny(entries[0])
    ensures HasDeny(entries) == HasDeny(entries[1..])
  {
  }

  lemma HidesOfRest(entries: seq<Entry>)
    requires entries != [] && IsOther(entries[0])
    ensures GrantHidesDeny(entries) == GrantHidesDeny(entries[1..])
  {
    var rest := entries[1..];
    if GrantHidesDeny(entries) {
      var i, j :| Hides(entries, i, j);
      assert IsGrant(rest[i - 1]) && IsDeny(rest[j - 1]);
      assert forall k :: 0 <= k < i - 1 ==> rest[k] == entries[k + 1];
      assert Hides(rest, i - 1, j - 1);
    }
    if GrantHidesDeny(rest) {
      var i, j :| Hides(rest, i, j);
      assert IsGrant(entries[i + 1]) && IsDeny(entries[j + 1]);
      assert forall k :: 0 < k < i + 1 ==> entries[k] == rest[k - 1];
      assert Hides(entries, i + 1, j + 1);
    }
  }

  /** Writing a setting and reading it back agree, however the entries come back ordered. */
  lemma RewrittenReadsBack(entries: seq<Entry>, canChange: bool, stored: seq<Entry>)
    requires multiset(stored) == multiset(Rewritten(entries, canChange))
    ensures FirstSays(stored) == canChange && HasDeny(stored) == !canChange
  {
    var r := Rewritten(entries, canChange);
    SameMembers(stored, r);
    KeptMembers(entries);
    if canChange {
      assert forall e :: e in r ==> !IsDeny(e);
      assert forall e :: e in stored ==> !IsDeny(e);
    } else {
      assert r[0] in stored && IsDeny(r[0]);
      var i :| 0 <= i < |stored| && stored[i] == r[0];
      assert IsDeny(stored[i]);
      assert forall e :: e in r ==> !IsGrant(e);
      assert forall e :: e in stored ==> !IsGrant(e);
    }
    ScanIsExact(stored);
  }

  /** The denials stand in front of everything else. */
  lemma DenialsFirst(entries: seq<Entry>)
    ensures Rewritten(entries, false) ==
            [Entry(0x100, Deny, 0, ObjectsAndSid(UserChangePassword, Self)),
             Entry(0x100, Deny, 0, ObjectsAndSid(UserChangePassword, World))]
            + Filter(Others, entries)
  {
  }

  /** Afterwards each of the two subjects is denied or granted the right as asked, and not both. */
  lemma SubjectsAsAsked(entries: seq<Entry>, canChange: bool, stored: seq<Entry>, sid: Sid)
    requires multiset(stored) == multiset(Rewritten(entries, canChange)) && sid in {Self, World}
    ensures Has(stored, Grant, sid) == canChange && Has(stored, Deny, sid) == !canChange
  {
    var r := Rewritten(entries, canChange);
    SameMembers(stored, r);
    RewrittenReadsBack(entries, canChange, stored);
    if canChange {
      GrantKept(entries, sid);
      var k :| 0 <= k < |r| && Concerns(r[k], Grant, sid);
      MemberHas(stored, r[k], Grant, sid);
    } else {
      DenyingDropsGrants(entries);
      if i :| 0 <= i < |stored| && Concerns(stored[i], Grant, sid) {
        FilterMembers(Grants, r, stored[i]);
      }
      MemberHas(stored, if sid == Self then r[0] else r[1], Deny, sid);
    }
  }

  lemma MemberHas(entries: seq<Entry>, e: Entry, mode: AccessMode, sid: Sid)
    requires e in entries && Concerns(e, mode, sid)
    ensures Has(entries, mode, sid)
  {
  }

  /** The entry is about the right to change the password, for one of the two subjects. */
  predicate IsAbout(e: Entry) {
    && e.mode in {Grant, Deny}
    && e.trustee in {ObjectsAndSid(UserChangePassword, Self), ObjectsAndSid(UserChangePassword, World)}
  }

  /** How often an entry is there afterwards, by its own fields and the entries there before. */
  ghost function CountAfter(entries: seq<Entry>, canChange: bool, e: Entry): nat {
    var before, added := multiset(entries)[e], if e.permissions == 0x100 && e.inheritance == 0 then 1 else 0;
    if !IsAbout(e) then before
    else if (e.mode == Grant) != canChange then 0
    else if e.mode == Deny then added
    else if exists g :: g in entries && g.mode == Grant && g.trustee == e.trustee then before
    else added
  }

  /** Every entry is there just so often afterwards, whatever order the list is stored in. */
  lemma RewrittenExactly(entries: seq<Entry>, canChange: bool, stored: seq<Entry>, e: Entry)
    requires multiset(stored) == multiset(Rewritten(entries, canChange))
    ensures multiset(stored)[e] == CountAfter(entries, canChange, e)
  {
    if canChange {
      CountWhenGranting(entries, e);
    } else {
      CountWhenDenying(entries, e);
    }
  }

  lemma CountWhenDenying(entries: seq<Entry>, e: Entry)
    ensures multiset(Rewritten(entries, false))[e] == CountAfter(entries, false, e)
  {
    var self, world := ChangePasswordEntry(Deny, Self), ChangePasswordEntry(Deny, World);
    FilterCounts(Others, entries, e);
    assert IsOther(e) == !IsAbout(e);
    assert multiset([self, world])[e] == if e == self || e == world then 1 else 0;
  }

  lemma CountWhenGranting(entries: seq<Entry>, e: Entry)
    ensures multiset(Rewritten(entries, true))[e] == CountAfter(entries, true, e)
  {
    FilterCounts(AllButDenies, entries, e);
    assert IsDeny(e) <==> IsAbout(e) && e.mode == Deny;
    CountMissing(entries, Self, e);
    CountMissing(entries, World, e);
  }

  lemma CountMissing(entries: seq<Entry>, sid: Sid, e: Entry)
    ensures multiset(Missing(entries, sid))[e] ==
      if e == ChangePasswordEntry(Grant, sid)
         && !exists g :: g in entries && g.mode == Grant && g.trustee == e.trustee then 1 else 0
  {
    HasIsMember(entries, sid);
  }

  lemma HasIsMember(entries: seq<Entry>, sid: Sid)
    ensures Has(entries, Grant, sid) <==>
      exists g :: g in entries && g.mode == Grant && g.trustee == ObjectsAndSid(UserChangePassword, sid)
  {
    if g :| g in entries && g.mode == Grant && g.trustee == ObjectsAndSid(UserChangePassword, sid) {
      var i :| 0 <= i < |entries| && entries[i] == g;
      assert Concerns(entries[i], Grant, sid);
    }
  }

  /** The scan answers what the first entry about the right says, and yes when there is none. */
  lemma {:induction false} ScanSaysFirst(entries: seq<Entry>, k: nat)
    requires k <= |entries| && (k < |entries| ==> IsAbout(entries[k]))
    requires forall j :: 0 <= j < k ==> !IsAbout(entries[j])
    ensures FirstSays(entries) <==> k == |entries| || entries[k].mode == Grant
  {
    if 0 < k {
      assert !IsAbout(entries[0]);
      ScanSaysFirst(entries[1..], k - 1);
    }
  }

  lemma SameMembers(a: seq<Entry>, b: seq<Entry>)
    requires multiset(a) == multiset(b)
    ensures forall e :: e in a <==> e in b
  {
    forall e
      ensures e in a <==> e in b
    {
      assert e in multiset(a) <==> e in multiset(b);
    }
  }

  lemma KeptMembers(entries: seq<Entry>)
    ensures forall e :: e in Filter(AllButDenies, entries) <==> e in entries && !IsDeny(e)
    ensures forall e :: e in Filter(Others, entries) <==> e in entries && IsOther(e)
  {
  }

  /** Filtering a rewritten list, part by part. */
  lemma FilterRewritten(f: Class, entries: seq<Entry>, canChange: bool)
    ensures Filter(f, Rewritten(entries, canChange)) ==
            if canChange then
              Filter(f, Filter(AllButDenies, entries))
              + Filter(f, Missing(entries, Self))
              + Filter(f, Missing(entries, World))
            else
              If(f.Holds(ChangePasswordEntry(Deny, Self)), ChangePasswordEntry(Deny, Self))
              + If(f.Holds(ChangePasswordEntry(Deny, World)), ChangePasswordEntry(Deny, World))
              + Filter(f, Filter(Others, entries))
  {
    if canChange {
      var a, b := Filter(AllButDenies, entries), Missing(entries, Self);
      FilterConcat(f, a, b);
      FilterConcat(f, a + b, Missing(entries, World));
    } else {
      var self, world := ChangePasswordEntry(Deny, Self), ChangePasswordEntry(Deny, World);
      FilterConcat(f, [self, world], Filter(Others, entries));
      FilterConcat(f, [self], [world]);
      assert [self] + [world] == [self, world];
      FilterOne(f, self);
      FilterOne(f, world);
    }
  }

  /** Setting the same thing twice changes nothing more. */
  lemma RewrittenTwice(entries: seq<Entry>, canChange: bool)
    ensures Rewritten(Rewritten(entries, canChange), canChange) == Rewritten(entries, canChange)
  {
    if canChange {
      GrantKept(entries, Self);
      GrantKept(entries, World);
      NoDenyLeft(entries);
    } else {
      RewrittenKeepsOthers(entries, false);
    }
  }

  lemma NoDenyLeft(entries: seq<Entry>)
    ensures Filter(AllButDenies, Rewritten(entries, true)) == Rewritten(entries, true)
  {
    var r := Rewritten(entries, true);
    KeptMembers(entries);
    assert forall e :: e in r ==> !IsDeny(e);
    FilterAll(AllButDenies, r);
  }

  lemma GrantKept(entries: seq<Entry>, sid: Sid)
    requires sid == Self || sid == World
    ensures Has(Rewritten(entries, true), Grant, sid)
  {
    var r := Rewritten(entries, true);
    var g := ChangePasswordEntry(Grant, sid);
    KeptMembers(entries);
    if i :| 0 <= i < |entries| && Concerns(entries[i], Grant, sid) {
      g := entries[i];
    }
    assert g in r && Concerns(g, Grant, sid);
    var k :| 0 <= k < |r| && r[k] == g;
  }

  lemma MissingIsGrant(entries: seq<Entry>, sid: Sid)
    requires sid == Self || sid == World
    ensures Filter(Grants, Missing(entries, sid)) == Missing(entries, sid)
    ensures Filter(Others, Missing(entries, sid)) == []
  {
    FilterAll(Grants, Missing(entries, sid));
    FilterNothing(Others, Missing(entries, sid));
  }

  /** Entries about anything else all stay, once each and in their order. */
  lemma RewrittenKeepsOthers(entries: seq<Entry>, canChange: bool)
    ensures Filter(Others, Rewritten(entries, canChange)) == Filter(Others, entries)
  {
    FilterRewritten(Others, entries, canChange);
    if canChange {
      FilterWeakerFirst(Others, AllButDenies, entries);
      MissingIsGrant(entries, Self);
      MissingIsGrant(entries, World);
    } else {
      FilterWeakerFirst(Others, Others, entries);
    }
  }

  /** Grants are all dropped when denying. */
  lemma DenyingDropsGrants(entries: seq<Entry>)
    ensures Filter(Grants, Rewritten(entries, false)) == []
  {
    KeptMembers(entries);
    FilterNothing(Grants, Rewritten(entries, false));
  }

  /** When granting, the grants stay in order ahead of the ones added for a subject that had none. */
  lemma GrantingKeepsGrants(entries: seq<Entry>)
    ensures Filter(Grants, Rewritten(entries, true)) ==
            Filter(Grants, entries)
            + Missing(entries, Self)
            + Missing(entries, World)
  {
    FilterRewritten(Grants, entries, true);
    FilterWeakerFirst(Grants, AllButDenies, entries);
    MissingIsGrant(entries, Self);
    MissingIsGrant(entries, World);
  }
}

/** "Must change password" and "cannot change password" exclude each other, over every run of changes. */
module PasswordPolicy {
  import opened Wrappers
  import opened ExplicitEntries
  import opened ChangePasswordAcl

  datatype Account = Account(pwdLastSet: Option<int>, acl: seq<Entry>) {
    predicate MustChange() {
      pwdLastSet == Some(0)
    }

    predicate Conflict() {
      MustChange() && HasDeny(acl)
    }

    /** The early-exit scan reads this account's list correctly. */
    predicate ScanAgrees() {
      FirstSays(acl) == !HasDeny(acl)
    }
  }

  // `evaluated` says whether the directory could be asked about the other setting, `written` whether the access
  // list could be read, rebuilt and written.
  datatype Command =
    | MustChangePwd(on: bool, evaluated: bool)
    | CanChangePwd(on: bool, evaluated: bool, written: bool)
  {
    /** A denial that goes ahead although the question whether the password must change has failed. */
    predicate DeniesBlindly() {
      CanChangePwd? && !on && !evaluated && written
    }
  }

  /** One command followed by the directory's own update; the directory may reorder the list it stores. */
  ghost predicate Next(a: Account, c: Command, b: Account) {
    match c
    case MustChangePwd(on, evaluated) =>
      if !evaluated || (on && !FirstSays(a.acl)) then b == a
      else b == a.(pwdLastSet := Some(if on then 0 else -1))
    case CanChangePwd(on, evaluated, written) =>
      if !written || (evaluated && a.MustChange() && !on) then b == a
      else b.pwdLastSet == a.pwdLastSet && multiset(b.acl) == multiset(Rewritten(a.acl, on))
  }

  /** The stored account. */
  class UserObject {
    var pwdLastSet: Option<int>
    var acl: seq<Entry>

    function View(): Account
      reads this
    {
      Account(pwdLastSet, acl)
    }

    constructor (a: Account)
      ensures View() == a
    {
      pwdLastSet, acl := a.pwdLastSet, a.acl;
    }

    /** Asks whether the password must change; the answer defaults to no when the question fails. */
    method EvaluateMustChangePassword(evaluated: bool) returns (hr: Hresult, must: bool)
      ensures hr == (if evaluated then Ok else Failed)
      ensures must == (evaluated && View().MustChange())
    {
      must := false;
      if !evaluated {
        return Failed, false;
      }
      if pwdLastSet.Some? {
        if pwdLastSet.value == 0 {
          must := true;
        }
      }
      hr := Ok;
    }

    /** Prepares the new pwdLastSet, which the caller commits only when the result is Ok. */
    method ChangeMustChangePwd(on: bool, evaluated: bool) returns (hr: Hresult)
      modifies this`pwdLastSet
      ensures Next(old(View()), MustChangePwd(on, evaluated), View())
      ensures hr == if !evaluated then Failed else if on && !FirstSays(acl) then SFalse else Ok
      ensures hr == Ok ==> pwdLastSet == Some(if on then 0 else -1)
    {
      var canChange := true;
      hr := Ok;
      if evaluated {
        canChange := EvaluateCanChangePasswordAces(acl);
      } else {
        hr := Failed;
      }
      if !canChange && on {
        return SFalse;
      }
      var attribute := Some(if on then 0 else -1);
      // The failure code of the question is still in hr here, so that nothing is committed.
      if hr == Ok {
        pwdLastSet := attribute;
      }
    }

    /** Rewrites the list unless the password must change; a failed question counts as "need not change". */
    method ChangeCanChangePassword(on: bool, evaluated: bool, written: bool) returns (hr: Hresult)
      modifies this`acl
      ensures Next(old(View()), CanChangePwd(on, evaluated, written), View())
      ensures hr == if evaluated && View().MustChange() && !on then SFalse else if written then Ok else Failed
    {
      var must;
      hr, must := EvaluateMustChangePassword(evaluated);
      if must && !on {
        return SFalse;
      }
      if !written {
        return Failed;
      }
      var entries, count := SetCanChangePassword(acl, on);
      acl := SetEntriesInAcl(entries[..count]);
      hr := Ok;
    }

    /** The directory keeps the entries it is given, in an order of its own. */
    method SetEntriesInAcl(entries: seq<Entry>) returns (stored: seq<Entry>)
      ensures multiset(stored) == multiset(entries)
    {
      stored := entries;
    }
  }

  /** What each command leaves: the setting as asked when it is accepted, and otherwise the account as it was. */
  lemma SettingAfter(a: Account, c: Command, b: Account)
    requires Next(a, c, b)
    ensures c.MustChangePwd? ==>
      && b.acl == a.acl
      && (b.pwdLastSet == Some(0) <==>
            if c.evaluated then c.on && (FirstSays(a.acl) || a.pwdLastSet == Some(0)) else a.pwdLastSet == Some(0))
    ensures c.CanChangePwd? ==>
      && b.pwdLastSet == a.pwdLastSet
      && if !c.written || (c.evaluated && !c.on && a.pwdLastSet == Some(0)) then b == a
         else forall sid :: sid in {Self, World} ==> Has(b.acl, Grant, sid) == c.on && Has(b.acl, Deny, sid) == !c.on
  {
    if c.CanChangePwd? && multiset(b.acl) == multiset(Rewritten(a.acl, c.on)) {
      SubjectsAsAsked(a.acl, c.on, b.acl, Self);
      SubjectsAsAsked(a.acl, c.on, b.acl, World);
    }
  }

  ghost predicate Run(states: seq<Account>, commands: seq<Command>) {
    && |states| == |commands| + 1
    && forall i :: 0 <= i < |commands| ==> Next(states[i], commands[i], states[i + 1])
  }

  /** No denial goes ahead unasked while the password must change. */
  ghost predicate NoBlindDenial(states: seq<Account>, commands: seq<Command>)
    requires |states| == |commands| + 1
  {
    forall i :: 0 <= i < |commands| ==> !(commands[i].DeniesBlindly() && states[i].MustChange())
  }

  ghost predicate AllApart(states: seq<Account>) {
    forall i :: 0 <= i < |states| ==> !states[i].Conflict()
  }

  ghost predicate AlwaysApart(a: Account) {
    forall states: seq<Account>, commands: seq<Command> ::
      Run(states, commands) && states[0] == a && NoBlindDenial(states, commands) ==> AllApart(states)
  }

  lemma StepStaysApart(a: Account, c: Command, b: Account)
    requires Next(a, c, b) && !(c.DeniesBlindly() && a.MustChange())
    requires !a.Conflict() && a.ScanAgrees()
    ensures !b.Conflict() && b.ScanAgrees()
  {
    if c.CanChangePwd? && b != a {
      RewrittenReadsBack(a.acl, c.on, b.acl);
    }
  }

  lemma {:induction false} RunStaysApart(states: seq<Account>, commands: seq<Command>)
    requires Run(states, commands) && NoBlindDenial(states, commands)
    requires !states[0].Conflict() && states[0].ScanAgrees()
    ensures AllApart(states) && states[|commands|].ScanAgrees()
  {
    if commands != [] {
      var n := |commands| - 1;
      var earlier := states[..n + 1];
      assert Run(earlier, commands[..n]) && NoBlindDenial(earlier, commands[..n]);
      RunStaysApart(earlier, commands[..n]);
      assert forall i :: 0 <= i <= n ==> states[i] == earlier[i];
      StepStaysApart(states[n], commands[n], states[n + 1]);
    }
  }

  /** A denial that goes ahead unasked brings the two settings together exactly when the password must change. */
  lemma BlindDenialConflicts(a: Account, c: Command, b: Account)
    requires c.DeniesBlindly() && Next(a, c, b)
    ensures b.Conflict() <==> a.MustChange()
  {
    RewrittenReadsBack(a.acl, false, b.acl);
  }

  /** On every run from a sound start the settings stay apart exactly when no denial goes ahead unasked in between. */
  lemma ApartExactly(states: seq<Account>, commands: seq<Command>)
    requires Run(states, commands) && !states[0].Conflict() && states[0].ScanAgrees()
    ensures AllApart(states) <==> NoBlindDenial(states, commands)
  {
    if NoBlindDenial(states, commands) {
      RunStaysApart(states, commands);
    } else {
      var i :| 0 <= i < |commands| && commands[i].DeniesBlindly() && states[i].MustChange();
      BlindDenialConflicts(states[i], commands[i], states[i + 1]);
    }
  }

  /** All runs without such a denial stay apart exactly when the start does and no grant hides a deny in it. */
  lemma NeverBoth(a: Account)
    ensures AlwaysApart(a) <==> !a.Conflict() && !GrantHidesDeny(a.acl)
  {
    ScanIsExact(a.acl);
    if !a.Conflict() && a.ScanAgrees() {
      forall states: seq<Account>, commands: seq<Command> |
        Run(states, commands) && states[0] == a && NoBlindDenial(states, commands)
        ensures AllApart(states)
      {
        RunStaysApart(states, commands);
      }
    } else if a.Conflict() {
      assert Run([a], []) && [a][0].Conflict();
    } else {
      ScanDeniesOnlyOnDeny(a.acl);
      var b := a.(pwdLastSet := Some(0));
      var states, commands := [a, b], [MustChangePwd(true, true)];
      assert Next(a, commands[0], b);
      assert Run(states, commands) && states[1].Conflict();
    }
  }

  lemma {:induction false} ScanDeniesOnlyOnDeny(entries: seq<Entry>)
    ensures !FirstSays(entries) ==> HasDeny(entries)
  {
    if entries != [] && IsOther(entries[0]) {
      ScanDeniesOnlyOnDeny(entries[1..]);
      HasDenyOfRest(entries);
    }
  }

  /** A grant ahead of a deny: the scan says the user can change the password, though a deny is there. */
  lemma HiddenDenyExample()
    ensures var entries := [ChangePasswordEntry(Grant, Self), ChangePasswordEntry(Deny, World)];
            FirstSays(entries) && HasDeny(entries) && !AlwaysApart(Account(None, entries))
  {
    var entries := [ChangePasswordEntry(Grant, Self), ChangePasswordEntry(Deny, World)];
    assert Hides(entries, 0, 1);
    assert IsDeny(entries[1]);
    NeverBoth(Account(None, entries));
  }
}
