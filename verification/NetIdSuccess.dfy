// When saving an identity change succeeds, and what has changed then, over all three kinds of change (netid/state.cpp).

module IdentitySuccess {
  import opened Wrappers
  import opened Characters
  import opened UserNames
  import opened MachineIdentity
  import opened IdentityChange
  import opened IdentitySafety

  /** The user has edited a text: it differs in more than letter case. */
  predicate Edited(before: string, after: string) {
    !SameButCase(before, after)
  }

  lemma EditedIsDifferent(before: string, after: string)
    ensures Differ(before, after) <==> Edited(before, after)
  {
    FoldingIsExact(before, after);
  }

  /** A machine is asked to enter a domain, or another domain than the one it is in. */
  predicate EntersDomain(c: Change) {
    && !c.current.joinedToWorkgroup
    && (c.original.joinedToWorkgroup || Edited(c.original.domainName, c.current.domainName))
  }

  predicate EntersWorkgroup(c: Change) {
    && c.current.joinedToWorkgroup
    && (!c.original.joinedToWorkgroup || Edited(c.original.domainName, c.current.domainName))
  }

  lemma KindsAreExact(c: Change)
    ensures c.ToDomain() <==> EntersDomain(c)
    ensures c.ToWorkgroup() <==> EntersWorkgroup(c)
    ensures c.ShortName() <==> Edited(c.original.shortComputerName, c.current.shortComputerName)
    ensures c.Suffix() <==> Edited(c.original.computerDomainDnsName, c.current.computerDomainDnsName)
  {
    EditedIsDifferent(c.original.domainName, c.current.domainName);
    EditedIsDifferent(c.original.shortComputerName, c.current.shortComputerName);
    EditedIsDifferent(c.original.computerDomainDnsName, c.current.computerDomainDnsName);
  }

  // ----- Which calls must work for success to be reported.

  predicate Accepts(o: Outcomes, domainName: string) {
    o.credentials.Some? && MassageUserName(domainName, o.credentials.value).Some?
  }

  predicate Refuses(o: Outcomes, domainName: string) {
    o.credentials.Some? && MassageUserName(domainName, o.credentials.value).None?
  }

  /** The calls of a change to a domain.  Setting the suffix last hides the result of setting the name. */
  predicate DomainCallsWork(m: Machine, c: Change, o: Outcomes) {
    var tcp := m.networking && m.tcpip;
    var suffix := Edited(c.original.computerDomainDnsName, c.current.computerDomainDnsName);
    var suffixLast := suffix && !tcp && !c.current.syncDnsNames;
    var name :=
      Edited(c.original.shortComputerName, c.current.shortComputerName) || m.activeNetbios != m.futureNetbios;
    && Accepts(o, c.current.domainName)
    && (tcp && suffix ==> o.writeSuffix)
    && (o.join || o.joinWithCreate)
    && (name && tcp ==> o.writeHostname)
    && (name && o.rename && !suffixLast ==> o.setShortName)
    && (suffixLast ==> o.setDomainName)
  }

  /** The calls of a change to a workgroup; a refused user name breaks it off. */
  predicate WorkgroupCallsWork(m: Machine, c: Change, o: Outcomes) {
    var leaves := !c.original.joinedToWorkgroup && m.networking;
    && (c.original.syncDnsNames != c.current.syncDnsNames ==> o.writeSync)
    && if leaves && Refuses(o, c.original.domainName) then true
       else
         && (leaves ==> o.credentials.Some? && (o.unjoin || o.unjoinKeepingAccount))
         && o.joinWorkgroup
         && (Edited(c.original.shortComputerName, c.current.shortComputerName) ==> o.setShortName)
         && (Edited(c.original.computerDomainDnsName, c.current.computerDomainDnsName) ==> o.setDomainName)
  }

  /** The calls of a change of name, sync flag or suffix; a refused user name breaks it off. */
  predicate NameCallsWork(m: Machine, c: Change, o: Outcomes) {
    var name := Edited(c.original.shortComputerName, c.current.shortComputerName);
    var member := !c.original.joinedToWorkgroup && m.networking;
    if name && member && Refuses(o, c.current.domainName) then true
    else
      && (name && member ==> o.credentials.Some? && o.rename)
      && (name ==> o.setShortName)
      && (c.original.syncDnsNames != c.current.syncDnsNames ==> o.writeSync)
      && (Edited(c.original.computerDomainDnsName, c.current.computerDomainDnsName) ==> o.setDomainName)
  }

  /** For every machine, change and outcome: success is reported exactly when every call that is due has worked. */
  lemma SuccessExactly(m: Machine, c: Change, o: Outcomes)
    ensures SaveResult(m, c, o) <==>
      if EntersDomain(c) then DomainCallsWork(m, c, o)
      else if EntersWorkgroup(c) then WorkgroupCallsWork(m, c, o)
      else NameCallsWork(m, c, o)
  {
    KindsAreExact(c);
  }

  // ----- What has changed then.

  /** The machine is where it was asked to be; a workgroup without a name is shown under the default one. */
  predicate MembershipAsAsked(m: Machine, c: Change) {
    && m.membership.Workgroup? == c.current.joinedToWorkgroup
    && (|| SameButCase(m.membership.name, c.current.domainName)
        || (m.membership == Workgroup("") && SameButCase("WORKGROUP", c.current.domainName)))
  }

  /** Leaving the domain is broken off without an error. */
  predicate LeavingRefused(m: Machine, c: Change, o: Outcomes) {
    && EntersWorkgroup(c) && !c.original.joinedToWorkgroup && m.networking
    && Refuses(o, c.original.domainName)
  }

  /** What must work for the machine to end where it was asked to be. */
  predicate MembershipCallsWork(m: Machine, c: Change, o: Outcomes) {
    if EntersDomain(c) then
      && Accepts(o, c.current.domainName)
      && (m.networking && m.tcpip && Edited(c.original.computerDomainDnsName, c.current.computerDomainDnsName)
          ==> o.writeSuffix)
      && (o.join || o.joinWithCreate)
    else if !EntersWorkgroup(c) then
      true
    else if !c.original.joinedToWorkgroup && m.networking then
      && Accepts(o, c.original.domainName)
      && (o.unjoin || o.unjoinKeepingAccount)
      && (o.joinWorkgroup || SameButCase("WORKGROUP", c.current.domainName))
    else
      o.joinWorkgroup || m.membership == Workgroup(c.current.domainName)
  }

  lemma SameTexts(a: string, b: string)
    ensures SameButCase(a, b) <==> SameButCase(b, a)
    ensures a == b ==> SameButCase(a, b)
  {
  }

  /** For all outcomes: the machine ends where it was asked to be exactly when these calls have worked. */
  lemma MembershipExactly(m: Machine, c: Change, o: Outcomes)
    requires JustRead(m, c)
    ensures MembershipAsAsked(SaveEffect(m, c, o), c) <==> MembershipCallsWork(m, c, o)
  {
    KindsAreExact(c);
    SameTexts(m.membership.name, c.current.domainName);
    SameTexts(c.current.domainName, c.current.domainName);
    if c.ToDomain() {
      DomainFailureMeans(m, c, o);
    } else if c.ToWorkgroup() {
      MembershipAfterWorkgroupChange(m, c, o);
      MembershipWithoutJoining(m, c, o);
    } else {
      NameChangeKeepsMembership(m, c, o);
    }
  }

  lemma NameChangeKeepsMembership(m: Machine, c: Change, o: Outcomes)
    ensures NameChange(m, c, o).membership == m.membership
  {
  }

  lemma MembershipWithoutJoining(m: Machine, c: Change, o: Outcomes)
    ensures var after := WorkgroupChange(m, c, o).membership;
      if NotLeft(m, c, o) then after == m.membership
      else if o.joinWorkgroup then after == Workgroup(c.current.domainName)
      else if MustUnjoin(m, c) then after == Workgroup("WORKGROUP")
      else after == m.membership
  {
  }

  /** A reported success means that the machine is where it was asked to be, exactly unless leaving was refused. */
  lemma SuccessMeansMembership(m: Machine, c: Change, o: Outcomes)
    requires JustRead(m, c) && SaveResult(m, c, o)
    ensures MembershipAsAsked(SaveEffect(m, c, o), c) <==> !LeavingRefused(m, c, o)
  {
    SuccessExactly(m, c, o);
    MembershipExactly(m, c, o);
  }

  /** Every call works, and no user name is refused. */
  predicate AllWork(c: Change, o: Outcomes) {
    && o.writeSync && o.writeSuffix && (o.join || o.joinWithCreate) && o.writeHostname && o.rename
    && o.setShortName && o.setDomainName && (o.unjoin || o.unjoinKeepingAccount) && o.joinWorkgroup
    && Accepts(o, c.original.domainName) && Accepts(o, c.current.domainName)
  }

  /** If every call works, everything is as asked, except a suffix that comes with the domain that is joined. */
  lemma AllWorkMeansDone(m: Machine, c: Change, o: Outcomes)
    requires JustRead(m, c) && AllWork(c, o)
    ensures SaveResult(m, c, o)
    ensures var after := SaveEffect(m, c, o);
      && MembershipAsAsked(after, c)
      && after.SyncFlag() == c.current.syncDnsNames
      && (Edited(c.original.shortComputerName, c.current.shortComputerName) ==>
            after.BootName() == BootForm(m, c.current.shortComputerName))
      && (Edited(c.original.computerDomainDnsName, c.current.computerDomainDnsName) ==>
            after.nvDomain == Some(
              if EntersDomain(c) && c.current.syncDnsNames then o.joinedSuffix else c.current.computerDomainDnsName))
  {
    SuccessExactly(m, c, o);
    MembershipExactly(m, c, o);
    KindsAreExact(c);
    if c.ToDomain() {
      JoinMeans(m, c, o);
      if c.Suffix() {
        SuffixAfterJoin(m, c, o);
      }
    } else if c.ToWorkgroup() {
      WorkgroupSuccessIsReal(m, c, o);
    } else {
      NameSuccessIsReal(m, c, o);
    }
  }

  lemma SuffixAfterJoin(m: Machine, c: Change, o: Outcomes)
    requires JustRead(m, c) && AllWork(c, o) && c.ToDomain() && c.Suffix()
    ensures DomainChange(m, c, o).nvDomain ==
            Some(if c.current.syncDnsNames then o.joinedSuffix else c.current.computerDomainDnsName)
  {
    JoinedMachine(m, c, o);
  }

  /** Edits of letter case alone change nothing, and succeed whatever the calls would do. */
  lemma CaseEditsDoNothing(m: Machine, c: Change, o: Outcomes)
    requires c.original.joinedToWorkgroup == c.current.joinedToWorkgroup
    requires c.original.syncDnsNames == c.current.syncDnsNames
    requires SameButCase(c.original.domainName, c.current.domainName)
    requires SameButCase(c.original.shortComputerName, c.current.shortComputerName)
    requires SameButCase(c.original.computerDomainDnsName, c.current.computerDomainDnsName)
    ensures SaveEffect(m, c, o) == m && SaveResult(m, c, o)
  {
    KindsAreExact(c);
  }

  /** What is in force until the next start, the membership aside, is the same in both. */
  predicate SameInForce(m: Machine, after: Machine) {
    && after.hostname == m.hostname && after.domain == m.domain && after.activeNetbios == m.activeNetbios
    && after.networking == m.networking && after.tcpip == m.tcpip && after.policySuffix == m.policySuffix
  }

  /** No save changes what is in force until the next start, except the membership. */
  lemma InForceStays(m: Machine, c: Change, o: Outcomes)
    ensures SameInForce(m, SaveEffect(m, c, o))
  {
    if c.ToDomain() {
      DomainInForceStays(m, c, o);
    } else if c.ToWorkgroup() {
      WorkgroupInForceStays(m, c, o);
    } else {
      NameInForceStays(m, c, o);
    }
  }

  lemma WorkgroupInForceStays(m: Machine, c: Change, o: Outcomes)
    ensures SameInForce(m, WorkgroupChange(m, c, o))
  {
    var written := SyncWritten(m, c, o);
    var left := if MustUnjoin(m, c) then Unjoined(written) else written;
    var joined := left.(membership := Workgroup(c.current.domainName));
    assert SameInForce(m, joined) && SameInForce(joined, WithNames(joined, c, o));
  }

  lemma NameInForceStays(m: Machine, c: Change, o: Outcomes)
    ensures SameInForce(m, NameChange(m, c, o))
  {
  }

  lemma DomainInForceStays(m: Machine, c: Change, o: Outcomes)
    ensures SameInForce(m, DomainChange(m, c, o))
  {
    var joined := AfterJoin(m, c, o);
    var renamed := AfterRename(joined, c, o);
    assert SameInForce(m, joined) && SameInForce(joined, renamed);
    assert SameInForce(m, AfterFailedJoin(m, c, o));
    assert SameInForce(joined, WithSuffixAtEnd(joined, m, c, o));
    assert SameInForce(renamed, WithSuffixAtEnd(renamed, m, c, o));
  }

  /** Without networking no account is touched: what the prompt, leaving and renaming would give does not matter. */
  lemma OfflineLeavesAccounts(m: Machine, c: Change, o: Outcomes, p: Outcomes)
    requires !m.networking && !EntersDomain(c)
    requires p == o.(credentials := p.credentials, rename := p.rename,
                     unjoin := p.unjoin, unjoinKeepingAccount := p.unjoinKeepingAccount)
    ensures SaveEffect(m, c, o) == SaveEffect(m, c, p) && SaveResult(m, c, o) == SaveResult(m, c, p)
    ensures SaveEffect(m, c, o).account == m.account
  {
    KindsAreExact(c);
  }

  /** Settings that are in effect are read back as they were edited. */
  lemma InEffectReadsBack(m: Machine, c: Change)
    requires SettingsInEffect(m, c)
    ensures Refreshed(m).syncDnsNames == c.current.syncDnsNames
    ensures c.ShortName() ==> Refreshed(m).shortComputerName == BootForm(m, c.current.shortComputerName)
    ensures c.Suffix() && m.HasTcp() ==> Refreshed(m).computerDomainDnsName == c.current.computerDomainDnsName
  {
  }
}
