// What saving an identity change promises, whatever the outcomes of its calls (netid/state.cpp).

module IdentitySafety {
  import opened Wrappers
  import opened UserNames
  import opened MachineIdentity
  import opened IdentityChange

  /** Before saving: the settings were just read, no rename is pending, and a member bears its account's name. */
  predicate Ready(m: Machine, c: Change) {
    && !m.RenamePending() && m.NamesAgree()
    && (!m.HasTcp() ==> m.futureNetbios == NetbiosName(m.futureNetbios))
    && c.original == Refreshed(m) && c.current.shortComputerName != ""
  }

  /** The ways to tear the names apart: a host name that is not put back, one that cannot follow its account, and the
      name of a member without networking, whose account is left alone. */
  predicate Torn(m: Machine, c: Change, o: Outcomes) {
    if c.ToDomain() then
      m.HasTcp() && Phase(m, c, o) == KeptOldName && !o.restoreHostname
    else if c.ToWorkgroup() || !c.ShortName() || m.membership.Workgroup? then
      false
    else if m.networking then
      m.HasTcp() && o.Authorizes(c.current.domainName) && o.rename && !o.setShortName
    else
      o.setShortName && NetbiosName(c.current.shortComputerName) != m.BootName()
  }

  lemma DomainChangeKeepsName(m: Machine, c: Change, o: Outcomes)
    requires Ready(m, c) && c.ToDomain()
    ensures DomainChange(m, c, o).NamesAgree() <==> !Torn(m, c, o)
  {
    AfterJoinNames(m, c, o);
    var renamed := AfterRename(AfterJoin(m, c, o), c, o);
    match Phase(m, c, o)
    case NotStarted =>
    case SuffixRefused =>
    case JoinRefused =>
    case HostnameRefused =>
    case NameUntouched =>
    case Renamed => assert renamed.NamesAgree();
    case KeptOldName =>
      assert c.original.shortComputerName != c.current.shortComputerName;
      assert renamed.account == c.original.shortComputerName && renamed.HasTcp() == m.HasTcp();
      assert renamed.NamesAgree() <==> !(m.HasTcp() && !o.restoreHostname);
  }

  /** A join takes place under the old name. */
  lemma AfterJoinNames(m: Machine, c: Change, o: Outcomes)
    requires Ready(m, c)
    ensures var joined := AfterJoin(m, c, o);
      && joined.HasTcp() == m.HasTcp() && joined.membership == Domain(c.current.domainName)
      && joined.account == joined.BootName() == c.original.shortComputerName
  {
  }

  lemma WorkgroupChangeKeepsName(m: Machine, c: Change, o: Outcomes)
    requires Ready(m, c) && c.ToWorkgroup()
    ensures WorkgroupChange(m, c, o).NamesAgree()
  {
  }

  lemma NameChangeKeepsName(m: Machine, c: Change, o: Outcomes)
    requires Ready(m, c) && !c.ToDomain() && !c.ToWorkgroup()
    ensures NameChange(m, c, o).NamesAgree() <==> !Torn(m, c, o)
  {
  }

  /** Whatever the outcomes, a domain member bears its account's name afterwards, except in the torn cases. */
  lemma MemberKeepsItsName(m: Machine, c: Change, o: Outcomes)
    requires Ready(m, c)
    ensures SaveEffect(m, c, o).NamesAgree() <==> !Torn(m, c, o)
  {
    if c.ToDomain() {
      DomainChangeKeepsName(m, c, o);
    } else if c.ToWorkgroup() {
      WorkgroupChangeKeepsName(m, c, o);
    } else {
      NameChangeKeepsName(m, c, o);
    }
  }

  /** The domain account has been renamed: after the join, or for a machine that stays in its domain. */
  predicate AccountRenamed(m: Machine, c: Change, o: Outcomes) {
    if c.ToDomain() then Phase(m, c, o) == Renamed
    else MustRename(m, c) && o.Authorizes(c.current.domainName) && o.rename
  }

  /** A change of a domain member's name, with or without a change of domain. */
  predicate RenamesMember(c: Change) {
    c.ShortName() && !c.ToWorkgroup() && !c.current.joinedToWorkgroup
  }

  /** The outcomes that leave the new boot name: a renamed account, a host name that is not put back, or no account
      that could be renamed. */
  predicate NewName(m: Machine, c: Change, o: Outcomes) {
    if c.ToDomain() then AccountRenamed(m, c, o) || Torn(m, c, o)
    else if m.networking then AccountRenamed(m, c, o) && (m.HasTcp() ==> o.setShortName)
    else o.setShortName
  }

  lemma BootNameAfterDomainChange(m: Machine, c: Change, o: Outcomes)
    requires Ready(m, c) && RenamesMember(c) && c.ToDomain()
    ensures DomainChange(m, c, o).BootName() ==
            if NewName(m, c, o) then BootForm(m, c.current.shortComputerName) else m.BootName()
  {
    AfterJoinNames(m, c, o);
    var renamed := AfterRename(AfterJoin(m, c, o), c, o);
    match Phase(m, c, o)
    case NotStarted =>
    case SuffixRefused =>
    case JoinRefused =>
    case HostnameRefused =>
    case NameUntouched =>
    case Renamed => assert renamed.BootName() == BootForm(m, c.current.shortComputerName);
    case KeptOldName =>
      assert renamed.BootName() ==
             if m.HasTcp() && !o.restoreHostname then c.current.shortComputerName else m.BootName();
  }

  lemma BootNameAfterNameChange(m: Machine, c: Change, o: Outcomes)
    requires Ready(m, c) && RenamesMember(c) && !c.ToDomain()
    ensures NameChange(m, c, o).BootName() ==
            if NewName(m, c, o) then BootForm(m, c.current.shortComputerName) else m.BootName()
  {
  }

  /** For all machines and outcomes: the boot name is the new one or the old one, and these calls decide which. */
  lemma BootNameExactly(m: Machine, c: Change, o: Outcomes)
    requires Ready(m, c) && RenamesMember(c)
    ensures SaveEffect(m, c, o).BootName() ==
            if NewName(m, c, o) then BootForm(m, c.current.shortComputerName) else m.BootName()
    ensures m.HasTcp() ==> m.BootName() != c.current.shortComputerName
  {
    if c.ToDomain() {
      BootNameAfterDomainChange(m, c, o);
    } else {
      BootNameAfterNameChange(m, c, o);
    }
  }

  /** If the undo writes succeed, and for a member that stays in its domain under networking the last call, a name that
      differs is the new one exactly when the account was renamed. */
  lemma NewNameIffRenamed(m: Machine, c: Change, o: Outcomes)
    requires Ready(m, c) && RenamesMember(c) && m.BootName() != BootForm(m, c.current.shortComputerName)
    requires o.Restores() && (!c.ToDomain() ==> m.networking && o.setShortName)
    ensures SaveEffect(m, c, o).BootName() == BootForm(m, c.current.shortComputerName) <==> AccountRenamed(m, c, o)
    ensures !AccountRenamed(m, c, o) ==> SaveEffect(m, c, o).BootName() == m.BootName()
  {
    BootNameExactly(m, c, o);
  }

  predicate NotJoined(m: Machine, c: Change, o: Outcomes) {
    Phase(m, c, o) in {NotStarted, SuffixRefused, JoinRefused}
  }

  /** A change to a domain that does not get to a join is undone, for anyone who reads the settings again. */
  lemma FailedJoinIsUndone(m: Machine, c: Change, o: Outcomes)
    requires c.original == Refreshed(m) && NotJoined(m, c, o)
    ensures Refreshed(DomainChange(m, c, o)) == c.original <==>
      match Phase(m, c, o)
      case SuffixRefused => !(c.Sync() && o.writeSync)
      case JoinRefused =>
        (c.Sync() && o.writeSync ==> o.restoreSync) && (m.HasTcp() && c.Suffix() ==> o.restoreSuffix)
      case _ => true
    ensures !DomainChangeResult(m, c, o) && DomainChange(m, c, o).membership == m.membership
    ensures DomainChange(m, c, o).nvHostname == m.nvHostname && DomainChange(m, c, o).account == m.account
  {
  }

  /** The settings read the same after an undone change although the stored values need not be. */
  lemma UndoneIsNotUntouched(m: Machine, c: Change, o: Outcomes)
    requires c.original == Refreshed(m) && Phase(m, c, o) == JoinRefused && o.Restores()
    requires m.HasTcp() && m.nvDomain == None && c.Suffix()
    ensures DomainChange(m, c, o) != m && Refreshed(DomainChange(m, c, o)) == Refreshed(m)
  {
  }

  // ----- What the reported result says.

  /** The edited settings hold on the machine, under TCP/IP or without. */
  predicate SyncInEffect(m: Machine, c: Change) {
    m.SyncFlag() == c.current.syncDnsNames
  }

  predicate NameInEffect(m: Machine, c: Change) {
    c.ShortName() ==> m.BootName() == BootForm(m, c.current.shortComputerName)
  }

  predicate SuffixInEffect(m: Machine, c: Change) {
    c.Suffix() ==> m.nvDomain == Some(c.current.computerDomainDnsName)
  }

  predicate SettingsInEffect(m: Machine, c: Change) {
    SyncInEffect(m, c) && NameInEffect(m, c) && SuffixInEffect(m, c)
  }

  /** Settings that were just read, and a name that can be set. */
  predicate JustRead(m: Machine, c: Change) {
    c.original == Refreshed(m) && c.current.shortComputerName != ""
  }

  /** Without TCP/IP the settings show less than is stored, so that a change may ask for what is there already. */
  predicate NameThere(m: Machine, c: Change) {
    !m.HasTcp() && m.futureNetbios == NetbiosName(c.current.shortComputerName)
  }

  predicate SuffixThere(m: Machine, c: Change) {
    !m.HasTcp() && m.nvDomain == Some(c.current.computerDomainDnsName)
  }

  /** Everything asked for is there before any call is made. */
  predicate AllThere(m: Machine, c: Change) {
    !c.Sync() && (c.ShortName() ==> NameThere(m, c)) && (c.Suffix() ==> SuffixThere(m, c))
  }

  /** Settings that were just read are never in effect before they are asked for, except as said above. */
  lemma InEffectBefore(m: Machine, c: Change)
    requires JustRead(m, c)
    ensures SyncInEffect(m, c) <==> !c.Sync()
    ensures NameInEffect(m, c) <==> (c.ShortName() ==> NameThere(m, c))
    ensures SuffixInEffect(m, c) <==> (c.Suffix() ==> SuffixThere(m, c))
  {
  }

  /** The account of a member has to be renamed, and is not. */
  predicate NotRenamed(m: Machine, c: Change, o: Outcomes) {
    MustRename(m, c) && !(o.Authorizes(c.current.domainName) && o.rename)
  }

  /** The outcomes for which a name change reports success or failure wrongly. */
  predicate NameMisreported(m: Machine, c: Change, o: Outcomes) {
    if MustRename(m, c) && NameRefused(c.current.domainName, o) then
      !AllThere(m, c)
    else if NotRenamed(m, c, o) || (c.ShortName() && !MustRename(m, c) && !o.setShortName) then
      AllThere(m, c)
    else if c.ShortName() && !o.setShortName then
      // Without TCP/IP renaming the account has set the boot name already.
      !m.HasTcp() && !c.Sync() && (c.Suffix() ==> SuffixThere(m, c))
    else
      c.Suffix() && !o.setDomainName && SuffixThere(m, c) && (c.Sync() ==> o.writeSync)
  }

  lemma InEffectAfterNameChange(m: Machine, c: Change, o: Outcomes)
    requires JustRead(m, c)
    ensures NotRenamed(m, c, o) ==> NameChange(m, c, o) == m
    ensures !NotRenamed(m, c, o) && (c.ShortName() ==> o.setShortName) ==>
      var after := NameChange(m, c, o);
      && NameInEffect(after, c)
      && (SyncInEffect(after, c) <==> (c.Sync() ==> o.writeSync))
      && (SuffixInEffect(after, c) <==> (c.Suffix() ==> o.setDomainName || SuffixThere(m, c)))
  {
    InEffectBefore(m, c);
  }

  lemma InEffectWithoutName(m: Machine, c: Change, o: Outcomes)
    requires JustRead(m, c) && !NotRenamed(m, c, o) && c.ShortName() && !o.setShortName
    ensures var after := NameChange(m, c, o);
      && (SyncInEffect(after, c) <==> !c.Sync())
      && (NameInEffect(after, c) <==> !m.HasTcp() && (MustRename(m, c) || NameThere(m, c)))
      && (SuffixInEffect(after, c) <==> (c.Suffix() ==> SuffixThere(m, c)))
  {
    InEffectBefore(m, c);
  }

  /** For every machine and all outcomes, the report of a name change is right except for those outcomes. */
  lemma NameChangeReports(m: Machine, c: Change, o: Outcomes)
    requires JustRead(m, c)
    ensures (NameChangeResult(m, c, o) <==> SettingsInEffect(NameChange(m, c, o), c)) <==> !NameMisreported(m, c, o)
  {
    InEffectBefore(m, c);
    InEffectAfterNameChange(m, c, o);
    if !NotRenamed(m, c, o) && c.ShortName() && !o.setShortName {
      InEffectWithoutName(m, c, o);
    }
  }

  /** Success is real on every machine; only a refused user name makes it up. */
  lemma NameSuccessIsReal(m: Machine, c: Change, o: Outcomes)
    requires JustRead(m, c) && !(MustRename(m, c) && NameRefused(c.current.domainName, o))
    ensures NameChangeResult(m, c, o) ==> SettingsInEffect(NameChange(m, c, o), c)
  {
  }

  const ALL_SUCCEED :=
    Outcomes(Some(""), true, true, true, true, true, true, "", true, true, true, true, true, true, true, true)

  predicate NameReportAgrees(m: Machine, c: Change, o: Outcomes) {
    NameChangeResult(m, c, o) <==> SettingsInEffect(NameChange(m, c, o), c)
  }

  /** A name change that can take effect although one of its calls fails; under TCP/IP there is none. */
  predicate NameCoincidence(m: Machine, c: Change) {
    && !m.HasTcp()
    && (|| (c.ShortName() && (MustRename(m, c) || NameThere(m, c)) && !c.Sync() && (c.Suffix() ==> SuffixThere(m, c)))
        || (c.Suffix() && SuffixThere(m, c)))
  }

  /** With an acceptable user name the report agrees with the machine over all outcomes exactly without coincidence. */
  lemma NameReportExactly(m: Machine, c: Change)
    requires JustRead(m, c)
    ensures (forall o :: !(MustRename(m, c) && NameRefused(c.current.domainName, o)) ==> NameReportAgrees(m, c, o))
       <==> !NameCoincidence(m, c)
  {
    if NameCoincidence(m, c) {
      var o := if c.Suffix() && SuffixThere(m, c) then ALL_SUCCEED.(setDomainName := false)
               else ALL_SUCCEED.(setShortName := false);
      NameChangeReports(m, c, o);
      assert !NameReportAgrees(m, c, o);
    } else {
      forall o | !(MustRename(m, c) && NameRefused(c.current.domainName, o))
        ensures NameReportAgrees(m, c, o)
      {
        NameChangeReports(m, c, o);
      }
    }
  }

  // ----- A change to a workgroup.

  predicate WorkgroupInEffect(m: Machine, c: Change) {
    m.membership == Workgroup(c.current.domainName) && SettingsInEffect(m, c)
  }

  predicate WorkgroupReportAgrees(m: Machine, c: Change, o: Outcomes) {
    WorkgroupChangeResult(m, c, o) <==> WorkgroupInEffect(WorkgroupChange(m, c, o), c)
  }

  /** The machine is in the wanted workgroup even when joining it fails. */
  predicate ThereAnyway(m: Machine, c: Change) {
    if MustUnjoin(m, c) then c.current.domainName == DEFAULT_WORKGROUP
    else m.membership == Workgroup(c.current.domainName)
  }

  /** The suffix is as asked even when setting it fails, since leaving the domain has cleared it. */
  predicate SuffixAnyway(m: Machine, c: Change) {
    if MustUnjoin(m, c) && c.current.syncDnsNames then c.current.computerDomainDnsName == ""
    else SuffixThere(m, c)
  }

  /** The outcomes for which a change to a workgroup reports success or failure wrongly. */
  predicate WorkgroupMisreported(m: Machine, c: Change, o: Outcomes) {
    && (c.Sync() ==> o.writeSync)
    && if MustUnjoin(m, c) && NameRefused(c.original.domainName, o) then true
       else if MustUnjoin(m, c) && !(o.credentials.Some? && o.Unjoins()) then false
       else if !o.joinWorkgroup then
         ThereAnyway(m, c) && (c.ShortName() ==> NameThere(m, c)) && (c.Suffix() ==> SuffixAnyway(m, c))
       else
         && ((c.ShortName() && !o.setShortName) || (c.Suffix() && !o.setDomainName))
         && (c.ShortName() ==> o.setShortName || NameThere(m, c))
         && (c.Suffix() ==> o.setDomainName || SuffixAnyway(m, c))
  }

  /** The machine stays in its domain. */
  predicate NotLeft(m: Machine, c: Change, o: Outcomes) {
    MustUnjoin(m, c) && (NameRefused(c.original.domainName, o) || !(o.credentials.Some? && o.Unjoins()))
  }

  lemma MembershipAfterWorkgroupChange(m: Machine, c: Change, o: Outcomes)
    requires c.original == Refreshed(m)
    ensures var after := WorkgroupChange(m, c, o).membership;
      && (NotLeft(m, c, o) ==> after == m.membership && after.Domain?)
      && (!NotLeft(m, c, o) ==> (after == Workgroup(c.current.domainName) <==> o.joinWorkgroup || ThereAnyway(m, c)))
  {
  }

  lemma SyncAfterWorkgroupChange(m: Machine, c: Change, o: Outcomes)
    requires c.original == Refreshed(m) && !NotLeft(m, c, o)
    ensures SyncInEffect(WorkgroupChange(m, c, o), c) <==> (c.Sync() ==> o.writeSync)
  {
    assert WorkgroupChange(m, c, o).syncValue == SyncWritten(m, c, o).syncValue;
  }

  lemma NameAfterWorkgroupChange(m: Machine, c: Change, o: Outcomes)
    requires JustRead(m, c) && !NotLeft(m, c, o)
    ensures NameInEffect(WorkgroupChange(m, c, o), c) <==>
      (c.ShortName() ==> (o.joinWorkgroup && o.setShortName) || NameThere(m, c))
  {
    InEffectBefore(m, c);
    var after := WorkgroupChange(m, c, o);
    if c.ShortName() && !(o.joinWorkgroup && o.setShortName) {
      assert after.BootName() == m.BootName();
    }
  }

  lemma SuffixAfterWorkgroupChange(m: Machine, c: Change, o: Outcomes)
    requires JustRead(m, c) && !NotLeft(m, c, o) && (c.Sync() ==> o.writeSync)
    ensures SuffixInEffect(WorkgroupChange(m, c, o), c) <==>
      (c.Suffix() ==> (o.joinWorkgroup && o.setDomainName) || SuffixAnyway(m, c))
  {
    InEffectBefore(m, c);
  }

  /** For every machine and all outcomes, the report of a change to a workgroup is right except for those outcomes. */
  lemma WorkgroupChangeReports(m: Machine, c: Change, o: Outcomes)
    requires JustRead(m, c)
    ensures WorkgroupReportAgrees(m, c, o) <==> !WorkgroupMisreported(m, c, o)
  {
    MembershipAfterWorkgroupChange(m, c, o);
    if !NotLeft(m, c, o) {
      SyncAfterWorkgroupChange(m, c, o);
      NameAfterWorkgroupChange(m, c, o);
      if c.Sync() ==> o.writeSync {
        SuffixAfterWorkgroupChange(m, c, o);
      }
    }
  }

  /** Success is real on every machine; only a refused user name makes it up. */
  lemma WorkgroupSuccessIsReal(m: Machine, c: Change, o: Outcomes)
    requires JustRead(m, c) && !(MustUnjoin(m, c) && NameRefused(c.original.domainName, o))
    ensures WorkgroupChangeResult(m, c, o) ==> WorkgroupInEffect(WorkgroupChange(m, c, o), c)
  {
    WorkgroupChangeReports(m, c, o);
  }

  /** A change that can take effect although one of its calls fails. */
  predicate Coincidence(m: Machine, c: Change) {
    || (ThereAnyway(m, c) && (c.ShortName() ==> NameThere(m, c)) && (c.Suffix() ==> SuffixAnyway(m, c)))
    || (c.ShortName() && NameThere(m, c))
    || (c.Suffix() && SuffixAnyway(m, c))
  }

  /** With an acceptable user name the report agrees with the machine over all outcomes exactly without coincidence. */
  lemma WorkgroupReportExactly(m: Machine, c: Change)
    requires JustRead(m, c)
    ensures (forall o :: !(MustUnjoin(m, c) && NameRefused(c.original.domainName, o)) ==>
                           WorkgroupReportAgrees(m, c, o))
       <==> !Coincidence(m, c)
  {
    if Coincidence(m, c) {
      var o := if c.Suffix() && SuffixAnyway(m, c) then ALL_SUCCEED.(setDomainName := false)
               else if c.ShortName() && NameThere(m, c) then ALL_SUCCEED.(setShortName := false)
               else ALL_SUCCEED.(joinWorkgroup := false);
      WorkgroupChangeReports(m, c, o);
      assert !WorkgroupReportAgrees(m, c, o);
    } else {
      forall o | !(MustUnjoin(m, c) && NameRefused(c.original.domainName, o))
        ensures WorkgroupReportAgrees(m, c, o)
      {
        WorkgroupChangeReports(m, c, o);
      }
    }
  }

  /** A refused user name leaves the machine in its domain, and is reported as success unless the sync flag failed. */
  lemma RefusedNameIsReportedAsSuccess(m: Machine, c: Change, o: Outcomes)
    requires c.original == Refreshed(m)
    requires MustUnjoin(m, c) && NameRefused(c.original.domainName, o)
    ensures WorkgroupChangeResult(m, c, o) == (c.Sync() ==> o.writeSync)
    ensures !WorkgroupInEffect(WorkgroupChange(m, c, o), c)
    ensures WorkgroupChange(m, c, o).(syncValue := m.syncValue) == m
    ensures SyncInEffect(WorkgroupChange(m, c, o), c) <==> (c.Sync() ==> o.writeSync)
  {
  }

  /** A cancelled or failed unjoin leaves membership, names and suffix alone, and the sync flag when it is put back. */
  lemma FailedUnjoinIsUndone(m: Machine, c: Change, o: Outcomes)
    requires MustUnjoin(m, c) && !NameRefused(c.original.domainName, o)
    requires o.credentials.None? || !o.Unjoins()
    requires c.original == Refreshed(m)
    ensures !WorkgroupChangeResult(m, c, o)
    ensures WorkgroupChange(m, c, o).(syncValue := m.syncValue) == m
    ensures Refreshed(WorkgroupChange(m, c, o)) == Refreshed(m) <==> (c.Sync() && o.writeSync ==> o.restoreSync)
  {
  }

  // ----- A change to a domain.

  /** The suffix that a finished change to a domain leaves is the one that was asked for. */
  predicate SuffixAsAsked(m: Machine, c: Change, o: Outcomes) {
    || (SuffixAtEnd(m, c) && o.setDomainName)
    || if SyncWritten(m, c, o).SyncFlag() then o.joinedSuffix == c.current.computerDomainDnsName
       else m.HasTcp() || SuffixThere(m, c)
  }

  lemma JoinedMachine(m: Machine, c: Change, o: Outcomes)
    requires JustRead(m, c) && !NotJoined(m, c, o)
    ensures var joined := AfterJoin(m, c, o);
      && joined.membership == Domain(c.current.domainName) && joined.HasTcp() == m.HasTcp()
      && joined.BootName() == m.BootName() && joined.futureNetbios == m.futureNetbios
      && joined.SyncFlag() == SyncWritten(m, c, o).SyncFlag()
      && (SyncInEffect(joined, c) <==> (c.Sync() ==> o.writeSync))
      && (NameInEffect(joined, c) <==> (c.ShortName() ==> NameThere(m, c)))
      && joined.nvDomain == if joined.SyncFlag() then Some(o.joinedSuffix)
                            else if m.HasTcp() && c.Suffix() then Some(c.current.computerDomainDnsName)
                            else m.nvDomain
  {
    InEffectBefore(m, c);
  }

  lemma RenamedMachine(joined: Machine, c: Change, o: Outcomes)
    requires c.current.shortComputerName != ""
    requires joined.HasTcp() ==> o.writeHostname
    ensures var after := AfterRename(joined, c, o);
      && after.membership == joined.membership && after.SyncFlag() == joined.SyncFlag()
      && after.nvDomain == joined.nvDomain
      && (o.rename ==> after.BootName() == BootForm(joined, c.current.shortComputerName))
      && (!o.rename && !joined.HasTcp() ==> after.BootName() == joined.BootName())
      && (!o.rename && joined.HasTcp() && c.ShortName() && c.original.shortComputerName != "" ==>
            (after.BootName() == c.current.shortComputerName <==> !o.restoreHostname))
  {
  }

  /** What a machine that has joined is like, whether success was reported or not. */
  lemma JoinMeans(m: Machine, c: Change, o: Outcomes)
    requires JustRead(m, c) && !NotJoined(m, c, o)
    ensures var after := DomainChange(m, c, o);
      && after.membership == Domain(c.current.domainName)
      && (SyncInEffect(after, c) <==> (c.Sync() ==> o.writeSync))
      && (NameInEffect(after, c) <==>
            (c.ShortName() ==>
               match Phase(m, c, o)
               case HostnameRefused => false
               case KeptOldName => if m.HasTcp() then !o.restoreHostname else NameThere(m, c)
               case _ => true))
      && (SuffixInEffect(after, c) <==> (c.Suffix() ==> SuffixAsAsked(m, c, o)))
  {
    var joined := AfterJoin(m, c, o);
    JoinedMachine(m, c, o);
    if Phase(m, c, o) == HostnameRefused {
      assert DomainChange(m, c, o) == joined;
    } else if NeedsRename(m, c) {
      RenamedMachine(joined, c, o);
    }
  }

  /** For all outcomes the machine ends in the new domain exactly when it has joined; otherwise failure is reported. */
  lemma DomainFailureMeans(m: Machine, c: Change, o: Outcomes)
    requires c.original == Refreshed(m) && c.ToDomain()
    ensures DomainChange(m, c, o).membership == Domain(c.current.domainName) <==> !NotJoined(m, c, o)
    ensures NotJoined(m, c, o) ==> DomainChange(m, c, o).membership == m.membership && !DomainChangeResult(m, c, o)
  {
    assert m.membership != Domain(c.current.domainName);
    var joined := AfterJoin(m, c, o);
    assert joined.membership == AfterRename(joined, c, o).membership == Domain(c.current.domainName);
    if NotJoined(m, c, o) {
      assert DomainChange(m, c, o).membership == m.membership;
    }
  }
}
