// Saving identity changes: domain, workgroup and name (netid/state.cpp).

module IdentityChange {
  import opened Wrappers
  import opened UserNames
  import opened MachineIdentity

  /** The outcome of every call that can fail, one field for each place where it is made. */
  datatype Outcomes = Outcomes(
    credentials: Option<string>,  // the user name that was entered, or a cancelled prompt
    writeSync: bool,
    restoreSync: bool,
    writeSuffix: bool,
    restoreSuffix: bool,
    join: bool,
    joinWithCreate: bool,
    joinedSuffix: string,         // the suffix of the domain that is joined
    writeHostname: bool,
    restoreHostname: bool,
    rename: bool,
    setShortName: bool,
    setDomainName: bool,
    unjoin: bool,
    unjoinKeepingAccount: bool,
    joinWorkgroup: bool)
  {
    predicate Joins() {
      join || joinWithCreate
    }

    predicate Unjoins() {
      unjoin || unjoinKeepingAccount
    }

    predicate Restores() {
      restoreSync && restoreSuffix && restoreHostname
    }

    /** The credentials are given and their user name is acceptable. */
    predicate Authorizes(domainName: string) {
      credentials.Some? && MassageUserName(domainName, credentials.value).Some?
    }
  }

  /** What the user asks to change. */
  datatype Change = Change(original: Settings, current: Settings) {
    predicate Sync() {
      original.syncDnsNames != current.syncDnsNames
    }

    predicate ShortName() {
      Differ(original.shortComputerName, current.shortComputerName)
    }

    predicate Suffix() {
      Differ(original.computerDomainDnsName, current.computerDomainDnsName)
    }

    predicate ToDomain() {
      !current.joinedToWorkgroup
      && (original.joinedToWorkgroup || Differ(original.domainName, current.domainName))
    }

    predicate ToWorkgroup() {
      current.joinedToWorkgroup
      && (!original.joinedToWorkgroup || Differ(original.domainName, current.domainName))
    }
  }

  // ----- The net effect of each procedure, without the writes that are undone on the way.

  function SyncWritten(m: Machine, c: Change, o: Outcomes): Machine {
    if c.Sync() && o.writeSync then m.(syncValue := Some(c.current.syncDnsNames)) else m
  }

  /** The machine just before a join: with the new sync flag and, under TCP/IP, the new suffix. */
  function Prepared(m: Machine, c: Change, o: Outcomes): Machine {
    var written := SyncWritten(m, c, o);
    if m.HasTcp() && c.Suffix() && o.writeSuffix then written.(nvDomain := Some(c.current.computerDomainDnsName))
    else written
  }

  /** The sync flag after it was changed for nothing and put back. */
  function SyncPutBack(m: Machine, c: Change, o: Outcomes): Machine {
    if c.Sync() && o.writeSync then
      m.(syncValue := Some(if o.restoreSync then c.original.syncDnsNames else c.current.syncDnsNames))
    else m
  }

  predicate NeedsRename(m: Machine, c: Change) {
    c.ShortName() || m.activeNetbios != m.futureNetbios
  }

  /** How far a change to a domain gets. */
  datatype DomainPhase =
    | NotStarted
    | SuffixRefused
    | JoinRefused
    | HostnameRefused
    | KeptOldName
    | Renamed
    | NameUntouched

  function Phase(m: Machine, c: Change, o: Outcomes): DomainPhase {
    if !o.Authorizes(c.current.domainName) then NotStarted
    else if m.HasTcp() && c.Suffix() && !o.writeSuffix then SuffixRefused
    else if !o.Joins() then JoinRefused
    else if !NeedsRename(m, c) then NameUntouched
    else if m.HasTcp() && !o.writeHostname then HostnameRefused
    else if o.rename then Renamed
    else KeptOldName
  }

  /** The machine once the join has succeeded. */
  function AfterJoin(m: Machine, c: Change, o: Outcomes): Machine {
    Joined(Prepared(m, c, o), c.current.domainName, o.joinedSuffix)
  }

  /** The machine once the join has failed: what was written for it is put back. */
  function AfterFailedJoin(m: Machine, c: Change, o: Outcomes): Machine {
    var back := SyncPutBack(m, c, o);
    if m.HasTcp() && c.Suffix() then
      back.(nvDomain := Some(if o.restoreSuffix then c.original.computerDomainDnsName
                             else c.current.computerDomainDnsName))
    else back
  }

  /** The machine, once joined, with its new name, or with its old one when the account keeps that. */
  function AfterRename(joined: Machine, c: Change, o: Outcomes): Machine {
    if joined.HasTcp() && !o.writeHostname then joined
    else if o.rename then Named(joined.(account := c.current.shortComputerName), c.current.shortComputerName)
    else if joined.HasTcp() then
      joined.(nvHostname := if o.restoreHostname then c.original.shortComputerName else c.current.shortComputerName)
    else joined
  }

  /** Without TCP/IP the suffix is only set at the end, and only when the join does not set it. */
  predicate SuffixAtEnd(m: Machine, c: Change) {
    !c.current.syncDnsNames && c.Suffix() && !m.HasTcp()
  }

  function WithSuffixAtEnd(joined: Machine, m: Machine, c: Change, o: Outcomes): Machine {
    if SuffixAtEnd(m, c) && o.setDomainName then joined.(nvDomain := Some(c.current.computerDomainDnsName)) else joined
  }

  function DomainChange(m: Machine, c: Change, o: Outcomes): Machine {
    match Phase(m, c, o)
    case NotStarted => m
    case SuffixRefused => SyncWritten(m, c, o)
    case JoinRefused => AfterFailedJoin(m, c, o)
    case HostnameRefused => AfterJoin(m, c, o)
    case NameUntouched => WithSuffixAtEnd(AfterJoin(m, c, o), m, c, o)
    case Renamed => WithSuffixAtEnd(AfterRename(AfterJoin(m, c, o), c, o), m, c, o)
    case KeptOldName => WithSuffixAtEnd(AfterRename(AfterJoin(m, c, o), c, o), m, c, o)
  }

  function DomainChangeResult(m: Machine, c: Change, o: Outcomes): bool {
    match Phase(m, c, o)
    case NotStarted => false
    case SuffixRefused => false
    case JoinRefused => false
    case HostnameRefused => false
    case NameUntouched => SuffixAtEnd(m, c) ==> o.setDomainName
    case Renamed => if SuffixAtEnd(m, c) then o.setDomainName else o.setShortName
    case KeptOldName => SuffixAtEnd(m, c) ==> o.setDomainName
  }

  /** The machine must leave its domain before it can join a workgroup. */
  predicate MustUnjoin(m: Machine, c: Change) {
    !c.original.joinedToWorkgroup && m.networking
  }

  /** The user name is refused, which breaks off the change to a workgroup without counting as a failure. */
  predicate NameRefused(domainName: string, o: Outcomes) {
    o.credentials.Some? && MassageUserName(domainName, o.credentials.value).None?
  }

  function WithNames(m: Machine, c: Change, o: Outcomes): Machine {
    var named := if c.ShortName() && o.setShortName then Named(m, c.current.shortComputerName) else m;
    if c.Suffix() && o.setDomainName then named.(nvDomain := Some(c.current.computerDomainDnsName)) else named
  }

  function WorkgroupChange(m: Machine, c: Change, o: Outcomes): Machine {
    if MustUnjoin(m, c) && NameRefused(c.original.domainName, o) then SyncWritten(m, c, o)
    else if MustUnjoin(m, c) && !(o.credentials.Some? && o.Unjoins()) then SyncPutBack(m, c, o)
    else
      var written := SyncWritten(m, c, o);
      var left := if MustUnjoin(m, c) then Unjoined(written) else written;
      if !o.joinWorkgroup then left
      else WithNames(left.(membership := Workgroup(c.current.domainName)), c, o)
  }

  function WorkgroupChangeResult(m: Machine, c: Change, o: Outcomes): bool {
    && (c.Sync() ==> o.writeSync)
    && if MustUnjoin(m, c) && NameRefused(c.original.domainName, o) then true
       else
         && (MustUnjoin(m, c) ==> o.credentials.Some? && o.Unjoins())
         && o.joinWorkgroup
         && (c.ShortName() ==> o.setShortName)
         && (c.Suffix() ==> o.setDomainName)
  }

  /** The account of a domain member is renamed before the machine is. */
  predicate MustRename(m: Machine, c: Change) {
    c.ShortName() && !c.original.joinedToWorkgroup && m.networking
  }

  function NameChange(m: Machine, c: Change, o: Outcomes): Machine {
    if MustRename(m, c) && !(o.Authorizes(c.current.domainName) && o.rename) then m
    else
      var account := if MustRename(m, c) then
        m.(account := c.current.shortComputerName, futureNetbios := NetbiosName(c.current.shortComputerName)) else m;
      if c.ShortName() && !o.setShortName then account
      else SyncWritten(WithNames(account, c, o), c, o)
  }

  function NameChangeResult(m: Machine, c: Change, o: Outcomes): bool {
    if MustRename(m, c) && NameRefused(c.current.domainName, o) then true
    else
      && (MustRename(m, c) ==> o.Authorizes(c.current.domainName) && o.rename)
      && (c.ShortName() ==> o.setShortName)
      && (c.Sync() ==> o.writeSync)
      && (c.Suffix() ==> o.setDomainName)
  }

  function SaveEffect(m: Machine, c: Change, o: Outcomes): Machine {
    if c.ToDomain() then DomainChange(m, c, o)
    else if c.ToWorkgroup() then WorkgroupChange(m, c, o)
    else NameChange(m, c, o)
  }

  function SaveResult(m: Machine, c: Change, o: Outcomes): bool {
    if c.ToDomain() then DomainChangeResult(m, c, o)
    else if c.ToWorkgroup() then WorkgroupChangeResult(m, c, o)
    else NameChangeResult(m, c, o)
  }

  // ----- The procedures.

  /** The page's state: the settings as they were read, and as the user has edited them since. */
  class State {
    const computer: Computer
    const original: Settings
    const current: Settings

    constructor (computer: Computer, original: Settings, current: Settings)
      ensures this.computer == computer && this.original == original && this.current == current
    {
      this.computer, this.original, this.current := computer, original, current;
    }

    ghost function Requested(): Change {
      Change(original, current)
    }

    /** Tries to join with the account as it is, then once more with creating it. */
    method JoinDomain(domainName: string, o: Outcomes) returns (hr: bool)
      modifies computer
      ensures hr == (o.join || o.joinWithCreate)
      ensures computer.state ==
              if hr then Joined(old(computer.state), domainName, o.joinedSuffix) else old(computer.state)
    {
      hr := computer.NetJoinDomain(domainName, o.joinedSuffix, o.join);
      if !hr {
        hr := computer.NetJoinDomain(domainName, o.joinedSuffix, o.joinWithCreate);
      }
    }

    /** Tries to leave with deleting the account, then once more without. */
    method UnjoinDomain(o: Outcomes) returns (hr: bool)
      modifies computer
      ensures hr == (o.unjoin || o.unjoinKeepingAccount)
      ensures computer.state == if hr then Unjoined(old(computer.state)) else old(computer.state)
    {
      hr := computer.NetUnjoinDomain(o.unjoin);
      if !hr {
        hr := computer.NetUnjoinDomain(o.unjoinKeepingAccount);
      }
    }

    method DoSaveDomainChange(o: Outcomes) returns (result: bool)
      modifies computer
      ensures computer.state == DomainChange(old(computer.state), Requested(), o)
      ensures result == DomainChangeResult(old(computer.state), Requested(), o)
    {
      ghost var m, c := computer.state, Requested();
      if o.credentials.None? {
        return false;
      }
      var isTcpInstalled := computer.state.networking && computer.state.tcpip;
      var massaged := MassageUserName(current.domainName, o.credentials.value);
      if massaged.None? {
        return false;
      }
      var shortNameNeedsChange :=
        Differ(original.shortComputerName, current.shortComputerName)
        || computer.state.activeNetbios != computer.state.futureNetbios;
      var dnsSuffixNeedsChange := Differ(original.computerDomainDnsName, current.computerDomainDnsName);
      var hr, changedSyncFlag, changedDnsSuffix := WriteBeforeJoin(isTcpInstalled, dnsSuffixNeedsChange, o);
      if !hr {
        assert Phase(m, c, o) == SuffixRefused;
        return false;
      }
      hr := JoinDomain(current.domainName, o);
      if !hr {
        assert Phase(m, c, o) == JoinRefused;
        UndoAfterJoin(changedSyncFlag, isTcpInstalled && changedDnsSuffix, m, o);
        return false;
      }
      result := SaveJoined(shortNameNeedsChange, isTcpInstalled, dnsSuffixNeedsChange && !changedDnsSuffix, m, o);
    }

    /** What remains once the machine has joined: its name and, if nothing has set it yet, its suffix. */
    method SaveJoined(shortNameNeedsChange: bool, isTcpInstalled: bool, suffixNotSet: bool,
                      ghost m: Machine, o: Outcomes)
      returns (result: bool)
      requires computer.state == AfterJoin(m, Requested(), o) && isTcpInstalled == m.HasTcp()
      requires o.Joins() && o.Authorizes(current.domainName) && (m.HasTcp() && Requested().Suffix() ==> o.writeSuffix)
      requires shortNameNeedsChange == NeedsRename(m, Requested())
      requires suffixNotSet == (Requested().Suffix() && !m.HasTcp())
      modifies computer
      ensures computer.state == DomainChange(m, Requested(), o)
      ensures result == DomainChangeResult(m, Requested(), o)
    {
      var hr := true;
      if shortNameNeedsChange {
        var stopped;
        hr, stopped := RenameAfterJoin(isTcpInstalled, o);
        if stopped {
          return false;
        }
      }
      if !current.syncDnsNames && suffixNotSet {
        hr := computer.SetSuffixValue(current.computerDomainDnsName, o.setDomainName);
      }
      result := hr;
    }

    /** Puts back what was written for a join that failed. */
    method UndoAfterJoin(changedSyncFlag: bool, changedDnsSuffix: bool, ghost m: Machine, o: Outcomes)
      requires computer.state == Prepared(m, Requested(), o)
      requires changedSyncFlag == (Requested().Sync() && o.writeSync)
      requires changedDnsSuffix == (m.HasTcp() && Requested().Suffix()) && (changedDnsSuffix ==> o.writeSuffix)
      modifies computer
      ensures computer.state == AfterFailedJoin(m, Requested(), o)
    {
      if changedDnsSuffix {
        var _ := computer.SetSuffixValue(original.computerDomainDnsName, o.restoreSuffix);
      }
      if changedSyncFlag {
        var _ := computer.WriteSyncFlag(original.syncDnsNames, o.restoreSync);
      }
    }

    /** Writes the sync flag and the suffix, which the join looks at; only a refused suffix stops the change. */
    method WriteBeforeJoin(isTcpInstalled: bool, dnsSuffixNeedsChange: bool, o: Outcomes)
      returns (hr: bool, changedSyncFlag: bool, changedDnsSuffix: bool)
      requires isTcpInstalled == computer.state.HasTcp() && dnsSuffixNeedsChange == Requested().Suffix()
      modifies computer
      ensures computer.state == Prepared(old(computer.state), Requested(), o)
      ensures hr == (isTcpInstalled && dnsSuffixNeedsChange ==> o.writeSuffix)
      ensures changedSyncFlag == (Requested().Sync() && o.writeSync)
      ensures hr ==> changedDnsSuffix == (isTcpInstalled && dnsSuffixNeedsChange)
    {
      hr, changedSyncFlag, changedDnsSuffix := true, false, false;
      if original.syncDnsNames != current.syncDnsNames {
        var written := computer.WriteSyncFlag(current.syncDnsNames, o.writeSync);
        if written {
          changedSyncFlag := true;
        }
      }
      if isTcpInstalled && dnsSuffixNeedsChange {
        hr := computer.SetSuffixValue(current.computerDomainDnsName, o.writeSuffix);
        if !hr {
          return;
        }
        changedDnsSuffix := true;
      }
    }

    /** Renames the joined machine; when its account keeps the old name, the machine does too. */
    method RenameAfterJoin(isTcpInstalled: bool, o: Outcomes) returns (hr: bool, stopped: bool)
      requires isTcpInstalled == computer.state.HasTcp()
      modifies computer
      ensures computer.state == AfterRename(old(computer.state), Requested(), o)
      ensures stopped == (isTcpInstalled && !o.writeHostname)
      ensures hr == (!stopped && (o.rename ==> o.setShortName))
    {
      stopped := false;
      if isTcpInstalled {
        hr := computer.SetHostnameValue(current.shortComputerName, o.writeHostname);
        if !hr {
          return false, true;
        }
      }
      hr := computer.NetRenameMachineInDomain(current.shortComputerName, o.rename);
      if !hr {
        if isTcpInstalled {
          var _ := computer.SetHostnameValue(original.shortComputerName, o.restoreHostname);
        }
        // The join has worked, under the old name, so that the operation as a whole has not failed.
        hr := true;
      } else {
        hr := computer.SetComputerName(current.shortComputerName, o.setShortName);
      }
    }

    method DoSaveWorkgroupChange(o: Outcomes) returns (result: bool)
      modifies computer
      ensures computer.state == WorkgroupChange(old(computer.state), Requested(), o)
      ensures result == WorkgroupChangeResult(old(computer.state), Requested(), o)
    {
      var hr, unjoinFailed, changedSyncFlag := true, false, false;
      result := true;
      label steps: {
        if original.syncDnsNames != current.syncDnsNames {
          hr := computer.WriteSyncFlag(current.syncDnsNames, o.writeSync);
          if !hr {
            result := false;
          } else {
            changedSyncFlag := true;
          }
        }
        if !original.joinedToWorkgroup && computer.state.networking {
          var refused;
          unjoinFailed, refused := LeaveDomain(o);
          if unjoinFailed {
            result := false;
            break steps;
          }
          if refused {
            break steps;
          }
        }
        hr := computer.NetJoinWorkgroup(current.domainName, o.joinWorkgroup);
        if !hr {
          result := false;
          break steps;
        }
        hr := SetNames(o);
        if !hr {
          result := false;
        }
      }
      if unjoinFailed && changedSyncFlag {
        hr := computer.WriteSyncFlag(original.syncDnsNames, o.restoreSync);
      }
    }

    /** Leaves the domain, unless the prompt is cancelled, the user name is refused, or leaving fails. */
    method LeaveDomain(o: Outcomes) returns (failed: bool, refused: bool)
      modifies computer
      ensures refused == NameRefused(original.domainName, o)
      ensures failed == (!refused && !(o.credentials.Some? && o.Unjoins()))
      ensures computer.state == if refused || failed then old(computer.state) else Unjoined(old(computer.state))
    {
      if o.credentials.None? {
        return true, false;
      }
      var massaged := MassageUserName(original.domainName, o.credentials.value);
      if massaged.None? {
        return false, true;
      }
      var hr := UnjoinDomain(o);
      return !hr, false;
    }

    /** Sets the host name and the suffix as far as they were edited; one failing does not stop the other. */
    method SetNames(o: Outcomes) returns (result: bool)
      modifies computer
      ensures computer.state == WithNames(old(computer.state), Requested(), o)
      ensures result == ((Requested().ShortName() ==> o.setShortName) && (Requested().Suffix() ==> o.setDomainName))
    {
      result := true;
      if Differ(original.shortComputerName, current.shortComputerName) {
        var hr := computer.SetComputerName(current.shortComputerName, o.setShortName);
        if !hr {
          result := false;
        }
      }
      if Differ(original.computerDomainDnsName, current.computerDomainDnsName) {
        var hr := computer.SetSuffixValue(current.computerDomainDnsName, o.setDomainName);
        if !hr {
          result := false;
        }
      }
    }

    method DoSaveNameChange(o: Outcomes) returns (result: bool)
      modifies computer
      ensures computer.state == NameChange(old(computer.state), Requested(), o)
      ensures result == NameChangeResult(old(computer.state), Requested(), o)
    {
      result := true;
      var hr := true;
      if Differ(original.shortComputerName, current.shortComputerName) {
        if !original.joinedToWorkgroup && computer.state.networking {
          if o.credentials.None? {
            return false;
          }
          var massaged := MassageUserName(current.domainName, o.credentials.value);
          if massaged.None? {
            return true;
          }
          hr := computer.NetRenameMachineInDomain(current.shortComputerName, o.rename);
          if !hr {
            return false;
          }
        }
        hr := computer.SetComputerName(current.shortComputerName, o.setShortName);
        if !hr {
          return false;
        }
      }
      if original.syncDnsNames != current.syncDnsNames {
        hr := computer.WriteSyncFlag(current.syncDnsNames, o.writeSync);
        if !hr {
          result := false;
        }
      }
      if Differ(original.computerDomainDnsName, current.computerDomainDnsName) {
        hr := computer.SetSuffixValue(current.computerDomainDnsName, o.setDomainName);
        if !hr {
          result := false;
        }
      }
    }

    method SaveChanges(o: Outcomes) returns (result: bool)
      modifies computer
      ensures computer.state == SaveEffect(old(computer.state), Requested(), o)
      ensures result == SaveResult(old(computer.state), Requested(), o)
    {
      if (original.joinedToWorkgroup && !current.joinedToWorkgroup)
         || (!original.joinedToWorkgroup && !current.joinedToWorkgroup
             && Differ(original.domainName, current.domainName)) {
        result := DoSaveDomainChange(o);
      } else if (!original.joinedToWorkgroup && current.joinedToWorkgroup)
                || (original.joinedToWorkgroup && current.joinedToWorkgroup
                    && Differ(original.domainName, current.domainName)) {
        result := DoSaveWorkgroupChange(o);
      } else {
        result := DoSaveNameChange(o);
      }
    }
  }
}
