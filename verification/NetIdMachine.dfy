// The machine identity that the network identification page reads and changes (netid/state.cpp).

module UserNames {
  import opened Wrappers

  /** Position of the first c, or |s|. */
  function Find(s: string, c: char): (n: nat)
    ensures n <= |s| && (forall k :: 0 <= k < n ==> s[k] != c) && (n < |s| ==> s[n] == c)
  {
    if s == "" || s[0] == c then 0 else 1 + Find(s[1..], c)
  }

  /** Qualifies a user name with the domain unless it is a principal name or qualified already; None is a refusal. */
  function MassageUserName(domainName: string, userName: string): Option<string> {
    if Find(userName, '@') < |userName| then Some(userName)
    else if domainName == "" || userName == "" then Some(userName)
    else
      var pos := Find(userName, '\\');
      if pos == |userName| then Some(domainName + "\\" + userName)
      else if pos == |userName| - 1 then None
      else Some(userName)
  }

  /** Refused are just the names whose only backslash is their last character and that have no '@'. */
  lemma MassageRefuses(domainName: string, userName: string)
    ensures MassageUserName(domainName, userName) == None <==>
      domainName != "" && userName != "" && '@' !in userName
      && userName[|userName| - 1] == '\\' && '\\' !in userName[..|userName| - 1]
  {
  }

  /** Which names are qualified, and how: only those without an at sign or backslash, behind domain and backslash. */
  lemma MassageExactly(domainName: string, userName: string)
    ensures var massaged := MassageUserName(domainName, userName);
      if domainName == "" || userName == "" || '@' in userName then massaged == Some(userName)
      else if '\\' !in userName then massaged == Some(domainName + "\\" + userName)
      else massaged.Some? ==> massaged == Some(userName)
  {
  }

  /** Qualifying a name a second time changes nothing. */
  lemma MassageTwice(domainName: string, userName: string)
    requires MassageUserName(domainName, userName).Some?
    ensures MassageUserName(domainName, MassageUserName(domainName, userName).value)
         == MassageUserName(domainName, userName)
  {
    var name := MassageUserName(domainName, userName).value;
    if name != userName {
      assert name[|domainName|] == '\\' && |domainName| < |name| - 1;
      var slash := Find(name, '\\');
      assert slash <= |domainName|;
    }
  }
}

module MachineIdentity {
  import opened Wrappers
  import opened Characters

  const DEFAULT_WORKGROUP := "WORKGROUP"
  const MAX_COMPUTERNAME_LENGTH := 15

  datatype Membership = Workgroup(name: string) | Domain(name: string)

  /**
   * What the calls read and write.  `hostname` and `domain` are in force until the next start, `nvHostname`
   * (empty when absent) and `nvDomain` from then on; `account` is the machine's name in its domain.
   */
  datatype Machine = Machine(
    syncValue: Option<bool>,
    hostname: string,
    nvHostname: string,
    domain: string,
    nvDomain: Option<string>,
    activeNetbios: string,
    futureNetbios: string,
    membership: Membership,
    account: string,
    networking: bool,
    tcpip: bool,
    policySuffix: Option<string>)
  {
    predicate HasTcp() {
      networking && tcpip
    }

    /** The sync flag defaults to on when it is not there. */
    function SyncFlag(): bool {
      syncValue.GetOr(true)
    }

    /** The short name after the next start. */
    function BootName(): string {
      if !HasTcp() then futureNetbios
      else if nvHostname == "" then hostname
      else nvHostname
    }

    function ActiveName(): string {
      if HasTcp() then hostname else activeNetbios
    }

    predicate RenamePending() {
      activeNetbios != futureNetbios || BootName() != ActiveName()
    }

    /** A domain member starts under the name of its machine account, or without TCP/IP under its down-level form. */
    predicate NamesAgree() {
      membership.Domain? ==> BootName() == BootForm(this, account)
    }
  }

  datatype Settings = Settings(
    computerDomainDnsName: string,
    domainName: string,
    fullComputerName: string,
    shortComputerName: string,
    syncDnsNames: bool,
    joinedToWorkgroup: bool)

  const UNKNOWN := "unknown"

  function ComposeFullDnsComputerName(hostname: string, suffix: string): string {
    if suffix == "" || suffix == "." then hostname + "." else hostname + "." + suffix
  }

  /** The settings as they are read from the machine. */
  function Refreshed(m: Machine): Settings {
    var domainName := if m.membership == Workgroup("") then DEFAULT_WORKGROUP else m.membership.name;
    var suffix := if m.HasTcp() then m.nvDomain.GetOr(m.domain) else UNKNOWN;
    var full :=
      if m.HasTcp() then ComposeFullDnsComputerName(m.BootName(), m.policySuffix.GetOr(suffix)) else m.BootName();
    Settings(suffix, domainName, full, m.BootName(), m.SyncFlag(), m.membership.Workgroup?)
  }

  /** A machine on which nothing was ever stored is read with the sync flag on, and with the names in force. */
  lemma FirstReading(m: Machine)
    requires m.syncValue == None && m.nvHostname == "" && m.nvDomain == None && m.membership == Workgroup("")
    ensures Refreshed(m).syncDnsNames && Refreshed(m).joinedToWorkgroup && Refreshed(m).domainName == "WORKGROUP"
    ensures m.HasTcp() ==>
      && Refreshed(m).shortComputerName == m.hostname && Refreshed(m).computerDomainDnsName == m.domain
      && |m.hostname| < |Refreshed(m).fullComputerName|
      && Refreshed(m).fullComputerName[..|m.hostname|] == m.hostname
      && Refreshed(m).fullComputerName[|m.hostname|] == '.'
  {
  }

  /** The two names differ in more than letter case. */
  predicate Differ(a: string, b: string) {
    Upper(a) != Upper(b)
  }

  /** The down-level form of a host name. */
  function NetbiosName(hostname: string): string {
    Upper(if |hostname| <= MAX_COMPUTERNAME_LENGTH then hostname else hostname[..MAX_COMPUTERNAME_LENGTH])
  }

  /** The boot name of a machine that has been given this name. */
  function BootForm(m: Machine, name: string): string {
    if m.HasTcp() then name else NetbiosName(name)
  }

  /** The machine behind the calls.  Each call takes its own outcome, and one that fails changes nothing. */
  class Computer {
    var state: Machine

    constructor (m: Machine)
      ensures state == m
    {
      state := m;
    }

    method WriteSyncFlag(flag: bool, ok: bool) returns (hr: bool)
      modifies this
      ensures hr == ok && state == if ok then old(state).(syncValue := Some(flag)) else old(state)
    {
      if ok {
        state := state.(syncValue := Some(flag));
      }
      hr := ok;
    }

    method SetSuffixValue(suffix: string, ok: bool) returns (hr: bool)
      modifies this
      ensures hr == ok && state == if ok then old(state).(nvDomain := Some(suffix)) else old(state)
    {
      if ok {
        state := state.(nvDomain := Some(suffix));
      }
      hr := ok;
    }

    method SetHostnameValue(hostname: string, ok: bool) returns (hr: bool)
      modifies this
      ensures hr == ok && state == if ok then old(state).(nvHostname := hostname) else old(state)
    {
      if ok {
        state := state.(nvHostname := hostname);
      }
      hr := ok;
    }

    /** Joins under the active name, and takes over the domain's suffix when the sync flag is on. */
    method NetJoinDomain(name: string, domainSuffix: string, ok: bool) returns (hr: bool)
      modifies this
      ensures hr == ok && state == if ok then Joined(old(state), name, domainSuffix) else old(state)
    {
      if ok {
        state := Joined(state, name, domainSuffix);
      }
      hr := ok;
    }

    /** Leaves the domain, and clears the suffix when the sync flag is on. */
    method NetUnjoinDomain(ok: bool) returns (hr: bool)
      modifies this
      ensures hr == ok && state == if ok then Unjoined(old(state)) else old(state)
    {
      if ok {
        state := Unjoined(state);
      }
      hr := ok;
    }

    method NetJoinWorkgroup(name: string, ok: bool) returns (hr: bool)
      modifies this
      ensures hr == ok && state == if ok then old(state).(membership := Workgroup(name)) else old(state)
    {
      if ok {
        state := state.(membership := Workgroup(name));
      }
      hr := ok;
    }

    /** Renames the machine account, and the down-level name with it. */
    method NetRenameMachineInDomain(name: string, ok: bool) returns (hr: bool)
      modifies this
      ensures hr == ok
      ensures state == if ok then old(state).(account := name, futureNetbios := NetbiosName(name)) else old(state)
    {
      if ok {
        state := state.(account := name, futureNetbios := NetbiosName(name));
      }
      hr := ok;
    }

    /** Sets the host name, or without TCP/IP the down-level name alone. */
    method SetComputerName(name: string, ok: bool) returns (hr: bool)
      modifies this
      ensures hr == ok && state == if ok then Named(old(state), name) else old(state)
    {
      if ok {
        state := Named(state, name);
      }
      hr := ok;
    }
  }

  function Joined(m: Machine, name: string, domainSuffix: string): Machine {
    m.(membership := Domain(name), account := m.ActiveName(),
       nvDomain := if m.SyncFlag() then Some(domainSuffix) else m.nvDomain)
  }

  function Unjoined(m: Machine): Machine {
    m.(membership := Workgroup(DEFAULT_WORKGROUP), nvDomain := if m.SyncFlag() then Some("") else m.nvDomain)
  }

  function Named(m: Machine, name: string): Machine {
    if m.HasTcp() then m.(nvHostname := name, futureNetbios := NetbiosName(name))
    else m.(futureNetbios := NetbiosName(name))
  }
}
