# Verified model of the directory tools, the check list and the identity page

A Dafny model of five computing cores of the administration tools, with proofs of what they promise for every
input, every run and every outcome of the calls they make.

| file | models |
|---|---|
| `CheckList.dfy` | the scrolling check list: item slots, scroll range, top item, visible count, bringing an item into view |
| `ChangePasswordAcl.dfy` | the access list entries behind "user cannot change password", and the rule that keeps that setting apart from "user must change password" |
| `UserAccountControl.dfy`, `GroupType.dfy` | evaluators that share one attribute descriptor, so that an attribute is read once and set once |
| `OutputDN.dfy` | escaping of distinguished names for output |
| `ExpandUsername.dfy` | expansion of `$username$` in values |
| `SamName.dfy` | down-level account names for computers |
| `NetIdMachine.dfy`, `NetIdState.dfy`, `NetIdProperties.dfy`, `NetIdSuccess.dfy` | saving a change of domain, workgroup or name, with the undoing of half-made changes |
| `ParserUtil.dfy` | separated lists and password entry |
| `Litow.dfy` | printing of 64-bit integers |

`dafny verify dfyconfig.toml` checks the whole project.

## How the model is built

Code that works in steps is a method or a class whose fields the methods change, proved against a specification
function or a direct statement; the results about runs, round trips and undoing are lemmas about those functions.
Calls into the system take their outcome as a parameter, so that every theorem holds for all sequences of outcomes.

- A 32-bit flag word is the set of its one bits. The `UF_` and `GROUP_TYPE_` values are the documented Win32 ones.
- The scroll bar keeps its page within its range and its position within `0 .. nMax - (nPage - 1)`, as documented
  for `SetScrollInfo`. Label windows are modelled by their current y position, so that "in view" is about windows.
- The constructor of the check list leaves the scroll bar's range as the window has it, as the source does; the first
  sizing message sets the range, and from there on the geometric invariant holds.
- Strings are sequences of characters. Case folding is that of the ASCII letters.
- A failed call has no effect, except where the code itself says otherwise. Joining a domain takes over that
  domain's suffix, and leaving one clears the suffix, when the sync flag is on (netid/state.cpp:1206-1211,
  netid/state.cpp:1369-1372).

## Where the code does not do what it says

Each item is proved with the exact condition, or shown with an input.

- `EnsureVisible` shows an item exactly when its slot, label plus gap, fits the window; a taller one is scrolled past.
- The early exit of `EvaluateCanChangePasswordAces` misses a deny behind a grant. "Must change" and "cannot change"
  stay apart on every run exactly when they do at the start and no grant hides a deny. A failed question in
  `ChangeMustChangePwd` leaves its failure code in place, so that nothing is committed; in `ChangeCanChangePassword`
  the code is overwritten and the change goes ahead. A run from such a start comes to a conflict exactly when a denial
  goes ahead in this way while the password must change.
- `MsgSize` lays the labels out as in a control that is not scrolled but keeps the scroll position, so that labels and
  scroll bar agree afterwards exactly when the position is 0 or there are no items.
- `AddItem` promises the index of the new item; when the label window fails it returns the index of the item before.
- The loop in `ExpandUsername` ends exactly when the value needs no expansion or the name needs none: a name whose first
  dollar sign starts a token is expanded for ever, while `svc$` is not.
- `GetPasswdStr` promises valid contents whenever it returns 0. After one character too many and a backspace it
  returns 0 with a length that is too large; it is right exactly when the line never outgrew the buffer.
- A separated list comes back complete exactly when no string after the first is empty.
- `litow` prints only the least 64-bit integer wrongly, as a lone minus sign.
- A change to a domain that stops because the suffix value could not be written keeps the new sync flag.
- A refused user name makes the change to a workgroup, or of the name, report success although nothing was done.
  Otherwise success is always real. A failure of a change to a workgroup is real for all outcomes exactly when what was
  asked for does not coincide with what the failed call leaves behind, such as the workgroup named WORKGROUP.
  A failure of a change of name is always real under TCP/IP. Without TCP/IP the settings show less than is stored and
  renaming the account sets the boot name too, so that a change can have taken effect although its last call failed.
- A domain member without networking is renamed without its account, and then does not start under its account's name.
- Without TCP/IP a change to a domain that sets the suffix last reports the result of that call alone, so that a failure
  to set the name before it is hidden.
- A change to a domain reports success for a machine that has joined. The sync flag may not have been written, the name
  may be the old one when the account could not be renamed, and the suffix may be the one that came with the domain.
- In `SetGroupSecurity` the second allocation is guarded by the flag its own branch excludes, so that it is dead.

## Model

| member | source | states |
|---|---|---|
| ScrollGeometry.TopExists | ssrui/chklist.cxx:984-994 | every scroll position before the end of the items has an item showing at the top |
| ScrollGeometry.TopUnique | ssrui/chklist.cxx:984-999 | the top item and the part of it that is scrolled off are determined by the position |
| ScrollGeometry.EveryPositionHasTop | ssrui/chklist.cxx:969-994 | the search for the top item stays inside the list for all positions of the scroll range exactly when the window is taller than one gap |
| ScrollGeometry.PositionStaysInRange | ssrui/chklist.cxx:708-718 | the new range after adding items, or for a lower window, contains every position of the old one |
| ScrollGeometry.RangeEndsWithLastItem | ssrui/chklist.cxx:323-324 | a position is before the end of the range exactly when some item with the gap below it still reaches under the window |
| ScrollGeometry.ScrollsToInView | ssrui/chklist.cxx:1030-1107 | an item whose slot fits the window is wholly inside it after being brought into view, whichever branch was taken and however the position was clamped |
| ScrollGeometry.ScrollsToNoFurther | ssrui/chklist.cxx:1044-1059 | nothing moves when the item was in view already, and an item above the window comes exactly to its top |
| ScrollGeometry.ScrollsToEarliest | ssrui/chklist.cxx:1071-1103 | scrolling down stops as early as it can: no item boundary before the new position shows the whole item |
| ScrollGeometry.ScrollsToTooTall | ssrui/chklist.cxx:1071-1103 | an item whose slot does not fit is not shown whole afterwards |
| CheckListControl.CheckList.constructor | ssrui/chklist.cxx:146-204 | the empty control has its first item position and no item, is not scrolled, and leaves the range of the scroll bar alone |
| CheckListControl.CheckList.MsgSize | ssrui/chklist.cxx:533-566 | the scroll position is kept as far as the new range allows, and every label is laid out as if nothing were scrolled off, so that the invariant holds exactly when the control is not scrolled or empty |
| CheckListControl.CheckList.SetColumnWidth | ssrui/chklist.cxx:827-866 | the layout loop puts every label behind the one before it, counted from the first gap |
| CheckListControl.CheckList.AddItem | ssrui/chklist.cxx:568-731 | a new item goes below the last, moves nothing, and keeps the invariant that ties label windows, content height and scroll range together; the result is the index of a new item exactly when everything could be created, and otherwise nothing changes and it is -1 or the index of the item before |
| CheckListControl.CheckList.MsgVScroll | ssrui/chklist.cxx:311-376 | each scroll code moves the position by one line or one page in its direction, or to its place, as far as the range goes, and every label window moves along |
| CheckListControl.CheckList.LabelsStack | ssrui/chklist.cxx:702-706 | wherever the control is scrolled to, every label is one gap below the one before it, and the first one gap below the top of the content |
| CheckListControl.CheckList.GetTopIndex | ssrui/chklist.cxx:953-1002 | returns the item at the scroll position and how much of it is scrolled off, or -1 without items |
| CheckListControl.CheckList.GetVisibleCount | ssrui/chklist.cxx:904-950 | counts exactly the items from the top whose bottom edge fits, and at least one |
| CheckListControl.CheckList.SetTopIndex | ssrui/chklist.cxx:1005-1026 | the item is at the top with nothing scrolled off exactly when its offset is within the scroll range |
| CheckListControl.CheckList.TopIndexFor | ssrui/chklist.cxx:1071-1101 | the backward walk finds the earliest item that can be at the top with the whole item showing |
| CheckListControl.CheckList.EnsureVisible | ssrui/chklist.cxx:1030-1107 | the label window of the item is wholly inside the window afterwards exactly when its slot can fit; an index outside the list scrolls to the start |
| ChangePasswordAcl.SetCanChangePassword | dscmd/dsutil.cpp:3099-3334 | fills the buffer of two more entries with the rewritten list and never writes outside it; what that list is, is said by the rows on rewriting below |
| ChangePasswordAcl.CopyEntries | dscmd/dsutil.cpp:3170-3279 | copies in order the entries that stay and notes the grants that are there |
| ChangePasswordAcl.EvaluateCanChangePasswordAces | dscmd/dsutil.cpp:2721-2847 | returns what the first entry about changing the password says |
| ChangePasswordAcl.ScanSaysFirst | dscmd/dsutil.cpp:2732-2847 | the scan answers with the mode of the first grant or denial of the right for self or world, and yes when there is none |
| ChangePasswordAcl.ScanIsExact | dscmd/dsutil.cpp:2732-2847 | the early exit gives the answer of the full test "no deny for self or world" exactly when no grant hides a deny |
| ChangePasswordAcl.RewrittenExactly | dscmd/dsutil.cpp:3117-3329 | how often every possible entry is stored afterwards, from its fields and the entries before: others as before, exactly one plain denial for each of self and world, or no denial and a plain grant for each of the two that had none |
| ChangePasswordAcl.SubjectsAsAsked | dscmd/dsutil.cpp:3117-3329 | however the stored list is ordered, self and world are each denied or granted as asked, and never both |
| ChangePasswordAcl.DenialsFirst | dscmd/dsutil.cpp:3117-3163 | the two denials, with control access and no inheritance, stand in front of all other entries |
| ChangePasswordAcl.RewrittenReadsBack | dscmd/dsutil.cpp:3117-3329 | a setting that is written reads back as itself under any reordering of the stored entries, by the scan and by the full test |
| ChangePasswordAcl.RewrittenTwice | dscmd/dsutil.cpp:3117-3329 | writing the same setting twice gives the list that writing it once gives |
| ChangePasswordAcl.RewrittenKeepsOthers | dscmd/dsutil.cpp:3170-3279 | entries about anything else all stay, once each and in their order |
| ChangePasswordAcl.DenyingDropsGrants | dscmd/dsutil.cpp:3236-3268 | after denying no grant for self or world is left |
| ChangePasswordAcl.GrantingKeepsGrants | dscmd/dsutil.cpp:3283-3328 | after granting, the grants that were there stay in order, and one is added for each subject without |
| PasswordPolicy.UserObject.EvaluateMustChangePassword | dscmd/dsutil.cpp:2522-2593 | the password must change exactly when the question worked and the last set time is zero |
| PasswordPolicy.UserObject.ChangeMustChangePwd | dscmd/dsutil.cpp:2042-2122 | refuses to require a change the scan says is impossible, commits nothing after a failed question, and otherwise writes 0 or -1 as asked |
| PasswordPolicy.UserObject.ChangeCanChangePassword | dscmd/dsutil.cpp:2881-2949 | refuses to deny while a change is required; a failure to read, rebuild or write the list changes nothing; otherwise the rewritten list is stored, in any order |
| PasswordPolicy.SettingAfter | dscmd/dsutil.cpp:2042-2949 | an accepted command leaves its setting as asked, on or off and for both subjects, and the other setting alone; any other leaves the account as it was |
| PasswordPolicy.NeverBoth | dscmd/dsutil.cpp:2042-2949 | all runs without such a denial keep the settings apart exactly when the account has no conflict at the start and no grant hides a deny |
| PasswordPolicy.BlindDenialConflicts | dscmd/dsutil.cpp:2910-2945 | a denial that goes ahead on a failed question brings the two settings together exactly when the password must change |
| PasswordPolicy.ApartExactly | dscmd/dsutil.cpp:2042-2949 | on every run from an account without conflict whose list is scanned right, all states keep the settings apart exactly when no denial goes ahead on a failed question while the password must change |
| PasswordPolicy.HiddenDenyExample | dscmd/dsutil.cpp:2732-2847 | a grant for self followed by a deny for everyone passes the scan and leads to a conflict |
| UserAccountControl.LastRequestWins | dscmd/dsutil.h:402-406 | after any sequence of requests each flag is as its last request asked, and every other flag as loaded |
| UserAccountControl.UpdatedExactly | dscmd/dsutil.h:402-406 | each evaluator decides its own flags, by bit number, from its arguments, and keeps all others |
| UserAccountControl.Load | dscmd/dsutil.cpp:1733-1779 | the directory is asked only the first time, and only then is an entry handed back, with a new value |
| UserAccountControl.PasswordNotRequired | dscmd/dsutil.cpp:1707-1801 | one step on the shared descriptor, in success and in each failure; bit 5 ends as the argument of a known attribute says |
| UserAccountControl.DisableAccount | dscmd/dsutil.cpp:1833-1927 | the same for bit 1 |
| UserAccountControl.PwdNeverExpires | dscmd/dsutil.cpp:2154-2243 | the same for bit 16, as the argument says |
| UserAccountControl.ReversiblePwd | dscmd/dsutil.cpp:2275-2364 | the same for bit 7, as the argument says |
| UserAccountControl.SetComputerAccountType | dscmd/dsutil.cpp:5166-5243 | the same for bits 1, 5 and 12, all set without asking the directory |
| UserAccountControl.EvaluateAll | dscmd/dsmod/dsmod.cpp:583-646 | for one object and any answers and allocations: the loop stops at the first evaluator that fails and commits nothing then; otherwise at most one directory read, one committed entry, and through its value pointer the last request for every flag |
| GroupType.ValidateGroupScope | dscmd/parserutil.cpp:366-388 | accepts exactly the letters l, g and u in either case, which are the scopes the evaluator has a bit for |
| GroupType.ScopeLetters | dscmd/dsutil.cpp:3575-3620 | which letter stands for which bit, and that nothing else stands for one |
| GroupType.UpdatedExactly | dscmd/dsutil.cpp:3575-3640 | after a scope request there are the bit of its letter and the old security flag alone; a security request decides bit 31 and keeps the rest |
| GroupType.SetGroupScope | dscmd/dsutil.cpp:3496-3662 | sets the scope and keeps the security flag; a value that was read but never set is replaced by a new one |
| GroupType.SetGroupSecurity | dscmd/dsutil.cpp:3786-3906 | sets or clears the security flag and keeps the other bits of the same value object |
| GroupType.LastScopeAndSecurityWin | dscmd/dsutil.cpp:3575-3640 | any interleaving ends in exactly the last scope bit and the last security flag, or the one read |
| GroupType.EvaluateAll | dscmd/dsutil.cpp:3496-3906 | between calls read and set go together, so that no value is thrown away, and one entry with the last scope and security is committed |
| OutputDN.EscapeElement | dscmd/dsutil.cpp:6456-6483 | the escaped element and its terminator fit a buffer of three times its length plus one |
| OutputDN.WriteChar | dscmd/dsutil.cpp:6463-6482 | writes the escape of one character and touches nothing behind it |
| OutputDN.GetOutputDN | dscmd/dsutil.cpp:6441-6492 | builds the escaped elements with commas between them; the text is determined by the rows below |
| OutputDN.EscapedCharacter | dscmd/dsutil.cpp:6463-6482 | an ordinary character is written as itself, a comma or backslash behind a backslash, a control character as a backslash and its two hex digits |
| OutputDN.EscapeConcat | dscmd/dsutil.cpp:6460-6483 | every character is written in its place, whatever stands around it |
| OutputDN.PlainStays | dscmd/dsutil.cpp:6463-6482 | an element without control characters, commas and backslashes is written as it is |
| OutputDN.EscapedLength | dscmd/dsutil.cpp:6456-6483 | the written length is that of the element, plus one for each comma or backslash and two for each control character |
| OutputDN.JoinConcat | dscmd/dsutil.cpp:6484-6490 | two names written one after the other have a comma alone between them |
| OutputDN.PlainName | dscmd/dsutil.cpp:6441-6490 | a name whose elements are plain is written as its elements with commas between them |
| OutputDN.ParseJoin | dscmd/dsutil.cpp:6441-6490 | splitting at unescaped commas and undoing the escapes recovers every list of elements |
| OutputDN.ParseDNInverts | dscmd/dsutil.cpp:6402-6490 | reading is a left inverse of writing, the empty name included |
| OutputDN.EscapedText | dscmd/dsutil.cpp:6463-6482 | no control character is left in an escaped element, and each of its commas is behind a backslash |
| ExpandUsername.ReplaceFirstKeepsExpansion | dscmd/dsutil.cpp:5721-5779 | replacing the first token and restarting from the front gives what one pass from left to right gives |
| ExpandUsername.TokenExactly | dscmd/dsutil.cpp:5664-5720 | a token is the ten characters $username$ in any letter case, and nothing else |
| ExpandUsername.ExpandedWoven | dscmd/dsutil.cpp:5721-5779 | any texts without a dollar sign that have the token between them come out with the name in each of those places |
| ExpandUsername.RemainderFalls | dscmd/dsutil.cpp:5721-5779 | a name that needs no expansion leaves less behind the first dollar sign whenever another token is found, and never a dollar sign further to the front |
| ExpandUsername.NeedyNameStays | dscmd/dsutil.cpp:5721-5779 | a name that needs expansion itself leaves a value that needs it after every replacement |
| ExpandUsername.LoopEndsExactly | dscmd/dsutil.cpp:5721-5779 | for every value and name, some number of replacements leaves no token at the first dollar sign exactly when the value or the name needs no expansion |
| ExpandUsername.SettledIsExpanded | dscmd/dsutil.cpp:5721-5779 | for a name without a dollar sign, what the restarting loop leaves is what one pass from left to right gives |
| ExpandUsername.Expand | dscmd/dsutil.cpp:5664-5783 | tells whether there is a token first; the result is the first iterate of replacing that needs no expansion, and the single pass for a name without a dollar sign; an empty name fails exactly when nothing stands before the first token |
| ExpandUsername.ExpandedIsFinal | dscmd/dsutil.cpp:5766-5774 | the result needs no further expansion |
| SamName.ReplaceAll | dscmd/dsutil.cpp:6331-6342 | the inner search-and-replace loop ends and replaces every occurrence in place |
| SamName.ValidateAndModifySAMName | dscmd/dsutil.cpp:6307-6350 | every forbidden character and no other is replaced, and the result tells whether there was one |
| SamName.BuildComputerSAMName | dscmd/dsutil.cpp:4803-4890 | every down-level name gives a name of at most fifteen characters that ends in a dollar sign, has no forbidden character, and keeps the clean characters in front |
| SamName.AccountNameExactly | dscmd/dsutil.cpp:4840-4890 | each of the first fourteen characters is kept in its place, or is an underscore if it is forbidden, and a dollar sign follows |
| UserNames.MassageRefuses | netid/state.cpp:700-736 | refused are exactly the names whose only backslash is their last character and that have no at sign |
| UserNames.MassageExactly | netid/state.cpp:700-736 | only a name without at sign and backslash is qualified, as domain, backslash and name; every other accepted name stays |
| UserNames.MassageTwice | netid/state.cpp:700-736 | qualifying a name twice is qualifying it once |
| MachineIdentity.FirstReading | netid/state.cpp:196-408 | a machine on which nothing was ever stored is read with the sync flag on, the default workgroup, and the names in force |
| IdentityChange.State.JoinDomain | netid/state.cpp:756-846 | joins when either attempt works, and otherwise changes nothing |
| IdentityChange.State.UnjoinDomain | netid/state.cpp:1269-1343 | leaves when either attempt works, and otherwise changes nothing |
| IdentityChange.State.DoSaveDomainChange | netid/state.cpp:961-1248 | ends in the net effect and result of the phase it reaches, for all outcomes |
| IdentityChange.State.DoSaveWorkgroupChange | netid/state.cpp:1358-1504 | ends in the net effect and result its outcomes allow |
| IdentityChange.State.DoSaveNameChange | netid/state.cpp:1515-1651 | ends in the net effect and result its outcomes allow |
| IdentityChange.State.SaveChanges | netid/state.cpp:1656-1701 | takes the procedure that the kind of change calls for |
| IdentitySafety.MemberKeepsItsName | netid/state.cpp:961-1701 | on every machine, with TCP/IP or without, after any save a domain member starts under its account's name, exactly except when the host name is not put back after a refused rename, cannot follow a renamed account, or is changed without networking |
| IdentitySafety.BootNameExactly | netid/state.cpp:961-1651 | on every machine and for all outcomes of renaming a member, with or without a change of domain, the boot name is the old or the new one, and which is decided by the rename and the writes around it |
| IdentitySafety.NewNameIffRenamed | netid/state.cpp:1099-1651 | with the undoing writes and the last name call working, a renamed member ends with the new name exactly when its account was renamed, whether it changes its domain or stays, and with the old one otherwise |
| IdentitySafety.FailedJoinIsUndone | netid/state.cpp:998-1239 | after a change that does not get to a join the settings read as before, with the exact condition on the undoing writes; membership, host name and account are untouched |
| IdentitySafety.UndoneIsNotUntouched | netid/state.cpp:352-389 | the settings read the same although a stored value is there that was not before |
| IdentitySafety.NameChangeReports | netid/state.cpp:1515-1651 | on every machine and for all outcomes, success is reported exactly when the sync flag, name and suffix took effect, except for exactly the outcomes stated |
| IdentitySafety.NameSuccessIsReal | netid/state.cpp:1515-1651 | on every machine, unless a user name was refused, a reported success means that sync flag, name and suffix are as asked |
| IdentitySafety.NameReportExactly | netid/state.cpp:1515-1651 | for all outcomes with an acceptable user name the report agrees with the machine exactly when the change is no coincidence; under TCP/IP none is |
| IdentitySafety.WorkgroupChangeReports | netid/state.cpp:1358-1504 | on every machine and for all outcomes, success is reported exactly when membership, sync flag, name and suffix are as asked, except for exactly the outcomes stated |
| IdentitySafety.WorkgroupSuccessIsReal | netid/state.cpp:1358-1504 | on every machine, unless a user name was refused, a reported success means that membership, sync flag, name and suffix are as asked |
| IdentitySafety.WorkgroupReportExactly | netid/state.cpp:1358-1504 | on every machine, for all outcomes with an acceptable user name the report agrees with the machine exactly when the change is no coincidence |
| IdentitySafety.RefusedNameIsReportedAsSuccess | netid/state.cpp:1412-1416 | on every machine a refused user name leaves everything but the sync value as it was, and is reported as success unless the sync flag failed |
| IdentitySafety.FailedUnjoinIsUndone | netid/state.cpp:1396-1501 | a cancelled or failed unjoin leaves everything but the sync value as it was, and the settings read the same exactly when the flag is put back |
| IdentitySafety.JoinMeans | netid/state.cpp:961-1248 | whether success was reported or not, a machine that has joined is in that domain; sync flag, name and suffix are in effect exactly under the condition stated for each |
| IdentitySafety.DomainFailureMeans | netid/state.cpp:961-1248 | for all outcomes the machine ends in the new domain exactly when it has joined, and a change that has not joined is reported as a failure and leaves the membership |
| IdentitySuccess.SuccessExactly | netid/state.cpp:961-1701 | for every machine, change and outcome, success is reported exactly when every call that is due has worked, or a user name was refused where that counts as none |
| IdentitySuccess.MembershipExactly | netid/state.cpp:961-1701 | for every machine, change and outcome, the machine ends in the domain or workgroup asked for exactly when the calls that lead there have worked |
| IdentitySuccess.SuccessMeansMembership | netid/state.cpp:1656-1701 | a reported success means that the machine is where it was asked to be, exactly unless leaving the domain was refused |
| IdentitySuccess.AllWorkMeansDone | netid/state.cpp:950-1701 | if every call works, success is reported and membership, sync flag, name and suffix are as asked, but for a suffix that comes with the domain |
| IdentitySuccess.CaseEditsDoNothing | netid/state.cpp:1662-1696 | edits of letter case alone change nothing and succeed |
| IdentitySuccess.InForceStays | netid/state.cpp:961-1651 | no save changes what is in force until the next start, apart from the membership |
| IdentitySuccess.OfflineLeavesAccounts | netid/state.cpp:1358-1651 | without networking neither the prompt nor the outcome of leaving or renaming makes a difference, and the account stays |
| IdentitySuccess.InEffectReadsBack | netid/state.cpp:196-408 | settings that are in effect are read back as they were edited |
| SeparatedList.ParseStringByChar | dscmd/parserutil.cpp:478-558 | the second walk fills exactly as many pointers as the first counted, on any text with a doubled separator |
| SeparatedList.TextsOfEncoded | dscmd/parserutil.cpp:523-557 | walking over an encoded list, wherever it stands, gives the strings up to the first empty one behind the head |
| SeparatedList.RoundTrip | dscmd/parserutil.cpp:478-558 | an encoded list is split into itself exactly when no string after the first is empty, and otherwise into what comes before that |
| PasswordLine.GetPasswdStr | dscmd/parserutil.cpp:41-94 | for every key sequence all writes stay inside the buffer, and text, length and result are those of the line editor |
| PasswordLine.ExactWhenItAlwaysFits | dscmd/parserutil.cpp:59-93 | text and length are the edited line exactly when it never outgrew the buffer; otherwise the text is shorter than the length says |
| PasswordLine.LengthCountsForgotten | dscmd/parserutil.cpp:59-93 | for every key sequence the length counts the text and each character that found no room, which no backspace takes back |
| PasswordLine.PlainLine | dscmd/parserutil.cpp:59-93 | without backspaces the text is as much of the line as there is room for, and the length that of the line |
| PasswordLine.TakenBack | dscmd/parserutil.cpp:69-80 | every word that is typed is taken back by as many backspaces |
| PasswordLine.LineExactly | dscmd/parserutil.cpp:59-68 | the line is what comes before the first carriage return or failed read |
| PasswordLine.ForgottenCharacter | dscmd/parserutil.cpp:69-93 | two characters and a backspace in a buffer for one give success with length one and no text |
| Litow.PushDigits | dscmd/util.cpp:625-632 | the digit loop gives the digits from the least significant one, at most nineteen, without a leading zero |
| Litow.ReverseInPlace | dscmd/util.cpp:643-652 | two pointers moving towards each other reverse the text in place |
| Litow.Litow | dscmd/util.cpp:607-656 | the text is the decimal notation of every 64-bit integer but the least, which gives a lone minus sign |
| Litow.DecimalIsUnique | dscmd/util.cpp:607-656 | decimal notation determines the text, so that the value says all about it |

## Left out

- Painting, focus, fonts, horizontal layout, check boxes and mouse of the check list, and resetting its content.
  The next item position survives a reset, so that the invariant is stated for controls built by adding items.
- MsgSize: messages for a window that is minimised or maximised do nothing, and the height is more than one gap, without
  which the scroll range has a position with no item at the top (see `EveryPositionHasTop`).
  After a message that leaves labels and scroll bar apart, the other operations are not followed any further.
- Control identifiers of sixteen bits: the model has no limit on the number of items.
- Binding, credentials, `DsCrackNames`, referrals, security descriptors and error display. Where an evaluator asks the
  directory, the answer is a parameter.
- The loop over several target objects of a modify command.
- GetOutputDN: the path parser is not modelled; its elements are a parameter, not empty and free of terminators.
- Failed allocations in the username expansion, the name escaping and the password evaluators.
- Expand: when value and name both need expansion the code does not end (see `LoopEndsExactly`), so that there is no
  result to state.
- BuildComputerSAMName: the conversion of a host name to its down-level name is not modelled; that name is a parameter.
- ValidateAndModifySAMName: the replacement character is never among the forbidden ones; otherwise the code would not end.
- ParseStringByChar: a doubled separator is what the code demands of its text; what it reads without one is not modelled.
- Messages, logging, automatic logon and the warning texts of the identity page.
- Opening the registry key and setting a value are one fallible step, since the code treats their failures alike.
- The start with a rename pending: there the code restores the pending name and not the account's.
- Domain controllers and repair mode in `Settings::Refresh`, and settings that could not be read.
- The WMI filter managers, the wizard pages and the dialogs, which are handlers over window and WMI calls.
