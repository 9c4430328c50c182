# Sambervise, modelled in Dafny

Sambervise is a GTK front end to a Samba Active Directory. This project models the
parts of it that carry state or compute something, and proves what they promise.
`dafny verify dfyconfig.toml` checks everything.

| module | what it models |
|---|---|
| `HandleProtocol`, `HandleSafety`, `HandleLiveness`, `HandleLives`, `Connection` | the shared LDAP handle: any number of connects, disconnects and workers against one mutex, statement by statement; and the connection object as sequential code |
| `TextLists` | "a; b" fields and one-per-line boxes as printer and parser pairs |
| `LdapModify`, `EditorMods`, `AttrEditor`, `EditorSession` | modify requests with the meaning of section 4.6 of RFC 4511, the raw editor as a compiler from rows to such requests, the editor object, and editor and directory over time |
| `IdAllocator`, `Numbers` | range, hint, range scan, sort and lockstep walk, collision search |
| `CollisionCheck`, `CollisionPanel` | the debounced collision check as a machine over arbitrary interleavings, and the panel's handlers |
| `ProfileFile`, `ProfileStore` | the key file of connection profiles; upsert, remove, rename, save and load |
| `EntryNames`, `EntryUpdate` | rename followed by modify as one update of one entry, with the DN computed textually |
| `SpnEditor`, `LazyTree`, `AccountExpiry`, `ObjectSid` | SPN editing, at-most-once child loading, FILETIME dates, RID decoding |

How the state is modelled: the directory is a map from DN to attribute sets, an
attribute type being its lower-cased name; threads and callbacks are labels of a
machine whose runs are all legal label sequences. Objects whose code overwrites fields
are classes, and each method is proved equal to the machine's step or to a function
whose properties are then proved. What libldap, GKeyFile and GLib's sort do is written
as small functions with the contract their documentation gives (modify is section 4.6
of RFC 4511; parents of DNs are section 2.4 of RFC 4514; SIDs are section 2.4.2.2 of
MS-DTYP). Whether the server accepts a request for reasons outside the model is a
parameter.

## What the proofs found

Where the code falls short of what it says, the code is modelled as it is. The lemmas
named give an input on which it fails, or the exact condition under which it does not,
or both.

- The header of the connection says release always follows acquire
  (src/backend/sbv-connection.h:49-52). The two Unix-attribute workers return without
  releasing when the handle is NULL. `WhoLosesTheLock` shows this is the only way to
  lose the lock, `LostLockStaysLost` that nothing works afterwards, `LockCanBeLost`
  that one save before any connect suffices, `AfterFirstConnect` that runs without
  disconnects are safe from the first successful connect on.
- The panels read host, base DN and profile without the lock. Such a read can mix two
  connections, but only inside a connect or disconnect (`MidSwapReadLies`,
  `UnlockedReadCanLieOnlyMidSection`).
- `values_equal_set` is documented as duplicate-insensitive
  (src/ui/sbv-ldap-panel.c:233-235); it compares lengths. It is sound exactly for left
  lists without duplicates and duplicate-insensitive exactly for the empty one
  (`SameSetExactly`). Typing a loaded value twice makes a save the server refuses
  (`RepeatedValueIsRefused`); of two binary values of one length, editing one goes
  unnoticed (`BinaryEditGoesUnnoticed`).
- Loading an attribute with a value that contains a semicolon or outer white space
  makes the untouched editor dirty (`SemicolonValueLoadsDirty`; exactly when:
  `UntouchedRowIsClean`, `CleanAfterLoading`).
- The re-read after a save lands in whatever entry is selected by then
  (`LateRereadExample`; exactly when: `LandingIsRightExactly`), and edits made over
  it are laid over the wrong entry (`NextSaveGoesToTheSelected`, `SavedIsShownExactly`).
- Tree nodes keep the attributes they were loaded with, so selecting a saved entry again
  shows it as it was before the save (exactly when: `SelectionIsRightExactly`).
- A hint inside the range hides free ids below it (`HintAtTheTop`; exactly when:
  `Suggest`), and a profile that sets one bound beyond the opposite default has an empty
  range (`FirstSuggestion`).
- The empty id entry reads as -1 when a check completes (`EmptyEntryCanKeepAWarning`),
  and a check sent for the previous selection can land (`PreviousSelectionsReplyCanLand`).
  `EndsRightExactly`: whatever is typed, the label can be relied on from an edit on
  exactly if every check then in flight answers as one sent for this selection would and
  no other entry bears the number -1.
- Selecting an entry runs no check, although a comment says the timers are re-armed; its
  hidden label is right exactly if there is no collision (`SelectionIsNotChecked`).
- A profile whose name holds a bracket or control character stays in the list but not
  in the file (`BracketNameIsLost`; exactly when: `FileAgreesWithStore`). Removing an
  unknown name returns TRUE; the header says FALSE (`RemoveProfile`).
- A rename writes the file twice; if only the first write succeeds the profile is gone
  from it (`FailedRenameLosesProfile`).
- The DN used after a rename is right exactly if the old DN has an unescaped first comma
  (`EffectiveDnIsRenamedDn`, `ActsAsOneExactly`). Otherwise the modify fails, or another
  entry that bears the textual DN is overwritten and the update reported as done
  (`EscapedComma`, `SaveCanOverwriteAnother`; exactly when: `OverwritesAnotherExactly`).
- A blank proxy-address box yields the empty list, which clears the attribute
  (`BlankBoxClears`, with the exact condition); the comment says it leaves it alone
  (src/ui/sbv-contacts-panel.c:172-174).
- Saving an untouched policy turns an expiry on 1601-01-01 into "never" and one after
  9999 into the date of the user shown before (`UntouchedSaveElsewhere`).

## Model

| member | source | states |
|---|---|---|
| HandleSafety.StepKeeps | src/backend/sbv-connection.c:83-236 | every statement of every thread keeps lock ownership, handle accounting and field consistency |
| HandleSafety.EveryHandleHasOneFate | src/backend/sbv-connection.c:143-236 | in every run each opened handle is exactly one of private to its connect thread, installed, or unbound, and no handle is unbound twice |
| HandleSafety.UsedHandleIsInstalled | src/backend/sbv-connection.c:83-94 | a worker about to call libldap holds the lock alone, its handle is the installed one and not unbound, and the base DN is that handle's |
| HandleSafety.FreeLockMeansTruthful | src/backend/sbv-connection.c:221-233 | while the mutex is free, connected means a handle is there, and host, port, base DN and profile come from the connect that opened it |
| HandleSafety.UnlockedReadCanLieOnlyMidSection | src/backend/sbv-connection.c:98-108 | in every run, fields that do not belong together are seen only while a connect or disconnect is inside its critical section |
| HandleSafety.MidSwapReadLies | src/backend/sbv-connection.c:221-233 | between installing a handle and setting its base DN they do not belong together, if the base DNs differ |
| HandleSafety.WhoLosesTheLock | src/backend/sbv-users-backend.c:640-653 | a finished thread holds the mutex if and only if it was a Unix-attribute worker that acquired NULL |
| HandleSafety.LostLockStaysLost | src/backend/sbv-groups-backend.c:303-316 | after that no thread ever enters or moves in a critical section again and the connection is frozen |
| HandleSafety.LockCanBeLost | src/backend/sbv-users-backend.c:647-653 | a run that loses the lock: one Unix-attribute save before any connect |
| HandleLiveness.HolderIsNeverBlocked | src/backend/sbv-connection.c:272-303 | a thread in its critical section can always step, each step shortens it, and the last frees the mutex unless it is the NULL path that keeps it |
| HandleLiveness.SectionIsBounded | src/backend/sbv-connection.c:83-108 | under any interleaving a critical section takes a bounded number of its own thread's steps |
| HandleLiveness.NoDeadlock | src/backend/sbv-connection.c:83-94 | unless the lock is lost, some thread can step while any is unfinished |
| HandleLiveness.AfterFirstConnect | src/backend/sbv-connection.c:221-236 | without disconnects, after the first completed connect no later acquire yields NULL and the mutex is free or held by a thread still in its section |
| HandleLives.LifeIsBounded | src/backend/sbv-connection.c:143-236 | under any interleaving every thread is done after a bounded number of its own steps, opening and binding included |
| HandleLives.ConnectInstalls | src/backend/sbv-connection.c:217-236 | from any reachable state with the mutex free, a connect that binds can install its own handle with its own identity, unbinding the one before, and is done |
| HandleLives.ConnectFromStart | src/backend/sbv-connection.c:143-236 | the same from the start of the thread |
| HandleLives.FailedConnects | src/backend/sbv-connection.c:143-216 | a connect that fails leaves the connection alone and unbinds the handle it opened, if any |
| HandleLives.DisconnectFromStart | src/backend/sbv-connection.c:98-108 | a disconnect from its start to its end |
| HandleLives.WorkerFromStart | src/backend/sbv-connection.c:83-94 | a worker makes at most its calls and leaves the connection as it found it; on NULL it makes none and gives the lock back unless it is of the kind that does not |
| Connection.SbvConnection.AcquireLdap | src/backend/sbv-connection.c:83-88 | takes the lock and returns the handle, changing nothing else |
| Connection.SbvConnection.ReleaseLdap | src/backend/sbv-connection.c:90-94 | frees the lock, changing nothing else |
| Connection.SbvConnection.DisconnectLdap | src/backend/sbv-connection.c:98-108 | unbinds the installed handle once, clears handle and flag, keeps the rest, and is the machine's drop section |
| Connection.SbvConnection.Install | src/backend/sbv-connection.c:221-233 | unbinds the old handle once, publishes the new one with its identity, and is the machine's swap section |
| Connection.SbvConnection.WhoAmI | src/backend/sbv-connection.c:272-303 | the sample worker: lock free again and object unchanged on every path |
| Connection.SbvConnection.SetUnixAttrs | src/backend/sbv-users-backend.c:640-707 | the Unix-attribute lock path: the lock stays taken exactly on the NULL path |
| Connection.InstallIsSoloRun | src/backend/sbv-connection.c:221-233 | running one prepared connect alone in the machine gives what the sequential code gives |
| Connection.DisconnectIsSoloRun | src/backend/sbv-connection.c:98-108 | running one disconnect alone in the machine gives what the sequential code gives |
| TextLists.TrimParts | src/ui/sbv-ldap-panel.c:110 | stripping removes white space from the ends only, and all of it |
| TextLists.SplitIsClean | src/ui/sbv-ldap-panel.c:100-121 | parsed values are trimmed, not empty and free of the separator |
| TextLists.SplitOfJoin | src/ui/sbv-ldap-panel.c:91-121 | parsing inverts printing on clean values for any separator and padding |
| TextLists.SemicolonRoundTrip | src/ui/sbv-ldap-panel.c:91-121 | split of join of split is split for every text; split of join is the identity exactly on clean values |
| TextLists.LinesRoundTrip | src/ui/sbv-contacts-panel.c:163-196 | the same two laws for one value per line |
| TextLists.SplitValues | src/ui/sbv-ldap-panel.c:103-121 | the loop computes the parsed values |
| TextLists.LinesToValues | src/ui/sbv-contacts-panel.c:175-196 | the newline walk computes the parsed lines, blank ones dropped |
| TextLists.NoTokenKept | src/ui/sbv-contacts-panel.c:175-196 | a text yields no value iff it is all white space |
| LdapModify.SbvLdapMod.constructor | src/backend/sbv-ldap-browse.c:361-379 | a descriptor whose vector is its own and holds the given values |
| LdapModify.CopyMods | src/backend/sbv-ldap-browse.c:470-483 | the request's copy keeps order and content and shares no descriptor or vector with the staged list |
| LdapModify.NewValues | src/backend/sbv-ldap-browse.c:416-453 | what each operation needs of its attribute and makes of it |
| LdapModify.DeleteUndoesAdd | src/backend/sbv-ldap-browse.c:416-453 | deleting the values just added restores the entry |
| LdapModify.OnTheWire | src/backend/sbv-ldap-browse.c:404-414 | add, delete and replace are 0, 1 and 2, and no values are NULL |
| LdapModify.BuildArray | src/backend/sbv-ldap-browse.c:436-451 | the NULL-terminated array reads back as the staged list |
| LdapModify.SendModify | src/backend/sbv-ldap-browse.c:486-504 | the request still reads as the staged list after the caller has destroyed its own |
| LdapModify.ModifyThread | src/backend/sbv-ldap-browse.c:420-468 | without a handle an error, with nothing staged success, otherwise refused or exactly the staged list applied in order |
| EditorMods.SameSetIsSetEquality | src/ui/sbv-ldap-panel.c:233-251 | with a duplicate-free left side the comparison holds iff the right side is duplicate-free and has the same elements |
| EditorMods.SameSetExactly | src/ui/sbv-ldap-panel.c:233-251 | for all right lists: sound iff the left list has no duplicates, duplicate-insensitive iff it is empty |
| EditorMods.RepeatedValueIsRefused | src/ui/sbv-ldap-panel.c:379-393 | typing a loaded value twice stages a replace that the directory refuses |
| EditorMods.BinaryEditGoesUnnoticed | src/backend/sbv-ldap-browse.c:29-33 | of two binary values of one length, one replaced by other text leaves the row clean |
| EditorMods.DirtyVersusStaged | src/ui/sbv-ldap-panel.c:253-398 | staged mods imply dirty; dirty without mods iff all there is are new rows with a name and a text of only separators and white space |
| EditorMods.AddedRowsOfferSave | src/ui/sbv-ldap-panel.c:260-268 | a clean editor with rows added is dirty iff some added row has both a name and a text |
| EditorMods.LoadedRowIsDirty | src/ui/sbv-ldap-panel.c:269-278 | a loaded row is dirty iff it is to be deleted, repeats a value or stands for another set of values |
| EditorMods.UntouchedRowIsClean | src/ui/sbv-ldap-panel.c:568-575 | a loaded row is clean iff all its values survive the text form |
| EditorMods.SemicolonValueLoadsDirty | src/ui/sbv-ldap-panel.c:91-121 | the value "a;b" makes its untouched row dirty |
| EditorMods.DescribeLeavesOthers | src/ui/sbv-ldap-panel.c:341-404 | attributes no row names keep their values |
| EditorMods.RowRefines | src/ui/sbv-ldap-panel.c:355-393 | one row's modification is accepted iff the row is acceptable, and then does what the row says |
| EditorMods.SaveDoesWhatTheRowsSay | src/ui/sbv-ldap-panel.c:341-404 | the staged list applied in order to the loaded entry is accepted iff all rows are acceptable, and yields exactly the described entry |
| EditorMods.DescribedAttribute | src/ui/sbv-ldap-panel.c:341-404 | the described entry attribute by attribute, for any rows |
| EditorMods.NoClashIsAccepted | src/backend/sbv-ldap-browse.c:416-453 | with distinct values and no clashing new names, delete-then-add of one attribute included, Save always yields the described entry |
| AttrEditor.Editor.ValuesEqualSet | src/ui/sbv-ldap-panel.c:236-251 | the nested loops compute the comparison |
| AttrEditor.Editor.IsDirty | src/ui/sbv-ldap-panel.c:253-281 | the loop finds whether any row is dirty |
| AttrEditor.Editor.RebuildRows | src/ui/sbv-ldap-panel.c:549-578 | one untouched row per loaded attribute, in the order of the sorted keys |
| AttrEditor.Editor.LoadNode | src/ui/sbv-ldap-panel.c:580-602 | selection replaces table and rows; deselection drops the table and keeps the rows |
| AttrEditor.Editor.AddRow | src/ui/sbv-ldap-panel.c:219-231 | appends one empty new row and updates Save |
| AttrEditor.Editor.RemoveClicked | src/ui/sbv-ldap-panel.c:177-209 | drops a new row, toggles the deletion mark of a loaded one |
| AttrEditor.Editor.SaveClicked | src/ui/sbv-ldap-panel.c:341-404 | the loop stages exactly the rows' modifications; nothing is sent if there are none |
| AttrEditor.Editor.StageRow | src/ui/sbv-ldap-panel.c:355-393 | the branches for one row stage exactly its modification |
| AttrEditor.Editor.SaveDone | src/ui/sbv-ldap-panel.c:316-339 | offers Save again and, after a success, re-reads the entry selected by now |
| AttrEditor.Editor.Refreshed | src/ui/sbv-ldap-panel.c:292-314 | the re-read replaces table and rows; a failed one changes nothing |
| AttrEditor.CleanAfterLoading | src/ui/sbv-ldap-panel.c:549-602 | right after loading or refreshing, clean iff every loaded value survives the text form |
| AttrEditor.SaveSelected | src/ui/sbv-ldap-panel.c:341-404 | editor to directory: accepted iff acceptable, and then the described entry |
| EditorSession.LandingIsRightExactly | src/ui/sbv-ldap-panel.c:292-339 | in every run, after a re-read lands the editor shows the selected entry iff that is the entry the re-read was sent for and it has not changed since |
| EditorSession.LateRereadMislabels | src/ui/sbv-ldap-panel.c:292-339 | selecting another node before the re-read lands puts that node's name over the other entry's values |
| EditorSession.LateRereadExample | src/ui/sbv-ldap-panel.c:292-339 | two entries on which that happens |
| EditorSession.SelectionIsRightExactly | src/ui/sbv-ldap-panel.c:582-602 | in every run, selecting a node shows its entry iff the entry is as it was when the node was loaded |
| EditorSession.UndisturbedSaveIsShown | src/ui/sbv-ldap-panel.c:292-404 | a save the server takes, left alone, changes the selected entry as the rows say and ends with the editor showing it |
| EditorSession.SelectedEntryIsReread | src/ui/sbv-ldap-panel.c:316-339 | if another entry is selected before the save completes, that one is read again and shown |
| EditorSession.FailuresChangeNothing | src/ui/sbv-ldap-panel.c:292-339 | a refused save or a failed re-read changes neither directory nor editor |
| EditorSession.NextSaveGoesToTheSelected | src/ui/sbv-ldap-panel.c:341-404 | with another entry's table in the editor, edits go to the selected DN and are laid over that entry or refused |
| EditorSession.SaveOverlays | src/ui/sbv-ldap-panel.c:355-404 | sent to any entry, a save is accepted iff no value is repeated, what it deletes is there and what it adds is not, and changes only what was edited |
| EditorSession.SavedIsShownExactly | src/ui/sbv-ldap-panel.c:355-404 | it makes the entry what the rows show iff the entry already holds the values of all unedited rows |
| IdAllocator.CheckIds | src/backend/sbv-collisions.c:45-115 | the hits in search order; there is one iff some other entry of class user (uidNumber) or group (gidNumber) with a DN bears the number |
| IdAllocator.HitsAppend | src/backend/sbv-collisions.c:82-109 | the hits of two directories searched one after the other are the hits of each, in order |
| IdAllocator.OneHit | src/backend/sbv-collisions.c:82-109 | what is found of one entry, by class, number, DN and name |
| IdAllocator.EveryCollisionIsReported | src/backend/sbv-collisions.c:82-109 | as many hits as colliding entries, and each of them in its place with its own DN and name |
| IdAllocator.OthersBlockNothing | src/backend/sbv-collisions.c:165-180 | entries of another class block no number and collide with none |
| IdAllocator.HitsMeanTaken | src/backend/sbv-collisions.c:82-109 | there is a hit iff some other entry of the class bears the id; a free id has none for any exclusion |
| IdAllocator.SortSorts | src/backend/sbv-collisions.c:284-285 | the sort is an ascending permutation |
| IdAllocator.WalkOutcome | src/backend/sbv-collisions.c:287-297 | the upward search finds the least free id, is exhausted iff none is free, and overflows iff a non-empty range ends at the int64 maximum and is full |
| IdAllocator.LockstepWalk | src/backend/sbv-collisions.c:284-297 | on sorted ids with duplicates and strays the walk ends as the upward search does, overflow included, after at most one candidate more than distinct ids in range |
| IdAllocator.NextFree | src/backend/sbv-collisions.c:265-303 | sort in place, then the walk: the outcome of the plain upward search over the set of ids |
| IdAllocator.CollectTaken | src/backend/sbv-collisions.c:238-279 | the scan collects exactly the ids of the class inside the range |
| IdAllocator.TakenMeans | src/backend/sbv-collisions.c:345-360 | a UID is taken iff an object of class user has it as uidNumber, a GID iff an object of class group has it as gidNumber |
| IdAllocator.IdmapHints.FromProfile | src/backend/sbv-idmap-hints.c:29-46 | each unset bound falls back to 10000 or 29999 on its own; no bound is negative |
| IdAllocator.IdmapHints.Merge | src/backend/sbv-idmap-hints.c:93-115 | live values fill the hints only |
| IdAllocator.Suggest | src/ui/sbv-users-panel.c:562-589 | a suggestion lies in the range, all ids from the effective lower bound up to it are taken, no object of the class has it, its collision check is empty; none iff the effective range is full; exactly when the hint hides a free id of the configured range |
| IdAllocator.HintAtTheTop | src/ui/sbv-users-panel.c:570-575 | a Suggest press that finds nothing although all ids but the last are free |
| IdAllocator.FirstSuggestion | src/backend/sbv-idmap-hints.c:29-46 | users and groups, any directory: with an empty range nothing is suggested, otherwise the lower bound while it is free; exactly when a profile's range is empty |
| Numbers.StrtollOfDecimal | src/ui/sbv-users-panel.c:554-556 | a printed id reads back as itself |
| Numbers.StrtollReads | src/ui/sbv-users-panel.c:406-408 | white space, sign, digits and whatever follows, clamped to int64 |
| CollisionPanel.Panel.RenderCollisionLabel | src/ui/sbv-users-panel.c:353-379 | the loop prints the first two names separated by commas and the number of the rest, and hides the label without hits |
| CollisionCheck.LabelSays | src/ui/sbv-users-panel.c:353-379 | the label's words for one, two and more collisions, names before DNs, and the number of the rest |
| CollisionCheck.DisconnectedSendsNothing | src/ui/sbv-users-panel.c:426-433 | in any run without a connection no check is sent and no timeout changes the label |
| CollisionCheck.OneTimerAtMost | src/ui/sbv-users-panel.c:494-504 | in every run at most one timeout is armed, the remembered one |
| CollisionCheck.StaleRepliesAreInvisible | src/ui/sbv-users-panel.c:396-419 | any run can be repeated without the replies that were stale when they came, and the panel ends up the same |
| CollisionCheck.OnlyCurrentAnswersSpeak | src/ui/sbv-users-panel.c:396-458 | between two edits of a selection the label changes only by a reply about the number in the entry, or a timeout on an empty entry |
| CollisionCheck.RunConverges | src/ui/sbv-users-panel.c:395-504 | along any run the label is right or a timeout or check for the current number is pending |
| CollisionCheck.QuietLabelIsRight | src/ui/sbv-users-panel.c:395-516 | from the first edit of a selection, whenever nothing is pending the label renders the collisions of the current text, or was hidden by a failed search |
| CollisionCheck.EndsRightExactly | src/ui/sbv-users-panel.c:395-516 | whatever is typed, every run from an edit to quiet ends right iff each check in flight at the edit answers as one of this selection would and no other entry bears -1 |
| CollisionCheck.HarmfulCheckCanWin | src/ui/sbv-users-panel.c:406-419 | otherwise some interleaving of one edit and the replies leaves the wrong label for good |
| CollisionCheck.ClearedEntryCanKeepAWarning | src/ui/sbv-users-panel.c:406-419 | if another entry bears -1, typing and clearing it can leave a warning on the empty entry, from any state |
| CollisionCheck.SelectionIsNotChecked | src/ui/sbv-users-panel.c:273-301 | with nothing in flight, nothing is pending after a selection and the hidden label is right iff there is no collision |
| CollisionCheck.PanelSettles | src/ui/sbv-users-panel.c:426-458 | without edits something can always happen until nothing is pending, and a measure falls |
| CollisionCheck.SuggestedIdShowsNoCollision | src/ui/sbv-users-panel.c:529-560 | a free id filled in by Suggest ends up with the label hidden, even if searches fail |
| CollisionCheck.EmptyEntryCanKeepAWarning | src/ui/sbv-users-panel.c:406-419 | with one account numbered -1 the label cannot be relied on from the start |
| CollisionCheck.PreviousSelectionsReplyCanLand | src/ui/sbv-users-panel.c:290-301 | a run from start after which a reply for the previous selection can stay on screen |
| CollisionPanel.Panel.OnEntryChanged | src/ui/sbv-users-panel.c:494-504 | re-arming is the machine's |
| CollisionPanel.Panel.LoadSelection | src/ui/sbv-users-panel.c:273-301 | setting the text and cancelling the timer is the machine's selection step |
| CollisionPanel.Panel.FireCheck | src/ui/sbv-users-panel.c:426-458 | the timeout callback is the machine's |
| CollisionPanel.Panel.OnCheckDone | src/ui/sbv-groups-panel.c:732-771 | completion is the machine's, with hits from the collision search |
| ProfileFile.Find | src/backend/sbv-profiles.c:26-28 | the first group of a name |
| ProfileFile.GroupReads | src/backend/sbv-profiles.c:27-81 | what is read from a group a profile was written to last |
| ProfileFile.LoadAfterSave | src/backend/sbv-profiles.c:12-139 | with unique names, load after save gives the same list normalised, in order, minus names no group can have |
| ProfileFile.EveryFieldComesBack | src/backend/sbv-profiles.c:23-125 | field by field what a saved profile reads back as |
| ProfileFile.DefaultsOfAGroup | src/backend/sbv-profiles.c:23-81 | what missing and ill-typed keys read as |
| ProfileFile.FileAgreesWithStore | src/backend/sbv-profiles.c:93-139 | file and list agree iff no name occurs twice and every name can name a group |
| ProfileFile.NameIsLostExactly | src/backend/sbv-profiles.c:99-125 | a profile is left out of the file iff its name is empty or holds a bracket or control character |
| ProfileFile.BracketNameIsLost | src/backend/sbv-profiles.c:107-125 | a profile called "a[b" is not in the file |
| ProfileFile.NormaliseIsStable | src/backend/sbv-profiles.c:12-139 | a second save and load changes nothing |
| ProfileFile.SharedNameLeaksRanges | src/backend/sbv-profiles.c:107-125 | for any list: of all profiles of one name the last is read back, each unset bound being the last one any of them set |
| ProfileStore.RenameEffect | src/ui/sbv-connect-dialog.c:692-732 | exactly the edited profile under the new name, none under the old, all others unchanged in order |
| ProfileStore.PlaceInList | src/backend/sbv-profiles.c:143-180 | an upsert takes the place of the first profile of the name or comes last, a removal closes the gap |
| ProfileStore.RenamedComesLast | src/ui/sbv-connect-dialog.c:714-730 | a rename to an unused name moves the profile to the end, a save under the same name keeps its place |
| ProfileStore.OpsKeepNames | src/backend/sbv-profiles.c:143-180 | any sequence of upserts, removes and renames keeps names present and unique |
| ProfileStore.StoreSurvivesAnyRun | src/backend/sbv-profiles.c:12-180 | from any loaded file, after any such sequence the next load returns the list the file can carry |
| ProfileStore.Store.Load | src/backend/sbv-profiles.c:12-89 | one profile per group, in order |
| ProfileStore.Store.Save | src/backend/sbv-profiles.c:93-139 | writes the file key by key; an unwritable file is left as it was |
| ProfileStore.Store.WriteProfile | src/backend/sbv-profiles.c:107-125 | the key-by-key calls add up to one merge of the profile's keys |
| ProfileStore.Store.UpsertProfile | src/backend/sbv-profiles.c:143-162 | replaces in place or appends, then saves |
| ProfileStore.Store.RemoveProfile | src/backend/sbv-profiles.c:166-180 | drops the first of the name and saves; an unknown name is no error |
| ProfileStore.Store.SaveEdit | src/ui/sbv-connect-dialog.c:649-742 | exactly which forms are refused, without any change; otherwise the profile the form describes is in the list, and the file is as the two writes leave it |
| ProfileStore.Form.Typed | src/ui/sbv-connect-dialog.c:560-594 | the profile says field by field what the form says |
| ProfileStore.FailedRenameLosesProfile | src/ui/sbv-connect-dialog.c:714-730 | a profile renamed to an unused name is in the file under neither name iff the removal was written and the upsert not, or the new name can name no group |
| EntryNames.RdnEndAtFirstComma | src/backend/sbv-contacts-backend.c:413-415 | the RDN ends at the first comma iff an even number of backslashes precedes it |
| EntryNames.EffectiveDnIsRenamedDn | src/backend/sbv-contacts-backend.c:411-428 | the textual DN is the renamed entry's iff the DN has an unescaped first comma |
| EntryNames.EffectiveDnText | src/backend/sbv-contacts-backend.c:411-428 | the text the code goes on with, with and without a comma |
| EntryUpdate.BatchIsTriState | src/backend/sbv-contacts-backend.c:430-482 | the batch of replaces is the tri-state update, refused only for repeated values |
| EntryUpdate.FieldDecides | src/backend/sbv-contacts-backend.c:437-450 | the last field to change an attribute decides it |
| EntryUpdate.ContactFieldDecides | src/backend/sbv-contacts-backend.c:452-477 | every supplied contact field decides its own attribute |
| EntryUpdate.BlankBoxClears | src/ui/sbv-contacts-panel.c:172-196 | the proxy addresses become the lines of the box, none exactly if the box is blank |
| EntryUpdate.TwoCallsActAsOne | src/backend/sbv-contacts-backend.c:393-491 | rename and modify act as one update of one entry; what each failure leaves; attributes no field names and all other entries are untouched, none is displaced; exactly when the rename fails |
| EntryUpdate.MissingEntryIsReported | src/backend/sbv-contacts-backend.c:393-491 | an entry that is gone: the directory is as before and the outcome says which call failed |
| EntryUpdate.EscapedComma | src/backend/sbv-users-backend.c:424-480 | with an escaped first comma the rename stands and the modify fails, unless another entry bears the textual DN, which then gets the fields |
| EntryUpdate.OverwritesAnotherExactly | src/backend/sbv-users-backend.c:424-480 | exactly when a save changes another entry |
| EntryUpdate.SaveCanOverwriteAnother | src/backend/sbv-users-backend.c:424-480 | an input on which it does |
| EntryUpdate.ActsAsOneExactly | src/backend/sbv-contacts-backend.c:393-491 | over all directories and fields, a rename that goes through is followed by the modify of the renamed entry iff the DN has an unescaped first comma (or the cn never gets past the rename) |
| EntryUpdate.AddMod | src/backend/sbv-contacts-backend.c:437-450 | one field fills at most the next slot |
| EntryUpdate.ContactMods | src/backend/sbv-contacts-backend.c:430-479 | the fixed arrays are never overrun and read back as the batch |
| EntryUpdate.SavedUser | src/backend/sbv-users-backend.c:404-480 | after an update each of displayName, givenName, sn and mail is as the form has it, none for "", kept where the form leaves it alone, under the new name |
| EntryUpdate.SavedContact | src/backend/sbv-contacts-backend.c:393-491 | the same for a contact's fifteen attributes |
| EntryUpdate.UserMods | src/backend/sbv-users-backend.c:443-468 | four slots are never overrun and read back as the batch |
| EntryUpdate.UpdateContact | src/backend/sbv-contacts-backend.c:393-491 | the worker's effect on the directory is the two calls |
| EntryUpdate.UpdateUser | src/backend/sbv-users-backend.c:404-480 | the same for users |
| SpnEditor.DirtyIsSetDifference | src/ui/sbv-computers-panel.c:555-585 | length plus one-way containment decide set difference without duplicates |
| SpnEditor.EditorStaysGood | src/ui/sbv-computers-panel.c:555-699 | over any loads, adds and removes: no case-insensitive duplicates, Save enabled iff initialised and the sets differ |
| SpnEditor.RemoveUndoesAdd | src/ui/sbv-computers-panel.c:587-699 | removing a name just added restores list and Save |
| SpnEditor.AddAppends | src/ui/sbv-computers-panel.c:663-699 | a well-shaped name listed in no spelling is appended on an initialised account; otherwise nothing changes |
| SpnEditor.ShapeExactly | src/ui/sbv-computers-panel.c:672-682 | well-shaped is a service, a slash and a host, neither empty |
| SpnEditor.Panel.LoadComputer | src/ui/sbv-computers-panel.c:194-211 | the working list becomes a copy, Save insensitive |
| SpnEditor.Panel.UpdateDirty | src/ui/sbv-computers-panel.c:558-585 | the nested loops compute Save's sensitivity |
| SpnEditor.Panel.RemoveClicked | src/ui/sbv-computers-panel.c:589-604 | drops the first occurrence |
| SpnEditor.Panel.AddClicked | src/ui/sbv-computers-panel.c:663-699 | appends a well-shaped new name, otherwise says why not |
| LazyTree.ChildrenLoadAtMostOnce | src/ui/sbv-ldap-panel.c:468-521 | over any expands and completions: no node searched twice, leaves never, an answered node's store is exactly the answer, and its children are leaves or not as reported |
| LazyTree.SearchedExactly | src/ui/sbv-ldap-panel.c:499-521 | in any run a node is searched iff it was expanded with a connection while not a known leaf |
| LazyTree.FirstExpansionLoads | src/ui/sbv-ldap-panel.c:468-521 | the first such expansion asks once, later ones nothing, and the answer fills the store |
| LazyTree.OfflineExpansionAsksNothing | src/ui/sbv-ldap-panel.c:499-521 | without a connection nothing is asked, and the node asks after reconnecting |
| LazyTree.LdapNode.GetChildren | src/model/sbv-ldap-node.c:50-57 | creates the store once |
| LazyTree.LdapNode.CreateChildModel | src/ui/sbv-ldap-panel.c:499-521 | marks the node loaded and searches only if it was not |
| LazyTree.LdapNode.OnChildrenLoaded | src/ui/sbv-ldap-panel.c:468-496 | appends the answer in order; a failure leaves the store alone |
| AccountExpiry.UntouchedSaveKeepsTheDay | src/ui/sbv-users-panel.c:108-121 | from 1601-01-02 to 9999, show then save is the midnight at or before, a fixed point, within int64, never "never" |
| AccountExpiry.UntouchedSaveElsewhere | src/ui/sbv-users-panel.c:254-270 | for every int64 value, negative ones included: what show then save does, and exactly when it stores 0 or another user's date |
| AccountExpiry.SavedDateIsShown | src/ui/sbv-users-panel.c:108-121 | a date saved is the date shown next time, never and empty show as empty, other text is refused |
| ObjectSid.DecodeRid | src/backend/sbv-groups-backend.c:95-112 | reads within the value; -1 iff too short or without sub-authorities |
| ObjectSid.WordOfBytes | src/backend/sbv-groups-backend.c:104-108 | little-endian bytes spell the number |
| ObjectSid.KnownWords | src/backend/sbv-groups-backend.c:104-108 | 500 and a number beyond the signed 32-bit range, byte by byte |
| ObjectSid.DecodeEncoded | src/backend/sbv-groups-backend.c:95-112 | for 1 to 255 sub-authorities, with or without trailing bytes, the last one is returned |

## Left out

- GTK widgets, dialogs, row order on screen, CSS and confirmation prompts: no deep property; texts, flags, timers and lists are kept as fields.
- libldap, SASL, TLS, Kerberos, DNS and RootDSE probing: foreign calls, modelled as steps that succeed or fail.
- Reference counting, string ownership and finalisation: values stand for owned copies, so aliasing between the profile list and its callers is not captured.
- Matching rules of attribute values (case-insensitive names, normalisation by the server), attribute options and binary values shown as a placeholder text: values are compared as strings.
- GKeyFile's escaping and number formats: typed values stand for what its get and set functions exchange.
- Calendar arithmetic of GDateTime: dates are day numbers.
- EntryUpdate.RenameEntry: a cn that would need escaping in an RDN is refused by the modelled server (one with "+" could name a second attribute), and entries are leaves without children, because contacts and users have none.
- EntryUpdate.Perform: the rename and the modify of both workers share one method, because the two sources differ only in their field lists.
- IdAllocator.Suggest: one snapshot serves scan and check, and an entry has at most one number, because uidNumber and gidNumber are single-valued; parsing of stored numbers is not modelled.
- CollisionCheck.QuietLabelIsRight: assumes a live connection and a fixed directory during the run; when it holds without the condition on -1 and on checks in flight is what EndsRightExactly says.
- EditorSession.LandingIsRightExactly: every entry carries its own distinguishedName, as Active Directory entries do; result lists of a filter search, whose nodes are selected like the tree's, are not modelled.
- EditorSession.SavedIsShownExactly: for rows of loaded attributes only, because with added rows the added values may happen to make up for what the entry lacks.
- AttrEditor.Editor.RebuildRows: takes the table's keys as a list in any order, because the order of `g_list_sort` matters to no property.
- SPN saving, password and policy writes, search filters, create and delete calls, model getters and setters: each is settled by reading one function.
- Fairness of the mutex: progress is stated as bounded sections and absence of deadlock, not as a schedule.
