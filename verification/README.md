# ROSE workspace manager — a Dafny model of its core

ROSE is a voice- and hotkey-driven desktop assistant. It snapshots the user
applications that are running into a named session file, closes them, and
later relaunches them from a saved session. This project models the part that
decides what happens:

- **Session store** (`session_manager.dfy`, module `Sessions`). `get_running_apps`
  is a loop over the process table that skips system processes and processes
  without an executable path. `save_session` names a session from the clock
  when no name is given and writes `<name>.json`. `load_session` reads a session
  back, and `list_sessions` lists saved sessions newest first. The directory is
  a `map` from file name to content, held in a `SessionManager` class whose
  methods update it.
- **App controller** (`app_controller.dfy`, module `AppControl`).
  `close_all_apps` is a loop that terminates every unprotected process, waits
  for it and kills it if the wait times out. It records each name as closed or
  failed. `restore_workspace` is a loop that relaunches every stored app whose
  path exists and records it as restored or failed.
- **Command recogniser** (`voice_engine.dfy`, module `Voice`). `recognize_command`
  maps a transcript to save, close, restore, start or stop by keyword search in
  a fixed priority order.
- Shared pieces:
  - `process_table.dfy` (module `ProcessTable`) holds the process-table
    listing and the name-based protection test that both loops use.
  - `text.dfy` (module `Text`) holds Python's substring test, ASCII
    `str.lower()`, Python's string order and a descending sort.
  - `wrappers.dfy` holds `Option`.

The outside world is passed in as parameters:

- The process table is a sequence of listings. What a process does when it is
  asked to exit is its `Fate`: it exits, it lingers until killed, it vanishes or
  refuses access, or it refuses the kill.
- The clock is a `DateTime` argument.
- Whether a path exists (`os.path.exists`) and what launching it does
  (`subprocess.Popen`) are function arguments.
- Whether the directory can be written or read is a `bool`.

Three behaviours of the code worth knowing:

- No process is protected by its process identifier. The code protects only by
  name, so the close loop's own interpreter is spared only because its name
  contains "python".
- The close report's `failed` list holds bare names, not (name, reason) pairs.
- A listing whose name cannot be read (`None`) makes `.lower()` raise
  `AttributeError`. Only the handler around the whole loop catches that error,
  so such a listing ends the capture and the close pass. Whatever was collected
  before it is returned.

## Model

| member | source | states |
|---|---|---|
| Text.ContainsIffOccurs | session_manager.py:35 | `p in name` holds exactly when `p` occurs at some position of `name` |
| Text.Contains | session_manager.py:35 | `needle in hay`, tried at each start position in turn; with ContainsIffOccurs it holds exactly when the needle occupies some span of the text |
| Text.Lower | session_manager.py:31 | lowering keeps the length, turns each ASCII capital into its small letter (code point + 32) and leaves every other character as it is |
| Text.Below | session_manager.py:93 | Python's `a < b` on strings; BelowIrreflexive, BelowAsymmetric, BelowTotal and AtLeastTransitive make it a strict total order |
| Text.BelowTotal | session_manager.py:93 | two different strings are ordered one way or the other |
| Text.DistinctIffSingle | session_manager.py:92-93 | a sequence has no repeats exactly when each string occurs at most once in its multiset, so sorting keeps it free of repeats |
| Text.SortDescending | session_manager.py:93 | `sorted(..., reverse=True)` returns a permutation of its input in descending string order |
| ProcessTable.MatchesAny | app_controller.py:30 | `any(p in name for p in protected)`; with MatchesAnyIffOccurs it holds exactly when some protected substring occupies a span of the lowered name |
| ProcessTable.MatchesAnyIffOccurs | session_manager.py:35 | the protection test holds exactly when some protected substring occurs at some position of the lowered name |
| ProcessTable.IsProtected | session_manager.py:31-35 | the name is lowered and then tested; EmbeddedIsProtected and MatchesAnyIffOccurs give both directions |
| ProcessTable.EmbeddedIsProtected | session_manager.py:35 | a name is protected when its lowercased form holds a protected substring at any position, whatever the case of the name |
| Sessions.Eligible | session_manager.py:34-46 | a named listing is kept when its name is not protected, its path is non-empty, and reading it did not raise; CaptureListing and CapturedAreEligible state this of the loop and of the result |
| Sessions.Captured | session_manager.py:29-50 | the capture of a table, the specification GetRunningApps meets; CapturedInOrder, CaptureComplete and CaptureConcat state what it keeps, in what order, and where it stops |
| Sessions.CaptureListing | session_manager.py:30-48 | one loop turn keeps a listing exactly when it is eligible: not protected, a non-empty path, and no error while reading it |
| Sessions.GetRunningApps | session_manager.py:19-52 | the loop returns exactly the capture of the table, and every returned app is unprotected and has a non-empty path |
| Sessions.CapturedAreEligible | session_manager.py:34-46 | every captured app passed the system-process filter and has a non-empty executable path |
| Sessions.CapturedInOrder | session_manager.py:29-46 | the capture is an order-preserving selection: the k-th record has the pid, the original-case name and the exe of an eligible listing, at strictly increasing positions |
| Sessions.CaptureComplete | session_manager.py:29-46 | an eligible listing with no nameless listing before it is always captured |
| Sessions.CaptureConcat | session_manager.py:34-48 | skipped listings never stop the loop: capturing a concatenation is capturing both parts, unless the first part holds a nameless listing |
| Sessions.NamelessEndsCapture | session_manager.py:28-50 | a listing without a name ends the capture; eligible listings after it are lost |
| Sessions.FormatStamp | session_manager.py:57 | `%Y%m%d_%H%M%S` gives fifteen characters: digits, with an underscore at position 8 |
| Sessions.StampOrder | session_manager.py:57 | one generated name sorts before another exactly when its time is earlier, and two names are equal exactly when the times are |
| Sessions.MidnightStamps | session_manager.py:57 | midnight on 1 January and on 1 June 2024 give the names "20240101_000000" and "20240601_000000" |
| Sessions.ChosenName | session_manager.py:56-57 | a given non-empty name is kept verbatim; a missing or empty one is replaced by the timestamp of the clock reading, fifteen characters long; the result is never empty |
| Sessions.FileName | session_manager.py:66 | the file name ends in ".json" and is five characters longer than the session name |
| Sessions.Stem | session_manager.py:92 | `f[:-5]` on a ".json" file name gives back the name that file name was built from |
| Sessions.StemOfFileName | session_manager.py:66-92 | stripping the extension from a session's file name gives back the session name |
| Sessions.FileNameInjective | session_manager.py:66 | two different session names never share a file name |
| Sessions.JoinPath | session_manager.py:66 | the joined path starts with the directory and ends with the file name, with one '/' between them unless the directory is empty or already ends in '/' |
| Sessions.LoadFrom | session_manager.py:77-87 | loading gives `[]` for a missing file, and also for an unreadable file or one without an `apps` entry |
| Sessions.LoadAfterSave | session_manager.py:60-84 | round trip: loading a session just written returns its apps, with the same records in the same order |
| Sessions.SaveKeepsOthers | session_manager.py:66-70 | writing one session leaves what every other session name loads unchanged |
| Sessions.Stems | session_manager.py:92 | `[f[:-5] for f in listing if f.endswith('.json')]`; StemsMembership and StemsCount say which names it yields and how often |
| Sessions.StemsCount | session_manager.py:92 | each session name is stripped from its own ".json" file, exactly as often as that file is listed |
| Sessions.ListedOnce | session_manager.py:92-93 | a listing that names each file once lists each session once |
| Sessions.StemsMembership | session_manager.py:92 | a name is among the stripped names exactly when its ".json" file is in the listing |
| Sessions.ListSessionNames | session_manager.py:89-93 | the result is in descending order, is a permutation of the stripped ".json" names, and holds a name exactly when its file is listed |
| Sessions.NewestFirst | session_manager.py:93 | of two clock-named sessions in the list, the earlier-listed one is not older |
| Sessions.TwoStampedSessions | session_manager.py:89-93 | two clock-named sessions are listed newest first, whichever order the directory gives them in |
| Sessions.ListingExample | session_manager.py:92-93 | the sessions of 1 January and 1 June 2024 are listed June first |
| Sessions.SessionManager.constructor | session_manager.py:14-17 | the store opens over the given directory and the files already in it |
| Sessions.SessionManager.SaveSession | session_manager.py:54-75 | on success the directory gains `<name>.json`, holding the chosen name, the save time and the captured apps, and the joined path is returned; on a failed write it returns `None` and the directory is unchanged |
| Sessions.SessionManager.LoadSession | session_manager.py:77-87 | returns the stored apps of the named session, or `[]` on any failure |
| Sessions.SessionManager.ListSessions | session_manager.py:89-96 | whatever order the directory yields its entries in, the result is descending, holds exactly the saved session names, and holds each of them once; it is `[]` when the directory cannot be read |
| AppControl.ControllerProtectsMore | app_controller.py:13-17 | the close loop protects every name the capture treats as a system process, and also any name containing "python" |
| AppControl.SparedIsProtected | app_controller.py:29-35 | the separate "explorer" test adds nothing to the protected-set test |
| AppControl.Spared | app_controller.py:29-35 | a process the close loop skips: protected by name, or an Explorer; SparedIsProtected shows the second test adds nothing |
| AppControl.CloseOne | app_controller.py:29-52 | the close step for one named listing, by fate; CloseListing is proved to compute it, and LingeringIsKilledAndClosed and VanishedIsFailedAndPassContinues state its cases |
| AppControl.Close | app_controller.py:25-55 | the close pass over a table, the specification CloseAllApps meets; CloseSparesProtected, KillFollowsTerminate, CloseConcat and NamelessEndsClose state its properties |
| AppControl.CloseListing | app_controller.py:26-52 | one loop turn is the per-listing step of the close pass, and records the name at most once |
| AppControl.CloseAllApps | app_controller.py:19-61 | the loop returns the close pass's closed and failed names with `total == len(closed)`, sends the pass's requests in order, and never records a protected name |
| AppControl.CloseSparesProtected | app_controller.py:29-39 | no protected name or Explorer is recorded, and every terminate or kill request goes to the pid of an unspared listing |
| AppControl.KillFollowsTerminate | app_controller.py:38-45 | every kill comes directly after the terminate request to the same pid |
| AppControl.CloseConcat | app_controller.py:50-52 | failures never stop the pass: closing a concatenation is closing both parts, unless the first part ends the pass |
| AppControl.VanishedIsFailedAndPassContinues | app_controller.py:50-52 | a process that vanishes or denies access is recorded as failed and the rest of the table is still processed |
| AppControl.LingeringIsKilledAndClosed | app_controller.py:41-47 | a process whose wait times out is killed and still recorded as closed |
| AppControl.NothingToClose | app_controller.py:57-61 | with only spared processes the report is empty, with total 0 |
| AppControl.NamelessEndsClose | app_controller.py:25-55 | a listing without a name ends the pass; the processes after it are neither signalled nor recorded |
| AppControl.InterpreterCapturedButNeverClosed | app_controller.py:13-16 | a "python.exe" process with a path is captured into a session, yet the close pass never touches it |
| AppControl.NotSparedWithoutLetters | app_controller.py:13-35 | a lowered name with none of the letters c, i, l, m, s, v, w, y is not spared |
| AppControl.NotepadNotSpared | app_controller.py:29-35 | "notepad.exe" is not spared by the close pass |
| AppControl.NotepadCapturedAndClosed | app_controller.py:29-47 | an ordinary application is captured, asked to exit and recorded as closed |
| AppControl.RestoreOne | app_controller.py:72-84 | the restore step for one app; RestoreApp is proved to compute it, and PathNotFound and LaunchErrorIsFailure state its failure cases |
| AppControl.Restore | app_controller.py:71-84 | the restore pass over the stored apps, the specification RestoreWorkspace meets; RestorePartition, RestoredAreSucceeding, OnlyExistingPathsLaunched and RestoreConcat state its properties |
| AppControl.RestoreApp | app_controller.py:72-84 | one loop turn is the per-app step of the restore pass, and records the app exactly once |
| AppControl.RestoreWorkspace | app_controller.py:63-90 | the loop returns the restore pass's lists with `total == len(restored)`; every app lands in exactly one list; only existing, non-empty paths are launched |
| AppControl.RestoreConcat | app_controller.py:71-84 | one app's failure never stops the later ones: restoring a concatenation is restoring both parts |
| AppControl.RestorePartition | app_controller.py:71-90 | restored plus failed equals the number of apps, and restored counts the apps whose path exists and whose launch succeeds |
| AppControl.RestoredAreSucceeding | app_controller.py:74-76 | the restored names are exactly the names of the launchable, successfully launched apps, in stored order |
| AppControl.OnlyExistingPathsLaunched | app_controller.py:73-75 | nothing is launched from a missing, empty or non-existent path |
| AppControl.PathNotFound | app_controller.py:79-80 | an app whose path is missing or does not exist fails as "<name> (path not found)" and nothing is launched |
| AppControl.LaunchErrorIsFailure | app_controller.py:82-83 | a launch that raises fails as "<name> (<message>)" and is not counted as restored |
| AppControl.MissingThenValid | app_controller.py:71-90 | one app with a missing path and one valid app give one restored and one "path not found", so total is 1 |
| Voice.RecognizeCommand | voice_engine.py:41-59 | `None` for missing or empty text; otherwise RecognizedIsMentioned, RecognizedHasPriority, NothingRecognized and MentionedIsRecognized characterise the command it returns |
| Voice.Rank | voice_engine.py:46-52 | each command has its place in the keyword table's priority order |
| Voice.AnyKeywordIff | voice_engine.py:55-57 | the inner loop finds a keyword exactly when some keyword of the list occurs in the text |
| Voice.FirstCommandSpec | voice_engine.py:54-59 | the outer loop returns the first command with a matching keyword, and `None` exactly when no command matches |
| Voice.RecognizedIsMentioned | voice_engine.py:54-57 | a recognised command has one of its keywords in the text |
| Voice.RecognizedHasPriority | voice_engine.py:46-57 | no command ranked before the recognised one is mentioned in the text |
| Voice.NothingRecognized | voice_engine.py:43-59 | the result is `None` exactly when the text is missing, is empty, or mentions no command |
| Voice.MentionedIsRecognized | voice_engine.py:54-59 | if a command is mentioned, that command or one ranked before it is recognised |
| Voice.RestoreExample | voice_engine.py:41-59 | "restore workspace" is recognised as restore |
| Voice.CloseExample | voice_engine.py:41-59 | "close all apps" is recognised as close |
| Voice.SaveFirstExample | voice_engine.py:41-59 | "save and close" is recognised as save, which ranks above close |
| Voice.IgnoredExample | voice_engine.py:41-59 | "hi" is not recognised as any command |

## Left out

- Printing and logging: they affect no result.
- Enumeration of processes, signalling them and waiting for them are not
  modelled as calls. A table of listings stands for them, and each listing's
  `Fate` records the outcome in advance. psutil's own handling of attributes it
  cannot read (it reports them as `None`) is taken as given.
- `time.sleep` calls and the 3-second wait length: only the outcome of the wait
  (exited or timed out) is modelled.
- The process identifier reused by another process between enumeration and
  signalling: not modelled.
- `os.path.exists` and `subprocess.Popen` are function arguments. The process a
  launch starts is not modelled.
- AppControl.RestoreOne: whether a path exists and what launching it does are
  pure functions of the path. Two apps with the same path therefore always get
  the same outcome, even though the file system or a launch could change
  between them in the real program.
- JSON encoding, decoding and indentation: a file holds a `Stored` value. The
  `timestamp` entry is kept as the `DateTime` reading rather than its
  `isoformat()` text.
- A write that fails part way: a write either replaces the file or leaves the
  directory unchanged.
- `os.makedirs` in `SessionManager.__init__`: the constructor takes the
  directory's existing files, which is the empty map when it had to create the
  directory.
- Text.Lower: only ASCII capitals are lowered. Python's full Unicode
  case mapping is not modelled.
- Sessions.FormatStamp: years below 1000 are zero-padded to four digits, which
  the platform's `strftime` may not do.
- Sessions.SaveKeepsOthers: the directory is a map keyed by file name, so
  names that the file system treats as one file are separate keys here: "a"
  and "./a" (or "x/../a"), and "Work" and "work" on a case-insensitive file
  system such as Windows. For such names, saving one changes what the other
  loads, and `list_sessions` reports the name of the file as stored. The same
  holds for Sessions.SessionManager.ListSessions. The one call that saves, at
  main.py:32, passes no name, so every session is clock-named. main.py:58 loads
  a name that `list_sessions` returned. For those names the model and the
  program agree.
- Sessions.JoinPath: joins with "/" only. A session name that is an absolute
  path (which `os.path.join` would return unchanged) and the Windows separator
  are not modelled.
- A stored app record always has a name here. A record without `name` makes
  `restore_workspace` raise `KeyError` out of its own handler, and that is not
  modelled.
- Sessions.CaptureListing: an error while reading a listing (`NoSuchProcess`,
  `AccessDenied`) is modelled as that listing's `Vanished` fate and skips it.
  Any other error in the loop ends the pass; only a nameless listing is
  modelled as causing that.
- `VoiceEngine.listen_for_command`, `VoiceEngine.speak` and the recogniser's
  constructor: they need a microphone, a speech service and a speech engine.
- main.py and hotkeys.py (the command dispatcher and the global hotkeys) are
  not part of this model.
