/**
 * The workspace controller: the close pass, which asks every unprotected
 * process to exit, and the restore pass, which relaunches the applications of
 * a saved session.
 *
 * The process table and each process's answer come in as listings (see
 * ProcessTable); whether a path exists and what launching it does are
 * functions passed in. The sleeps between steps are not modelled.
 */
module AppControl {
  import opened Wrappers
  import opened Text
  import opened ProcessTable
  import opened Sessions

  /** The substrings that protect a process from the close pass: the
      capture's system processes and also "python", the interpreter the
      assistant itself runs under. */
  const ControllerProtected: set<string> :=
    {"svchost", "csrss", "lsass", "services", "wininit",
     "dwm", "system", "explorer", "searchindexer", "wmiprvse",
     "nvidia", "amd", "intel", "nvidia-smi", "python"}

  /** The close pass protects at least what the capture leaves out, and the
      interpreter besides. */
  lemma ControllerProtectsMore(name: string)
    ensures IsProtected(CaptureProtected, name) ==> IsProtected(ControllerProtected, name)
    ensures Contains(Lower(name), "python") ==> IsProtected(ControllerProtected, name)
  {
    assert CaptureProtected <= ControllerProtected;
    ProtectionMonotone(CaptureProtected, ControllerProtected, name);
  }

  /** A process the close pass leaves alone: protected by name, or an
      Explorer. */
  predicate Spared(name: string)
  {
    MatchesAny(ControllerProtected, Lower(name)) || Contains(Lower(name), "explorer")
  }

  /** The separate Explorer test adds nothing: "explorer" is itself one of the
      protected substrings. */
  lemma SparedIsProtected(name: string)
    ensures Spared(name) <==> IsProtected(ControllerProtected, name)
  {
    assert "explorer" in ControllerProtected;
  }

  // ---------------------------------------------------------------------
  // close_all_apps

  /** A request sent to a process. */
  datatype Signal = Terminate(pid: int) | Kill(pid: int)

  /** The dictionary `close_all_apps` returns. */
  datatype CloseReport = CloseReport(closed: seq<string>, failed: seq<string>, total: int)

  /** What a close pass over part of the table did: names recorded as closed
      and as failed, the requests sent, and whether a nameless listing ended
      the pass. */
  datatype CloseRun = CloseRun(closed: seq<string>, failed: seq<string>, signals: seq<Signal>, ended: bool)

  const NoRun := CloseRun([], [], [], false)

  /** One run followed by another; after an ended run nothing more happens. */
  function Then(a: CloseRun, b: CloseRun): CloseRun
  {
    if a.ended then a
    else CloseRun(a.closed + b.closed, a.failed + b.failed, a.signals + b.signals, b.ended)
  }

  /** The close pass on one listing whose name could be read. */
  function CloseOne(e: Listing): CloseRun
    requires e.name.Some?
  {
    var name := e.name.value;
    if Spared(name) then NoRun
    else match e.fate
      case Responsive => CloseRun([name], [], [Terminate(e.pid)], false)
      case Lingering => CloseRun([name], [], [Terminate(e.pid), Kill(e.pid)], false)
      case Vanished => CloseRun([], [name], [], false)
      case KillRefused => CloseRun([], [name], [Terminate(e.pid), Kill(e.pid)], false)
  }

  /** The close pass over a table, in enumeration order. A listing without a
      name ends it: lowering the name raises an error that only the handler
      around the whole loop catches. */
  function Close(table: seq<Listing>): CloseRun
  {
    if table == [] then NoRun
    else if table[0].name.None? then CloseRun([], [], [], true)
    else Then(CloseOne(table[0]), Close(table[1..]))
  }

  lemma ThenAssociative(a: CloseRun, b: CloseRun, c: CloseRun)
    ensures Then(Then(a, b), c) == Then(a, Then(b, c))
  {
  }

  /** The body of the close loop for one listing whose name could be read:
      skip it if spared, otherwise terminate, wait, kill on timeout, and say
      where its name is recorded. */
  method CloseListing(entry: Listing) returns (step: CloseRun)
    requires entry.name.Some?
    ensures step == CloseOne(entry)
    ensures !step.ended && |step.closed| + |step.failed| <= 1
  {
    var name := Lower(entry.name.value);
    if MatchesAny(ControllerProtected, name) {
      return NoRun;
    }
    if Contains(name, "explorer") {
      return NoRun;
    }
    if entry.fate == Vanished {
      // psutil.Process(pid) or terminate() raised
      return CloseRun([], [entry.name.value], [], false);
    }
    var sent := [Terminate(entry.pid)];
    if entry.fate != Responsive {
      // wait(timeout=3) raised TimeoutExpired
      sent := sent + [Kill(entry.pid)];
    }
    if entry.fate == KillRefused {
      step := CloseRun([], [entry.name.value], sent, false);
    } else {
      step := CloseRun([entry.name.value], [], sent, false);
    }
  }

  /** `close_all_apps`: one pass over the process table. Returns the report
      and the requests sent to processes, in order. */
  method CloseAllApps(table: seq<Listing>) returns (report: CloseReport, signals: seq<Signal>)
    ensures report == CloseReport(Close(table).closed, Close(table).failed, |Close(table).closed|)
    ensures signals == Close(table).signals
    ensures report.total == |report.closed|
    ensures forall n :: n in report.closed || n in report.failed ==> !IsProtected(ControllerProtected, n)
  {
    var closed: seq<string> := [];
    var failed: seq<string> := [];
    signals := [];
    var i := 0;
    while i < |table|
      invariant 0 <= i <= |table|
      invariant Close(table) == Then(CloseRun(closed, failed, signals, false), Close(table[i..]))
    {
      var entry := table[i];
      assert table[i..][1..] == table[i + 1..];
      if entry.name.None? {
        // `None.lower()` raises AttributeError; the outer handler ends the loop
        break;
      }
      var step := CloseListing(entry);
      assert Close(table[i..]) == Then(step, Close(table[i + 1..]));
      ThenAssociative(CloseRun(closed, failed, signals, false), step, Close(table[i + 1..]));
      closed, failed, signals := closed + step.closed, failed + step.failed, signals + step.signals;
      i := i + 1;
    }
    if i == |table| {
      assert table[i..] == [];
    }
    report := CloseReport(closed, failed, |closed|);
    CloseSparesProtected(table);
  }

  /** No protected process, "python" included, and no Explorer is ever
      recorded as closed or failed, and none is sent a request: every request
      goes to the pid of a listing whose name is not spared. */
  lemma {:induction false} CloseSparesProtected(table: seq<Listing>)
    ensures forall n :: n in Close(table).closed || n in Close(table).failed ==>
              !IsProtected(ControllerProtected, n) && !Contains(Lower(n), "explorer")
    ensures forall s :: s in Close(table).signals ==>
              exists k :: 0 <= k < |table| && table[k].pid == s.pid && table[k].name.Some? && !Spared(table[k].name.value)
  {
    if table != [] && table[0].name.Some? {
      CloseSparesProtected(table[1..]);
      SparedIsProtected(table[0].name.value);
      forall s | s in Close(table).signals
        ensures exists k :: 0 <= k < |table| && table[k].pid == s.pid && table[k].name.Some? && !Spared(table[k].name.value)
      {
        if s in CloseOne(table[0]).signals {
          assert table[0].pid == s.pid;
        } else {
          var k :| 0 <= k < |table[1..]| && table[1..][k].pid == s.pid && table[1..][k].name.Some? && !Spared(table[1..][k].name.value);
          assert table[k + 1] == table[1..][k];
        }
      }
      forall n | n in Close(table).closed || n in Close(table).failed
        ensures !IsProtected(ControllerProtected, n) && !Contains(Lower(n), "explorer")
      {
        SparedIsProtected(n);
      }
    }
  }

  /** Termination first, force second: every kill request follows the
      terminate request to the same process whose wait timed out, and every
      terminated process is recorded once, as closed or as failed. */
  lemma {:induction false} KillFollowsTerminate(table: seq<Listing>)
    ensures forall k :: 0 <= k < |Close(table).signals| && Close(table).signals[k].Kill? ==>
              k > 0 && Close(table).signals[k - 1] == Terminate(Close(table).signals[k].pid)
  {
    if table != [] && table[0].name.Some? {
      KillFollowsTerminate(table[1..]);
      var head := CloseOne(table[0]).signals;
      var rest := Close(table[1..]);
      if !rest.ended {
        var all := Close(table).signals;
        assert all == head + rest.signals;
        forall k | 0 <= k < |all| && all[k].Kill?
          ensures k > 0 && all[k - 1] == Terminate(all[k].pid)
        {
          if k >= |head| {
            assert all[k] == rest.signals[k - |head|];
            if k - |head| > 0 {
              assert all[k - 1] == rest.signals[k - 1 - |head|];
            }
          }
        }
      }
    }
  }

  /** Failures never stop the pass: closing two tables in turn is closing
      their concatenation, unless the first ends the pass. */
  lemma {:induction false} CloseConcat(a: seq<Listing>, b: seq<Listing>)
    ensures Close(a + b) == Then(Close(a), Close(b))
  {
    if a == [] {
      assert a + b == b;
    } else {
      assert (a + b)[0] == a[0];
      assert (a + b)[1..] == a[1..] + b;
      CloseConcat(a[1..], b);
      if a[0].name.Some? {
        ThenAssociative(CloseOne(a[0]), Close(a[1..]), Close(b));
      }
    }
  }

  /** A process that vanishes or refuses access is recorded as failed and the
      pass goes on with the next listing. */
  lemma VanishedIsFailedAndPassContinues(e: Listing, rest: seq<Listing>)
    requires e.name.Some? && !Spared(e.name.value) && e.fate == Vanished
    ensures Close([e] + rest) == CloseRun(Close(rest).closed, [e.name.value] + Close(rest).failed,
                                          Close(rest).signals, Close(rest).ended)
  {
    assert ([e] + rest)[1..] == rest;
  }

  /** A process that ignores terminate() is killed after the wait and still
      counts as closed. */
  lemma LingeringIsKilledAndClosed(e: Listing)
    requires e.name.Some? && !Spared(e.name.value) && e.fate == Lingering
    ensures Close([e]) == CloseRun([e.name.value], [], [Terminate(e.pid), Kill(e.pid)], false)
  {
  }

  /** With nothing eligible the pass reports nothing: empty lists, total 0. */
  lemma {:induction false} NothingToClose(table: seq<Listing>)
    requires forall k :: 0 <= k < |table| ==> table[k].name.Some? && Spared(table[k].name.value)
    ensures Close(table) == NoRun
  {
    if table != [] {
      NothingToClose(table[1..]);
    }
  }

  /** A nameless listing ends the pass: the processes after it are neither
      asked to exit nor recorded. */
  lemma NamelessEndsClose(done: seq<Listing>, nameless: Listing, later: seq<Listing>)
    requires nameless.name.None?
    ensures Close(done + [nameless] + later) == Then(Close(done), CloseRun([], [], [], true))
  {
    CloseConcat(done, [nameless] + later);
    assert done + [nameless] + later == done + ([nameless] + later);
  }

  /** The two passes disagree on the interpreter: a "python.exe" process with
      a path is captured into a session, yet the close pass never stops it. */
  lemma InterpreterCapturedButNeverClosed(e: Listing)
    requires e.name == Some("python.exe") && e.exe.Some? && e.exe.value != "" && e.fate != Vanished
    ensures Eligible(CaptureProtected, e)
    ensures CloseOne(e) == NoRun
  {
    var lowered := Lower("python.exe");
    assert lowered == "python.exe";
    NotProtectedBecause(CaptureProtected, lowered,
      map["svchost" := 's', "csrss" := 'c', "lsass" := 'l', "services" := 's', "wininit" := 'w',
          "dwm" := 'd', "system" := 's', "explorer" := 'l', "searchindexer" := 's', "wmiprvse" := 'w',
          "nvidia" := 'v', "amd" := 'a', "intel" := 'i', "nvidia-smi" := 'v']);
    ContainsInfix("", "python", ".exe");
    assert "python" in ControllerProtected;
  }

  /** Every protected substring holds one of the letters c, i, l, m, s, v,
      w, y; a lowered name with none of them is not spared. */
  lemma NotSparedWithoutLetters(lowered: string)
    requires forall c :: c in "cilmsvwy" ==> c !in lowered
    ensures !MatchesAny(ControllerProtected, lowered) && !Contains(lowered, "explorer")
  {
    forall p | p in ControllerProtected
      ensures !Contains(lowered, p)
    {
      var c := if p == "explorer" then 'l'
               else if p in {"wininit", "dwm", "wmiprvse"} then 'w'
               else if p in {"nvidia", "nvidia-smi"} then 'v'
               else if p == "amd" then 'm'
               else if p == "intel" then 'i'
               else if p == "python" then 'y'
               else 's';
      assert c in "cilmsvwy";
      MissingCharNotContained(lowered, p, c);
    }
    MissingCharNotContained(lowered, "explorer", 'l');
  }

  /** "notepad.exe" holds none of the protected substrings. */
  lemma NotepadNotSpared(lowered: string)
    requires lowered == "notepad.exe"
    ensures !MatchesAny(ControllerProtected, lowered) && !Contains(lowered, "explorer")
  {
    NotSparedWithoutLetters(lowered);
  }

  /** An ordinary application such as Notepad is captured, and the close pass
      asks it to exit and records it as closed. */
  lemma NotepadCapturedAndClosed(e: Listing)
    requires e.name == Some("notepad.exe") && e.exe.Some? && e.exe.value != "" && e.fate == Responsive
    ensures Eligible(CaptureProtected, e)
    ensures CloseOne(e) == CloseRun(["notepad.exe"], [], [Terminate(e.pid)], false)
  {
    var lowered := Lower("notepad.exe");
    assert lowered == "notepad.exe";
    NotepadNotSpared(lowered);
    assert CaptureProtected <= ControllerProtected;
    ProtectionMonotone(CaptureProtected, ControllerProtected, "notepad.exe");
  }

  // ---------------------------------------------------------------------
  // restore_workspace

  /** The dictionary `restore_workspace` returns. */
  datatype RestoreReport = RestoreReport(restored: seq<string>, failed: seq<string>, total: int)

  /** What a restore pass did: names relaunched, failure messages, and the
      paths it tried to launch, in order. */
  datatype RestoreRun = RestoreRun(restored: seq<string>, failed: seq<string>, launched: seq<string>)

  /** A path that is present, non-empty and exists on disk. */
  predicate Launchable(exe: Option<string>, exists_: string -> bool)
  {
    exe.Some? && exe.value != "" && exists_(exe.value)
  }

  /** The restore pass on one stored app. `launch(path)` is `None` when
      `subprocess.Popen([path])` succeeds and `Some(message)` when it raises. */
  function RestoreOne(app: App, exists_: string -> bool, launch: string -> Option<string>): RestoreRun
  {
    if Launchable(app.exe, exists_) then
      match launch(app.exe.value)
      case None => RestoreRun([app.name], [], [app.exe.value])
      case Some(message) => RestoreRun([], [app.name + " (" + message + ")"], [app.exe.value])
    else RestoreRun([], [app.name + " (path not found)"], [])
  }

  /** One restore run followed by another. */
  function Join(a: RestoreRun, b: RestoreRun): RestoreRun
  {
    RestoreRun(a.restored + b.restored, a.failed + b.failed, a.launched + b.launched)
  }

  lemma JoinAssociative(a: RestoreRun, b: RestoreRun, c: RestoreRun)
    ensures Join(Join(a, b), c) == Join(a, Join(b, c))
  {
  }

  /** The restore pass over the stored apps, in stored order. */
  function Restore(apps: seq<App>, exists_: string -> bool, launch: string -> Option<string>): RestoreRun
  {
    if apps == [] then RestoreRun([], [], [])
    else Join(RestoreOne(apps[0], exists_, launch), Restore(apps[1..], exists_, launch))
  }

  /** The body of the restore loop for one stored app: launch it if its path
      exists, and say where its name is recorded. */
  method RestoreApp(app: App, exists_: string -> bool, launch: string -> Option<string>) returns (step: RestoreRun)
    ensures step == RestoreOne(app, exists_, launch)
    ensures |step.restored| + |step.failed| == 1
  {
    var exePath := app.exe;
    if exePath.Some? && exePath.value != "" && exists_(exePath.value) {
      var outcome := launch(exePath.value);
      if outcome.None? {
        step := RestoreRun([app.name], [], [exePath.value]);
      } else {
        // Popen raised: record its message
        step := RestoreRun([], [app.name + " (" + outcome.value + ")"], [exePath.value]);
      }
    } else {
      step := RestoreRun([], [app.name + " (path not found)"], []);
    }
  }

  /** `restore_workspace`: one pass over the stored apps. Returns the report
      and the paths it tried to launch. */
  method RestoreWorkspace(apps: seq<App>, exists_: string -> bool, launch: string -> Option<string>)
    returns (report: RestoreReport, launched: seq<string>)
    ensures report == RestoreReport(Restore(apps, exists_, launch).restored, Restore(apps, exists_, launch).failed,
                                    |Restore(apps, exists_, launch).restored|)
    ensures launched == Restore(apps, exists_, launch).launched
    ensures |report.restored| + |report.failed| == |apps|
    ensures report.total == |report.restored|
    ensures forall p :: p in launched ==> p != "" && exists_(p)
  {
    var restored: seq<string> := [];
    var failed: seq<string> := [];
    launched := [];
    var i := 0;
    while i < |apps|
      invariant 0 <= i <= |apps|
      invariant Restore(apps[..i], exists_, launch) == RestoreRun(restored, failed, launched)
    {
      var step := RestoreApp(apps[i], exists_, launch);
      RestoreConcat(apps[..i], [apps[i]], exists_, launch);
      assert apps[..i + 1] == apps[..i] + [apps[i]];
      assert Restore([apps[i]], exists_, launch) == step by {
        assert [apps[i]][1..] == [];
      }
      restored, failed, launched := restored + step.restored, failed + step.failed, launched + step.launched;
      i := i + 1;
    }
    assert apps[..i] == apps;
    report := RestoreReport(restored, failed, |restored|);
    RestorePartition(apps, exists_, launch);
    OnlyExistingPathsLaunched(apps, exists_, launch);
  }

  /** One app's failure never stops the later ones: restoring two lists in
      turn is restoring their concatenation. */
  lemma {:induction false} RestoreConcat(a: seq<App>, b: seq<App>, exists_: string -> bool, launch: string -> Option<string>)
    ensures Restore(a + b, exists_, launch) == Join(Restore(a, exists_, launch), Restore(b, exists_, launch))
  {
    if a == [] {
      assert a + b == b;
    } else {
      assert (a + b)[0] == a[0];
      assert (a + b)[1..] == a[1..] + b;
      RestoreConcat(a[1..], b, exists_, launch);
      JoinAssociative(RestoreOne(a[0], exists_, launch), Restore(a[1..], exists_, launch), Restore(b, exists_, launch));
    }
  }

  /** Every stored app ends up in exactly one of the two lists, restored
      exactly when its path exists and its launch succeeds. */
  lemma {:induction false} RestorePartition(apps: seq<App>, exists_: string -> bool, launch: string -> Option<string>)
    ensures var r := Restore(apps, exists_, launch);
            |r.restored| + |r.failed| == |apps|
    ensures |Restore(apps, exists_, launch).restored| == |Succeeding(apps, exists_, launch)|
  {
    if apps != [] {
      RestorePartition(apps[1..], exists_, launch);
    }
  }

  /** The apps whose path exists and whose launch succeeds, in order. */
  function Succeeding(apps: seq<App>, exists_: string -> bool, launch: string -> Option<string>): seq<App>
  {
    if apps == [] then []
    else (if Launchable(apps[0].exe, exists_) && launch(apps[0].exe.value).None? then [apps[0]] else [])
         + Succeeding(apps[1..], exists_, launch)
  }

  /** The restored names are exactly the names of the succeeding apps, in
      stored order. */
  lemma {:induction false} RestoredAreSucceeding(apps: seq<App>, exists_: string -> bool, launch: string -> Option<string>)
    ensures var s := Succeeding(apps, exists_, launch);
            Restore(apps, exists_, launch).restored == seq(|s|, k requires 0 <= k < |s| => s[k].name)
  {
    if apps != [] {
      RestoredAreSucceeding(apps[1..], exists_, launch);
    }
  }

  /** Nothing is launched from a missing, empty or non-existent path. */
  lemma {:induction false} OnlyExistingPathsLaunched(apps: seq<App>, exists_: string -> bool, launch: string -> Option<string>)
    ensures forall p :: p in Restore(apps, exists_, launch).launched ==> p != "" && exists_(p)
  {
    if apps != [] {
      OnlyExistingPathsLaunched(apps[1..], exists_, launch);
    }
  }

  /** An app whose path is missing or does not exist fails with
      "<name> (path not found)" and nothing is launched for it. */
  lemma PathNotFound(app: App, exists_: string -> bool, launch: string -> Option<string>)
    requires !Launchable(app.exe, exists_)
    ensures Restore([app], exists_, launch) == RestoreRun([], [app.name + " (path not found)"], [])
  {
  }

  /** A launch that raises fails with "<name> (<message>)" and does not count
      as restored. */
  lemma LaunchErrorIsFailure(app: App, exists_: string -> bool, launch: string -> Option<string>)
    requires Launchable(app.exe, exists_) && launch(app.exe.value).Some?
    ensures Restore([app], exists_, launch)
            == RestoreRun([], [app.name + " (" + launch(app.exe.value).value + ")"], [app.exe.value])
  {
  }

  /** One app with a missing path followed by one that launches: one
      restored, one "path not found", total 1. */
  lemma MissingThenValid(missing: App, valid: App, exists_: string -> bool, launch: string -> Option<string>)
    requires !Launchable(missing.exe, exists_)
    requires Launchable(valid.exe, exists_) && launch(valid.exe.value).None?
    ensures Restore([missing, valid], exists_, launch)
            == RestoreRun([valid.name], [missing.name + " (path not found)"], [valid.exe.value])
  {
    assert [missing, valid] == [missing] + [valid];
    RestoreConcat([missing], [valid], exists_, launch);
    PathNotFound(missing, exists_, launch);
    assert [valid][1..] == [];
  }
}
