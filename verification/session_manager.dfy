/**
 * The session store: capturing the running user applications, saving them as
 * a named, timestamped session, loading a session back and listing the saved
 * sessions newest first.
 *
 * The sessions directory is a map from file name to file content; the clock,
 * the process table and whether a write succeeds are parameters.
 */
module Sessions {
  import opened Wrappers
  import opened Text
  import opened ProcessTable

  /** The substrings that mark a process as a system process when capturing. */
  const CaptureProtected: set<string> :=
    {"svchost", "csrss", "lsass", "services", "wininit",
     "dwm", "system", "explorer", "searchindexer", "wmiprvse",
     "nvidia", "amd", "intel", "nvidia-smi"}

  /** One captured application: `{'pid', 'name', 'exe'}`. The name keeps its
      original case. `exe` is optional because a stored record read back from a
      session file need not carry one. */
  datatype App = App(pid: int, name: string, exe: Option<string>)

  /** The record built from a listing whose name could be read. */
  function AppOf(e: Listing): (a: App)
    requires e.name.Some?
    ensures a.pid == e.pid && a.name == e.name.value && a.exe == e.exe
  {
    App(e.pid, e.name.value, e.exe)
  }

  /** A listing with a readable name that the capture keeps: its name holds
      none of the `protected` substrings (`CaptureProtected` in
      `get_running_apps`), it has a non-empty executable path, and reading it
      did not raise. */
  predicate Eligible(protected: set<string>, e: Listing)
    requires e.name.Some?
  {
    && !IsProtected(protected, e.name.value)
    && e.exe.Some? && e.exe.value != ""
    && e.fate != Vanished
  }

  /** What the capture returns for a table, given the protected substrings:
      the eligible listings, in
      enumeration order, up to the first listing without a name; lowering that
      missing name raises an error that only the handler around the whole loop
      catches, so the pass ends there with what it has so far. */
  function Captured(protected: set<string>, table: seq<Listing>): seq<App>
  {
    if table == [] || table[0].name.None? then []
    else (if Eligible(protected, table[0]) then [AppOf(table[0])] else []) + Captured(protected, table[1..])
  }

  /** Every listing before position `i` has a readable name. */
  predicate NamedBefore(table: seq<Listing>, i: int)
  {
    forall k :: 0 <= k < i && k < |table| ==> table[k].name.Some?
  }

  /** One turn of the capture loop, for a listing whose name could be read:
      the record of an eligible listing, and nothing for one the loop skips
      with `continue` (a protected name, no path, or an error reading it). */
  method CaptureListing(protected: set<string>, entry: Listing) returns (kept: seq<App>)
    requires entry.name.Some?
    ensures kept == if Eligible(protected, entry) then [AppOf(entry)] else []
  {
    var name := Lower(entry.name.value);
    if MatchesAny(protected, name) {
      return [];
    }
    if entry.exe.None? || entry.exe.value == "" {
      return [];
    }
    if entry.fate == Vanished {
      // NoSuchProcess / AccessDenied: skip this one and go on
      return [];
    }
    kept := [App(entry.pid, entry.name.value, entry.exe)];
  }

  /** `get_running_apps`: one pass over the process table. */
  method GetRunningApps(table: seq<Listing>) returns (apps: seq<App>)
    ensures apps == Captured(CaptureProtected, table)
    ensures forall k :: 0 <= k < |apps| ==>
              !IsProtected(CaptureProtected, apps[k].name) && apps[k].exe.Some? && apps[k].exe.value != ""
  {
    apps := [];
    var i := 0;
    while i < |table|
      invariant 0 <= i <= |table|
      invariant Captured(CaptureProtected, table) == apps + Captured(CaptureProtected, table[i..])
    {
      var entry := table[i];
      assert table[i..][1..] == table[i + 1..];
      if entry.name.None? {
        // `None.lower()` raises; the outer handler ends the loop
        break;
      }
      var kept := CaptureListing(CaptureProtected, entry);
      apps := apps + kept;
      i := i + 1;
    }
    if i == |table| {
      assert table[i..] == [];
    }
    CapturedAreEligible(CaptureProtected, table);
  }

  /** Every captured application passed the system-process filter and has an
      executable path. */
  lemma {:induction false} CapturedAreEligible(protected: set<string>, table: seq<Listing>)
    ensures forall a :: a in Captured(protected, table) ==>
              !IsProtected(protected, a.name) && a.exe.Some? && a.exe.value != ""
  {
    if table != [] && table[0].name.Some? {
      CapturedAreEligible(protected, table[1..]);
    }
  }

  /** Positions listed in strictly increasing order. */
  predicate Increasing(idx: seq<int>)
  {
    forall k, l :: 0 <= k < l < |idx| ==> idx[k] < idx[l]
  }

  /** The positions of a tail's selection, seen from the whole table. */
  function Shifted(idx: seq<int>): (r: seq<int>)
    ensures |r| == |idx| && forall k :: 0 <= k < |idx| ==> r[k] == idx[k] + 1
  {
    seq(|idx|, k requires 0 <= k < |idx| => idx[k] + 1)
  }

  lemma ShiftedIncreasing(idx: seq<int>, first: bool)
    requires Increasing(idx) && forall k :: 0 <= k < |idx| ==> 0 <= idx[k]
    ensures Increasing(if first then [0] + Shifted(idx) else Shifted(idx))
  {
  }

  /** `idx` picks out, at strictly increasing positions of the table, the
      eligible listings whose records make up the capture, in order. */
  predicate Selection(protected: set<string>, table: seq<Listing>, idx: seq<int>)
  {
    && |idx| == |Captured(protected, table)|
    && Increasing(idx)
    && forall k :: 0 <= k < |idx| ==>
         && 0 <= idx[k] < |table|
         && table[idx[k]].name.Some? && Eligible(protected, table[idx[k]])
         && Captured(protected, table)[k].pid == table[idx[k]].pid
         && Captured(protected, table)[k].name == table[idx[k]].name.value
         && Captured(protected, table)[k].exe == table[idx[k]].exe
  }

  /** The capture is an order-preserving selection from the table: the k-th
      captured record is the unchanged pid, name and exe of an eligible
      listing, at strictly increasing positions. */
  lemma {:induction false} CapturedInOrder(protected: set<string>, table: seq<Listing>) returns (idx: seq<int>)
    ensures Selection(protected, table, idx)
  {
    if table == [] || table[0].name.None? {
      idx := [];
    } else {
      var tail := CapturedInOrder(protected, table[1..]);
      idx := SelectionStep(protected, table, tail);
    }
  }

  /** Extending the tail's selection by the table's first listing. */
  lemma SelectionStep(protected: set<string>, table: seq<Listing>, tail: seq<int>) returns (idx: seq<int>)
    requires table != [] && table[0].name.Some?
    requires Selection(protected, table[1..], tail)
    ensures Selection(protected, table, idx)
  {
    var first := Eligible(protected, table[0]);
    var lead := if first then 1 else 0;
    var head := if first then [AppOf(table[0])] else [];
    ShiftedIncreasing(tail, first);
    idx := (if first then [0] else []) + Shifted(tail);
    assert Captured(protected, table) == head + Captured(protected, table[1..]);
    forall k | 0 <= k < |idx|
      ensures 0 <= idx[k] < |table| && table[idx[k]].name.Some? && Eligible(protected, table[idx[k]])
      ensures Captured(protected, table)[k] == AppOf(table[idx[k]])
    {
      if k < lead {
        assert idx[k] == 0 && Captured(protected, table)[k] == head[k];
      } else {
        ShiftedAt(protected, table, tail, k - lead);
        assert idx[k] == Shifted(tail)[k - lead];
        assert Captured(protected, table)[k] == Captured(protected, table[1..])[k - lead];
      }
    }
  }

  /** The k-th position of the tail's selection, seen from the whole table. */
  lemma ShiftedAt(protected: set<string>, table: seq<Listing>, tail: seq<int>, k: int)
    requires table != [] && Selection(protected, table[1..], tail) && 0 <= k < |tail|
    ensures 0 <= Shifted(tail)[k] < |table|
    ensures table[Shifted(tail)[k]].name.Some? && Eligible(protected, table[Shifted(tail)[k]])
    ensures AppOf(table[Shifted(tail)[k]]) == Captured(protected, table[1..])[k]
  {
    assert table[tail[k] + 1] == table[1..][tail[k]];
  }

  /** Conversely, as long as no earlier listing lacks a name, every eligible
      listing is captured. */
  lemma {:induction false} CaptureComplete(protected: set<string>, table: seq<Listing>, i: int)
    requires 0 <= i < |table|
    requires NamedBefore(table, i + 1)
    requires Eligible(protected, table[i])
    ensures AppOf(table[i]) in Captured(protected, table)
  {
    if i > 0 {
      assert table[1..][i - 1] == table[i];
      CaptureComplete(protected, table[1..], i - 1);
    }
  }

  /** A table is named throughout exactly when its head is named and its
      tail is named throughout. */
  lemma NamedBeforeTail(a: seq<Listing>)
    requires a != [] && a[0].name.Some?
    ensures NamedBefore(a, |a|) <==> NamedBefore(a[1..], |a| - 1)
  {
    if NamedBefore(a[1..], |a| - 1) {
      forall k | 0 <= k < |a| ensures a[k].name.Some? {
        if k > 0 { assert a[1..][k - 1] == a[k]; }
      }
    }
    if NamedBefore(a, |a|) {
      forall k | 0 <= k < |a| - 1 ensures a[1..][k].name.Some? {
        assert a[1..][k] == a[k + 1];
      }
    }
  }

  /** Skipped listings (system processes, no path, vanished) never stop the
      pass: capturing two tables one after the other gives both captures,
      unless the first holds a nameless listing, which ends the pass. */
  lemma {:induction false} CaptureConcat(protected: set<string>, a: seq<Listing>, b: seq<Listing>)
    ensures Captured(protected, a + b) == if NamedBefore(a, |a|) then Captured(protected, a) + Captured(protected, b) else Captured(protected, a)
  {
    if a == [] {
      assert a + b == b;
    } else {
      assert (a + b)[0] == a[0];
      assert (a + b)[1..] == a[1..] + b;
      CaptureConcat(protected, a[1..], b);
      if a[0].name.None? {
        assert !NamedBefore(a, |a|);
      } else {
        var head := if Eligible(protected, a[0]) then [AppOf(a[0])] else [];
        assert Captured(protected, a + b) == head + Captured(protected, a[1..] + b);
        assert Captured(protected, a) == head + Captured(protected, a[1..]);
        NamedBeforeTail(a);
        assert head + (Captured(protected, a[1..]) + Captured(protected, b)) == (head + Captured(protected, a[1..])) + Captured(protected, b);
      }
    }
  }

  /** A nameless listing between two eligible ones loses the second. */
  lemma NamelessEndsCapture(protected: set<string>, first: Listing, nameless: Listing, later: Listing)
    requires first.name.Some? && Eligible(protected, first)
    requires nameless.name.None?
    requires later.name.Some? && Eligible(protected, later)
    ensures Captured(protected, [first, nameless, later]) == [AppOf(first)]
  {
    assert [first, nameless, later][1..] == [nameless, later];
  }

  // ---------------------------------------------------------------------
  // Session names from the clock: strftime("%Y%m%d_%H%M%S")

  /** A reading of `datetime.now()`. */
  datatype DateTime = DateTime(year: int, month: int, day: int, hour: int, minute: int, second: int)

  predicate ValidDateTime(t: DateTime)
  {
    && 1 <= t.year <= 9999 && 1 <= t.month <= 12 && 1 <= t.day <= 31
    && 0 <= t.hour <= 23 && 0 <= t.minute <= 59 && 0 <= t.second <= 59
  }

  /** Chronological order of two clock readings. */
  predicate Earlier(t1: DateTime, t2: DateTime)
  {
    || t1.year < t2.year
    || (t1.year == t2.year && t1.month < t2.month)
    || (t1.year == t2.year && t1.month == t2.month && t1.day < t2.day)
    || (t1.year == t2.year && t1.month == t2.month && t1.day == t2.day && t1.hour < t2.hour)
    || (t1.year == t2.year && t1.month == t2.month && t1.day == t2.day && t1.hour == t2.hour
        && t1.minute < t2.minute)
    || (t1.year == t2.year && t1.month == t2.month && t1.day == t2.day && t1.hour == t2.hour
        && t1.minute == t2.minute && t1.second < t2.second)
  }

  predicate IsDigit(c: char)
  {
    '0' <= c <= '9'
  }

  function Digit(d: int): (c: char)
    requires 0 <= d <= 9
    ensures IsDigit(c)
  {
    ('0' as int + d) as char
  }

  /** A number below 100 as two digits, zero padded. */
  function Pad2(n: int): (s: string)
    requires 0 <= n <= 99
    ensures |s| == 2 && IsDigit(s[0]) && IsDigit(s[1])
  {
    [Digit(n / 10), Digit(n % 10)]
  }

  /** A year as four digits, zero padded. */
  function Pad4(n: int): (s: string)
    requires 0 <= n <= 9999
    ensures |s| == 4 && forall i :: 0 <= i < 4 ==> IsDigit(s[i])
  {
    Pad2(n / 100) + Pad2(n % 100)
  }

  /** `strftime("%Y%m%d_%H%M%S")`: fifteen characters, digits everywhere
      except the underscore at position 8. */
  function FormatStamp(t: DateTime): (s: string)
    requires ValidDateTime(t)
    ensures |s| == 15 && s[8] == '_'
    ensures forall i :: 0 <= i < 15 && i != 8 ==> IsDigit(s[i])
  {
    Pad4(t.year) + (Pad2(t.month) + (Pad2(t.day) + ("_" + (Pad2(t.hour) + (Pad2(t.minute) + Pad2(t.second))))))
  }

  lemma Pad2Order(x: int, y: int)
    requires 0 <= x <= 99 && 0 <= y <= 99
    ensures Below(Pad2(x), Pad2(y)) <==> x < y
    ensures Pad2(x) == Pad2(y) <==> x == y
  {
    assert Pad2(x) == [Digit(x / 10)] + [Digit(x % 10)];
    assert Pad2(y) == [Digit(y / 10)] + [Digit(y % 10)];
    BelowConcat([Digit(x / 10)], [Digit(x % 10)], [Digit(y / 10)], [Digit(y % 10)]);
    assert x == 10 * (x / 10) + x % 10;
    assert y == 10 * (y / 10) + y % 10;
  }

  lemma Pad4Order(x: int, y: int)
    requires 0 <= x <= 9999 && 0 <= y <= 9999
    ensures Below(Pad4(x), Pad4(y)) <==> x < y
    ensures Pad4(x) == Pad4(y) <==> x == y
  {
    BelowConcat(Pad2(x / 100), Pad2(x % 100), Pad2(y / 100), Pad2(y % 100));
    Pad2Order(x / 100, y / 100);
    Pad2Order(x % 100, y % 100);
    assert x == 100 * (x / 100) + x % 100;
    assert y == 100 * (y / 100) + y % 100;
    if Pad4(x) == Pad4(y) {
      assert Pad4(x)[..2] == Pad2(x / 100) && Pad4(y)[..2] == Pad2(y / 100);
      assert Pad4(x)[2..] == Pad2(x % 100) && Pad4(y)[2..] == Pad2(y % 100);
    }
  }

  /** Equal-length blocks are equal exactly when both halves are. */
  lemma ConcatEq(a1: string, b1: string, a2: string, b2: string)
    requires |a1| == |a2|
    ensures a1 + b1 == a2 + b2 <==> a1 == a2 && b1 == b2
  {
    if a1 + b1 == a2 + b2 {
      assert (a1 + b1)[..|a1|] == a1 && (a2 + b2)[..|a2|] == a2;
      assert (a1 + b1)[|a1|..] == b1 && (a2 + b2)[|a2|..] == b2;
    }
  }

  /** Timestamp names sort like the times they name: comparing two names as
      strings is comparing the clock readings, so a descending list of names
      puts the newest first, and two different seconds never share a name. */
  lemma StampOrder(t1: DateTime, t2: DateTime)
    requires ValidDateTime(t1) && ValidDateTime(t2)
    ensures Below(FormatStamp(t1), FormatStamp(t2)) <==> Earlier(t1, t2)
    ensures FormatStamp(t1) == FormatStamp(t2) <==> t1 == t2
  {
    var s1 := Pad2(t1.minute) + Pad2(t1.second);
    var s2 := Pad2(t2.minute) + Pad2(t2.second);
    BelowConcat(Pad2(t1.minute), Pad2(t1.second), Pad2(t2.minute), Pad2(t2.second));
    ConcatEq(Pad2(t1.minute), Pad2(t1.second), Pad2(t2.minute), Pad2(t2.second));
    Pad2Order(t1.minute, t2.minute);
    Pad2Order(t1.second, t2.second);
    var h1 := Pad2(t1.hour) + s1;
    var h2 := Pad2(t2.hour) + s2;
    BelowConcat(Pad2(t1.hour), s1, Pad2(t2.hour), s2);
    ConcatEq(Pad2(t1.hour), s1, Pad2(t2.hour), s2);
    Pad2Order(t1.hour, t2.hour);
    var u1 := "_" + h1;
    var u2 := "_" + h2;
    BelowConcat("_", h1, "_", h2);
    ConcatEq("_", h1, "_", h2);
    BelowIrreflexive("_");
    var d1 := Pad2(t1.day) + u1;
    var d2 := Pad2(t2.day) + u2;
    BelowConcat(Pad2(t1.day), u1, Pad2(t2.day), u2);
    ConcatEq(Pad2(t1.day), u1, Pad2(t2.day), u2);
    Pad2Order(t1.day, t2.day);
    var m1 := Pad2(t1.month) + d1;
    var m2 := Pad2(t2.month) + d2;
    BelowConcat(Pad2(t1.month), d1, Pad2(t2.month), d2);
    ConcatEq(Pad2(t1.month), d1, Pad2(t2.month), d2);
    Pad2Order(t1.month, t2.month);
    BelowConcat(Pad4(t1.year), m1, Pad4(t2.year), m2);
    ConcatEq(Pad4(t1.year), m1, Pad4(t2.year), m2);
    Pad4Order(t1.year, t2.year);
  }

  /** The session name `save_session` uses: the one given, unless it is
      missing or empty, in which case the timestamp of the clock reading. */
  function ChosenName(given: Option<string>, clock: DateTime): (name: string)
    requires ValidDateTime(clock)
    ensures name != ""
    ensures given.Some? && given.value != "" ==> name == given.value
    ensures (given.None? || given.value == "") ==> name == FormatStamp(clock) && |name| == 15 && name[8] == '_'
  {
    if given.None? || given.value == "" then FormatStamp(clock) else given.value
  }

  // ---------------------------------------------------------------------
  // The sessions directory

  /** The content of one session file. */
  datatype Session = Session(name: string, timestamp: DateTime, apps: seq<App>)

  /** A file in the sessions directory: a session document, a JSON document
      without an `apps` entry, or content that cannot be read or parsed. */
  datatype Stored = Document(session: Session) | WithoutApps | Unreadable

  const Extension: string := ".json"

  /** The file name of a session: `f"{session_name}.json"`. */
  function FileName(name: string): (f: string)
    ensures EndsWith(f, Extension) && |f| == |name| + 5
  {
    name + Extension
  }

  /** `f[:-5]` for a file name ending in `.json`. */
  function Stem(f: string): (name: string)
    requires EndsWith(f, Extension)
    ensures FileName(name) == f
  {
    f[..|f| - 5]
  }

  lemma StemOfFileName(name: string)
    ensures Stem(FileName(name)) == name
  {
    assert FileName(name)[..|name|] == name;
  }

  /** `os.path.join(directory, file)` for a relative file name: the
      directory, a '/' unless it is empty or already ends in one, then the
      file name. */
  function JoinPath(directory: string, file: string): (path: string)
    ensures |directory| <= |path| && path[..|directory|] == directory
    ensures EndsWith(path, file)
    ensures var sep := |path| - |directory| - |file|;
            if directory == [] || directory[|directory| - 1] == '/' then sep == 0
            else sep == 1 && path[|directory|] == '/'
  {
    var path := if directory == [] || directory[|directory| - 1] == '/' then directory + file
                else directory + "/" + file;
    assert path[|path| - |file|..] == file;
    path
  }

  /** What `load_session(name)` returns for a directory: the stored apps, or
      `[]` when the file is missing, unreadable or has no `apps` entry. */
  function LoadFrom(files: map<string, Stored>, name: string): (apps: seq<App>)
    ensures FileName(name) !in files ==> apps == []
    ensures FileName(name) in files && !files[FileName(name)].Document? ==> apps == []
  {
    var f := FileName(name);
    if f in files && files[f].Document? then files[f].session.apps else []
  }

  /** Two sessions with different names never share a file. */
  lemma FileNameInjective(n: string, m: string)
    ensures FileName(n) == FileName(m) ==> n == m
  {
    if FileName(n) == FileName(m) {
      StemOfFileName(n);
      StemOfFileName(m);
    }
  }

  /** Round trip: loading a session just written gives back its apps, same
      records, same order. */
  lemma LoadAfterSave(files: map<string, Stored>, s: Session)
    ensures LoadFrom(files[FileName(s.name) := Document(s)], s.name) == s.apps
  {
  }

  /** Writing one session leaves every other session as it was. */
  lemma SaveKeepsOthers(files: map<string, Stored>, s: Session, other: string)
    requires other != s.name
    ensures LoadFrom(files[FileName(s.name) := Document(s)], other) == LoadFrom(files, other)
  {
    FileNameInjective(other, s.name);
  }

  /** `[f[:-5] for f in listing if f.endswith('.json')]`. */
  function Stems(listing: seq<string>): seq<string>
  {
    if listing == [] then []
    else (if EndsWith(listing[0], Extension) then [Stem(listing[0])] else []) + Stems(listing[1..])
  }

  lemma {:induction false} StemsMembership(listing: seq<string>, name: string)
    ensures name in Stems(listing) <==> FileName(name) in listing
  {
    if listing != [] {
      StemsMembership(listing[1..], name);
      assert listing == [listing[0]] + listing[1..];
      if EndsWith(listing[0], Extension) {
        FileNameInjective(name, Stem(listing[0]));
      }
    }
  }

  /** Each session name is stripped from its own file, as often as that file
      is listed and from no other file. */
  lemma {:induction false} StemsCount(listing: seq<string>, name: string)
    ensures multiset(Stems(listing))[name] == multiset(listing)[FileName(name)]
  {
    if listing != [] {
      StemsCount(listing[1..], name);
      assert listing == [listing[0]] + listing[1..];
      assert multiset(listing) == multiset{listing[0]} + multiset(listing[1..]);
      if EndsWith(listing[0], Extension) {
        FileNameInjective(name, Stem(listing[0]));
        assert multiset(Stems(listing)) == multiset{Stem(listing[0])} + multiset(Stems(listing[1..]));
      } else {
        assert Stems(listing) == Stems(listing[1..]);
      }
    }
  }

  /** A directory listing names each file once, so each session is listed
      once. */
  lemma ListedOnce(listing: seq<string>)
    requires Distinct(listing)
    ensures Distinct(ListSessionNames(listing))
  {
    DistinctIffSingle(listing);
    forall n ensures multiset(ListSessionNames(listing))[n] <= 1 {
      StemsCount(listing, n);
    }
    DistinctIffSingle(ListSessionNames(listing));
  }

  /** `list_sessions` on a directory listing: the names of the `.json` files,
      without the extension, newest (largest) first. */
  function ListSessionNames(listing: seq<string>): (names: seq<string>)
    ensures Descending(names)
    ensures multiset(names) == multiset(Stems(listing))
    ensures forall n :: n in names <==> FileName(n) in listing
  {
    var names := SortDescending(Stems(listing));
    assert forall n :: n in names <==> n in Stems(listing) by {
      forall n ensures n in names <==> n in Stems(listing) {
        assert n in names <==> n in multiset(names);
      }
    }
    forall n ensures n in names <==> FileName(n) in listing {
      StemsMembership(listing, n);
    }
    names
  }

  /** Sessions named by the clock come out of the listing newest first. */
  lemma NewestFirst(listing: seq<string>, i: int, j: int, t1: DateTime, t2: DateTime)
    requires ValidDateTime(t1) && ValidDateTime(t2)
    requires 0 <= i < j < |ListSessionNames(listing)|
    requires ListSessionNames(listing)[i] == FormatStamp(t1)
    requires ListSessionNames(listing)[j] == FormatStamp(t2)
    ensures !Earlier(t1, t2)
  {
    StampOrder(t1, t2);
    BelowTotal(FormatStamp(t1), FormatStamp(t2));
    BelowAsymmetric(FormatStamp(t1), FormatStamp(t2));
  }

  /** Two sessions named by the clock list newest first, whatever order the
      directory yields them in. */
  lemma TwoStampedSessions(t1: DateTime, t2: DateTime)
    requires ValidDateTime(t1) && ValidDateTime(t2) && Earlier(t1, t2)
    ensures ListSessionNames([FileName(FormatStamp(t1)), FileName(FormatStamp(t2))]) == [FormatStamp(t2), FormatStamp(t1)]
    ensures ListSessionNames([FileName(FormatStamp(t2)), FileName(FormatStamp(t1))]) == [FormatStamp(t2), FormatStamp(t1)]
  {
    var s1, s2 := FormatStamp(t1), FormatStamp(t2);
    StemOfFileName(s1);
    StemOfFileName(s2);
    StampOrder(t1, t2);
    BelowAsymmetric(s1, s2);
    assert Stems([FileName(s1)]) == [s1] by {
      assert [FileName(s1)][1..] == [];
    }
    assert Stems([FileName(s2)]) == [s2] by {
      assert [FileName(s2)][1..] == [];
    }
    assert Stems([FileName(s1), FileName(s2)]) == [s1, s2] by {
      assert [FileName(s1), FileName(s2)][1..] == [FileName(s2)];
    }
    assert Stems([FileName(s2), FileName(s1)]) == [s2, s1] by {
      assert [FileName(s2), FileName(s1)][1..] == [FileName(s1)];
    }
    assert [s1, s2][1..] == [s2] && [s2][1..] == [];
    assert [s2, s1][1..] == [s1] && [s1][1..] == [];
    assert SortDescending([s2]) == [s2];
    assert SortDescending([s1]) == [s1];
    assert Insert(s1, [s2]) == [s2, s1] by {
      assert [s2][1..] == [];
    }
  }

  /** The listing of a directory holding the sessions of 1 January and
      1 June 2024. */
  lemma ListingExample(listing: seq<string>)
    requires listing == ["20240101_000000.json", "20240601_000000.json"]
    ensures ListSessionNames(listing) == ["20240601_000000", "20240101_000000"]
  {
    var jan, jun := DateTime(2024, 1, 1, 0, 0, 0), DateTime(2024, 6, 1, 0, 0, 0);
    MidnightStamps(jan, jun);
    assert FileName("20240101_000000") == "20240101_000000.json";
    assert FileName("20240601_000000") == "20240601_000000.json";
    assert listing == [FileName(FormatStamp(jan)), FileName(FormatStamp(jun))];
    TwoStampedSessions(jan, jun);
  }

  /** The names the clock gives at midnight on 1 January and 1 June 2024. */
  lemma MidnightStamps(jan: DateTime, jun: DateTime)
    requires jan == DateTime(2024, 1, 1, 0, 0, 0) && jun == DateTime(2024, 6, 1, 0, 0, 0)
    ensures FormatStamp(jan) == "20240101_000000" && FormatStamp(jun) == "20240601_000000"
  {
    assert Pad4(2024) == "2024" by {
      assert Pad2(20) == "20" && Pad2(24) == "24";
    }
    assert Pad2(0) == "00" && Pad2(1) == "01" && Pad2(6) == "06";
  }

  /** The session store over its directory. */
  class SessionManager {
    const sessionsDir: string
    /** The files of the sessions directory, by file name. */
    var files: map<string, Stored>

    /** Opens the store over a directory and the files it already holds
        (none when `__init__` has to create it). */
    constructor (sessionsDir: string, existing: map<string, Stored>)
      ensures this.sessionsDir == sessionsDir && files == existing
    {
      this.sessionsDir := sessionsDir;
      files := existing;
    }

    /** `save_session`: names the session (from the clock if no name is
        given), captures the running apps and writes the session file. Returns
        the file's path, or `None` if the write fails, leaving the directory
        unchanged. */
    method SaveSession(sessionName: Option<string>, clock: DateTime, savedAt: DateTime,
                       table: seq<Listing>, writable: bool)
      returns (path: Option<string>)
      requires ValidDateTime(clock)
      modifies this
      ensures var name := ChosenName(sessionName, clock);
              && path == (if writable then Some(JoinPath(sessionsDir, FileName(name))) else None)
              && files == (if writable then old(files)[FileName(name) := Document(Session(name, savedAt, Captured(CaptureProtected, table)))]
                           else old(files))
    {
      var name := if sessionName.None? || sessionName.value == "" then FormatStamp(clock) else sessionName.value;
      var apps := GetRunningApps(table);
      var data := Session(name, savedAt, apps);
      var filepath := JoinPath(sessionsDir, FileName(name));
      if writable {
        files := files[FileName(name) := Document(data)];
        path := Some(filepath);
      } else {
        path := None;
      }
    }

    /** `load_session`: the apps of the named session, or `[]` on failure. */
    method LoadSession(name: string) returns (apps: seq<App>)
      ensures apps == LoadFrom(files, name)
    {
      var filepath := FileName(name);
      if filepath in files && files[filepath].Document? {
        apps := files[filepath].session.apps;
      } else {
        apps := [];
      }
    }

    /** `list_sessions`: reads the directory (in whatever order it yields its
        entries) and returns the session names in descending order, or `[]`
        when the directory cannot be read. */
    method ListSessions(readable: bool) returns (names: seq<string>)
      ensures !readable ==> names == []
      ensures readable ==> Descending(names) && Distinct(names)
      ensures readable ==> forall n :: n in names <==> FileName(n) in files
    {
      if !readable {
        return [];
      }
      var listing: seq<string> := [];
      var rest := files.Keys;
      while rest != {}
        invariant forall f :: f in files <==> f in listing || f in rest
        invariant forall f :: f in listing ==> f !in rest
        invariant Distinct(listing)
        decreases rest
      {
        var f :| f in rest;
        listing := listing + [f];
        rest := rest - {f};
      }
      names := ListSessionNames(listing);
      ListedOnce(listing);
    }
  }
}
