/** Publication of the governor's status as small files in the control directory.

    Every file operation takes its outcome from an oracle indexed by the number of
    operations made so far, and the directory remembers its content after each one:
    a crash can expose any of these snapshots and nothing else. */
module Status {
  import opened Cards
  import opened Decimal
  import Settings

  type Files = map<string, string>

  /** `written` says how much of a failing write reached the file, `missing` whether a
      failing operation reports "no such file", `hex` is the random part of a name. */
  datatype FsReply = FsReply(ok: bool, missing: bool, hex: string, written: nat)

  type FsOracle = nat -> FsReply

  datatype Dir = Dir(present: bool, files: Files, trace: seq<Files>)

  datatype FsResult = Good | NotExist | Broken

  const ACTIVE_PROFILE := "active-profile"
  const ACTIVE_FAN := "active-fan-percent"
  const LAST_ERROR := "last-error"

  function TempName(name: string, hex: string): string {
    "." + name + "-" + hex + ".tmp"
  }

  /** The files other programs read: everything but dot files. */
  function Published(files: Files): Files {
    map n | n in files && !(|n| > 0 && n[0] == '.') :: files[n]
  }

  /** A name without a leading dot is published as it stands. */
  lemma PublishedAt(files: Files, n: string)
    requires |n| > 0 && n[0] != '.'
    ensures n in files <==> n in Published(files)
    ensures n in files ==> Published(files)[n] == files[n]
  {
  }

  lemma NamesDiffer()
    ensures ACTIVE_PROFILE != ACTIVE_FAN && ACTIVE_PROFILE != LAST_ERROR && ACTIVE_FAN != LAST_ERROR
    ensures ACTIVE_PROFILE[0] != '.' && ACTIVE_FAN[0] != '.' && LAST_ERROR[0] != '.'
  {
    assert |ACTIVE_PROFILE| == 14 && |ACTIVE_FAN| == 18 && |LAST_ERROR| == 10;
  }

  /** Temporary files of different names, or with different random parts, never collide. */
  lemma TempNamesDiffer(a: string, h: string, b: string, k: string)
    requires '-' !in h && '-' !in k && |h| == |k|
    ensures TempName(a, h) == TempName(b, k) <==> a == b && h == k
    ensures |TempName(a, h)| == |a| + |h| + 6 && TempName(a, h)[0] == '.'
  {
    if TempName(a, h) == TempName(b, k) {
      assert |a| == |b|;
      assert TempName(a, h)[1..|a| + 1] == a && TempName(b, k)[1..|b| + 1] == b;
      assert TempName(a, h)[|a| + 2..|a| + 2 + |h|] == h && TempName(b, k)[|b| + 2..|b| + 2 + |k|] == k;
    }
  }

  // ----- single file operations -----

  function Reply(env: FsOracle, d: Dir): FsReply {
    env(|d.trace|)
  }

  function Changed(d: Dir, files: Files): Dir {
    d.(files := files, trace := d.trace + [files])
  }

  /** The error a failing operation reports. */
  function Failure(r: FsReply): FsResult {
    if r.missing then NotExist else Broken
  }

  /** Opening the directory reports "no such file" only when there is no directory. */
  function Open(env: FsOracle, d: Dir): (Dir, FsResult) {
    (Changed(d, d.files), if !d.present then NotExist else if Reply(env, d).ok then Good else Broken)
  }

  /** An operation without visible effect: drawing random bytes, sync, close. */
  function Plain(env: FsOracle, d: Dir): (Dir, FsResult) {
    (Changed(d, d.files), if Reply(env, d).ok then Good else Broken)
  }

  /** Exclusive creation: an existing file is never opened. */
  function Create(env: FsOracle, d: Dir, name: string): (Dir, FsResult) {
    if name in d.files || !Reply(env, d).ok then (Changed(d, d.files), Broken)
    else (Changed(d, d.files[name := ""]), Good)
  }

  function Write(env: FsOracle, d: Dir, name: string, content: string): (Dir, FsResult) {
    var r := Reply(env, d);
    if r.ok then (Changed(d, d.files[name := content]), Good)
    else
      var n := if r.written < |content| then r.written else |content|;
      (Changed(d, d.files[name := content[..n]]), Broken)
  }

  /** Renaming replaces the target in one step. It reports "no such file" when another
      program has taken the source away. */
  function Rename(env: FsOracle, d: Dir, from: string, to: string): (Dir, FsResult) {
    var r := Reply(env, d);
    if r.ok && from in d.files then (Changed(d, (d.files - {from})[to := d.files[from]]), Good)
    else (Changed(d, if r.missing then d.files - {from} else d.files), Failure(r))
  }

  function Unlink(env: FsOracle, d: Dir, name: string): (Dir, FsResult) {
    var r := Reply(env, d);
    if name in d.files then
      if r.ok then (Changed(d, d.files - {name}), Good) else (Changed(d, d.files), Broken)
    else (Changed(d, d.files), if r.ok then NotExist else Failure(r))
  }

  // ----- the writer -----

  /** The steps between creation and the deferred removal of the temporary file. */
  function FillAndRename(env: FsOracle, d: Dir, temporary: string, name: string, content: string): (Dir, FsResult) {
    var (d1, r1) := Write(env, d, temporary, content);
    if r1 != Good then (d1, r1) else
    var (d2, r2) := Plain(env, d1);
    if r2 != Good then (d2, r2) else
    var (d3, r3) := Plain(env, d2);
    if r3 != Good then (d3, r3) else
    Rename(env, d3, temporary, name)
  }

  function WriteAtomic(env: FsOracle, d: Dir, name: string, content: string): (Dir, FsResult) {
    var (d1, r1) := Open(env, d);
    if r1 != Good then (d1, r1) else
    var temporary := TempName(name, Reply(env, d1).hex);
    var (d2, r2) := Plain(env, d1);
    if r2 != Good then (d2, r2) else
    var (d3, r3) := Create(env, d2, temporary);
    if r3 != Good then (d3, r3) else
    var (d4, r4) := FillAndRename(env, d3, temporary, name, content);
    (Unlink(env, d4, temporary).0, r4)
  }

  function Remove(env: FsOracle, d: Dir, name: string): (Dir, FsResult) {
    var (d1, r1) := Open(env, d);
    if r1 == NotExist then (d1, Good)
    else if r1 != Good then (d1, r1)
    else
      var (d2, r2) := Unlink(env, d1, name);
      (d2, if r2 == NotExist then Good else r2)
  }

  function Active(env: FsOracle, d: Dir, c: Control): (Dir, FsResult) {
    var (d1, r1) := WriteAtomic(env, d, ACTIVE_PROFILE, c.profile + "\n");
    if r1 != Good then (d1, r1) else
    var (d2, r2) := WriteAtomic(env, d1, ACTIVE_FAN, Print(c.idleFanPercent) + "\n");
    if r2 != Good then (d2, r2) else
    Remove(env, d2, LAST_ERROR)
  }

  function Inactive(env: FsOracle, d: Dir): (Dir, FsResult) {
    var (d1, r1) := Remove(env, d, ACTIVE_PROFILE);
    if r1 != Good then (d1, r1) else Remove(env, d1, ACTIVE_FAN)
  }

  /** The line that reports an error: its text without surrounding white space, cut short. */
  function ErrorLine(message: string): (line: string)
    ensures 1 <= |line| <= 1001
  {
    var text := Settings.Trim(message);
    (if |text| > 1000 then text[..1000] else text) + "\n"
  }

  /** A message is shown without its outer white space, in full if it has at most 1000
      characters and otherwise up to there. */
  lemma ErrorLineShows(before: string, core: string, after: string)
    requires Settings.AllSpace(before) && Settings.AllSpace(after)
    requires core != "" && !Settings.IsSpace(core[0]) && !Settings.IsSpace(core[|core| - 1])
    ensures |core| <= 1000 ==> ErrorLine(before + core + after) == core + "\n"
    ensures |core| > 1000 ==> ErrorLine(before + core + after) == core[..1000] + "\n"
  {
    hide Settings.Trim;
    Settings.TrimPads(before, core, after);
  }

  function Error(env: FsOracle, d: Dir, message: string): Dir {
    var d1 := Inactive(env, d).0;
    WriteAtomic(env, d1, LAST_ERROR, ErrorLine(message)).0
  }

  // ----- what the writer guarantees -----

  /** `d'` follows `d`; every snapshot in between shows readers either the old files
      or, in full, the files `target`. */
  ghost predicate ShowsOnly(d: Dir, d': Dir, target: Files) {
    && d.trace <= d'.trace
    && d'.present == d.present
    && forall k :: |d.trace| <= k < |d'.trace| ==>
         Published(d'.trace[k]) == Published(d.files) || Published(d'.trace[k]) == target
  }

  /** One more operation, whose result readers see as the old files or as `target`. */
  lemma ShowsStep(d: Dir, d1: Dir, files: Files, target: Files)
    requires ShowsOnly(d, d1, target)
    requires Published(files) == Published(d.files) || Published(files) == target
    ensures ShowsOnly(d, Changed(d1, files), target)
  {
  }

  lemma ShowsRefl(d: Dir, target: Files)
    ensures ShowsOnly(d, d, target)
  {
  }

  lemma ShowsTrans(d: Dir, d1: Dir, d2: Dir, target: Files)
    requires ShowsOnly(d, d1, target) && ShowsOnly(d1, d2, target)
    requires Published(d1.files) == Published(d.files)
    ensures ShowsOnly(d, d2, target)
  {
    forall k | |d.trace| <= k < |d2.trace|
      ensures Published(d2.trace[k]) == Published(d.files) || Published(d2.trace[k]) == target
    {
      if k < |d1.trace| { assert d2.trace[k] == d1.trace[k]; }
    }
  }

  lemma TempIsHidden(files: Files, temporary: string, content: string)
    requires |temporary| > 0 && temporary[0] == '.'
    ensures Published(files[temporary := content]) == Published(files)
    ensures Published(files - {temporary}) == Published(files)
  {
  }

  lemma RenamePublishes(files: Files, temporary: string, name: string)
    requires |temporary| > 0 && temporary[0] == '.' && temporary in files
    requires |name| > 0 && name[0] != '.'
    ensures Published((files - {temporary})[name := files[temporary]]) == Published(files)[name := files[temporary]]
  {
  }

  lemma FillAndRenameShows(env: FsOracle, d: Dir, temporary: string, name: string, content: string)
    requires |temporary| > 0 && temporary[0] == '.'
    requires |name| > 0 && name[0] != '.'
    ensures var (d', r) := FillAndRename(env, d, temporary, name, content);
            && ShowsOnly(d, d', Published(d.files)[name := content])
            && Published(d'.files) == (if r.Good? then Published(d.files)[name := content] else Published(d.files))
  {
    hide Published, ShowsOnly;
    var target := Published(d.files)[name := content];
    var d1 := Write(env, d, temporary, content).0;
    var d2 := Plain(env, d1).0;
    var d3 := Plain(env, d2).0;
    TempIsHidden(d.files, temporary, d1.files[temporary]);
    assert d1.files == d.files[temporary := d1.files[temporary]];
    ShowsRefl(d, target);
    ShowsStep(d, d, d1.files, target);
    ShowsStep(d, d1, d1.files, target);
    ShowsStep(d, d2, d1.files, target);
    if d1.files[temporary] == content {
      RenamePublishes(d1.files, temporary, name);
      ShowsStep(d, d3, (d3.files - {temporary})[name := d3.files[temporary]], target);
    }
    ShowsStep(d, d3, d1.files, target);
    TempIsHidden(d1.files, temporary, "");
    ShowsStep(d, d3, d1.files - {temporary}, target);
  }

  /** From the creation of the temporary file to its removal. */
  lemma CreatedShows(env: FsOracle, d: Dir, temporary: string, name: string, content: string)
    requires |temporary| > 0 && temporary[0] == '.'
    requires |name| > 0 && name[0] != '.'
    requires Create(env, d, temporary).1.Good?
    ensures var (d4, r) := FillAndRename(env, Create(env, d, temporary).0, temporary, name, content);
            var d' := Unlink(env, d4, temporary).0;
            && ShowsOnly(d, d', Published(d.files)[name := content])
            && Published(d'.files) == (if r.Good? then Published(d.files)[name := content] else Published(d.files))
  {
    hide Published, ShowsOnly, FillAndRename;
    var target := Published(d.files)[name := content];
    ShowsRefl(d, target);
    var d3 := Create(env, d, temporary).0;
    var (d4, r) := FillAndRename(env, d3, temporary, name, content);
    TempIsHidden(d.files, temporary, "");
    ShowsStep(d, d, d.files[temporary := ""], target);
    FillAndRenameShows(env, d3, temporary, name, content);
    ShowsTrans(d, d3, d4, target);
    TempIsHidden(d4.files, temporary, "");
    ShowsStep(d, d4, Unlink(env, d4, temporary).0.files, target);
  }

  /** A crash between any two steps of an atomic write shows readers the old content or
      the whole new content; the new content is there at the end exactly if the write
      reported success. */
  lemma WriteAtomicShows(env: FsOracle, d: Dir, name: string, content: string)
    requires |name| > 0 && name[0] != '.'
    ensures var (d', r) := WriteAtomic(env, d, name, content);
            && ShowsOnly(d, d', Published(d.files)[name := content])
            && Published(d'.files) == (if r.Good? then Published(d.files)[name := content] else Published(d.files))
  {
    var d1 := Open(env, d).0;
    var d2 := Plain(env, d1).0;
    var temporary := TempName(name, Reply(env, d1).hex);
    if Create(env, d2, temporary).1.Good? {
      CreatedShows(env, d2, temporary, name, content);
    }
  }

  /** All steps of an atomic write up to the renaming work, and then another program has
      taken the temporary file away. */
  ghost predicate TakenAway(env: FsOracle, d: Dir, name: string) {
    var n := |d.trace|;
    && (forall k :: n <= k < n + 6 ==> env(k).ok) && TempName(name, env(n + 1).hex) !in d.files
    && !env(n + 6).ok && env(n + 6).missing
  }

  /** In a directory that exists, this is exactly when a write reports "no such file". */
  lemma WriteMissingIff(env: FsOracle, d: Dir, name: string, content: string)
    requires d.present
    ensures WriteAtomic(env, d, name, content).1.NotExist? <==> TakenAway(env, d, name)
  {
    var n := |d.trace|;
    var d1 := Open(env, d).0;
    var d2 := Plain(env, d1).0;
    var temporary := TempName(name, Reply(env, d1).hex);
    var d3 := Create(env, d2, temporary).0;
    var d4 := Write(env, d3, temporary, content).0;
    var d5 := Plain(env, d4).0;
    var d6 := Plain(env, d5).0;
    assert |d1.trace| == n + 1 && |d2.trace| == n + 2 && |d3.trace| == n + 3;
    assert |d4.trace| == n + 4 && |d5.trace| == n + 5 && |d6.trace| == n + 6;
  }

  /** A removal that reports success leaves no such file, provided the directory exists;
      one that fails changes nothing. */
  lemma RemoveShows(env: FsOracle, d: Dir, name: string)
    requires |name| > 0 && name[0] != '.'
    ensures var (d', r) := Remove(env, d, name);
            && ShowsOnly(d, d', Published(d.files) - {name})
            && Published(d'.files) == (if r.Good? && d.present then Published(d.files) - {name} else Published(d.files))
  {
    assert Published(d.files - {name}) == Published(d.files) - {name};
    if name !in d.files { assert Published(d.files) - {name} == Published(d.files); }
  }
}
